/** Inputs at which the storage misses what it is for: an interrupted rotation, an oversized record in a
    bulk write, and a crash in a Session's first append. */
module StorageLimits {
  import opened Wrappers
  import opened Frames
  import opened SegmentStore
  import opened SessionStorage
  import opened LogViews
  import opened Migration

  // ---------------------------------------------------------------- a codec to compute with

  function Unary(n: nat): Bytes {
    seq(n, _ => 1) + [0]
  }

  /** The three digits of a character to base 256. */
  function Digit(c: int, k: nat): Byte
    requires 0 <= c < 0x110000
  {
    if k == 0 then (c / 0x10000) as Byte else if k == 1 then (c / 0x100 % 0x100) as Byte else (c % 0x100) as Byte
  }

  function BodyBytes(body: string): (b: Bytes)
    ensures |b| == 3 * |body|
  {
    seq(3 * |body|, i requires 0 <= i < 3 * |body| => Digit(body[i / 3] as int, i % 3))
  }

  function SampleEncode(r: Record): (b: Bytes)
    ensures |b| == r.seqNo + r.session + 3 + 3 * |r.body|
  {
    Unary(r.seqNo) + (Unary(r.session) + ([if r.isMessage then 1 else 0] + BodyBytes(r.body)))
  }

  lemma UnaryIsPrefixFree(m: nat, x: Bytes, n: nat, y: Bytes)
    requires Unary(m) + x == Unary(n) + y
    ensures m == n && x == y
  {
    var a, b := Unary(m) + x, Unary(n) + y;
    assert a[m] == 0 && b[n] == 0;
    assert forall i | 0 <= i < m :: a[i] == 1;
    assert forall i | 0 <= i < n :: b[i] == 1;
    assert a[m + 1..] == x && b[n + 1..] == y;
  }

  lemma BodyIsInjective(a: string, b: string)
    requires BodyBytes(a) == BodyBytes(b)
    ensures a == b
  {
    assert |a| == |b|;
    forall i | 0 <= i < |a|
      ensures a[i] == b[i]
    {
      assert BodyBytes(a)[3 * i] == BodyBytes(b)[3 * i];
      assert BodyBytes(a)[3 * i + 1] == BodyBytes(b)[3 * i + 1];
      assert BodyBytes(a)[3 * i + 2] == BodyBytes(b)[3 * i + 2];
      SameDigits(a[i] as int, b[i] as int);
    }
  }

  lemma SameDigits(c: int, d: int)
    requires 0 <= c < 0x110000 && 0 <= d < 0x110000
    requires Digit(c, 0) == Digit(d, 0) && Digit(c, 1) == Digit(d, 1) && Digit(c, 2) == Digit(d, 2)
    ensures c == d
  {
  }

  lemma SampleIsInjective(a: Record, b: Record)
    requires SampleEncode(a) == SampleEncode(b)
    ensures a == b
  {
    var fa, fb := [if a.isMessage then 1 else 0] + BodyBytes(a.body), [if b.isMessage then 1 else 0] + BodyBytes(b.body);
    UnaryIsPrefixFree(a.seqNo, Unary(a.session) + fa, b.seqNo, Unary(b.session) + fb);
    UnaryIsPrefixFree(a.session, fa, b.session, fb);
    assert fa[0] == fb[0] && fa[1..] == BodyBytes(a.body) && fb[1..] == BodyBytes(b.body);
    BodyIsInjective(a.body, b.body);
  }

  ghost function SampleDecode(b: Bytes): Option<Record> {
    if exists r :: SampleEncode(r) == b then
      var r :| SampleEncode(r) == b;
      Some(r)
    else None
  }

  ghost function Sample(): Codec {
    Codec(SampleEncode, b => SampleDecode(b), b => 0)
  }

  lemma SampleIsLawful()
    ensures Lawful(Sample())
  {
    forall r
      ensures SampleDecode(SampleEncode(r)) == Some(r)
    {
      var d := SampleDecode(SampleEncode(r));
      assert d.Some? && SampleEncode(d.value) == SampleEncode(r);
      SampleIsInjective(d.value, r);
    }
  }

  /** A record whose payload is a little over three times the size of its body. */
  function Sized(seqNo: nat, size: nat): Record {
    Record(seqNo, 0, false, seq(size, _ => 'a'))
  }

  // ---------------------------------------------------------------- an interrupted rotation

  lemma FlatOfOne(chunk: seq<Record>)
    ensures Flat([chunk]) == chunk && [chunk][..0] == []
  {
    assert [chunk][..0] == [];
  }

  lemma FramesOfOne(c: Codec, r: Record)
    ensures FramesOf(c, [r]) == Frame(c, r)
  {
    assert FramesOf(c, []) == [];
  }

  lemma FourFrames(c: Codec, a: Record, b: Record, d: Record, e: Record)
    ensures |FramesOf(c, [a, b, d, e])| == |Frame(c, a)| + |Frame(c, b)| + |Frame(c, d)| + |Frame(c, e)|
  {
    assert [a, b, d, e] == [a] + ([b] + ([d] + [e]));
    FramesOfConcat(c, [a], [b] + ([d] + [e]));
    FramesOfConcat(c, [b], [d] + [e]);
    FramesOfConcat(c, [d], [e]);
    FramesOfOne(c, a);
    FramesOfOne(c, b);
    FramesOfOne(c, d);
    FramesOfOne(c, e);
  }

  /** Four records of fifteen million bytes fill a segment so far that a fifth opens a new one. When that
      append is cut after the write of the frame and before the index, the fast check returns an index
      that is not the rebuilt one. */
  lemma RotationIsMissed()
    ensures
      var c, chunk, batch := Sample(), [Sized(1, 5_000_000), Sized(2, 5_000_000), Sized(3, 5_000_000), Sized(4, 5_000_000)], [Sized(5, 5_000_000)];
      var files := [Segment(1, FramesOf(c, chunk))];
      var torn := Crashed(c, files, 5, batch, |FramesOf(c, batch)|);
      var stored := IndexOf(0, files, [chunk]);
      && Lawful(c) && Stored(c, 0, files, [chunk]) && AllEncodable(c, batch) && GapFree(0, batch, 5)
      && Rotates(files, |FramesOf(c, batch)|)
      && FastPath(torn, Some(stored))
      && stored != IndexOf(0, CutFiles(c, torn), ScannedChunks(c, torn))
  {
    hide FramesOf;
    hide SampleEncode;
    hide Flat;
    hide Scan;
    hide Frame;
    var c := Sample();
    var chunk, batch := [Sized(1, 5_000_000), Sized(2, 5_000_000), Sized(3, 5_000_000), Sized(4, 5_000_000)], [Sized(5, 5_000_000)];
    var files := [Segment(1, FramesOf(c, chunk))];
    SampleIsLawful();
    FlatOfOne(chunk);
    NothingFlat();
    FourFrames(c, chunk[0], chunk[1], chunk[2], chunk[3]);
    FramesOfOne(c, batch[0]);
    assert |SampleEncode(chunk[0])| == 15_000_004;
    assert |Frame(c, chunk[0])| == HEADER_SIZE + |c.encode(chunk[0])|;
    assert AllEncodable(c, chunk) && AllEncodable(c, batch);
    assert Holds(c, files[0], chunk, |Flat([chunk][..0])|);
    assert Stored(c, 0, files, [chunk]);
    assert Rotates(files, |FramesOf(c, batch)|);
    var torn := Crashed(c, files, 5, batch, |FramesOf(c, batch)|);
    FastPathAfterCrash(c, 0, files, [chunk], batch, |FramesOf(c, batch)|, torn, IndexOf(0, files, [chunk]),
      IndexOf(0, CutFiles(c, torn), ScannedChunks(c, torn)));
  }

  // ---------------------------------------------------------------- an oversized record

  lemma EightBytesAreWide()
    ensures 0x1_0000_0000 <= Pow256(8)
  {
    assert Pow256(4) == 256 * Pow256(3) && Pow256(5) == 256 * Pow256(4) && Pow256(6) == 256 * Pow256(5);
    assert Pow256(7) == 256 * Pow256(6);
  }

  /** The bulk writer takes a record of eighteen million bytes, and nothing of the log reads back. */
  lemma OversizedRecordIsLost()
    ensures
      var c, records := Sample(), [Sized(1, 6_000_000)];
      var files := [Segment(1, FramesOf(c, records))];
      && Lawful(c) && Split(c, records, files, [records])
      && Flat(ScannedChunks(c, files)) != records
  {
    hide FramesOf;
    hide SampleEncode;
    hide Flat;
    hide Scan;
    hide Pow256;
    var c, records := Sample(), [Sized(1, 6_000_000)];
    var files := [Segment(1, FramesOf(c, records))];
    SampleIsLawful();
    EightBytesAreWide();
    FlatOfOne(records);
    assert |SampleEncode(records[0])| == 18_000_004;
    assert Split(c, records, files, [records]);
    MigratedLogReadsBack(c, records, files, [records]);
    assert !Encodable(c, records[0]);
  }

  // ---------------------------------------------------------------- a crash in the first append

  lemma NoFilesStored(c: Codec, session: nat)
    ensures Stored(c, session, [], []) && Flat([]) == []
  {
  }

  /** However many bytes of a Session's first append reached the disk, it leaves a log without an index that
      holds the whole frames. */
  lemma FirstAppendCut(c: Codec, session: nat, batch: seq<Record>, cut: nat)
    requires Lawful(c) && AllEncodable(c, batch) && GapFree(session, batch, 1) && cut <= |FramesOf(c, batch)|
    ensures
      var torn := Crashed(c, [], 1, batch, cut);
      && OnDisk(c, session, torn, None, ScannedChunks(c, torn))
      && Flat(ScannedChunks(c, torn)) == batch[..WholeFrames(c, batch, cut)]
  {
    hide FramesOf;
    hide Scan;
    hide WholeFrames;
    hide Stored;
    hide GapFree;
    NoFilesStored(c, session);
    CrashRecovery(c, session, [], [], batch, cut, Crashed(c, [], 1, batch, cut));
    assert [] + batch[..WholeFrames(c, batch, cut)] == batch[..WholeFrames(c, batch, cut)];
  }

  lemma WholeBatch(c: Codec, batch: seq<Record>)
    ensures WholeFrames(c, batch, |FramesOf(c, batch)|) == |batch|
  {
    WholeFramesIsLargest(c, batch, |FramesOf(c, batch)|, |batch|);
    assert batch[..|batch|] == batch;
  }

  /** The first append of a Session wrote its segment and crashed before the index. The disk then holds one
      record and no index, startup leaves it so, the next operation numbers its first entry 1 again, and
      saving that entry writes nothing. */
  lemma FirstEntryIsLost(lost: Record)
    requires lost.seqNo == 1 && lost.session == 0
    ensures
      var c, record := Sample(), Sized(1, 0);
      var torn := Crashed(c, [], 1, [record], |FramesOf(c, [record])|);
      && Lawful(c) && OnDisk(c, 0, torn, None, ScannedChunks(c, torn))
      && Flat(ScannedChunks(c, torn)) == [record]
      && Pending([lost], |Flat(ScannedChunks(c, torn))|) == []
  {
    hide FramesOf;
    hide SampleEncode;
    hide Flat;
    hide Scan;
    hide Pending;
    hide OnDisk;
    var c, record := Sample(), Sized(1, 0);
    SampleIsLawful();
    assert |SampleEncode(record)| == 4;
    FirstAppendCut(c, 0, [record], |FramesOf(c, [record])|);
    WholeBatch(c, [record]);
    PendingBeyond(0, [lost], 1);
  }
}
