/** Binary frames of a SessionLog segment (src/kernel/storage.py): the `>8sQI` header, the scan loop
    that stops at the first torn frame, and what survives when an append is cut at any byte. */
module Frames {
  import opened Wrappers

  newtype Byte = x: int | 0 <= x < 256

  type Bytes = seq<Byte>

  /** The parts of a log entry that storage looks at; `body` stands for everything else. */
  datatype Record = Record(seqNo: nat, session: nat, isMessage: bool, body: string)

  /** JSON and CRC-32, left abstract: `decode` is None where JSON decoding fails or the value is not
      an object. */
  datatype Codec = Codec(encode: Record -> Bytes, decode: Bytes -> Option<Record>, crc32: Bytes -> nat)

  ghost predicate Lawful(c: Codec) {
    && (forall r :: c.decode(c.encode(r)) == Some(r))
    && (forall b :: c.crc32(b) < 0x1_0000_0000)
  }

  const MAX_FRAME_BYTES: nat := 16 * 1024 * 1024

  const HEADER_SIZE: nat := 20

  /** The eight ASCII bytes of "AIZELOG2". */
  const MAGIC: Bytes := [65, 73, 90, 69, 76, 79, 71, 50]

  // ---------------------------------------------------------------- big-endian integers

  function Pow256(n: nat): (p: nat)
    ensures p > 0
  {
    if n == 0 then 1 else 256 * Pow256(n - 1)
  }

  function BigEndian(n: nat, width: nat): (b: Bytes)
    ensures |b| == width
  {
    if width == 0 then [] else BigEndian(n / 256, width - 1) + [(n % 256) as Byte]
  }

  function FromBigEndian(b: Bytes): nat {
    if |b| == 0 then 0 else 256 * FromBigEndian(b[..|b| - 1]) + b[|b| - 1] as nat
  }

  lemma {:induction false} BigEndianRoundTrip(n: nat, width: nat)
    requires n < Pow256(width)
    ensures FromBigEndian(BigEndian(n, width)) == n
  {
    if width > 0 {
      BigEndianRoundTrip(n / 256, width - 1);
      assert BigEndian(n, width)[..width - 1] == BigEndian(n / 256, width - 1);
    }
  }

  /** Most significant byte first. */
  lemma {:induction false} BigEndianByte(n: nat, width: nat, i: nat)
    requires i < width
    ensures BigEndian(n, width)[i] as nat == n / Pow256(width - 1 - i) % 256
  {
    if i < width - 1 {
      BigEndianByte(n / 256, width - 1, i);
      DivideTwice(n, Pow256(width - 2 - i));
    }
  }

  lemma DivideTwice(n: nat, p: nat)
    requires p > 0
    ensures n / (256 * p) == n / 256 / p
  {
    var q := n / 256;
    var a, b := q / p, q % p;
    assert q == p * a + b;
    assert 256 * q == (256 * p) * a + 256 * b;
    QuotientIs(n, 256 * p, a, 256 * b + n % 256);
  }

  lemma QuotientIs(n: nat, d: nat, q: nat, r: nat)
    requires d > 0 && n == d * q + r && r < d
    ensures n / d == q
  {
    var k := n / d;
    assert n == d * k + n % d;
    if k > q {
      ProductGrows(d, q, k);
      assert false;
    }
    if k < q {
      ProductGrows(d, k, q);
      assert false;
    }
  }

  lemma ProductGrows(d: nat, a: nat, b: nat)
    requires a < b
    ensures d * a + d <= d * b
  {
    assert d * b == d * a + d * (b - a);
    assert b - a >= 1 ==> d * (b - a) >= d;
  }

  /** Reading a field and writing it again gives the same bytes. */
  lemma {:induction false} FieldRoundTrip(b: Bytes)
    ensures FromBigEndian(b) < Pow256(|b|)
    ensures BigEndian(FromBigEndian(b), |b|) == b
  {
    if |b| > 0 {
      FieldRoundTrip(b[..|b| - 1]);
      var high, low := FromBigEndian(b[..|b| - 1]), b[|b| - 1] as nat;
      assert (256 * high + low) / 256 == high && (256 * high + low) % 256 == low;
      assert b == b[..|b| - 1] + [b[|b| - 1]];
    }
  }

  // ---------------------------------------------------------------- frames

  function Header(length: nat, checksum: nat): (h: Bytes)
    ensures |h| == HEADER_SIZE
  {
    MAGIC + BigEndian(length, 8) + BigEndian(checksum, 4)
  }

  /** `_encode_frame` refuses a record whose payload is longer than a frame may be. */
  predicate Encodable(c: Codec, r: Record) {
    |c.encode(r)| <= MAX_FRAME_BYTES
  }

  function Frame(c: Codec, r: Record): (f: Bytes)
    ensures |f| == HEADER_SIZE + |c.encode(r)|
  {
    Header(|c.encode(r)|, c.crc32(c.encode(r))) + c.encode(r)
  }

  function FramesOf(c: Codec, rs: seq<Record>): Bytes {
    if rs == [] then [] else Frame(c, rs[0]) + FramesOf(c, rs[1..])
  }

  predicate AllEncodable(c: Codec, rs: seq<Record>) {
    forall i | 0 <= i < |rs| :: Encodable(c, rs[i])
  }

  /** The first frame of some bytes with its size, or None when no whole valid frame is there. */
  function DecodeFirst(c: Codec, data: Bytes): (r: Option<(Record, nat)>)
    ensures r.Some? ==> HEADER_SIZE <= r.value.1 <= |data|
  {
    if |data| < HEADER_SIZE then None
    else
      var length := FromBigEndian(data[8..16]);
      if data[..8] != MAGIC || length > MAX_FRAME_BYTES || |data| - HEADER_SIZE < length then None
      else
        var payload := data[HEADER_SIZE..HEADER_SIZE + length];
        if c.crc32(payload) != FromBigEndian(data[16..20]) || c.decode(payload).None? then None
        else Some((c.decode(payload).value, HEADER_SIZE + length))
  }

  /** The records in the longest run of whole frames at the front, and how many bytes they take. */
  function Scan(c: Codec, data: Bytes): (r: (seq<Record>, nat))
    ensures r.1 <= |data|
    decreases |data|
  {
    match DecodeFirst(c, data)
    case None => ([], 0)
    case Some(first) =>
      var rest := Scan(c, data[first.1..]);
      ([first.0] + rest.0, first.1 + rest.1)
  }

  /** One turn of the scan loop: read a header at `pos`, then its payload, checking each part. */
  method ReadFrame(c: Codec, data: Bytes, pos: nat) returns (r: Option<(Record, nat)>)
    requires pos <= |data|
    ensures r == DecodeFirst(c, data[pos..])
  {
    ghost var rest := data[pos..];
    if |data| - pos < HEADER_SIZE {
      return None;
    }
    var header := data[pos..pos + HEADER_SIZE];
    assert header == rest[..HEADER_SIZE];
    var magic, length, checksum := header[..8], FromBigEndian(header[8..16]), FromBigEndian(header[16..20]);
    assert header[..8] == rest[..8] && header[8..16] == rest[8..16] && header[16..20] == rest[16..20];
    if magic != MAGIC || length > MAX_FRAME_BYTES {
      return None;
    }
    var start := pos + HEADER_SIZE;
    if |data| - start < length {
      return None;
    }
    var payload := data[start..start + length];
    assert payload == rest[HEADER_SIZE..HEADER_SIZE + length];
    var entry := c.decode(payload);
    if c.crc32(payload) != checksum || entry.None? {
      return None;
    }
    return Some((entry.value, HEADER_SIZE + length));
  }

  /** The scan loop of one segment file. With `recover` a torn tail is cut off the file. */
  method ScanSegment(c: Codec, data: Bytes, recover: bool)
    returns (entries: seq<Record>, validBytes: nat, truncated: bool, after: Bytes)
    ensures entries == Scan(c, data).0 && validBytes == Scan(c, data).1
    ensures truncated <==> validBytes != |data|
    ensures after == if truncated && recover then data[..validBytes] else data
  {
    entries, validBytes, truncated := [], 0, false;
    assert data[0..] == data;
    while validBytes < |data|
      invariant validBytes <= |data| && !truncated
      invariant Scan(c, data).0 == entries + Scan(c, data[validBytes..]).0
      invariant Scan(c, data).1 == validBytes + Scan(c, data[validBytes..]).1
      decreases |data| - validBytes
    {
      var frame := ReadFrame(c, data, validBytes);
      if frame.None? {
        truncated := true;
        break;
      }
      assert data[validBytes..][frame.value.1..] == data[validBytes + frame.value.1..];
      entries := entries + [frame.value.0];
      validBytes := validBytes + frame.value.1;
    }
    after := if truncated && recover then data[..validBytes] else data;
  }

  // ---------------------------------------------------------------- what a scan recovers

  lemma FrameDecodes(c: Codec, r: Record, rest: Bytes)
    requires Lawful(c) && Encodable(c, r)
    ensures DecodeFirst(c, Frame(c, r) + rest) == Some((r, |Frame(c, r)|))
  {
    var payload := c.encode(r);
    var data := Frame(c, r) + rest;
    var h := Header(|payload|, c.crc32(payload));
    BigEndianRoundTrip(|payload|, 8);
    BigEndianRoundTrip(c.crc32(payload), 4);
    assert data[..8] == h[..8] == MAGIC;
    assert data[8..16] == h[8..16] == BigEndian(|payload|, 8);
    assert data[16..20] == h[16..20] == BigEndian(c.crc32(payload), 4);
    assert data[HEADER_SIZE..HEADER_SIZE + |payload|] == payload;
  }

  /** Where the parts of a frame lie: the magic, the length of the payload in eight bytes, its checksum in
      four, most significant byte first, and the payload itself. */
  lemma FrameLayout(c: Codec, r: Record)
    ensures
      var f, payload := Frame(c, r), c.encode(r);
      && |f| == 20 + |payload| && f[..8] == [65, 73, 90, 69, 76, 79, 71, 50] && f[20..] == payload
      && (forall i | 8 <= i < 16 :: f[i] as nat == |payload| / Pow256(15 - i) % 256)
      && (forall i | 16 <= i < 20 :: f[i] as nat == c.crc32(payload) / Pow256(19 - i) % 256)
  {
    hide BigEndian;
    hide Pow256;
    var f, payload := Frame(c, r), c.encode(r);
    forall i | 8 <= i < 16
      ensures f[i] as nat == |payload| / Pow256(15 - i) % 256
    {
      BigEndianByte(|payload|, 8, i - 8);
    }
    forall i | 16 <= i < 20
      ensures f[i] as nat == c.crc32(payload) / Pow256(19 - i) % 256
    {
      BigEndianByte(c.crc32(payload), 4, i - 16);
    }
  }

  /** Some bytes begin with a well-formed frame around this payload. */
  predicate BeginsWith(c: Codec, data: Bytes, payload: Bytes) {
    && |payload| <= 16 * 1024 * 1024 && 20 + |payload| <= |data|
    && data[..8] == [65, 73, 90, 69, 76, 79, 71, 50]
    && data[8..16] == BigEndian(|payload|, 8)
    && data[16..20] == BigEndian(c.crc32(payload), 4)
    && data[20..20 + |payload|] == payload
  }

  /** The decoder accepts exactly the bytes that begin with a well-formed frame around a payload that is a
      record: a wrong magic, a wrong checksum, an excessive length or a missing byte is refused, and
      nothing else is. */
  lemma DecodesExactlyFrames(c: Codec, data: Bytes, payload: Bytes, r: Record)
    requires Lawful(c)
    ensures DecodeFirst(c, data).Some? <==> exists p :: BeginsWith(c, data, p) && c.decode(p).Some?
    ensures BeginsWith(c, data, payload) && c.decode(payload) == Some(r) ==>
      DecodeFirst(c, data) == Some((r, 20 + |payload|))
  {
    hide BigEndian;
    hide FromBigEndian;
    if DecodeFirst(c, data).Some? {
      FieldRoundTrip(data[8..16]);
      FieldRoundTrip(data[16..20]);
      var length := FromBigEndian(data[8..16]);
      assert BeginsWith(c, data, data[20..20 + length]);
    }
    forall p | BeginsWith(c, data, p) && c.decode(p).Some?
      ensures DecodeFirst(c, data) == Some((c.decode(p).value, 20 + |p|))
    {
      BigEndianRoundTrip(|p|, 8);
      BigEndianRoundTrip(c.crc32(p), 4);
    }
  }

  /** A frame that has lost at least one byte at the end never decodes. */
  lemma TornFrameFails(c: Codec, r: Record, cut: nat)
    requires Lawful(c) && Encodable(c, r) && cut < |Frame(c, r)|
    ensures DecodeFirst(c, Frame(c, r)[..cut]) == None
  {
    if cut >= HEADER_SIZE {
      var payload := c.encode(r);
      var data, h := Frame(c, r)[..cut], Header(|payload|, c.crc32(payload));
      BigEndianRoundTrip(|payload|, 8);
      assert data[..HEADER_SIZE] == h;
      assert data[8..16] == h[8..16] == BigEndian(|payload|, 8);
    }
  }

  lemma ScanPastFrame(c: Codec, r: Record, rest: Bytes)
    requires Lawful(c) && Encodable(c, r)
    ensures Scan(c, Frame(c, r) + rest).0 == [r] + Scan(c, rest).0
    ensures Scan(c, Frame(c, r) + rest).1 == |Frame(c, r)| + Scan(c, rest).1
  {
    FrameDecodes(c, r, rest);
    assert (Frame(c, r) + rest)[|Frame(c, r)|..] == rest;
  }

  lemma {:induction false} ScanOfFrames(c: Codec, rs: seq<Record>, rest: Bytes)
    requires Lawful(c) && AllEncodable(c, rs)
    ensures Scan(c, FramesOf(c, rs) + rest).0 == rs + Scan(c, rest).0
    ensures Scan(c, FramesOf(c, rs) + rest).1 == |FramesOf(c, rs)| + Scan(c, rest).1
  {
    hide DecodeFirst;
    hide Frame;
    if rs == [] {
      assert FramesOf(c, rs) + rest == rest;
    } else {
      var tail := FramesOf(c, rs[1..]) + rest;
      assert FramesOf(c, rs) + rest == Frame(c, rs[0]) + tail;
      ScanPastFrame(c, rs[0], tail);
      ScanOfFrames(c, rs[1..], rest);
    }
  }

  lemma ScanOfWholeFrames(c: Codec, rs: seq<Record>)
    requires Lawful(c) && AllEncodable(c, rs)
    ensures Scan(c, FramesOf(c, rs)).0 == rs && Scan(c, FramesOf(c, rs)).1 == |FramesOf(c, rs)|
  {
    ScanOfFrames(c, rs, []);
    assert FramesOf(c, rs) + [] == FramesOf(c, rs);
  }

  lemma {:induction false} FramesOfConcat(c: Codec, a: seq<Record>, b: seq<Record>)
    ensures FramesOf(c, a + b) == FramesOf(c, a) + FramesOf(c, b)
  {
    if a == [] {
      assert a + b == b;
    } else {
      assert (a + b)[1..] == a[1..] + b;
      FramesOfConcat(c, a[1..], b);
    }
  }

  /** How many frames lie whole within the first `cut` bytes. */
  function WholeFrames(c: Codec, rs: seq<Record>, cut: nat): (k: nat)
    ensures k <= |rs|
  {
    if rs == [] || cut < |Frame(c, rs[0])| then 0
    else 1 + WholeFrames(c, rs[1..], cut - |Frame(c, rs[0])|)
  }

  /** `WholeFrames` is the largest number of leading frames that fits into the cut. */
  lemma {:induction false} WholeFramesIsLargest(c: Codec, rs: seq<Record>, cut: nat, k: nat)
    requires k <= |rs|
    ensures |FramesOf(c, rs[..k])| <= cut <==> k <= WholeFrames(c, rs, cut)
  {
    if k > 0 {
      assert rs[..k][1..] == rs[1..][..k - 1] && rs[..k][0] == rs[0];
      if |Frame(c, rs[0])| <= cut {
        WholeFramesIsLargest(c, rs[1..], cut - |Frame(c, rs[0])|, k - 1);
      }
    }
  }

  lemma {:induction false} ScanOfCutFrames(c: Codec, rs: seq<Record>, cut: nat)
    requires Lawful(c) && AllEncodable(c, rs) && cut <= |FramesOf(c, rs)|
    ensures
      var k := WholeFrames(c, rs, cut);
      && Scan(c, FramesOf(c, rs)[..cut]).0 == rs[..k]
      && Scan(c, FramesOf(c, rs)[..cut]).1 == |FramesOf(c, rs[..k])|
  {
    var data := FramesOf(c, rs)[..cut];
    if rs == [] {
      assert DecodeFirst(c, data) == None;
    } else {
      var f := Frame(c, rs[0]);
      if cut < |f| {
        assert data == f[..cut];
        TornFrameFails(c, rs[0], cut);
      } else {
        var k := WholeFrames(c, rs, cut);
        var rest := FramesOf(c, rs[1..])[..cut - |f|];
        assert data == f + rest;
        FrameDecodes(c, rs[0], rest);
        assert data[|f|..] == rest;
        ScanOfCutFrames(c, rs[1..], cut - |f|);
        assert rs[..k] == [rs[0]] + rs[1..][..k - 1];
        assert rs[..k][1..] == rs[1..][..k - 1];
      }
    }
  }

  /** Crash atomicity of one file: when the frames of `added` are appended after those of `stored` and
      only the first `cut` bytes of them reach the disk, a recovering scan finds exactly the old
      records and the whole new frames, and the file it leaves behind scans to the same records with
      nothing left to cut. */
  lemma CutAppendScans(c: Codec, stored: seq<Record>, added: seq<Record>, cut: nat)
    requires Lawful(c) && AllEncodable(c, stored) && AllEncodable(c, added)
    requires cut <= |FramesOf(c, added)|
    ensures
      var k := WholeFrames(c, added, cut);
      var data := FramesOf(c, stored) + FramesOf(c, added)[..cut];
      var kept := FramesOf(c, stored + added[..k]);
      && Scan(c, data).0 == stored + added[..k]
      && Scan(c, data).1 == |kept| <= |data|
      && data[..|kept|] == kept
      && Scan(c, kept).0 == stored + added[..k]
      && Scan(c, kept).1 == |kept|
  {
    hide Scan;
    hide FramesOf;
    hide Frame;
    hide WholeFrames;
    var k := WholeFrames(c, added, cut);
    ScanOfFrames(c, stored, FramesOf(c, added)[..cut]);
    ScanOfCutFrames(c, added, cut);
    FramesOfConcat(c, stored, added[..k]);
    FramesOfConcat(c, added[..k], added[k..]);
    assert added[..k] + added[k..] == added;
    WholeFramesIsLargest(c, added, cut, k);
    var kept := FramesOf(c, stored + added[..k]);
    var data := FramesOf(c, stored) + FramesOf(c, added)[..cut];
    assert |kept| <= |data|;
    assert data[..|kept|] == kept;
    ScanOfWholeFrames(c, stored + added[..k]);
  }
}
