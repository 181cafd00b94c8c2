/** The durable log of one Session (src/kernel/storage.py): segment files, the stored index kept up
    to date append by append, recovery that rebuilds it, ranged reads that prune by it, and the
    writer used by migrations. */
module SegmentStore {
  import opened Frames

  const MAX_SEGMENT_BYTES: nat := 64 * 1024 * 1024

  /** A segment file; its name is the first sequence number written to it. */
  datatype Segment = Segment(path: nat, data: Bytes)

  datatype SegmentInfo = SegmentInfo(path: nat, startSeq: nat, endSeq: nat, records: nat, bytes: nat)

  datatype Index = Index(session: nat, latestSeq: nat, recordCount: nat, messageCount: nat, segments: seq<SegmentInfo>)

  datatype LogError = SequenceMismatch | OversizedRecord | TornFrame

  // ---------------------------------------------------------------- what the files mean

  /** The records of consecutive segments, one after the other. */
  function Flat(chunks: seq<seq<Record>>): seq<Record> {
    if chunks == [] then [] else Flat(chunks[..|chunks| - 1]) + chunks[|chunks| - 1]
  }

  function Messages(rs: seq<Record>): nat {
    if rs == [] then 0
    else Messages(rs[..|rs| - 1]) + if rs[|rs| - 1].isMessage then 1 else 0
  }

  predicate GapFree(session: nat, rs: seq<Record>, start: nat) {
    forall i | 0 <= i < |rs| :: rs[i].seqNo == start + i && rs[i].session == session
  }

  function ScannedChunks(c: Codec, files: seq<Segment>): (chunks: seq<seq<Record>>)
    ensures |chunks| == |files|
    ensures forall i | 0 <= i < |files| :: chunks[i] == Scan(c, files[i].data).0
  {
    seq(|files|, i requires 0 <= i < |files| => Scan(c, files[i].data).0)
  }

  /** Every file cut back to its whole frames. */
  function CutFiles(c: Codec, files: seq<Segment>): (r: seq<Segment>)
    ensures |r| == |files|
    ensures forall i | 0 <= i < |files| ::
      r[i] == files[i].(data := files[i].data[..Scan(c, files[i].data).1])
  {
    seq(|files|, i requires 0 <= i < |files| => files[i].(data := files[i].data[..Scan(c, files[i].data).1]))
  }

  function InfoOf(file: Segment, before: nat, count: nat): SegmentInfo {
    SegmentInfo(file.path, before + 1, before + count, count, |file.data|)
  }

  /** The index that describes `files` when they hold `chunks`. */
  function IndexOf(session: nat, files: seq<Segment>, chunks: seq<seq<Record>>): Index
    requires |files| == |chunks|
  {
    Index(session, |Flat(chunks)|, |Flat(chunks)|, Messages(Flat(chunks)),
      seq(|chunks|, i requires 0 <= i < |chunks| => InfoOf(files[i], |Flat(chunks[..i])|, |chunks[i]|)))
  }

  ghost predicate Holds(c: Codec, file: Segment, chunk: seq<Record>, before: nat) {
    AllEncodable(c, chunk) && file.data == FramesOf(c, chunk) && file.path == before + 1
  }

  /** Files that hold `chunks` as whole frames and nothing else: gap-free from sequence 1, each file
      named by its first sequence number, and only the last one possibly empty. */
  ghost predicate Stored(c: Codec, session: nat, files: seq<Segment>, chunks: seq<seq<Record>>) {
    && |files| == |chunks|
    && (forall i | 0 <= i < |files| :: Holds(c, files[i], chunks[i], |Flat(chunks[..i])|))
    && (forall i | 0 <= i < |chunks| - 1 :: chunks[i] != [])
    && GapFree(session, Flat(chunks), 1)
  }

  lemma HeldScan(c: Codec, file: Segment, chunk: seq<Record>, before: nat)
    requires Lawful(c) && Holds(c, file, chunk, before)
    ensures Scan(c, file.data).0 == chunk && Scan(c, file.data).1 == |file.data|
  {
    ScanOfWholeFrames(c, chunk);
  }

  lemma NothingFlat()
    ensures Flat([]) == [] && Messages([]) == 0
  {
  }

  method CountMessages(entries: seq<Record>) returns (n: nat)
    ensures n == Messages(entries)
  {
    n := 0;
    for i := 0 to |entries|
      invariant n == Messages(entries[..i])
    {
      assert entries[..i + 1][..i] == entries[..i];
      if entries[i].isMessage {
        n := n + 1;
      }
    }
    assert entries[..|entries|] == entries;
  }

  lemma {:induction false} FlatPrefix(chunks: seq<seq<Record>>, i: nat)
    requires i <= |chunks|
    ensures Flat(chunks[..i]) <= Flat(chunks)
    decreases |chunks| - i
  {
    if i == |chunks| {
      assert chunks[..i] == chunks;
    } else {
      assert chunks[..i + 1][..i] == chunks[..i];
      FlatPrefix(chunks, i + 1);
    }
  }

  lemma FlatSnoc(chunks: seq<seq<Record>>, i: nat)
    requires i < |chunks|
    ensures Flat(chunks[..i + 1]) == Flat(chunks[..i]) + chunks[i]
  {
    assert chunks[..i + 1][..i] == chunks[..i];
  }

  lemma {:induction false} MessagesConcat(a: seq<Record>, b: seq<Record>)
    ensures Messages(a + b) == Messages(a) + Messages(b)
  {
    if b == [] {
      assert a + b == a;
    } else {
      assert (a + b)[..|a + b| - 1] == a + b[..|b| - 1];
      MessagesConcat(a, b[..|b| - 1]);
    }
  }

  lemma ScanOfStored(c: Codec, session: nat, files: seq<Segment>, chunks: seq<seq<Record>>)
    requires Lawful(c) && Stored(c, session, files, chunks)
    ensures ScannedChunks(c, files) == chunks && CutFiles(c, files) == files
  {
    forall i | 0 <= i < |files|
      ensures Scan(c, files[i].data).0 == chunks[i] && Scan(c, files[i].data).1 == |files[i].data|
    {
      HeldScan(c, files[i], chunks[i], |Flat(chunks[..i])|);
    }
    assert forall i | 0 <= i < |files| :: CutFiles(c, files)[i] == files[i];
  }

  // ---------------------------------------------------------------- appending to the files

  /** `open(path, O_APPEND | O_CREAT)` followed by a write. */
  function WriteTo(files: seq<Segment>, path: nat, payload: Bytes): seq<Segment> {
    if files != [] && files[|files| - 1].path == path
    then files[..|files| - 1] + [Segment(path, files[|files| - 1].data + payload)]
    else files + [Segment(path, payload)]
  }

  /** A non-empty active segment is left behind when the batch would overfill it. */
  predicate Rotates(files: seq<Segment>, batchBytes: nat) {
    && files != []
    && files[|files| - 1].data != []
    && |files[|files| - 1].data| + batchBytes > MAX_SEGMENT_BYTES
  }

  function TargetPath(files: seq<Segment>, firstSeq: nat, batchBytes: nat): nat {
    if files == [] || Rotates(files, batchBytes) then firstSeq else files[|files| - 1].path
  }

  function AppendChunk(chunks: seq<seq<Record>>, added: seq<Record>, newFile: bool): seq<seq<Record>> {
    if chunks == [] || newFile then chunks + [added]
    else chunks[..|chunks| - 1] + [chunks[|chunks| - 1] + added]
  }

  lemma FlatOfAppendChunk(chunks: seq<seq<Record>>, added: seq<Record>, newFile: bool)
    ensures Flat(AppendChunk(chunks, added, newFile)) == Flat(chunks) + added
  {
    var r := AppendChunk(chunks, added, newFile);
    if chunks == [] || newFile {
      assert r[..|r| - 1] == chunks;
    } else {
      assert r[..|r| - 1] == chunks[..|chunks| - 1];
      assert Flat(chunks) == Flat(chunks[..|chunks| - 1]) + chunks[|chunks| - 1];
    }
  }

  lemma FileNameOfLast(c: Codec, session: nat, files: seq<Segment>, chunks: seq<seq<Record>>)
    requires Stored(c, session, files, chunks) && files != []
    ensures files[|files| - 1].path == |Flat(chunks)| + 1 <==> chunks[|chunks| - 1] == []
  {
    assert Flat(chunks) == Flat(chunks[..|chunks| - 1]) + chunks[|chunks| - 1];
  }

  lemma NewFileKeepsStored(c: Codec, session: nat, files: seq<Segment>, chunks: seq<seq<Record>>, added: seq<Record>)
    requires Stored(c, session, files, chunks)
    requires AllEncodable(c, added) && GapFree(session, Flat(chunks) + added, 1)
    requires chunks != [] ==> chunks[|chunks| - 1] != []
    ensures Stored(c, session, files + [Segment(|Flat(chunks)| + 1, FramesOf(c, added))], chunks + [added])
  {
    hide FramesOf;
    hide Flat;
    hide AllEncodable;
    var files', chunks' := files + [Segment(|Flat(chunks)| + 1, FramesOf(c, added))], chunks + [added];
    FlatSnoc(chunks', |chunks|);
    assert chunks'[..|chunks|] == chunks && chunks'[..|chunks| + 1] == chunks';
    forall i | 0 <= i < |files'|
      ensures Holds(c, files'[i], chunks'[i], |Flat(chunks'[..i])|)
    {
      if i < |files| {
        assert chunks'[..i] == chunks[..i];
        assert Holds(c, files[i], chunks[i], |Flat(chunks[..i])|);
      }
    }
  }

  lemma HoldsMore(c: Codec, file: Segment, chunk: seq<Record>, before: nat, added: seq<Record>)
    requires Holds(c, file, chunk, before) && AllEncodable(c, added)
    ensures Holds(c, Segment(file.path, file.data + FramesOf(c, added)), chunk + added, before)
  {
    FramesOfConcat(c, chunk, added);
  }

  lemma ActiveFileKeepsStored(c: Codec, session: nat, files: seq<Segment>, chunks: seq<seq<Record>>, added: seq<Record>)
    requires Stored(c, session, files, chunks) && files != []
    requires AllEncodable(c, added) && GapFree(session, Flat(chunks) + added, 1)
    ensures
      var n := |files| - 1;
      Stored(c, session, files[..n] + [Segment(files[n].path, files[n].data + FramesOf(c, added))],
             chunks[..n] + [chunks[n] + added])
  {
    hide FramesOf;
    hide Flat;
    hide AllEncodable;
    hide Holds;
    hide GapFree;
    var n := |files| - 1;
    FlatOfAppendChunk(chunks, added, false);
    var files' := files[..n] + [Segment(files[n].path, files[n].data + FramesOf(c, added))];
    var chunks' := chunks[..n] + [chunks[n] + added];
    assert chunks' == AppendChunk(chunks, added, false);
    forall i | 0 <= i < |files'|
      ensures Holds(c, files'[i], chunks'[i], |Flat(chunks'[..i])|)
    {
      assert chunks'[..i] == chunks[..i];
      assert Holds(c, files[i], chunks[i], |Flat(chunks[..i])|);
      if i == n {
        HoldsMore(c, files[n], chunks[n], |Flat(chunks[..n])|, added);
      }
    }
  }

  /** Appending whole frames keeps the files well stored, in the active segment or in a new one. */
  lemma WriteKeepsStored(c: Codec, session: nat, files: seq<Segment>, chunks: seq<seq<Record>>,
                         added: seq<Record>, newFile: bool)
    requires Stored(c, session, files, chunks)
    requires AllEncodable(c, added) && GapFree(session, added, |Flat(chunks)| + 1)
    requires newFile && files != [] ==> chunks[|chunks| - 1] != []
    ensures
      var path := if files == [] || newFile then |Flat(chunks)| + 1 else files[|files| - 1].path;
      Stored(c, session, WriteTo(files, path, FramesOf(c, added)), AppendChunk(chunks, added, newFile))
  {
    hide FramesOf;
    hide Flat;
    hide AllEncodable;
    assert GapFree(session, Flat(chunks) + added, 1);
    if files == [] || newFile {
      if files != [] {
        FileNameOfLast(c, session, files, chunks);
      }
      NewFileKeepsStored(c, session, files, chunks, added);
    } else {
      ActiveFileKeepsStored(c, session, files, chunks, added);
    }
  }

  // ---------------------------------------------------------------- crash recovery

  /** What the disk holds when a batch append was cut after `cut` bytes. The stored index is still
      the old one. */
  function Crashed(c: Codec, files: seq<Segment>, firstSeq: nat, batch: seq<Record>, cut: nat): seq<Segment>
    requires cut <= |FramesOf(c, batch)|
  {
    WriteTo(files, TargetPath(files, firstSeq, |FramesOf(c, batch)|), FramesOf(c, batch)[..cut])
  }

  lemma RotationLeavesRecords(c: Codec, session: nat, files: seq<Segment>, chunks: seq<seq<Record>>, batchBytes: nat)
    requires Stored(c, session, files, chunks) && Rotates(files, batchBytes)
    ensures chunks[|chunks| - 1] != []
  {
  }

  lemma TornLastFile(c: Codec, last: seq<Record>, batch: seq<Record>, cut: nat)
    requires Lawful(c) && AllEncodable(c, last) && AllEncodable(c, batch) && cut <= |FramesOf(c, batch)|
    ensures
      var k := WholeFrames(c, batch, cut);
      var data := FramesOf(c, last) + FramesOf(c, batch)[..cut];
      && Scan(c, data).0 == last + batch[..k]
      && data[..Scan(c, data).1] == FramesOf(c, last) + FramesOf(c, batch[..k])
  {
    CutAppendScans(c, last, batch, cut);
    FramesOfConcat(c, last, batch[..WholeFrames(c, batch, cut)]);
  }

  lemma ScanOfSnoc(c: Codec, files: seq<Segment>, file: Segment)
    ensures ScannedChunks(c, files + [file]) == ScannedChunks(c, files) + [Scan(c, file.data).0]
    ensures CutFiles(c, files + [file]) == CutFiles(c, files) + [file.(data := file.data[..Scan(c, file.data).1])]
  {
    hide Scan;
    var all := files + [file];
    forall i | 0 <= i < |all|
      ensures ScannedChunks(c, all)[i] == (ScannedChunks(c, files) + [Scan(c, file.data).0])[i]
    {
      if i < |files| {
        assert all[i] == files[i];
      }
    }
    var cut := file.(data := file.data[..Scan(c, file.data).1]);
    forall i | 0 <= i < |all|
      ensures CutFiles(c, all)[i] == (CutFiles(c, files) + [cut])[i]
    {
      if i < |files| {
        assert all[i] == files[i];
      }
    }
  }

  lemma ScanOfPrefix(c: Codec, files: seq<Segment>, n: nat)
    requires n <= |files|
    ensures ScannedChunks(c, files[..n]) == ScannedChunks(c, files)[..n]
    ensures CutFiles(c, files[..n]) == CutFiles(c, files)[..n]
  {
    hide Scan;
    assert forall i | 0 <= i < n :: files[..n][i] == files[i];
  }

  lemma LastFileBytes(c: Codec, session: nat, files: seq<Segment>, chunks: seq<seq<Record>>)
    requires Stored(c, session, files, chunks) && files != []
    ensures AllEncodable(c, chunks[|chunks| - 1])
    ensures files[|files| - 1].data == FramesOf(c, chunks[|chunks| - 1])
  {
    assert Holds(c, files[|files| - 1], chunks[|chunks| - 1], |Flat(chunks[..|files| - 1])|);
  }

  lemma EmptyFrames(c: Codec)
    ensures FramesOf(c, []) == []
  {
  }

  lemma ScanOfCrashed(c: Codec, session: nat, files: seq<Segment>, chunks: seq<seq<Record>>,
                      batch: seq<Record>, cut: nat, torn: seq<Segment>, whole: seq<Segment>, path: nat, newFile: bool)
    requires Lawful(c) && Stored(c, session, files, chunks)
    requires AllEncodable(c, batch) && cut <= |FramesOf(c, batch)|
    requires newFile ==> (files == [] || files[|files| - 1].path != path)
    requires !newFile ==> files != [] && files[|files| - 1].path == path
    requires torn == WriteTo(files, path, FramesOf(c, batch)[..cut])
    requires whole == WriteTo(files, path, FramesOf(c, batch[..WholeFrames(c, batch, cut)]))
    ensures ScannedChunks(c, torn) == AppendChunk(chunks, batch[..WholeFrames(c, batch, cut)], newFile)
    ensures CutFiles(c, torn) == whole
  {
    var k := WholeFrames(c, batch, cut);
    hide Scan;
    hide FramesOf;
    hide WholeFrames;
    var n := if newFile then |files| else |files| - 1;
    var last := if newFile then [] else chunks[n];
    if !newFile {
      LastFileBytes(c, session, files, chunks);
    }
    var lastFile := Segment(path, FramesOf(c, last) + FramesOf(c, batch)[..cut]);
    TornLastFile(c, last, batch, cut);
    ScanOfStored(c, session, files, chunks);
    ScanOfPrefix(c, files, n);
    ScanOfSnoc(c, files[..n], lastFile);
    EmptyFrames(c);
    assert AppendChunk(chunks, batch[..k], newFile) == chunks[..n] + [last + batch[..k]] by {
      assert newFile ==> last + batch[..k] == batch[..k] && chunks[..n] == chunks;
    }
    var wholeFile := Segment(path, FramesOf(c, last) + FramesOf(c, batch[..k]));
    if newFile {
      assert lastFile.data == FramesOf(c, batch)[..cut];
      assert wholeFile.data == FramesOf(c, batch[..k]);
      assert files[..n] == files;
    } else {
      assert lastFile.data == files[n].data + FramesOf(c, batch)[..cut];
      assert wholeFile.data == files[n].data + FramesOf(c, batch[..k]);
    }
    assert torn == files[..n] + [lastFile];
    assert whole == files[..n] + [wholeFile];
  }

  lemma SameLength(c: Codec, session: nat, files: seq<Segment>, chunks: seq<seq<Record>>)
    requires Stored(c, session, files, chunks)
    ensures |files| == |chunks|
  {
  }

  lemma BatchPrefix(c: Codec, session: nat, batch: seq<Record>, start: nat, k: nat)
    requires AllEncodable(c, batch) && GapFree(session, batch, start) && k <= |batch|
    ensures AllEncodable(c, batch[..k]) && GapFree(session, batch[..k], start)
  {
  }

  /** Crash atomicity of the whole log: however many bytes of a batch reached the disk, and whether
      or not the batch opened a new segment, recovery finds the old records and exactly the whole
      new frames, cuts the rest, leaves well stored files, and finds nothing to do a second time. */
  lemma CrashRecovery(c: Codec, session: nat, files: seq<Segment>, chunks: seq<seq<Record>>,
                      batch: seq<Record>, cut: nat, torn: seq<Segment>)
    requires Lawful(c) && Stored(c, session, files, chunks)
    requires AllEncodable(c, batch) && GapFree(session, batch, |Flat(chunks)| + 1)
    requires cut <= |FramesOf(c, batch)|
    requires torn == Crashed(c, files, |Flat(chunks)| + 1, batch, cut)
    ensures Flat(ScannedChunks(c, torn)) == Flat(chunks) + batch[..WholeFrames(c, batch, cut)]
    ensures Stored(c, session, CutFiles(c, torn), ScannedChunks(c, torn))
    ensures ScannedChunks(c, CutFiles(c, torn)) == ScannedChunks(c, torn)
    ensures CutFiles(c, CutFiles(c, torn)) == CutFiles(c, torn)
  {
    hide Scan;
    hide FramesOf;
    hide Flat;
    hide Holds;
    hide Stored;
    hide ScannedChunks;
    hide CutFiles;
    hide WriteTo;
    hide AppendChunk;
    hide WholeFrames;
    var k := WholeFrames(c, batch, cut);
    var newFile := files == [] || Rotates(files, |FramesOf(c, batch)|);
    var path := TargetPath(files, |Flat(chunks)| + 1, |FramesOf(c, batch)|);
    if files != [] {
      FileNameOfLast(c, session, files, chunks);
      if newFile {
        RotationLeavesRecords(c, session, files, chunks, |FramesOf(c, batch)|);
      }
    }
    SameLength(c, session, files, chunks);
    BatchPrefix(c, session, batch, |Flat(chunks)| + 1, k);
    var whole := WriteTo(files, path, FramesOf(c, batch[..k]));
    ScanOfCrashed(c, session, files, chunks, batch, cut, torn, whole, path, newFile);
    WriteKeepsStored(c, session, files, chunks, batch[..k], newFile);
    FlatOfAppendChunk(chunks, batch[..k], newFile);
    ScanOfStored(c, session, whole, ScannedChunks(c, torn));
  }

  // ---------------------------------------------------------------- the incremental index

  /** `append_session_log_entries` editing the stored index for a batch that went to a new file. */
  function IndexedNewFile(index: Index, path: nat, batch: seq<Record>, bytes: nat): Index {
    index.(latestSeq := index.latestSeq + |batch|,
           recordCount := index.recordCount + |batch|,
           messageCount := index.messageCount + Messages(batch),
           segments := index.segments
             + [SegmentInfo(path, index.latestSeq + 1, index.latestSeq + |batch|, |batch|, bytes)])
  }

  /** The same for a batch that extended the active segment. */
  function IndexedSameFile(index: Index, at: nat, batch: seq<Record>, bytes: nat): Index
    requires at < |index.segments|
  {
    index.(latestSeq := index.latestSeq + |batch|,
           recordCount := index.recordCount + |batch|,
           messageCount := index.messageCount + Messages(batch),
           segments := index.segments[at := index.segments[at].(
             endSeq := index.latestSeq + |batch|,
             records := index.segments[at].records + |batch|,
             bytes := bytes)])
  }

  lemma IndexOfNewFile(session: nat, files: seq<Segment>, chunks: seq<seq<Record>>, file: Segment, batch: seq<Record>)
    requires |files| == |chunks|
    ensures IndexOf(session, files + [file], chunks + [batch])
         == IndexedNewFile(IndexOf(session, files, chunks), file.path, batch, |file.data|)
  {
    var chunks' := chunks + [batch];
    FlatOfAppendChunk(chunks, batch, true);
    MessagesConcat(Flat(chunks), batch);
    hide Flat;
    hide Messages;
    var index := IndexOf(session, files + [file], chunks');
    var edited := IndexedNewFile(IndexOf(session, files, chunks), file.path, batch, |file.data|);
    forall i | 0 <= i < |chunks'|
      ensures index.segments[i] == edited.segments[i]
    {
      if i < |chunks| {
        assert chunks'[..i] == chunks[..i];
      } else {
        assert chunks'[..i] == chunks;
      }
    }
  }

  lemma IndexOfSameFile(session: nat, files: seq<Segment>, chunks: seq<seq<Record>>, file: Segment, batch: seq<Record>)
    requires |files| == |chunks| > 0 && file.path == files[|files| - 1].path
    ensures IndexOf(session, files[..|files| - 1] + [file], AppendChunk(chunks, batch, false))
         == IndexedSameFile(IndexOf(session, files, chunks), |files| - 1, batch, |file.data|)
  {
    hide Flat;
    hide Messages;
    var n := |files| - 1;
    var chunks' := AppendChunk(chunks, batch, false);
    FlatOfAppendChunk(chunks, batch, false);
    FlatSnoc(chunks, n);
    assert chunks[..n + 1] == chunks;
    MessagesConcat(Flat(chunks), batch);
    var index := IndexOf(session, files[..n] + [file], chunks');
    var edited := IndexedSameFile(IndexOf(session, files, chunks), n, batch, |file.data|);
    forall i | 0 <= i < |chunks'|
      ensures index.segments[i] == edited.segments[i]
    {
      assert chunks'[..i] == chunks[..i];
    }
  }

  predicate OpensFile(files: seq<Segment>, batchBytes: nat) {
    files == [] || Rotates(files, batchBytes)
  }

  /** Where a batch goes: into a new file, named by its first sequence number, when there is none yet or the last
      one is not empty and would grow beyond 64 MiB; into the last file otherwise. Earlier files stay. */
  lemma AppendGoesTo(c: Codec, session: nat, files: seq<Segment>, chunks: seq<seq<Record>>, payload: Bytes)
    requires Stored(c, session, files, chunks)
    ensures
      var files' := WriteTo(files, TargetPath(files, |Flat(chunks)| + 1, |payload|), payload);
      if files == [] || (files[|files| - 1].data != [] && |files[|files| - 1].data| + |payload| > 67108864)
      then files' == files + [Segment(|Flat(chunks)| + 1, payload)]
      else files' == files[..|files| - 1] + [Segment(files[|files| - 1].path, files[|files| - 1].data + payload)]
  {
    hide Flat;
    hide Stored;
    if files != [] && Rotates(files, |payload|) {
      NamesAfterRotation(c, session, files, chunks, |payload|);
    }
  }

  /** What an index says: how many records there are, which of them are messages, and for each file its name, its
      size, and the numbers of its records. */
  lemma IndexMeans(session: nat, files: seq<Segment>, chunks: seq<seq<Record>>)
    requires |files| == |chunks|
    ensures
      var index, log := IndexOf(session, files, chunks), Flat(chunks);
      && index.session == session && index.latestSeq == |log| && index.recordCount == |log|
      && index.messageCount == |set i | 0 <= i < |log| && log[i].isMessage|
      && |index.segments| == |files|
      && forall i | 0 <= i < |files| ::
           var info, before := index.segments[i], Flat(chunks[..i]);
           && info.path == files[i].path && info.bytes == |files[i].data| && info.records == |chunks[i]|
           && info.startSeq == |before| + 1 && info.endSeq == |before + chunks[i]|
           && before + chunks[i] <= log
  {
    hide Flat;
    MessagesCounted(Flat(chunks));
    forall i | 0 <= i < |files|
      ensures Flat(chunks[..i]) + chunks[i] <= Flat(chunks)
    {
      FlatSnoc(chunks, i);
      FlatPrefix(chunks, i + 1);
    }
  }

  lemma {:induction false} MessagesCounted(rs: seq<Record>)
    ensures Messages(rs) == |set i | 0 <= i < |rs| && rs[i].isMessage|
  {
    if rs != [] {
      var n := |rs| - 1;
      var rest := rs[..n];
      MessagesCounted(rest);
      assert (set i | 0 <= i < |rest| && rest[i].isMessage) == set i | 0 <= i < n && rs[i].isMessage;
      OneMoreMessage(rs, n);
    }
  }

  lemma OneMoreMessage(rs: seq<Record>, n: nat)
    requires |rs| == n + 1
    ensures |set i | 0 <= i < n + 1 && rs[i].isMessage| ==
      |set i | 0 <= i < n && rs[i].isMessage| + if rs[n].isMessage then 1 else 0
  {
    var before, all := set i | 0 <= i < n && rs[i].isMessage, set i | 0 <= i < n + 1 && rs[i].isMessage;
    assert n !in before;
    assert all == if rs[n].isMessage then before + {n} else before;
  }

  /** The index edit of one append, in either case. */
  function Edited(index: Index, files: seq<Segment>, batch: seq<Record>, batchBytes: nat): Index
    requires |index.segments| == |files|
  {
    if OpensFile(files, batchBytes)
    then IndexedNewFile(index, index.latestSeq + 1, batch, batchBytes)
    else IndexedSameFile(index, |files| - 1, batch, |files[|files| - 1].data| + batchBytes)
  }

  lemma NamesAfterRotation(c: Codec, session: nat, files: seq<Segment>, chunks: seq<seq<Record>>, batchBytes: nat)
    requires Stored(c, session, files, chunks) && files != [] && Rotates(files, batchBytes)
    ensures files[|files| - 1].path != |Flat(chunks)| + 1 && chunks[|chunks| - 1] != []
  {
    RotationLeavesRecords(c, session, files, chunks, batchBytes);
    FileNameOfLast(c, session, files, chunks);
  }

  /** Where one completed append leaves the files and what they hold. */
  lemma AppendedFiles(c: Codec, session: nat, files: seq<Segment>, chunks: seq<seq<Record>>,
                      batch: seq<Record>, payload: Bytes)
    requires Stored(c, session, files, chunks) && payload == FramesOf(c, batch)
    requires AllEncodable(c, batch) && GapFree(session, batch, |Flat(chunks)| + 1)
    ensures Stored(c, session,
                   WriteTo(files, TargetPath(files, |Flat(chunks)| + 1, |payload|), payload),
                   AppendChunk(chunks, batch, OpensFile(files, |payload|)))
  {
    var opens := OpensFile(files, |payload|);
    if files != [] && opens {
      NamesAfterRotation(c, session, files, chunks, |payload|);
    }
    WriteKeepsStored(c, session, files, chunks, batch, opens);
    hide Flat;
    hide FramesOf;
    hide Stored;
  }

  /** Editing the stored index for a completed append gives the index of the new files. */
  lemma AppendedIndex(session: nat, files: seq<Segment>, chunks: seq<seq<Record>>, batch: seq<Record>,
                      payload: Bytes, path: nat, files': seq<Segment>, chunks': seq<seq<Record>>)
    requires |files| == |chunks| == |IndexOf(session, files, chunks).segments|
    requires path == TargetPath(files, |Flat(chunks)| + 1, |payload|)
    requires OpensFile(files, |payload|) && files != [] ==> files[|files| - 1].path != path
    requires files' == WriteTo(files, path, payload)
    requires chunks' == AppendChunk(chunks, batch, OpensFile(files, |payload|))
    ensures |files'| == |chunks'|
    ensures IndexOf(session, files', chunks') == Edited(IndexOf(session, files, chunks), files, batch, |payload|)
  {
    hide Flat;
    hide Messages;
    hide IndexOf;
    if OpensFile(files, |payload|) {
      assert files' == files + [Segment(path, payload)];
      IndexOfNewFile(session, files, chunks, Segment(path, payload), batch);
    } else {
      IndexOfSameFile(session, files, chunks, Segment(path, files[|files| - 1].data + payload), batch);
    }
    SizeOfFlat(session, files, chunks);
  }

  lemma SizeOfFlat(session: nat, files: seq<Segment>, chunks: seq<seq<Record>>)
    requires |files| == |chunks|
    ensures IndexOf(session, files, chunks).latestSeq == |Flat(chunks)|
    ensures |IndexOf(session, files, chunks).segments| == |files|
  {
  }

  /** Well stored files have ascending names. */
  lemma NamesAscend(c: Codec, session: nat, files: seq<Segment>, chunks: seq<seq<Record>>, i: nat, j: nat)
    requires Stored(c, session, files, chunks) && i < j < |files|
    ensures files[i].path < files[j].path
    decreases j
  {
    FlatSnoc(chunks, j - 1);
    assert Holds(c, files[j - 1], chunks[j - 1], |Flat(chunks[..j - 1])|);
    assert Holds(c, files[j], chunks[j], |Flat(chunks[..j])|);
    if i < j - 1 {
      NamesAscend(c, session, files, chunks, i, j - 1);
    }
  }
}
