/** `_SessionDirectoryWriter` (src/kernel/storage.py): a migration writes a whole log at once, frame by
    frame into bounded segments, together with an index it computes on its own. */
module Migration {
  import opened Wrappers
  import opened Frames
  import opened SegmentStore

  /** The writer closes a segment before the frame that would overfill it, never an empty one. */
  predicate Closes(payloadBytes: nat, frameBytes: nat) {
    payloadBytes > 0 && payloadBytes + frameBytes > MAX_SEGMENT_BYTES
  }

  lemma {:induction false} FramesOfSnoc(c: Codec, rs: seq<Record>, r: Record)
    ensures FramesOf(c, rs + [r]) == FramesOf(c, rs) + Frame(c, r)
  {
    FramesOfConcat(c, rs, [r]);
    assert FramesOf(c, [r]) == Frame(c, r) + FramesOf(c, []);
  }

  /** One segment's worth of records starting at `offset`. */
  method FillSegment(c: Codec, records: seq<Record>, offset: nat) returns (payload: Bytes, end: nat)
    requires offset < |records|
    ensures offset < end <= |records|
    ensures payload == FramesOf(c, records[offset..end])
    ensures end - offset > 1 ==> |payload| <= MAX_SEGMENT_BYTES
    ensures end < |records| ==> |payload| + |Frame(c, records[end])| > MAX_SEGMENT_BYTES
  {
    hide FramesOf;
    hide Frame;
    end := offset;
    payload := [];
    Nothing(c);
    assert records[offset..offset] == [];
    while end < |records|
      invariant offset <= end <= |records|
      invariant payload == FramesOf(c, records[offset..end])
      invariant end == offset <==> payload == []
      invariant end - offset > 1 ==> |payload| <= MAX_SEGMENT_BYTES
    {
      var frame := Frame(c, records[end]);
      if Closes(|payload|, |frame|) {
        break;
      }
      FramesOfSnoc(c, records[offset..end], records[end]);
      assert records[offset..end] + [records[end]] == records[offset..end + 1];
      payload := payload + frame;
      end := end + 1;
    }
  }

  lemma Nothing(c: Codec)
    ensures FramesOf(c, []) == []
  {
  }

  /** `files` hold the records split into `chunks`: each file is named by its first record, and closed
      only when the next frame would overfill it; a file is over the limit only for a single record. */
  ghost predicate Split(c: Codec, records: seq<Record>, files: seq<Segment>, chunks: seq<seq<Record>>) {
    && |files| == |chunks| && Flat(chunks) == records
    && (forall i | 0 <= i < |files| ::
          && chunks[i] != []
          && files[i] == Segment(chunks[i][0].seqNo, FramesOf(c, chunks[i]))
          && (|chunks[i]| > 1 ==> |files[i].data| <= MAX_SEGMENT_BYTES))
    && (forall i | 0 <= i < |files| - 1 :: |files[i].data| + |Frame(c, chunks[i + 1][0])| > MAX_SEGMENT_BYTES)
  }

  /** The index entries written beside the files describe them as a rebuild would. */
  ghost predicate Described(segments: seq<SegmentInfo>, files: seq<Segment>, chunks: seq<seq<Record>>) {
    && |segments| == |files| == |chunks|
    && forall i | 0 <= i < |chunks| :: segments[i] == InfoOf(files[i], |Flat(chunks[..i])|, |chunks[i]|)
  }

  /** The Session a list of records is taken to belong to; 0 stands for the empty name of an empty list. */
  function SessionOf(records: seq<Record>): nat {
    if records == [] then 0 else records[0].session
  }

  ghost predicate Written(c: Codec, records: seq<Record>, files: seq<Segment>, index: Index, chunks: seq<seq<Record>>) {
    && Split(c, records, files, chunks)
    && (GapFree(SessionOf(records), records, 1) ==> index == IndexOf(SessionOf(records), files, chunks))
  }

  /** `write`: the segment files and the index. When the log is gap-free from 1 the index is the one a
      rebuild describes these files with. */
  method WriteAll(c: Codec, records: seq<Record>) returns (files: seq<Segment>, index: Index)
    ensures exists chunks :: Written(c, records, files, index, chunks)
  {
    hide Split;
    hide Described;
    hide FramesOf;
    hide Frame;
    hide Messages;
    hide Flat;
    hide GapFree;
    files := [];
    ghost var chunks: seq<seq<Record>> := [];
    var segments: seq<SegmentInfo> := [];
    var offset := 0;
    ghost var gapFree := GapFree(SessionOf(records), records, 1);
    NothingWritten(c, records);
    while offset < |records|
      invariant offset <= |records|
      invariant Split(c, records[..offset], files, chunks)
      invariant files != [] && offset < |records| ==>
        |files[|files| - 1].data| + |Frame(c, records[offset])| > MAX_SEGMENT_BYTES
      invariant gapFree ==> Described(segments, files, chunks)
      decreases |records| - offset
    {
      var payload, end := FillSegment(c, records, offset);
      var written := records[offset..end];
      var file := Segment(records[offset].seqNo, payload);
      SplitGrows(c, records, files, chunks, offset, end, file);
      var info := SegmentInfo(file.path, records[offset].seqNo, written[|written| - 1].seqNo, |written|, |payload|);
      if gapFree {
        DescribedGrows(c, records, files, chunks, segments, offset, end, file, info);
      }
      segments, files, chunks, offset := segments + [info], files + [file], chunks + [written], end;
    }
    assert records[..offset] == records;
    var count := CountMessages(records);
    var latest := if records == [] then 0 else records[|records| - 1].seqNo;
    index := Index(SessionOf(records), latest, |records|, count, segments);
    if gapFree {
      DescribedIndex(c, records, files, chunks, segments, count, latest);
    }
    assert Written(c, records, files, index, chunks);
  }

  lemma NothingWritten(c: Codec, records: seq<Record>)
    ensures Split(c, records[..0], [], []) && Described([], [], [])
  {
    NothingFlat();
  }

  lemma DescribedGrows(c: Codec, records: seq<Record>, files: seq<Segment>, chunks: seq<seq<Record>>,
                       segments: seq<SegmentInfo>, offset: nat, end: nat, file: Segment, info: SegmentInfo)
    requires offset < end <= |records| && Split(c, records[..offset], files, chunks)
    requires GapFree(SessionOf(records), records, 1) && Described(segments, files, chunks)
    requires info == SegmentInfo(file.path, records[offset].seqNo, records[end - 1].seqNo, end - offset, |file.data|)
    requires file.path == records[offset].seqNo
    ensures Described(segments + [info], files + [file], chunks + [records[offset..end]])
  {
    hide FramesOf;
    hide Frame;
    hide Flat;
    var chunks' := chunks + [records[offset..end]];
    assert forall i | 0 <= i < |chunks| :: chunks'[..i] == chunks[..i];
    assert chunks'[..|chunks|] == chunks;
  }

  lemma DescribedIndex(c: Codec, records: seq<Record>, files: seq<Segment>, chunks: seq<seq<Record>>,
                       segments: seq<SegmentInfo>, count: nat, latest: nat)
    requires Split(c, records, files, chunks) && Described(segments, files, chunks)
    requires GapFree(SessionOf(records), records, 1) && count == Messages(records)
    requires latest == if records == [] then 0 else records[|records| - 1].seqNo
    ensures Index(SessionOf(records), latest, |records|, count, segments) == IndexOf(SessionOf(records), files, chunks)
  {
    hide FramesOf;
    hide Frame;
    hide Flat;
    hide Messages;
    assert segments == IndexOf(SessionOf(records), files, chunks).segments;
  }

  lemma SplitGrows(c: Codec, records: seq<Record>, files: seq<Segment>, chunks: seq<seq<Record>>,
                   offset: nat, end: nat, file: Segment)
    requires offset < end <= |records| && Split(c, records[..offset], files, chunks)
    requires file == Segment(records[offset].seqNo, FramesOf(c, records[offset..end]))
    requires end - offset > 1 ==> |file.data| <= MAX_SEGMENT_BYTES
    requires files != [] ==> |files[|files| - 1].data| + |Frame(c, records[offset])| > MAX_SEGMENT_BYTES
    ensures Split(c, records[..end], files + [file], chunks + [records[offset..end]])
  {
    hide FramesOf;
    hide Frame;
    hide Flat;
    FlatSnocAll(chunks, records[offset..end]);
    assert records[..offset] + records[offset..end] == records[..end];
  }

  lemma FlatSnocAll(chunks: seq<seq<Record>>, chunk: seq<Record>)
    ensures Flat(chunks + [chunk]) == Flat(chunks) + chunk
  {
    assert (chunks + [chunk])[..|chunks|] == chunks;
  }

  /** A frame too large to be read back. The writer does not check, `_encode_frame` does. */
  lemma OversizedFrameFails(c: Codec, r: Record, rest: Bytes)
    requires !Encodable(c, r) && |c.encode(r)| < Pow256(8)
    ensures DecodeFirst(c, Frame(c, r) + rest) == None
  {
    var n := |c.encode(r)|;
    BigEndianRoundTrip(n, 8);
    var data := Frame(c, r) + rest;
    assert data[8..16] == BigEndian(n, 8);
  }

  lemma {:induction false} ScanStopsAtOversized(c: Codec, rs: seq<Record>)
    requires Lawful(c) && !AllEncodable(c, rs)
    requires forall i | 0 <= i < |rs| :: |c.encode(rs[i])| < Pow256(8)
    ensures |Scan(c, FramesOf(c, rs)).0| < |rs|
  {
    hide Pow256;
    if !Encodable(c, rs[0]) {
      OversizedFrameFails(c, rs[0], FramesOf(c, rs[1..]));
    } else {
      ScanPastFrame(c, rs[0], FramesOf(c, rs[1..]));
      ScanStopsAtOversized(c, rs[1..]);
    }
  }

  lemma {:induction false} FlatLengths(a: seq<seq<Record>>, b: seq<seq<Record>>)
    requires |a| == |b| && forall i | 0 <= i < |a| :: |a[i]| <= |b[i]|
    ensures |Flat(a)| <= |Flat(b)|
    ensures (exists i | 0 <= i < |a| :: |a[i]| < |b[i]|) ==> |Flat(a)| < |Flat(b)|
  {
    if a != [] {
      var n := |a| - 1;
      FlatLengths(a[..n], b[..n]);
      if i :| 0 <= i < |a| && |a[i]| < |b[i]| {
        if i < n {
          assert |a[..n][i]| < |b[..n][i]|;
        }
      }
    }
  }

  lemma ChunkScan(c: Codec, chunk: seq<Record>)
    requires Lawful(c) && forall i | 0 <= i < |chunk| :: |c.encode(chunk[i])| < Pow256(8)
    ensures |Scan(c, FramesOf(c, chunk)).0| <= |chunk|
    ensures AllEncodable(c, chunk) <==> Scan(c, FramesOf(c, chunk)).0 == chunk
    ensures AllEncodable(c, chunk) <==> |Scan(c, FramesOf(c, chunk)).0| == |chunk|
  {
    hide Pow256;
    if AllEncodable(c, chunk) {
      ScanOfWholeFrames(c, chunk);
    } else {
      ScanStopsAtOversized(c, chunk);
    }
  }

  lemma {:induction false} FlatMembers(chunks: seq<seq<Record>>, i: nat, j: nat)
    requires i < |chunks| && j < |chunks[i]|
    ensures chunks[i][j] in Flat(chunks)
  {
    if i < |chunks| - 1 {
      FlatMembers(chunks[..|chunks| - 1], i, j);
    }
  }

  lemma {:induction false} FlatIsCovered(chunks: seq<seq<Record>>, r: Record)
    requires r in Flat(chunks)
    ensures exists i | 0 <= i < |chunks| :: r in chunks[i]
  {
    var n := |chunks| - 1;
    if r !in chunks[n] {
      FlatIsCovered(chunks[..n], r);
      var i :| 0 <= i < n && r in chunks[..n][i];
      assert r in chunks[i];
    }
  }

  /** Reading a migrated log back gives every record exactly when each one fits a frame. One
      oversized record hides itself and everything after it in its segment. */
  lemma MigratedLogReadsBack(c: Codec, records: seq<Record>, files: seq<Segment>, chunks: seq<seq<Record>>)
    requires Lawful(c) && Split(c, records, files, chunks)
    requires forall r | r in records :: |c.encode(r)| < Pow256(8)
    ensures Flat(ScannedChunks(c, files)) == records <==> AllEncodable(c, records)
  {
    hide Pow256;
    hide Scan;
    hide FramesOf;
    hide Frame;
    hide Flat;
    var scanned := ScannedChunks(c, files);
    forall i | 0 <= i < |chunks|
      ensures |scanned[i]| <= |chunks[i]|
      ensures AllEncodable(c, chunks[i]) ==> scanned[i] == chunks[i]
      ensures !AllEncodable(c, chunks[i]) ==> |scanned[i]| < |chunks[i]|
    {
      forall j | 0 <= j < |chunks[i]|
        ensures |c.encode(chunks[i][j])| < Pow256(8)
      {
        FlatMembers(chunks, i, j);
      }
      ChunkScan(c, chunks[i]);
    }
    FlatLengths(scanned, chunks);
    if forall i | 0 <= i < |chunks| :: AllEncodable(c, chunks[i]) {
      assert scanned == chunks;
      forall k | 0 <= k < |Flat(chunks)|
        ensures Encodable(c, Flat(chunks)[k])
      {
        FlatIsCovered(chunks, Flat(chunks)[k]);
      }
    } else {
      var i :| 0 <= i < |chunks| && !AllEncodable(c, chunks[i]);
      assert |scanned[i]| < |chunks[i]|;
      var j :| 0 <= j < |chunks[i]| && !Encodable(c, chunks[i][j]);
      FlatMembers(chunks, i, j);
    }
  }
}
