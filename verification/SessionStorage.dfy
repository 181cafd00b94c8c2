/** The storage object of one Session log (src/kernel/storage.py): appending a batch, keeping the
    stored index in step, rebuilding it, the no-rescan fast path, and reading a range. */
module SessionStorage {
  import opened Wrappers
  import opened Frames
  import opened SegmentStore

  /** Entries the index does not cover yet: `append_session_log_entries` skips the persisted ones. */
  function Pending(entries: seq<Record>, persisted: nat): seq<Record> {
    if entries == [] then []
    else
      var rest := Pending(entries[..|entries| - 1], persisted);
      if entries[|entries| - 1].seqNo > persisted then rest + [entries[|entries| - 1]] else rest
  }

  predicate InRange(r: Record, lo: Option<nat>, hi: Option<nat>) {
    (lo.Some? ==> lo.value <= r.seqNo) && (hi.Some? ==> r.seqNo <= hi.value)
  }

  /** A ranged read of a full log, by its definition. */
  function Filtered(rs: seq<Record>, lo: Option<nat>, hi: Option<nat>): seq<Record> {
    if rs == [] then []
    else
      var rest := Filtered(rs[..|rs| - 1], lo, hi);
      if InRange(rs[|rs| - 1], lo, hi) then rest + [rs[|rs| - 1]] else rest
  }

  lemma {:induction false} FilteredConcat(a: seq<Record>, b: seq<Record>, lo: Option<nat>, hi: Option<nat>)
    ensures Filtered(a + b, lo, hi) == Filtered(a, lo, hi) + Filtered(b, lo, hi)
  {
    if b == [] {
      assert a + b == a;
    } else {
      assert (a + b)[..|a + b| - 1] == a + b[..|b| - 1];
      FilteredConcat(a, b[..|b| - 1], lo, hi);
    }
  }

  lemma {:induction false} FilteredIsEmpty(rs: seq<Record>, lo: Option<nat>, hi: Option<nat>)
    requires forall i | 0 <= i < |rs| :: !InRange(rs[i], lo, hi)
    ensures Filtered(rs, lo, hi) == []
  {
    if rs != [] {
      FilteredIsEmpty(rs[..|rs| - 1], lo, hi);
    }
  }

  /** A range of a gap-free log is itself gap-free, so the check at the end of a read never fires. */
  lemma {:induction false} FilteredIsGapFree(session: nat, rs: seq<Record>, start: nat, lo: Option<nat>, hi: Option<nat>)
    requires GapFree(session, rs, start)
    ensures
      var f := Filtered(rs, lo, hi);
      f != [] ==>
        && GapFree(session, f, f[0].seqNo)
        && (lo.Some? ==> lo.value <= f[0].seqNo)
        && f[|f| - 1].seqNo ==
           (if hi.Some? && hi.value < start + |rs| - 1 then hi.value else start + |rs| - 1)
  {
    if rs != [] {
      FilteredIsGapFree(session, rs[..|rs| - 1], start, lo, hi);
      assert rs[|rs| - 1].seqNo == start + |rs| - 1;
    }
  }

  /** Where a range starts and ends in a log of `n` entries. */
  function First(lo: Option<nat>, n: nat): (from: nat)
    ensures from <= n
  {
    if lo.None? || lo.value <= 1 then 0 else if lo.value <= n then lo.value - 1 else n
  }

  function Last(hi: Option<nat>, n: nat): (to: nat)
    ensures to <= n
  {
    if hi.None? || hi.value >= n then n else hi.value
  }

  /** A range of a log numbered from 1 is a slice of it. */
  lemma {:induction false} RangeIsSlice(session: nat, log: seq<Record>, lo: Option<nat>, hi: Option<nat>)
    requires GapFree(session, log, 1)
    ensures
      var from, to := First(lo, |log|), Last(hi, |log|);
      Filtered(log, lo, hi) == if from < to then log[from..to] else []
  {
    if log != [] {
      var n := |log| - 1;
      RangeIsSlice(session, log[..n], lo, hi);
      RangeSteps(lo, hi, log[n]);
      hide First;
      hide Last;
      hide InRange;
      hide GapFree;
      var from, to := First(lo, |log|), Last(hi, |log|);
      if from < to {
        SliceOfPrefix(log, from, to);
      }
    }
  }

  lemma RangeSteps(lo: Option<nat>, hi: Option<nat>, r: Record)
    requires r.seqNo > 0
    ensures
      var n := r.seqNo - 1;
      && (InRange(r, lo, hi) <==> First(lo, n + 1) <= n < Last(hi, n + 1))
      && (First(lo, n + 1) <= n ==> First(lo, n) == First(lo, n + 1))
      && (First(lo, n + 1) == n + 1 ==> First(lo, n) == n)
      && (Last(hi, n + 1) <= n ==> Last(hi, n) == Last(hi, n + 1))
      && (Last(hi, n + 1) == n + 1 ==> Last(hi, n) == n)
  {
  }

  lemma SliceOfPrefix<T>(s: seq<T>, from: nat, to: nat)
    requires from < to <= |s|
    ensures s[from..to] == if to == |s| then s[..|s| - 1][from..] + [s[|s| - 1]] else s[..|s| - 1][from..to]
  {
  }

  /** What is pending is what lies beyond the persisted numbers, in order. */
  lemma {:induction false} PendingIsBeyond(entries: seq<Record>, persisted: nat)
    ensures forall e :: e in Pending(entries, persisted) <==> e in entries && e.seqNo > persisted
    ensures |Pending(entries, persisted)| <= |entries|
    ensures (forall e | e in entries :: e.seqNo > persisted) ==> Pending(entries, persisted) == entries
  {
    if entries != [] {
      PendingIsBeyond(entries[..|entries| - 1], persisted);
      assert entries == entries[..|entries| - 1] + [entries[|entries| - 1]];
    }
  }

  /** `_validate_sequence`. */
  method ValidateSequence(session: nat, entries: seq<Record>, start: nat) returns (ok: bool)
    ensures ok <==> GapFree(session, entries, start)
  {
    var expected := start;
    for i := 0 to |entries|
      invariant expected == start + i
      invariant forall j | 0 <= j < i :: entries[j].seqNo == start + j && entries[j].session == session
    {
      if entries[i].session != session || entries[i].seqNo != expected {
        return false;
      }
      expected := expected + 1;
    }
    return true;
  }

  /** The last indexed segment is there with the indexed size, so the index is taken as it is. */
  predicate FastPath(files: seq<Segment>, index: Option<Index>) {
    && index.Some?
    && index.value.segments != []
    && exists i | 0 <= i < |files| ::
         && files[i].path == index.value.segments[|index.value.segments| - 1].path
         && |files[i].data| == index.value.segments[|index.value.segments| - 1].bytes
  }

  /** Segment files without an index, as a crash in a Session's first append leaves them: the segment is
      written before the index. What they hold is what a scan finds. */
  ghost predicate Unindexed(c: Codec, session: nat, files: seq<Segment>, chunks: seq<seq<Record>>) {
    chunks == ScannedChunks(c, files) && Stored(c, session, CutFiles(c, files), chunks)
  }

  /** Files and index in any state that the operations leave or find, short of a torn indexed log. */
  ghost predicate OnDisk(c: Codec, session: nat, files: seq<Segment>, index: Option<Index>, chunks: seq<seq<Record>>) {
    if index.Some? then Stored(c, session, files, chunks) && index.value == IndexOf(session, files, chunks)
    else Unindexed(c, session, files, chunks)
  }

  lemma OnDiskScans(c: Codec, session: nat, files: seq<Segment>, index: Option<Index>, chunks: seq<seq<Record>>)
    requires Lawful(c) && OnDisk(c, session, files, index, chunks)
    ensures ScannedChunks(c, files) == chunks && Stored(c, session, CutFiles(c, files), chunks)
    ensures |files| == |chunks| && GapFree(session, Flat(chunks), 1)
    ensures index.Some? ==> CutFiles(c, files) == files && |index.value.segments| == |files|
  {
    if index.Some? {
      ScanOfStored(c, session, files, chunks);
    }
  }

  lemma StoredShape(c: Codec, session: nat, files: seq<Segment>, chunks: seq<seq<Record>>)
    requires Stored(c, session, files, chunks)
    ensures |files| == |chunks|
  {
  }

  lemma IndexedPath(session: nat, files: seq<Segment>, chunks: seq<seq<Record>>)
    requires |files| == |chunks|
    ensures files != [] ==>
      IndexOf(session, files, chunks).segments[|files| - 1].path == files[|files| - 1].path
  {
  }

  lemma NothingPending(persisted: nat)
    ensures Pending([], persisted) == []
  {
  }

  class SessionLog {
    const codec: Codec
    const session: nat
    var files: seq<Segment>
    var index: Option<Index>
    /** What each segment file holds. */
    ghost var chunks: seq<seq<Record>>

    ghost predicate Valid()
      reads this
    {
      Lawful(codec) && OnDisk(codec, session, files, index, chunks)
    }

    /** What a crash may leave: the files hold whole frames of a gap-free log, and a torn tail. */
    ghost predicate Recoverable()
      reads this
    {
      Lawful(codec) && Stored(codec, session, CutFiles(codec, files), ScannedChunks(codec, files))
    }

    /** The whole log. */
    ghost function Log(): seq<Record>
      reads this
    {
      Flat(chunks)
    }

    constructor (codec: Codec, session: nat)
      requires Lawful(codec)
      ensures Valid() && Log() == [] && index == None && this.codec == codec && this.session == session
    {
      this.codec, this.session := codec, session;
      files, index, chunks := [], None, [];
    }

    /** The log that a restarted runtime finds. */
    constructor FromDisk(codec: Codec, session: nat, files: seq<Segment>, index: Option<Index>)
      requires Lawful(codec) && Stored(codec, session, CutFiles(codec, files), ScannedChunks(codec, files))
      ensures Recoverable() && this.files == files && this.index == index
      ensures this.codec == codec && this.session == session
    {
      this.codec, this.session, this.files, this.index := codec, session, files, index;
      chunks := ScannedChunks(codec, files);
    }

    /** The turn of one Session in `recover_all_session_logs`. It goes by the index files, so it recovers a
        log if and only if its index exists. A log whose first append was cut keeps its torn file and
        stays without an index. */
    method RecoverAtStartup()
      requires Recoverable()
      modifies this
      ensures Valid() && index.Some? == old(index.Some?)
      ensures Log() == Flat(ScannedChunks(codec, old(files)))
      ensures files == if old(index.Some?) then CutFiles(codec, old(files)) else old(files)
    {
      hide Scan;
      chunks := ScannedChunks(codec, files);
      if index.None? {
        return;
      }
      var recovered := Recover(true);
    }

    /** `_build_session_log_index`: scan every segment in order, cut torn tails when recovering, and
        refuse a log that is not gap-free. */
    method Build(recover: bool) returns (r: Result<Index, LogError>)
      modifies this`files
      ensures |files| == old(|files|)
      ensures r.Ok? ==> GapFree(session, Flat(ScannedChunks(codec, old(files))), 1)
      ensures recover && r.Err? ==> !GapFree(session, Flat(ScannedChunks(codec, old(files))), 1)
      ensures !recover ==> files == old(files)
      ensures !recover && r.Err? ==>
                !GapFree(session, Flat(ScannedChunks(codec, files)), 1) || CutFiles(codec, files) != files
      ensures r.Ok? ==> files == CutFiles(codec, old(files))
      ensures r.Ok? ==> r.value == IndexOf(session, files, ScannedChunks(codec, old(files)))
    {
      hide Scan;
      hide Flat;
      hide Messages;
      ghost var original := files;
      ghost var scanned := ScannedChunks(codec, files);
      ghost var cut := CutFiles(codec, files);
      var expected, recordCount, messageCount := 1, 0, 0;
      var segments: seq<SegmentInfo> := [];
      NothingFlat();
      assert scanned[..0] == [];
      for i := 0 to |files|
        invariant |files| == |original| == |scanned| && |segments| == i
        invariant forall j | 0 <= j < i :: files[j] == cut[j]
        invariant forall j | i <= j < |files| :: files[j] == original[j]
        invariant !recover ==> files == original
        invariant expected == |Flat(scanned[..i])| + 1 && recordCount == |Flat(scanned[..i])|
        invariant messageCount == Messages(Flat(scanned[..i]))
        invariant GapFree(session, Flat(scanned[..i]), 1)
        invariant forall j | 0 <= j < i :: segments[j] == InfoOf(cut[j], |Flat(scanned[..j])|, |scanned[j]|)
      {
        FlatSnoc(scanned, i);
        FlatPrefix(scanned, i + 1);
        var entries, validBytes, truncated, after := ScanSegment(codec, files[i].data, recover);
        if truncated && !recover {
          assert cut[i] != files[i];
          return Err(TornFrame);
        }
        files := files[i := files[i].(data := after)];
        var ok := ValidateSequence(session, entries, expected);
        if !ok {
          var j :| 0 <= j < |entries| && !(entries[j].seqNo == expected + j && entries[j].session == session);
          assert Flat(scanned[..i + 1])[|Flat(scanned[..i])| + j] == entries[j];
          return Err(SequenceMismatch);
        }
        var count := CountMessages(entries);
        MessagesConcat(Flat(scanned[..i]), entries);
        segments := segments + [SegmentInfo(files[i].path, expected, expected + |entries| - 1, |entries|, validBytes)];
        expected := expected + |entries|;
        recordCount := recordCount + |entries|;
        messageCount := messageCount + count;
      }
      assert scanned[..|files|] == scanned;
      assert files == cut;
      r := Ok(Index(session, expected - 1, recordCount, messageCount, segments));
      assert segments == IndexOf(session, files, scanned).segments;
    }

    /** `_recover_session_log`: trust the stored index when the last indexed segment has the indexed
        size, rebuild it otherwise or when asked to. */
    method Recover(full: bool) returns (r: Result<Index, LogError>)
      modifies this`files, this`index
      ensures !full && FastPath(old(files), old(index)) ==>
                files == old(files) && index == old(index) && r == Ok(index.value)
      ensures full || !FastPath(old(files), old(index)) ==>
                && (r.Ok? <==> GapFree(session, Flat(ScannedChunks(codec, old(files))), 1))
                && (r.Ok? ==>
                      && files == CutFiles(codec, old(files))
                      && index == Some(r.value)
                      && r.value == IndexOf(session, files, ScannedChunks(codec, old(files))))
    {
      if !full && index.Some? && index.value.segments != [] {
        var last := index.value.segments[|index.value.segments| - 1];
        for i := 0 to |files|
          invariant forall j | 0 <= j < i :: !(files[j].path == last.path && |files[j].data| == last.bytes)
        {
          if files[i].path == last.path && |files[i].data| == last.bytes {
            return Ok(index.value);
          }
        }
      }
      r := Build(true);
      if r.Ok? {
        index := Some(r.value);
      }
    }

    /** The recovery that every append starts with. It also gives a log without an index its index. */
    method RecoverForAppend() returns (current: Index)
      requires Valid()
      modifies this`files, this`index
      ensures Valid() && index == Some(current) && current == IndexOf(session, files, chunks)
      ensures files == CutFiles(codec, old(files))
    {
      hide Scan;
      hide FramesOf;
      hide Flat;
      hide Messages;
      hide GapFree;
      hide Stored;
      OnDiskScans(codec, session, files, index, chunks);
      var recovered := Recover(false);
      current := recovered.value;
    }

    /** `append_session_log_entries`. The entries the log already holds are skipped; the rest must
        continue it. One write extends the active segment or opens a new one, and then the stored
        index is edited to the very index a rebuild would compute. */
    method Append(entries: seq<Record>) returns (r: Result<nat, LogError>)
      requires Valid()
      modifies this
      ensures Valid() && (index.None? ==> old(index.None?) && entries == [])
      ensures
        var batch := Pending(entries, old(|Log()|));
        && (r.Ok? <==> GapFree(session, batch, old(|Log()|) + 1) && AllEncodable(codec, batch))
        && (r.Ok? <==> forall i | 0 <= i < |batch| ::
              && batch[i].seqNo == old(|Log()|) + 1 + i && batch[i].session == session
              && |codec.encode(batch[i])| <= 16777216)
        && (r.Err? ==> files == CutFiles(codec, old(files)) && Log() == old(Log()))
        && (r.Ok? ==> r.value == |batch| && Log() == old(Log()) + batch)
        && (r.Ok? && batch == [] ==> files == if entries == [] then old(files) else CutFiles(codec, old(files)))
        && (r.Ok? && batch != [] ==>
              && index == Some(IndexOf(session, files, chunks))
              && files == Crashed(codec, CutFiles(codec, old(files)), old(|Log()|) + 1, batch, |FramesOf(codec, batch)|)
              && var before, bytes := CutFiles(codec, old(files)), FramesOf(codec, batch);
              if before == [] || (before[|before| - 1].data != [] && |before[|before| - 1].data| + |bytes| > 67108864)
              then files == before + [Segment(old(|Log()|) + 1, bytes)]
              else files == before[..|before| - 1] + [Segment(before[|before| - 1].path, before[|before| - 1].data + bytes)])
    {
      hide Scan;
      hide FramesOf;
      hide Flat;
      hide Messages;
      hide Pending;
      NothingPending(|Log()|);
      if entries == [] {
        return Ok(0);
      }
      OnDiskScans(codec, session, files, index, chunks);
      var current := RecoverForAppend();
      var batch := SkipPersisted(entries, current.latestSeq);
      if batch == [] {
        return Ok(0);
      }
      var continues := ValidateSequence(session, batch, current.latestSeq + 1);
      if !continues {
        return Err(SequenceMismatch);
      }
      var encodable := EncodeAll(batch);
      if !encodable {
        return Err(OversizedRecord);
      }
      var payload := FramesOf(codec, batch);
      assert payload[..|payload|] == payload;
      AppendGoesTo(codec, session, files, chunks, payload);
      WriteBatch(current, batch, payload);
      r := Ok(|batch|);
    }

    method SkipPersisted(entries: seq<Record>, persisted: nat) returns (pending: seq<Record>)
      ensures pending == Pending(entries, persisted)
    {
      pending := [];
      for i := 0 to |entries|
        invariant pending == Pending(entries[..i], persisted)
      {
        assert entries[..i + 1][..i] == entries[..i];
        if entries[i].seqNo > persisted {
          pending := pending + [entries[i]];
        }
      }
      assert entries[..|entries|] == entries;
    }

    method EncodeAll(batch: seq<Record>) returns (ok: bool)
      ensures ok <==> AllEncodable(codec, batch)
    {
      for i := 0 to |batch|
        invariant forall j | 0 <= j < i :: Encodable(codec, batch[j])
      {
        if |codec.encode(batch[i])| > MAX_FRAME_BYTES {
          return false;
        }
      }
      return true;
    }

    method WriteBatch(current: Index, batch: seq<Record>, payload: Bytes)
      requires Valid() && index == Some(current)
      requires batch != [] && GapFree(session, batch, |Log()| + 1) && AllEncodable(codec, batch)
      requires payload == FramesOf(codec, batch)
      modifies this
      ensures Valid() && index == Some(IndexOf(session, files, chunks))
      ensures Log() == old(Log()) + batch
      ensures files == WriteTo(old(files), TargetPath(old(files), old(|Log()|) + 1, |payload|), payload)
    {
      hide Stored;
      hide FramesOf;
      hide Flat;
      hide Messages;
      hide IndexOf;
      hide GapFree;
      StoredShape(codec, session, files, chunks);
      SizeOfFlat(session, files, chunks);
      var opens := OpensFile(files, |payload|);
      if opens && files != [] {
        NamesAfterRotation(codec, session, files, chunks, |payload|);
      }
      AppendedFiles(codec, session, files, chunks, batch, payload);
      FlatOfAppendChunk(chunks, batch, opens);
      IndexedPath(session, files, chunks);
      var path := if opens then current.latestSeq + 1 else current.segments[|current.segments| - 1].path;
      var files', chunks' := WriteTo(files, path, payload), AppendChunk(chunks, batch, opens);
      AppendedIndex(session, files, chunks, batch, payload, path, files', chunks');
      index := Some(
        if opens then IndexedNewFile(current, path, batch, |payload|)
        else IndexedSameFile(current, |current.segments| - 1, batch, |files[|files| - 1].data| + |payload|));
      files, chunks := files', chunks';
    }

    /** `read_session_log`: segments the index rules out are not even opened. The result is the full
        log filtered by sequence number, and the closing sequence check never fails. */
    method Read(lo: Option<nat>, hi: Option<nat>) returns (r: Result<seq<Record>, LogError>)
      requires Valid()
      ensures r == Ok(Filtered(Log(), lo, hi))
    {
      hide Scan;
      hide FramesOf;
      hide Messages;
      hide Flat;
      hide Filtered;
      hide Stored;
      hide IndexOf;
      hide GapFree;
      OnDiskScans(codec, session, files, index, chunks);
      NothingFlat();
      assert chunks[..0] == [];
      var entries: seq<Record> := [];
      FilteredNothing(lo, hi);
      for i := 0 to |files|
        invariant entries == Filtered(Flat(chunks[..i]), lo, hi)
      {
        FlatSnoc(chunks, i);
        FilteredConcat(Flat(chunks[..i]), chunks[i], lo, hi);
        var pruned :=
          && index.Some? && (lo.Some? || hi.Some?)
          && (|| (lo.Some? && index.value.segments[i].endSeq < lo.value)
              || (hi.Some? && hi.value < index.value.segments[i].startSeq));
        if pruned {
          PrunedChunk(codec, session, files, chunks, i, lo, hi);
        } else {
          var records, _, _, _ := ScanSegment(codec, files[i].data, false);
          assert ScannedChunks(codec, files)[i] == chunks[i];
          var kept := Select(records, lo, hi);
          entries := entries + kept;
        }
      }
      assert chunks[..|files|] == chunks;
      FilteredIsGapFree(session, Flat(chunks), 1, lo, hi);
      if entries != [] {
        var ok := ValidateSequence(session, entries, entries[0].seqNo);
        if !ok {
          return Err(SequenceMismatch);
        }
      }
      r := Ok(entries);
    }

    method Select(records: seq<Record>, lo: Option<nat>, hi: Option<nat>) returns (kept: seq<Record>)
      ensures kept == Filtered(records, lo, hi)
    {
      kept := [];
      for i := 0 to |records|
        invariant kept == Filtered(records[..i], lo, hi)
      {
        assert records[..i + 1][..i] == records[..i];
        if lo.Some? && records[i].seqNo < lo.value {
          continue;
        }
        if hi.Some? && records[i].seqNo > hi.value {
          continue;
        }
        kept := kept + [records[i]];
      }
      assert records[..|records|] == records;
    }
  }

  lemma FilteredNothing(lo: Option<nat>, hi: Option<nat>)
    ensures Filtered([], lo, hi) == []
  {
  }

  /** A segment the index rules out holds nothing of the range. */
  lemma PrunedChunk(c: Codec, session: nat, files: seq<Segment>, chunks: seq<seq<Record>>, i: nat,
                    lo: Option<nat>, hi: Option<nat>)
    requires Stored(c, session, files, chunks) && i < |files|
    requires
      var info := IndexOf(session, files, chunks).segments[i];
      (lo.Some? && info.endSeq < lo.value) || (hi.Some? && hi.value < info.startSeq)
    ensures Filtered(chunks[i], lo, hi) == []
  {
    hide Filtered;
    hide FramesOf;
    hide Flat;
    hide Messages;
    ChunkIsGapFree(session, chunks, i);
    FilteredIsEmpty(chunks[i], lo, hi);
  }

  lemma ChunkIsGapFree(session: nat, chunks: seq<seq<Record>>, i: nat)
    requires i < |chunks| && GapFree(session, Flat(chunks), 1)
    ensures GapFree(session, chunks[i], |Flat(chunks[..i])| + 1)
  {
    FlatSnoc(chunks, i);
    FlatPrefix(chunks, i + 1);
    forall j | 0 <= j < |chunks[i]|
      ensures chunks[i][j] == Flat(chunks)[|Flat(chunks[..i])| + j]
    {
      assert Flat(chunks[..i + 1])[|Flat(chunks[..i])| + j] == chunks[i][j];
    }
  }

  lemma FastPathOnStored(c: Codec, session: nat, files: seq<Segment>, chunks: seq<seq<Record>>)
    requires Stored(c, session, files, chunks) && files != []
    ensures
      var last := IndexOf(session, files, chunks).segments[|files| - 1];
      last.path == files[|files| - 1].path && last.bytes == |files[|files| - 1].data|
    ensures forall i | 0 <= i < |files| - 1 :: files[i].path != files[|files| - 1].path
  {
    hide Messages;
    hide FramesOf;
    forall i | 0 <= i < |files| - 1
      ensures files[i].path != files[|files| - 1].path
    {
      NamesAscend(c, session, files, chunks, i, |files| - 1);
    }
  }

  /** The fast path after a crash. The stored index is still the one from before the batch. Not
      rescanning gives the same answer as a rebuild exactly when the batch had not opened a new
      segment: an interrupted rotation is invisible to the check, because it looks at the last
      indexed segment only. */
  lemma FastPathAfterCrash(c: Codec, session: nat, files: seq<Segment>, chunks: seq<seq<Record>>,
                           batch: seq<Record>, cut: nat, torn: seq<Segment>, stored: Index, rebuilt: Index)
    requires Lawful(c) && Stored(c, session, files, chunks)
    requires AllEncodable(c, batch) && GapFree(session, batch, |Flat(chunks)| + 1)
    requires cut <= |FramesOf(c, batch)|
    requires torn == Crashed(c, files, |Flat(chunks)| + 1, batch, cut)
    requires stored == IndexOf(session, files, chunks)
    requires rebuilt == IndexOf(session, CutFiles(c, torn), ScannedChunks(c, torn))
    ensures (if FastPath(torn, Some(stored)) then stored else rebuilt) == rebuilt
       <==> !Rotates(files, |FramesOf(c, batch)|)
  {
    hide Scan;
    hide FramesOf;
    hide Flat;
    hide Stored;
    hide GapFree;
    hide IndexOf;
    hide ScannedChunks;
    hide CutFiles;
    StoredShape(c, session, files, chunks);
    var bytes := |FramesOf(c, batch)|;
    SizeOfFlat(session, files, chunks);
    SizeOfFlat(session, CutFiles(c, torn), ScannedChunks(c, torn));
    ScanOfStored(c, session, files, chunks);
    if files != [] {
      FastPathOnStored(c, session, files, chunks);
      if Rotates(files, bytes) {
        NamesAfterRotation(c, session, files, chunks, bytes);
      }
    }
    if files != [] {
      var n := |files| - 1;
      var data := files[n].data + FramesOf(c, batch)[..cut];
      if Rotates(files, bytes) {
        assert torn == files + [Segment(|Flat(chunks)| + 1, FramesOf(c, batch)[..cut])];
        assert torn[n] == files[n];
      } else if cut == 0 {
        assert data == files[n].data;
        assert torn == files;
      } else {
      }
    }
  }
}
