/** The operation-local view of one SessionLog (src/kernel/session_log.py): entries appended during an
    operation wait in memory, a full read fills a cache, and everything is handed to storage on save. */
module LogViews {
  import opened Wrappers
  import opened Frames
  import opened SegmentStore
  import opened SessionStorage

  /** Nothing of a log is pending over itself, everything after it is. */
  lemma {:induction false} PendingOfLog(session: nat, log: seq<Record>, pending: seq<Record>)
    requires GapFree(session, log, 1) && GapFree(session, pending, |log| + 1)
    ensures Pending(log + pending, |log|) == pending
    decreases |log| + |pending|
  {
    var all := log + pending;
    if pending != [] {
      assert all[..|all| - 1] == log + pending[..|pending| - 1];
      PendingOfLog(session, log, pending[..|pending| - 1]);
    } else {
      assert all == log;
      PendingBelow(session, log, |log|);
    }
  }

  lemma {:induction false} PendingBelow(session: nat, rs: seq<Record>, persisted: nat)
    requires GapFree(session, rs, 1) && |rs| <= persisted
    ensures Pending(rs, persisted) == []
  {
    if rs != [] {
      PendingBelow(session, rs[..|rs| - 1], persisted);
    }
  }

  lemma {:induction false} PendingAbove(session: nat, rs: seq<Record>, persisted: nat)
    requires GapFree(session, rs, persisted + 1)
    ensures Pending(rs, persisted) == rs
  {
    if rs != [] {
      PendingAbove(session, rs[..|rs| - 1], persisted);
    }
  }

  lemma {:induction false} EntriesAfter(session: nat, rs: seq<Record>, start: nat, cursor: nat)
    requires GapFree(session, rs, start)
    ensures Filtered(rs, Some(cursor + 1), None) ==
            if cursor + 1 <= start then rs else if cursor + 1 <= start + |rs| then rs[cursor + 1 - start..] else []
  {
    if rs != [] {
      EntriesAfter(session, rs[..|rs| - 1], start, cursor);
    }
  }

  /** The dictionary of a list by sequence number; later entries win. */
  function BySeq(all: seq<Record>): map<nat, Record> {
    if all == [] then map[]
    else BySeq(all[..|all| - 1])[all[|all| - 1].seqNo := all[|all| - 1]]
  }

  /** Entries numbered from `start` over a list numbered from 1, taking its places where both have one. */
  function Merged(below: seq<Record>, above: seq<Record>, start: nat): seq<Record>
    requires 1 <= start <= |below| + 1
  {
    below[..start - 1] + above + if start - 1 + |above| < |below| then below[start - 1 + |above|..] else []
  }

  lemma MergedIsGapFree(session: nat, below: seq<Record>, above: seq<Record>, start: nat)
    requires 1 <= start <= |below| + 1 && GapFree(session, below, 1) && GapFree(session, above, start)
    ensures GapFree(session, Merged(below, above, start), 1) && |below| <= |Merged(below, above, start)|
    ensures start == |below| + 1 ==> Merged(below, above, start) == below + above
  {
  }

  /** Each place of a merge holds the entry above, if there is one, and otherwise the one below. */
  lemma MergedAt(below: seq<Record>, above: seq<Record>, start: nat, i: nat)
    requires 1 <= start <= |below| + 1
    ensures i < |Merged(below, above, start)| <==> i < |below| || start - 1 <= i < start - 1 + |above|
    ensures start - 1 <= i < start - 1 + |above| ==> Merged(below, above, start)[i] == above[i - (start - 1)]
    ensures i < |below| && !(start - 1 <= i < start - 1 + |above|) ==> Merged(below, above, start)[i] == below[i]
  {
  }

  /** `m` is the dictionary of a list numbered from 1. */
  ghost predicate NumberedFromOne(m: map<nat, Record>, list: seq<Record>) {
    && (forall s: nat :: s in m <==> 1 <= s <= |list|)
    && (forall s: nat | s in m :: m[s] == list[s - 1])
  }

  lemma {:induction false} BySeqOfLog(session: nat, log: seq<Record>)
    requires GapFree(session, log, 1)
    ensures NumberedFromOne(BySeq(log), log)
  {
    if log != [] {
      BySeqOfLog(session, log[..|log| - 1]);
    }
  }

  /** Put an entry at a position of a list, or right behind it. */
  function Put(list: seq<Record>, i: nat, e: Record): seq<Record>
    requires i <= |list|
  {
    if i < |list| then list[i := e] else list + [e]
  }

  lemma NumberedPut(m: map<nat, Record>, list: seq<Record>, i: nat, e: Record)
    requires NumberedFromOne(m, list) && i <= |list|
    ensures NumberedFromOne(m[i + 1 := e], Put(list, i, e))
  {
  }

  lemma MergedPut(below: seq<Record>, above: seq<Record>, start: nat, e: Record)
    requires 1 <= start <= |below| + 1
    ensures start - 1 + |above| <= |Merged(below, above, start)|
    ensures Merged(below, above + [e], start) == Put(Merged(below, above, start), start - 1 + |above|, e)
  {
  }

  lemma {:induction false} BySeqOf(session: nat, below: seq<Record>, above: seq<Record>, start: nat)
    requires GapFree(session, below, 1) && GapFree(session, above, start) && 1 <= start <= |below| + 1
    ensures NumberedFromOne(BySeq(below + above), Merged(below, above, start))
  {
    hide Put;
    hide NumberedFromOne;
    if above == [] {
      assert below + above == below;
      MergedNothing(below, start);
      BySeqOfLog(session, below);
    } else {
      var n := |above| - 1;
      var e := above[n];
      assert above == above[..n] + [e];
      assert (below + above)[..|below + above| - 1] == below + above[..n];
      BySeqOf(session, below, above[..n], start);
      MergedPut(below, above[..n], start, e);
      NumberedPut(BySeq(below + above[..n]), Merged(below, above[..n], start), start - 1 + n, e);
    }
  }

  lemma MergedNothing(below: seq<Record>, start: nat)
    requires 1 <= start <= |below| + 1
    ensures Merged(below, [], start) == below
  {
  }

  /** Of a list numbered from 1, what lies after position `n`. */
  function Beyond(rs: seq<Record>, n: nat): seq<Record> {
    if |rs| <= n then [] else rs[n..]
  }

  lemma {:induction false} PendingBeyond(session: nat, rs: seq<Record>, n: nat)
    requires GapFree(session, rs, 1)
    ensures Pending(rs, n) == Beyond(rs, n)
  {
    if |rs| > n {
      PendingBeyond(session, rs[..|rs| - 1], n);
      assert Beyond(rs, n) == Beyond(rs[..|rs| - 1], n) + [rs[|rs| - 1]];
    } else {
      PendingBelow(session, rs, n);
    }
  }

  lemma BeyondIsGapFree(session: nat, rs: seq<Record>, n: nat)
    requires GapFree(session, rs, 1)
    ensures GapFree(session, Beyond(rs, n), n + 1)
  {
  }

  class OperationLog {
    const storage: SessionLog
    /** The deduplication key of an entry, if it has one. */
    const keyOf: Record -> Option<string>
    /** `state["session_logs"][session]`. */
    var entries: seq<Record>
    /** Whether `entries` has been filled with the persisted log as well. */
    var full: bool
    /** What this operation has appended. */
    ghost var pending: seq<Record>

    /** Numbers continue the log on disk: it has an index to read the last one from, or it holds nothing. */
    ghost predicate Numbered()
      reads this, storage
    {
      storage.index.Some? || storage.Log() == []
    }

    ghost predicate Valid()
      reads this, storage
    {
      && storage.Valid()
      && (if full then GapFree(storage.session, entries, 1) && |storage.Log()| <= |entries|
          else entries == pending && GapFree(storage.session, entries, Persisted() + 1))
      && (Numbered() && full ==> entries == storage.Log() + pending)
    }

    /** The last sequence number that the index knows. */
    ghost function Persisted(): nat
      reads this, storage
    {
      if storage.index.None? then 0 else |storage.Log()|
    }

    /** The log as this operation sees it, whatever has been cached. */
    ghost function View(): seq<Record>
      reads this, storage
    {
      if full then entries else storage.Log() + entries
    }

    constructor (storage: SessionLog, keyOf: Record -> Option<string>)
      requires storage.Valid()
      ensures Valid() && View() == storage.Log() && pending == [] && !full
      ensures this.storage == storage && this.keyOf == keyOf
    {
      this.storage, this.keyOf := storage, keyOf;
      entries, full, pending := [], false, [];
    }

    /** The view of a log whose numbers continue is what is on disk followed by what was appended. */
    lemma NumberedView()
      requires Valid() && Numbered()
      ensures View() == storage.Log() + pending
    {
    }

    /** A view is gap-free from sequence 1, except where the log on disk has no index and entries were
        appended before it was read: those are numbered from 1 again. */
    lemma ViewIsGapFree()
      requires Valid()
      ensures GapFree(storage.session, View(), 1) <==> full || Numbered() || pending == []
    {
      StoredLogIsGapFree();
      if !full && !Numbered() && pending != [] {
        assert View()[|storage.Log()|] == pending[0];
      }
    }

    lemma StoredLogIsGapFree()
      requires storage.Valid()
      ensures GapFree(storage.session, storage.Log(), 1)
      ensures storage.index.Some? ==> storage.index.value.latestSeq == |storage.Log()|
    {
      OnDiskScans(storage.codec, storage.session, storage.files, storage.index, storage.chunks);
    }

    method PersistedSeq() returns (n: nat)
      requires storage.Valid()
      ensures n == Persisted()
    {
      StoredLogIsGapFree();
      n := if storage.index.None? then 0 else storage.index.value.latestSeq;
    }

    /** The number the next entry gets. */
    ghost function NextSeq(): nat
      reads this, storage
    {
      (if full then |entries| else Persisted() + |entries|) + 1
    }

    /** `_latest_session_log_seq`. */
    method Latest() returns (n: nat)
      requires Valid()
      ensures n + 1 == NextSeq()
    {
      StoredLogIsGapFree();
      var persisted := PersistedSeq();
      var last := if entries == [] then 0 else entries[|entries| - 1].seqNo;
      n := if last > persisted then last else persisted;
    }

    /** `_append_session_log_entry`. A key already among the loaded entries makes it a no-op; otherwise the
        entry gets the number after the last one that the index or the loaded entries have. */
    method Append(isMessage: bool, body: string)
      requires Valid()
      modifies this
      ensures Valid() && full == old(full)
      ensures old(Numbered()) ==> old(NextSeq()) == old(|View()|) + 1
      ensures
        var entry := Record(old(NextSeq()), storage.session, isMessage, body);
        if keyOf(entry).Some? && exists e | e in old(entries) :: keyOf(e) == keyOf(entry)
        then entries == old(entries) && pending == old(pending)
        else entries == old(entries) + [entry] && pending == old(pending) + [entry]
    {
      hide Flat;
      hide FramesOf;
      hide Stored;
      hide IndexOf;
      hide Lawful;
      hide OnDisk;
      hide GapFree;
      var latest := Latest();
      var nextSeq := latest + 1;
      var entry := Record(nextSeq, storage.session, isMessage, body);
      var key := keyOf(entry);
      if key.Some? {
        for i := 0 to |entries|
          invariant forall j | 0 <= j < i :: keyOf(entries[j]) != key
        {
          if keyOf(entries[i]) == key {
            assert entries[i] in entries;
            return;
          }
        }
      }
      NextContinues(entry);
      entries, pending := entries + [entry], pending + [entry];
    }

    lemma NextContinues(entry: Record)
      requires Valid() && entry.seqNo == NextSeq() && entry.session == storage.session
      ensures full ==> GapFree(storage.session, entries + [entry], 1)
      ensures !full ==> GapFree(storage.session, entries + [entry], Persisted() + 1)
      ensures Numbered() ==> NextSeq() == |View()| + 1
    {
    }

    /** `_session_log_entries`: the full log, cached from then on. Entries numbered from 1 over a log
        without an index take the places of the ones on disk. */
    method Entries() returns (r: seq<Record>)
      requires Valid()
      modifies this`entries, this`full
      ensures Valid() && full && r == entries
      ensures r == if old(full) then old(entries)
                   else Merged(storage.Log(), old(entries), Persisted() + 1)
      ensures old(Numbered()) ==> View() == old(View())
    {
      hide Flat;
      hide FramesOf;
      hide Stored;
      hide IndexOf;
      hide Lawful;
      hide OnDisk;
      hide Filtered;
      if !full {
        StoredLogIsGapFree();
        ghost var appended := entries;
        var persisted := storage.Read(None, None);
        FilteredAll(storage.Log());
        entries := MergeBySeq(persisted.value + entries, storage.Log(), appended, Persisted() + 1);
        MergedIsGapFree(storage.session, storage.Log(), appended, Persisted() + 1);
        full := true;
      }
      r := entries;
    }

    /** `{seq: entry}` over the persisted and the pending entries, then back to a list in the order of
        the sequence numbers. */
    method MergeBySeq(all: seq<Record>, ghost below: seq<Record>, ghost above: seq<Record>, ghost start: nat)
      returns (merged: seq<Record>)
      requires all == below + above && GapFree(storage.session, below, 1)
      requires GapFree(storage.session, above, start) && 1 <= start <= |below| + 1
      ensures merged == Merged(below, above, start)
    {
      hide GapFree;
      var bySeq: map<nat, Record> := map[];
      var top: nat := 0;
      for i := 0 to |all|
        invariant bySeq == BySeq(all[..i])
        invariant forall s | s in bySeq :: s <= top
        invariant top == 0 || top in bySeq
      {
        assert all[..i + 1][..i] == all[..i];
        bySeq := bySeq[all[i].seqNo := all[i]];
        if all[i].seqNo > top {
          top := all[i].seqNo;
        }
      }
      assert all[..|all|] == all;
      BySeqOf(storage.session, below, above, start);
      ghost var expected := Merged(below, above, start);
      merged := [];
      for s := 0 to top + 1
        invariant |merged| == if s == 0 then 0 else s - 1
        invariant forall j | 0 <= j < |merged| :: j < |expected| && merged[j] == expected[j]
      {
        if s in bySeq {
          merged := merged + [bySeq[s]];
        }
      }
      assert top == |expected|;
    }

    lemma FilteredAll(rs: seq<Record>)
      ensures Filtered(rs, None, None) == rs
    {
      if rs != [] {
        FilteredAll(rs[..|rs| - 1]);
      }
    }

    /** `_session_log_after_cursor`: from the cache when it is full, otherwise from a ranged read of
        storage and the waiting entries. Where numbers continue the answer does not depend on which. */
    method After(cursor: nat) returns (r: seq<Record>)
      requires Valid()
      ensures r == Filtered(View(), Some(cursor + 1), None)
      ensures Numbered() && cursor <= |View()| ==> r == View()[cursor..]
    {
      StoredLogIsGapFree();
      if Numbered() {
        ViewIsGapFree();
        EntriesAfter(storage.session, View(), 1, cursor);
      }
      var found := entries;
      if !full {
        FilteredConcat(storage.Log(), entries, Some(cursor + 1), None);
        var persisted := storage.Read(Some(cursor + 1), None);
        found := persisted.value + entries;
        FilteredTwice(storage.Log(), Some(cursor + 1), None);
        FilteredConcat(persisted.value, entries, Some(cursor + 1), None);
      }
      r := storage.Select(found, Some(cursor + 1), None);
    }

    lemma {:induction false} FilteredTwice(rs: seq<Record>, lo: Option<nat>, hi: Option<nat>)
      ensures Filtered(Filtered(rs, lo, hi), lo, hi) == Filtered(rs, lo, hi)
    {
      if rs != [] {
        FilteredTwice(rs[..|rs| - 1], lo, hi);
        var rest := Filtered(rs[..|rs| - 1], lo, hi);
        var last := rs[|rs| - 1];
        assert (rest + [last])[..|rest|] == rest;
      }
    }

    /** What a save writes: the appended entries where numbers continue the log, and otherwise only those
        loaded entries whose numbers lie beyond what is on disk. */
    ghost function Written(): seq<Record>
      reads this, storage
    {
      if Numbered() then pending else Beyond(entries, |storage.Log()|)
    }

    lemma WrittenIsPending()
      requires Valid()
      ensures Pending(entries, |storage.Log()|) == Written()
      ensures GapFree(storage.session, Written(), |storage.Log()| + 1)
    {
      hide OnDisk;
      hide Flat;
      StoredLogIsGapFree();
      if !Numbered() {
        PendingBeyond(storage.session, entries, |storage.Log()|);
        BeyondIsGapFree(storage.session, entries, |storage.Log()|);
      } else if full {
        assert forall i | 0 <= i < |pending| :: pending[i] == entries[|storage.Log()| + i];
        PendingOfLog(storage.session, storage.Log(), pending);
      } else {
        PendingAbove(storage.session, pending, |storage.Log()|);
      }
    }

    /** Saving hands all loaded entries to storage, cached or not. Unless a record is too large for a frame it
        succeeds, never with a sequence mismatch. Where numbers continue the log it writes everything
        appended; over a log without an index it keeps what is on disk and silently drops the entries
        whose numbers are taken. */
    method Save() returns (r: Result<nat, LogError>)
      requires Valid()
      modifies storage
      ensures storage.Valid()
      ensures r.Ok? <==> AllEncodable(storage.codec, old(Written()))
      ensures r.Ok? ==> r.value == |old(Written())| && storage.Log() == old(storage.Log()) + old(Written())
      ensures r.Ok? && old(Numbered()) ==> storage.Log() == old(View())
      ensures r.Err? ==> storage.Log() == old(storage.Log())
    {
      hide Beyond;
      hide Pending;
      hide GapFree;
      hide OnDisk;
      hide Flat;
      WrittenIsPending();
      if Numbered() {
        NumberedView();
      }
      r := storage.Append(entries);
    }

    /** A save over entries that were appended before the log was read keeps them all if and only if the
        numbers continue the log on disk. */
    lemma SaveKeepsEverything()
      requires Valid() && !full && pending != []
      ensures Written() == pending <==> Numbered()
    {
      if !Numbered() {
        assert |Beyond(pending, |storage.Log()|)| < |pending|;
      }
    }
  }
}
