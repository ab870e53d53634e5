/**
 The shard object that consumes its write-ahead log. Every durable effect of ConsumeWAL and Rollback
 is recorded as an event of the consumer machine, so that whatever fails, what the methods did is a
 run of it.
 */
module WalShard {
  import opened Wrappers
  import opened WalMerge
  import opened WalConsumer

  function Group(w: MergeDocs, g: ShardRef): map<Id, WalDoc> {
    if g in w then w[g] else map[]
  }

  /** Equal up to groups without documents, which Reset leaves behind. */
  ghost predicate SameGroups(a: MergeDocs, b: MergeDocs) {
    forall g :: Group(a, g) == Group(b, g)
  }

  lemma AddRespectsGroups(a: MergeDocs, b: MergeDocs, e: Entry)
    requires SameGroups(a, b)
    ensures SameGroups(AddDocument(a, e), AddDocument(b, e))
  {
    forall g ensures Group(AddDocument(a, e), g) == Group(AddDocument(b, e), g) {
      assert Group(a, g) == Group(b, g);
    }
  }

  /** Merging one entry more. */
  lemma MergeOneMore(w: MergeDocs, entries: seq<Entry>, e: Entry)
    requires SameGroups(w, MergeAll(entries))
    ensures SameGroups(AddDocument(w, e), MergeAll(entries + [e]))
  {
    AddRespectsGroups(w, MergeAll(entries), e);
    assert (entries + [e])[..|entries + [e]| - 1] == entries;
  }

  /** A merge is without documents exactly if nothing was merged. */
  lemma MergedIsEmpty(w: MergeDocs, entries: seq<Entry>)
    requires SameGroups(w, MergeAll(entries))
    ensures (forall g :: g in w ==> w[g] == map[]) <==> entries == []
  {
    if entries != [] {
      var last := entries[|entries| - 1];
      assert last.id in Group(MergeAll(entries), last.shard);
      assert Group(w, last.shard) == Group(MergeAll(entries), last.shard);
    } else {
      forall g | g in w ensures w[g] == map[] {
        assert Group(w, g) == Group(MergeAll(entries), g);
      }
    }
  }

  method MaxShardLen(w: MergeDocs) returns (n: nat)
    ensures forall g :: g in w ==> |w[g]| <= n
    ensures n > 0 ==> exists g :: g in w && |w[g]| == n
  {
    n := 0;
    var todo := w.Keys;
    while todo != {}
      invariant todo <= w.Keys
      invariant forall g :: g in w && g !in todo ==> |w[g]| <= n
      invariant n > 0 ==> exists g :: g in w && |w[g]| == n
      decreases |todo|
    {
      var g :| g in todo;
      if |w[g]| > n {
        n := |w[g]|;
      }
      todo := todo - {g};
    }
  }

  /** Empties every group and keeps its key. */
  method Reset(w: MergeDocs) returns (r: MergeDocs)
    ensures SameGroups(r, MergeAll([])) && r.Keys == w.Keys
  {
    r := map g | g in w :: map[];
  }

  /** Reads the entries numbered readMin..readMax and merges them. */
  method Collect(log: seq<Record>, first: nat, readMin: nat, readMax: nat) returns (entries: seq<Entry>)
    requires 1 <= readMin <= readMax <= |log| && first <= readMin && AllParsed(log, readMin - 1, readMax)
    ensures Spans(log, entries, readMin, readMax)
  {
    entries := [];
    var docs: MergeDocs := map[];
    var minID := readMin;
    while minID <= readMax
      invariant readMin <= minID <= readMax + 1 && Spans(log, entries, readMin, minID - 1)
      invariant SameGroups(docs, MergeAll(entries))
      decreases readMax + 1 - minID
    {
      MergeOneMore(docs, entries, log[minID - 1].entry);
      docs := AddDocument(docs, log[minID - 1].entry);
      entries := entries + [log[minID - 1].entry];
      minID := minID + 1;
    }
  }

  /** What the consumer is about to read has not been truncated. */
  lemma NextIsThere(trace: seq<Event>, s: State)
    requires Led(trace, s) && s.consumer.Reading? && s.consumer.next <= s.consumer.max
    ensures Retained(s, s.consumer.next)
  {
    assert Exec(trace) == Some(s);
    RunsKeepInv(trace);
  }

  lemma CommittedIsLogged(trace: seq<Event>, s: State)
    requires Led(trace, s)
    ensures Committed(s) <= |s.log|
  {
    assert Exec(trace) == Some(s);
    RunsKeepInv(trace);
  }

  // ------------------------------------------------------------------- batch sizes

  /*
   The predicates about sizes bind a variable for the entries or commits that they are about. It keeps them
   folded up in the methods, where only their names matter.
   */

  ghost predicate RoomIn(entries: seq<Entry>, batchSize: nat) {
    entries == [] || forall g :: |Group(MergeAll(entries), g)| < batchSize
  }

  /** Nothing is merged yet, or every group has room for one more document. */
  ghost predicate HasRoom(entries: seq<Entry>, batchSize: nat) {
    forall t :: t == entries ==> RoomIn(t, batchSize)
  }

  ghost predicate NoneOver(entries: seq<Entry>, batchSize: nat) {
    forall g :: |Group(MergeAll(entries), g)| <= if batchSize == 0 then 1 else batchSize
  }

  /** No group has more documents than the batch size, or than one. */
  ghost predicate Fits(entries: seq<Entry>, batchSize: nat) {
    forall t :: t == entries ==> NoneOver(t, batchSize)
  }

  ghost predicate SomeFull(entries: seq<Entry>, batchSize: nat) {
    exists g :: |Group(MergeAll(entries), g)| >= batchSize
  }

  /** Some group has as many documents as the batch size. */
  ghost predicate IsFull(entries: seq<Entry>, batchSize: nat) {
    forall t :: t == entries ==> SomeFull(t, batchSize)
  }

  lemma OneMoreFits(entries: seq<Entry>, e: Entry, batchSize: nat)
    requires HasRoom(entries, batchSize)
    ensures Fits(entries + [e], batchSize)
  {
    assert RoomIn(entries, batchSize);
    assert (entries + [e])[..|entries|] == entries;
    forall g ensures |Group(MergeAll(entries + [e]), g)| <= |Group(MergeAll(entries), g)| + 1 {}
    assert NoneOver(entries + [e], batchSize);
  }

  lemma LargestGroup(w: MergeDocs, entries: seq<Entry>, n: nat, batchSize: nat)
    requires SameGroups(w, MergeAll(entries)) && forall g :: g in w ==> |w[g]| <= n
    requires n > 0 ==> exists g :: g in w && |w[g]| == n
    ensures n >= batchSize ==> IsFull(entries, batchSize)
    ensures n < batchSize ==> HasRoom(entries, batchSize)
  {
    forall g ensures |Group(MergeAll(entries), g)| <= n { assert Group(w, g) == Group(MergeAll(entries), g); }
    if n > 0 {
      var g :| g in w && |w[g]| == n;
      assert Group(w, g) == Group(MergeAll(entries), g);
      assert n >= batchSize ==> SomeFull(entries, batchSize);
    } else {
      assert |Group(MergeAll(entries), Latest)| >= 0;
      assert n >= batchSize ==> SomeFull(entries, batchSize);
    }
    assert n < batchSize ==> RoomIn(entries, batchSize);
  }

  /** Whether a group has grown to the batch size. */
  method ReachesBatchSize(docs: MergeDocs, batchSize: nat, ghost entries: seq<Entry>) returns (full: bool)
    requires SameGroups(docs, MergeAll(entries))
    ensures full ==> IsFull(entries, batchSize)
    ensures !full ==> HasRoom(entries, batchSize)
  {
    var largest := MaxShardLen(docs);
    LargestGroup(docs, entries, largest, batchSize);
    full := largest >= batchSize;
  }

  ghost predicate FitsRange(log: seq<Record>, range: (nat, nat), batchSize: nat) {
    1 <= range.0 <= range.1 <= |log| && Fits(Payload(log, range.0 - 1, range.1), batchSize)
  }

  ghost predicate FullRange(log: seq<Record>, range: (nat, nat), batchSize: nat) {
    1 <= range.0 <= range.1 <= |log| && IsFull(Payload(log, range.0 - 1, range.1), batchSize)
  }

  ghost predicate EachFits(log: seq<Record>, commits: seq<(nat, nat)>, n: nat, m: int, batchSize: nat) {
    forall k: nat :: n <= k < |commits| ==>
      FitsRange(log, commits[k], batchSize) && (k < m ==> FullRange(log, commits[k], batchSize))
  }

  /** The ranges from the n-th on fit, and all of them before the m-th are full. */
  ghost predicate InBatches(log: seq<Record>, commits: seq<(nat, nat)>, n: nat, m: int, batchSize: nat) {
    forall t :: t == commits ==> EachFits(log, t, n, m, batchSize)
  }

  lemma NoBatchesYet(log: seq<Record>, commits: seq<(nat, nat)>, m: int, batchSize: nat)
    ensures InBatches(log, commits, |commits|, m, batchSize)
  {
    assert EachFits(log, commits, |commits|, m, batchSize);
  }

  lemma AllButLast(log: seq<Record>, commits: seq<(nat, nat)>, n: nat, batchSize: nat)
    requires InBatches(log, commits, n, |commits|, batchSize)
    ensures InBatches(log, commits, n, |commits| - 1, batchSize)
  {
    assert EachFits(log, commits, n, |commits|, batchSize);
    assert EachFits(log, commits, n, |commits| - 1, batchSize);
  }

  lemma CommitBatch(log: seq<Record>, commits: seq<(nat, nat)>, n: nat, startID: nat, minID: nat, batch: seq<Entry>,
                    batchSize: nat)
    requires InBatches(log, commits, n, |commits|, batchSize) && startID <= minID
    requires Spans(log, batch, startID, minID) && Fits(batch, batchSize)
    ensures InBatches(log, commits + [(startID, minID)], n, |commits|, batchSize)
    ensures IsFull(batch, batchSize) ==> InBatches(log, commits + [(startID, minID)], n, |commits| + 1, batchSize)
  {
    assert EachFits(log, commits, n, |commits|, batchSize);
    assert FitsRange(log, (startID, minID), batchSize);
    assert EachFits(log, commits + [(startID, minID)], n, |commits|, batchSize);
    if IsFull(batch, batchSize) {
      assert FullRange(log, (startID, minID), batchSize);
      assert EachFits(log, commits + [(startID, minID)], n, |commits| + 1, batchSize);
    }
  }

  lemma RoomFits(entries: seq<Entry>, batchSize: nat)
    requires HasRoom(entries, batchSize)
    ensures Fits(entries, batchSize)
  {
    assert RoomIn(entries, batchSize);
    assert NoneOver(entries, batchSize);
  }

  lemma ReadingSpans(trace: seq<Event>, s: State)
    requires Led(trace, s) && s.consumer.Reading?
    ensures s.consumer.next >= 1 && Spans(s.log, s.consumer.docs, s.consumer.start, s.consumer.next - 1)
  {
    assert Exec(trace) == Some(s);
    RunsKeepInv(trace);
  }

  // ------------------------------------------------------------------------ the object

  /** A step of a run that fails, known by the last entry it is about. */
  datatype Fault = ReadFault(id: nat) | MarkFault(id: nat) | WriteFault(id: nat) | CommitFault(id: nat)
    | TruncateFault(id: nat)

  class IndexShard {
    const batchSize: nat
    var log: seq<Record>
    var first: nat
    var readMark: Option<(nat, nat)>
    var writeMark: Option<(nat, nat)>
    /** What the object has done so far and the machine state it led to. */
    ghost var trace: seq<Event>
    ghost var state: State

    /** The fields are the durable part of the machine's state. */
    ghost predicate Follows(consumer: Consumer)
      reads this
    {
      && Led(trace, state)
      && state.log == log && state.first == first && state.readMark == readMark && state.writeMark == writeMark
      && state.consumer == consumer
    }

    ghost predicate Valid()
      reads this
    {
      Follows(Idle)
    }

    constructor (batchSize: nat)
      ensures Valid() && trace == [] && this.batchSize == batchSize
    {
      this.batchSize := batchSize;
      log, first, readMark, writeMark, trace, state := [], 1, None, None, [], INIT;
    }

    ghost method Record(e: Event)
      requires Led(trace, state) && Enabled(state, e)
      modifies `trace, `state
      ensures trace == old(trace) + [e] && state == Next(old(state), e)
      ensures Led(trace, state)
    {
      LedOneMore(trace, state, e);
      trace, state := trace + [e], Next(state, e);
    }

    method Append(r: Record)
      requires Valid()
      modifies `log, `trace, `state
      ensures Valid() && log == old(log) + [r] && trace == old(trace) + [Event.Append(r)]
    {
      Record(Event.Append(r));
      log := log + [r];
    }

    /** Brackets the write of the merged documents with the two markers; any of the three may fail. */
    method Flush(startID: nat, minID: nat, docs: MergeDocs, faults: set<Fault>, ghost max: nat,
                 ghost pending: seq<Entry>) returns (ok: bool)
      requires Follows(Reading(startID, minID + 1, max, pending)) && pending != [] && startID <= minID
      requires SameGroups(docs, MergeAll(pending))
      modifies `readMark, `writeMark, `trace, `state
      ensures old(trace) < trace
      ensures ok <==> MarkFault(minID) !in faults && WriteFault(minID) !in faults && CommitFault(minID) !in faults
      ensures ok ==> Follows(Reading(minID + 1, minID + 1, max, [])) && writeMark == Some((startID, minID))
      ensures ok ==> state.commits == old(state).commits + [(startID, minID)]
      ensures !ok ==> Follows(Idle) && trace[|trace| - 1].Fail? && writeMark == old(writeMark)
      ensures !ok ==> state.commits == old(state).commits
    {
      if MarkFault(minID) in faults {
        Record(Fail);
        return false;
      }
      Record(Mark);
      readMark := Some((startID, minID));
      if WriteFault(minID) in faults {
        Record(Fail);
        return false;
      }
      Record(Write);
      if CommitFault(minID) in faults {
        Record(Fail);
        return false;
      }
      Record(Commit);
      writeMark := Some((startID, minID));
      return true;
    }

    method ReadLastCommitted() returns (id: nat)
      requires Valid()
      ensures id == Committed(state)
    {
      id := if writeMark.None? then 0 else writeMark.value.1;
    }

    /**
     Entries startID..minID - 1 are read, merged in docs, and not yet written; the n-th commit and those behind it
     were of full batches.
     */
    ghost predicate Position(startID: nat, minID: nat, max: nat, docs: MergeDocs, pending: seq<Entry>, n: nat)
      reads this
    {
      Grown(startID, minID, max, docs, pending, n) && HasRoom(pending, batchSize)
    }

    /** The same, with a batch that may be full. */
    ghost predicate Grown(startID: nat, minID: nat, max: nat, docs: MergeDocs, pending: seq<Entry>, n: nat)
      reads this
    {
      && Follows(Reading(startID, minID, max, pending)) && Committed(state) + 1 == startID
      && |pending| == minID - startID && minID <= max + 1 && SameGroups(docs, MergeAll(pending))
      && n <= |state.commits| && InBatches(log, state.commits, n, |state.commits|, batchSize)
    }

    /** Reads one entry and merges it; reading or parsing may fail. */
    method ReadEntry(minID: nat, docs: MergeDocs, faults: set<Fault>, ghost startID: nat, ghost max: nat,
                     ghost pending: seq<Entry>, ghost n: nat)
      returns (ok: bool, docs': MergeDocs, ghost pending': seq<Entry>)
      requires Position(startID, minID, max, docs, pending, n) && minID <= max
      modifies `trace, `state
      ensures old(trace) < trace && state.commits == old(state).commits
      ensures ok <==> 1 <= minID <= |log| && ReadFault(minID) !in faults && log[minID - 1].Parsed?
      ensures ok ==> Grown(startID, minID + 1, max, docs', pending', n) && pending' != [] && Fits(pending', batchSize)
      ensures !ok ==> Follows(Idle) && trace[|trace| - 1].Fail?
    {
      NextIsThere(trace, state);
      docs', pending' := docs, pending;
      if ReadFault(minID) in faults || log[minID - 1].Garbled? {
        Record(Fail);
        return false, docs', pending';
      }
      var entry := log[minID - 1].entry;
      Record(ReadOne);
      MergeOneMore(docs, pending, entry);
      OneMoreFits(pending, entry, batchSize);
      docs', pending' := AddDocument(docs, entry), pending + [entry];
      ok := true;
    }

    /** One round of the loop: reads an entry, and writes the batch once a group of it is large enough. */
    method ConsumeOne(startID: nat, minID: nat, docs: MergeDocs, faults: set<Fault>, ghost max: nat,
                      ghost pending: seq<Entry>, ghost n: nat)
      returns (ok: bool, startID': nat, docs': MergeDocs, ghost pending': seq<Entry>)
      requires Position(startID, minID, max, docs, pending, n) && minID <= max
      modifies `readMark, `writeMark, `trace, `state
      ensures old(trace) < trace
      ensures ok ==> Position(startID', minID + 1, max, docs', pending', n) && old(state).commits <= state.commits
      ensures ok ==> 1 <= minID <= |log| && ReadFault(minID) !in faults && log[minID - 1].Parsed?
      ensures faults == {} && 1 <= minID <= |log| && log[minID - 1].Parsed? ==> ok
      ensures !ok ==> Follows(Idle) && trace[|trace| - 1].Fail? && old(state).commits <= state.commits
      ensures !ok ==> InBatches(log, state.commits, n, |state.commits|, batchSize)
    {
      startID' := startID;
      ok, docs', pending' := ReadEntry(minID, docs, faults, startID, max, pending, n);
      if !ok {
        return;
      }
      var full := ReachesBatchSize(docs', batchSize, pending');
      if full {
        ok, docs' := FlushFull(startID, minID, docs', faults, max, pending', n);
        pending' := [];
        startID' := minID + 1;
      }
    }

    /** Writes a full batch and empties the groups. */
    method FlushFull(startID: nat, minID: nat, docs: MergeDocs, faults: set<Fault>, ghost max: nat,
                     ghost pending: seq<Entry>, ghost n: nat) returns (ok: bool, docs': MergeDocs)
      requires Grown(startID, minID + 1, max, docs, pending, n) && pending != []
      requires Fits(pending, batchSize) && IsFull(pending, batchSize)
      modifies `readMark, `writeMark, `trace, `state
      ensures old(trace) < trace
      ensures ok ==> Position(minID + 1, minID + 1, max, docs', [], n) && old(state).commits <= state.commits
      ensures faults == {} ==> ok
      ensures !ok ==> Follows(Idle) && trace[|trace| - 1].Fail? && state.commits == old(state).commits
    {
      ReadingSpans(trace, state);
      CommitBatch(log, state.commits, n, startID, minID, pending, batchSize);
      ok := Flush(startID, minID, docs, faults, max, pending);
      docs' := Reset(docs);
      assert HasRoom([], batchSize) by { assert RoomIn([], batchSize); }
    }

    /**
     Consumes at most MAX_BATCH_SIZE entries past the last committed one, in batches that are written as soon as a
     group of one has grown to the batch size. The result says whether the whole run of entries got committed,
     and it did if there was anything new and no step failed; of a failed run the full batches before the failure
     are committed.
     */
    method ConsumeWAL(faults: set<Fault>) returns (updated: bool)
      requires Valid()
      modifies `first, `readMark, `writeMark, `trace, `state
      ensures Valid() && old(trace) <= trace && Committed(old(state)) <= |log|
      ensures updated ==>
                && Committed(old(state)) < |log|
                && Committed(state) == (if |log| - Committed(old(state)) > 10240 then Committed(old(state)) + 10240
                                        else |log|)
                && forall id: nat :: Committed(old(state)) < id <= Committed(state) ==>
                     ReadFault(id) !in faults && log[id - 1].Parsed?
      ensures updated ==>
                old(trace) < trace && (first == TruncateFront(old(first), Committed(state)) || trace[|trace| - 1].Fail?)
      ensures !updated ==>
                || (trace == old(trace) && Committed(state) == |log|)
                || (old(trace) < trace && trace[|trace| - 1].Fail?)
      ensures faults == {} && Committed(old(state)) < |log| &&
              AllParsed(log, Committed(old(state)), LastOfRun(|log|, Committed(old(state)))) ==>
                updated && first == TruncateFront(old(first), Committed(state))
      ensures old(state).commits <= state.commits
      ensures InBatches(log, state.commits, |old(state).commits|, |state.commits| - 1, batchSize)
    {
      CommittedIsLogged(trace, state);
      var maxID: nat := |log|;
      var minID: nat := ReadLastCommitted();
      NoBatchesYet(log, state.commits, |state.commits| - 1, batchSize);
      if minID == maxID {
        return false;
      }
      maxID := LastOfRun(maxID, minID);
      minID := minID + 1;
      ghost var n := |state.commits|;
      Begin(minID, maxID);
      var ok, startID, docs, pending := ReadRun(minID, maxID, faults, n);
      if !ok {
        return false;
      }
      updated := FinishRun(startID, maxID, docs, faults, pending, n);
    }

    /** The loop: reads the entries firstID..maxID and writes the full batches. */
    method ReadRun(firstID: nat, maxID: nat, faults: set<Fault>, ghost n: nat)
      returns (ok: bool, startID: nat, docs: MergeDocs, ghost pending: seq<Entry>)
      requires Position(firstID, firstID, maxID, map[], [], n) && 1 <= firstID <= maxID <= |log|
      modifies `readMark, `writeMark, `trace, `state
      ensures old(trace) < trace && old(state).commits <= state.commits
      ensures ok ==> Position(startID, maxID + 1, maxID, docs, pending, n)
      ensures ok ==> forall id: nat :: firstID <= id <= maxID ==> ReadFault(id) !in faults && log[id - 1].Parsed?
      ensures faults == {} && AllParsed(log, firstID - 1, maxID) ==> ok
      ensures !ok ==> Follows(Idle) && trace[|trace| - 1].Fail?
      ensures !ok ==> InBatches(log, state.commits, n, |state.commits| - 1, batchSize)
    {
      var minID := firstID;
      startID, docs, pending, ok := firstID, map[], [], true;
      while minID <= maxID
        invariant firstID <= minID <= maxID + 1 && (minID > firstID ==> old(trace) < trace)
        invariant ok && Position(startID, minID, maxID, docs, pending, n)
        invariant old(trace) <= trace && old(state).commits <= state.commits
        invariant forall id: nat :: firstID <= id < minID ==> ReadFault(id) !in faults && log[id - 1].Parsed?
        decreases maxID + 1 - minID
      {
        ok, startID, docs, pending := ConsumeOne(startID, minID, docs, faults, maxID, pending, n);
        if !ok {
          AllButLast(log, state.commits, n, batchSize);
          return;
        }
        minID := minID + 1;
      }
    }

    ghost method Begin(minID: nat, max: nat)
      requires Valid() && minID == Committed(state) + 1 && Committed(state) < |log|
      requires max == LastOfRun(|log|, Committed(state))
      modifies `trace, `state
      ensures old(trace) < trace && minID <= max && state.commits == old(state).commits
      ensures Position(minID, minID, max, map[], [], |state.commits|)
    {
      NoBatchesYet(log, state.commits, |state.commits|, batchSize);
      assert HasRoom([], batchSize) by { assert RoomIn([], batchSize); }
      Record(Event.Begin);
    }

    /** Writes what is left of a run and truncates the log. */
    method FinishRun(startID: nat, minID: nat, docs: MergeDocs, faults: set<Fault>, ghost pending: seq<Entry>,
                     ghost n: nat) returns (ok: bool)
      requires Position(startID, minID + 1, minID, docs, pending, n)
      modifies `first, `readMark, `writeMark, `trace, `state
      ensures Valid() && old(trace) < trace
      ensures ok ==> Committed(state) == minID && (first == TruncateFront(old(first), minID) ||
                                                   trace[|trace| - 1].Fail?)
      ensures faults == {} ==> ok && first == TruncateFront(old(first), minID)
      ensures !ok ==> trace[|trace| - 1].Fail?
      ensures old(state).commits <= state.commits && InBatches(log, state.commits, n, |state.commits| - 1, batchSize)
    {
      var largest := MaxShardLen(docs);
      AllButLast(log, state.commits, n, batchSize);
      MergedIsEmpty(docs, pending);
      if largest > 0 {
        ReadingSpans(trace, state);
        RoomFits(pending, batchSize);
        CommitBatch(log, state.commits, n, startID, minID, pending, batchSize);
        ok := Flush(startID, minID, docs, faults, minID, pending);
        if !ok {
          return;
        }
      }
      TruncateTo(minID, faults, minID);
      ok := true;
    }

    /** Drops what is committed; the error of a failed truncation is only logged. */
    method TruncateTo(minID: nat, faults: set<Fault>, ghost max: nat)
      requires Follows(Reading(minID + 1, minID + 1, max, [])) && minID == max
      modifies `first, `trace, `state
      ensures Valid() && old(trace) < trace && Committed(state) == Committed(old(state))
      ensures state.commits == old(state).commits
      ensures if TruncateFault(minID) in faults then trace[|trace| - 1].Fail? && first == old(first)
              else first == TruncateFront(old(first), minID)
    {
      if TruncateFault(minID) !in faults {
        Record(Truncate);
        first := TruncateFront(first, minID);
      } else {
        Record(Fail);
      }
    }

    /**
     Compares the markers on reopening. Entries that were read for a write that was not committed are
     always found again, so only the rollback write itself can fail.
     */
    method Rollback(fails: bool) returns (ok: bool, entries: seq<Entry>)
      requires Valid()
      modifies `first, `trace, `state
      ensures Valid() && old(trace) <= trace && Committed(state) == Committed(old(state))
      ensures ok <==> !(NeedsRollback(old(state)) && fails)
      ensures !NeedsRollback(old(state)) ==> entries == [] && trace == old(trace)
      ensures NeedsRollback(old(state)) && ok ==> first == TruncateFront(old(first), Committed(state))
      ensures NeedsRollback(old(state)) ==>
                Spans(log, entries, Committed(old(state)) + 1, readMark.value.1) && (ok ==> trace != old(trace))
    {
      if readMark.None? || readMark == writeMark {
        return true, [];
      }
      assert Inv(state) && CanRollback(state) by {
        assert Exec(trace) == Some(state);
        RunsKeepInv(trace);
        RollbackFindsItsEntries(trace);
      }
      var (readMin, readMax) := readMark.value;
      entries := Collect(log, first, readMin, readMax);
      ok := !fails;
      if ok {
        Record(Event.Rollback);
        first := TruncateFront(first, readMin - 1);
      }
    }
  }
}
