/**
 The segments of an IVFPQ vector index. Vectors are added to the current segment; once it holds enough
 of them a new one is started, and segments left behind are sealed, that is, get a faiss index built
 from their vector store. Deletions go to whatever segment holds the id.
 */
module IvfPq {
  import opened Wrappers
  import opened Sequences

  datatype DocId = DocId(num: int)

  datatype Status = Growing | Sealed

  /** The ids in a segment's vector store and in its faiss index, and the count kept in its metadata. */
  datatype Segment = Segment(id: nat, status: Status, store: multiset<DocId>, index: multiset<DocId>, count: nat)

  function Empty(id: nat): Segment {
    Segment(id, Growing, multiset{}, multiset{}, 0)
  }

  // ------------------------------------------------------------------ one segment

  function Remove(m: multiset<DocId>, ids: seq<DocId>): multiset<DocId> {
    if ids == [] then m else Remove(m[ids[0] := 0], ids[1..])
  }

  lemma {:induction false} RemoveAt(m: multiset<DocId>, ids: seq<DocId>, x: DocId)
    ensures Remove(m, ids)[x] == if x in ids then 0 else m[x]
    decreases |ids|
  {
    if ids != [] {
      RemoveAt(m[ids[0] := 0], ids[1..], x);
      assert x in ids <==> x == ids[0] || x in ids[1..];
    }
  }

  /** The count is read off the store, or off the faiss index once there is one. */
  function Save(seg: Segment): Segment {
    seg.(count := if seg.status.Sealed? then |seg.index| else |seg.store|)
  }

  /** A batch on a segment; adding to a segment that is not growing is refused. */
  function SegBatch(seg: Segment, add: seq<DocId>, del: seq<DocId>): Option<Segment> {
    var seg1 := seg.(store := Remove(seg.store, del),
                     index := if seg.status.Sealed? then Remove(seg.index, del) else seg.index);
    if add == [] then Some(Save(seg1))
    else if !seg.status.Growing? then None
    else Some(Save(seg1.(store := seg1.store + multiset(add))))
  }

  /** Builds the faiss index from the store; an empty segment stays as it is. */
  function Seal(seg: Segment): Segment {
    if |seg.store| == 0 then seg else seg.(index := seg.store, status := Sealed)
  }

  /** A sealed segment's faiss index holds what its store holds, and the count is right. */
  ghost predicate SegOk(seg: Segment) {
    && (seg.status.Sealed? ==> seg.index == seg.store)
    && seg.count == |seg.store|
  }

  lemma SegBatchOk(seg: Segment, add: seq<DocId>, del: seq<DocId>)
    requires SegOk(seg) && SegBatch(seg, add, del).Some?
    ensures SegOk(SegBatch(seg, add, del).value) && SegBatch(seg, add, del).value.status == seg.status
  {
  }

  // ------------------------------------------------------------------ the machine

  /** Segments found by a scan for sealing wait in `pending`; batches and other scans come in between. */
  datatype State = State(segments: seq<Segment>, current: nat, pending: set<nat>)

  datatype Event =
    | DeleteFrom(seg: nat, ids: seq<DocId>)
    | Add(ids: seq<DocId>)
    | Scan
    | SealOne(seg: nat)
    | GiveUp(seg: nat)

  const INIT := State([Empty(0)], 0, {})

  predicate NeedsSeal(seg: Segment, current: nat, threshold: int) {
    seg.status.Growing? && seg.id != current && seg.count >= threshold
  }

  predicate Enabled(s: State, e: Event) {
    match e
    case DeleteFrom(i, ids) => i < |s.segments|
    case Add(ids) => s.current < |s.segments| && SegBatch(s.segments[s.current], ids, []).Some?
    case Scan => true
    case SealOne(i) => i in s.pending && i < |s.segments|
    case GiveUp(i) => i in s.pending
  }

  /** Starts a new segment once the current one holds enough. */
  function CheckNewSeg(s: State, threshold: int): State
    requires s.current < |s.segments|
  {
    if s.segments[s.current].count >= threshold
    then s.(segments := s.segments + [Empty(s.current + 1)], current := s.current + 1)
    else s
  }

  function Next(s: State, e: Event, threshold: int): State
    requires Enabled(s, e)
  {
    match e
    case DeleteFrom(i, ids) => s.(segments := s.segments[i := SegBatch(s.segments[i], [], ids).value])
    case Add(ids) =>
      CheckNewSeg(s.(segments := s.segments[s.current := SegBatch(s.segments[s.current], ids, []).value]), threshold)
    case Scan =>
      s.(pending := s.pending + set i: nat | i < |s.segments| && NeedsSeal(s.segments[i], s.current, threshold))
    case SealOne(i) => s.(segments := s.segments[i := Seal(s.segments[i])], pending := s.pending - {i})
    case GiveUp(i) => s.(pending := s.pending - {i})
  }

  function Exec(trace: seq<Event>, threshold: int): Option<State>
    decreases |trace|
  {
    if trace == [] then Some(INIT)
    else
      match Exec(trace[..|trace| - 1], threshold)
      case None => None
      case Some(s) =>
        var e := trace[|trace| - 1];
        if Enabled(s, e) then Some(Next(s, e, threshold)) else None
  }

  ghost predicate Inv(s: State) {
    && |s.segments| == s.current + 1
    && s.segments[s.current].status.Growing?
    && (forall i :: 0 <= i < |s.segments| ==> s.segments[i].id == i && SegOk(s.segments[i]))
    && (forall i :: i in s.pending ==> i < s.current)
  }

  /** A segment is replaced by another in the same role. */
  lemma ReplaceKeepsInv(s: State, i: nat, seg: Segment)
    requires Inv(s) && i < |s.segments| && SegOk(seg) && seg.id == i && (i == s.current ==> seg.status.Growing?)
    ensures Inv(s.(segments := s.segments[i := seg]))
  {
  }

  lemma CheckNewSegKeepsInv(s: State, threshold: int)
    requires Inv(s)
    ensures Inv(CheckNewSeg(s, threshold))
  {
  }

  lemma NextKeepsInv(s: State, e: Event, threshold: int)
    requires Inv(s) && Enabled(s, e)
    ensures Inv(Next(s, e, threshold))
  {
    match e
    case DeleteFrom(i, ids) =>
      SegBatchOk(s.segments[i], [], ids);
      ReplaceKeepsInv(s, i, SegBatch(s.segments[i], [], ids).value);
    case Add(ids) =>
      var seg := SegBatch(s.segments[s.current], ids, []).value;
      SegBatchOk(s.segments[s.current], ids, []);
      ReplaceKeepsInv(s, s.current, seg);
      CheckNewSegKeepsInv(s.(segments := s.segments[s.current := seg]), threshold);
    case Scan =>
    case SealOne(i) => ReplaceKeepsInv(s, i, Seal(s.segments[i]));
    case GiveUp(_) =>
  }

  lemma {:induction false} RunsKeepInv(trace: seq<Event>, threshold: int)
    requires Exec(trace, threshold).Some?
    ensures Inv(Exec(trace, threshold).value)
    decreases |trace|
  {
    if trace != [] {
      RunsKeepInv(trace[..|trace| - 1], threshold);
      NextKeepsInv(Exec(trace[..|trace| - 1], threshold).value, trace[|trace| - 1], threshold);
    }
  }

  /** The machine's steps do to the segments what a batch does: first one segment's share of the deletions. */
  lemma DeleteStep(s: State, i: nat, ids: seq<DocId>, threshold: int)
    requires Inv(s) && i < |s.segments|
    ensures Enabled(s, DeleteFrom(i, ids))
    ensures var s' := Next(s, DeleteFrom(i, ids), threshold);
            && s'.current == s.current && SegDeleted(s.segments[i], s'.segments[i], ids)
            && s'.segments == s.segments[i := s'.segments[i]]
  {
    SegBatchOk(s.segments[i], [], ids);
    forall x ensures Remove(s.segments[i].store, ids)[x] == if x in ids then 0 else s.segments[i].store[x] {
      RemoveAt(s.segments[i].store, ids, x);
    }
  }

  /** And then the additions, with a new segment once the current one holds enough. */
  lemma AddStep(s: State, ids: seq<DocId>, threshold: int)
    requires Inv(s)
    ensures Enabled(s, Add(ids))
    ensures var s' := Next(s, Add(ids), threshold);
            Batched(s.segments, s.current, s'.segments, s'.current, ids, [], threshold)
  {
    SegBatchOk(s.segments[s.current], ids, []);
  }

  /** Sealing touches one segment, moves no vector and leaves only an empty one growing. */
  lemma SealStep(s: State, i: nat, threshold: int)
    requires Inv(s) && Enabled(s, SealOne(i))
    ensures var s' := Next(s, SealOne(i), threshold);
            && s'.current == s.current && s'.segments == s.segments[i := s'.segments[i]]
            && s'.segments[i].store == s.segments[i].store && i !in s'.pending
            && (s'.segments[i].status.Sealed? <==> |s.segments[i].store| > 0 || s.segments[i].status.Sealed?)
  {
  }

  /** Segment i was left behind with enough vectors in it after some of these events. */
  ghost predicate WasFull(trace: seq<Event>, threshold: int, i: nat) {
    exists n: nat :: n <= |trace| && FullAfter(trace[..n], threshold, i)
  }

  ghost predicate FullAfter(trace: seq<Event>, threshold: int, i: nat) {
    && Exec(trace, threshold).Some?
    && var s := Exec(trace, threshold).value; i < s.current < |s.segments| && |s.segments[i].store| >= threshold
  }

  lemma WasFullBefore(trace: seq<Event>, more: seq<Event>, threshold: int, i: nat)
    requires WasFull(trace, threshold, i)
    ensures WasFull(trace + more, threshold, i)
  {
    var n: nat :| n <= |trace| && FullAfter(trace[..n], threshold, i);
    assert (trace + more)[..n] == trace[..n];
  }

  predicate Marked(s: State, i: nat) {
    i < |s.segments| && (s.segments[i].status.Sealed? || i in s.pending)
  }

  lemma NewlyMarkedIsFull(s: State, e: Event, threshold: int, i: nat)
    requires Inv(s) && Enabled(s, e) && Marked(Next(s, e, threshold), i) && !Marked(s, i)
    ensures i < s.current && |s.segments[i].store| >= threshold
  {
  }

  /** In every run only segments that once were left behind with enough vectors are sealed or waiting for it. */
  lemma {:induction false} SealedWasFull(trace: seq<Event>, threshold: int, i: nat)
    requires Exec(trace, threshold).Some? && Marked(Exec(trace, threshold).value, i)
    ensures WasFull(trace, threshold, i)
    decreases |trace|
  {
    if trace != [] {
      var before, e := trace[..|trace| - 1], trace[|trace| - 1];
      var s := Exec(before, threshold).value;
      RunsKeepInv(before, threshold);
      assert trace == before + [e];
      if Marked(s, i) {
        SealedWasFull(before, threshold, i);
        WasFullBefore(before, [e], threshold, i);
      } else {
        NewlyMarkedIsFull(s, e, threshold, i);
        assert trace[..|trace| - 1] == before && FullAfter(before, threshold, i);
      }
    }
  }

  /** The current segment is always the last and growing, so adding is never refused. */
  lemma AddingIsNeverRefused(trace: seq<Event>, threshold: int, ids: seq<DocId>)
    requires Exec(trace, threshold).Some?
    ensures var s := Exec(trace, threshold).value;
            && s.current == |s.segments| - 1 && s.segments[s.current].status.Growing?
            && Enabled(s, Add(ids))
  {
    RunsKeepInv(trace, threshold);
  }

  /** In every run the faiss index of a sealed segment holds exactly what its vector store holds. */
  lemma SealedIndexMirrorsStore(trace: seq<Event>, threshold: int, i: nat)
    requires Exec(trace, threshold).Some? && i < |Exec(trace, threshold).value.segments|
    ensures var seg := Exec(trace, threshold).value.segments[i];
            (seg.status.Sealed? ==> seg.index == seg.store) && seg.count == |seg.store|
  {
    RunsKeepInv(trace, threshold);
  }

  // ------------------------------------------------------------ sequential batches

  /** No id lives in two segments. */
  ghost predicate Unique(segments: seq<Segment>) {
    forall i, j, x :: 0 <= i < j < |segments| && x in segments[i].store ==> x !in segments[j].store
  }

  /** A segment with some ids removed. */
  ghost predicate SegDeleted(before: Segment, after: Segment, del: seq<DocId>) {
    && after.id == before.id && after.status == before.status && SegOk(after)
    && forall x :: after.store[x] == if x in del then 0 else before.store[x]
  }

  /** The segments after deleting from the first n of them. */
  ghost predicate DeletedFrom(before: seq<Segment>, after: seq<Segment>, del: seq<DocId>, n: nat) {
    && |after| == |before|
    && forall i :: 0 <= i < |before| ==> SegDeleted(before[i], after[i], if i < n then del else [])
  }

  /** The segments after a whole batch: deletions everywhere, additions to the current one, perhaps a new one. */
  ghost predicate Batched(before: seq<Segment>, current: nat, after: seq<Segment>, current': nat, add: seq<DocId>,
                          del: seq<DocId>, threshold: int)
    requires current < |before|
  {
    && |before| <= |after| && current' == |after| - 1
    && (forall i, x :: 0 <= i < |before| ==>
          after[i].store[x] == (if x in del then 0 else before[i].store[x]) +
                               if i == current then multiset(add)[x] else 0)
    && after[|before|..] == if after[current].count >= threshold then [Empty(current + 1)] else []
  }

  /**
   After a batch ids are still in at most one segment exactly if each added id was deleted in the same
   batch or lived in no other segment than the current one.
   */
  lemma BatchKeepsUnique(before: seq<Segment>, current: nat, after: seq<Segment>, current': nat, add: seq<DocId>,
                         del: seq<DocId>, threshold: int)
    requires Unique(before) && |before| == current + 1
    requires Batched(before, current, after, current', add, del, threshold)
    ensures Unique(after) <==>
            forall x, i :: x in add && 0 <= i < current && x in before[i].store ==> x in del
  {
    if Unique(after) {
      forall x, i | x in add && 0 <= i < current && x in before[i].store ensures x in del {
        assert x in multiset(add);
        assert after[current].store[x] > 0;
        assert x !in after[i].store;
      }
    }
    if forall x, i :: x in add && 0 <= i < current && x in before[i].store ==> x in del {
      forall i, j, x | 0 <= i < j < |after| && x in after[i].store ensures x !in after[j].store {
        StaysApart(before, current, after, current', add, del, threshold, i, j, x);
      }
    }
  }

  lemma StaysApart(before: seq<Segment>, current: nat, after: seq<Segment>, current': nat, add: seq<DocId>,
                   del: seq<DocId>, threshold: int, i: nat, j: nat, x: DocId)
    requires Unique(before) && |before| == current + 1
    requires Batched(before, current, after, current', add, del, threshold)
    requires forall i :: x in add && 0 <= i < current && x in before[i].store ==> x in del
    requires i < j < |after| && x in after[i].store
    ensures x !in after[j].store
  {
    if j < |before| {
      assert after[i].store[x] == if x in del then 0 else before[i].store[x];
      assert x in before[i].store;
      assert after[j].store[x] == (if x in del then 0 else before[j].store[x]) +
                                  if j == current then multiset(add)[x] else 0;
    } else {
      assert after[|before|..][j - |before|] == after[j];
    }
  }

  /** In particular if every added id is new or deleted in the same batch. */
  lemma NewOrDeletedKeepsUnique(before: seq<Segment>, current: nat, after: seq<Segment>, current': nat, add: seq<DocId>,
                                del: seq<DocId>, threshold: int)
    requires Unique(before) && |before| == current + 1
    requires Batched(before, current, after, current', add, del, threshold)
    requires forall x :: x in add ==> x in del || forall i :: 0 <= i < |before| ==> x !in before[i].store
    ensures Unique(after)
  {
    BatchKeepsUnique(before, current, after, current', add, del, threshold);
  }

  // ---------------------------------------------------------- whole sequential runs

  datatype Call = BatchCall(add: seq<DocId>, del: seq<DocId>) | SealCall

  /** What one call may do to the segments. */
  ghost predicate Does(before: seq<Segment>, call: Call, after: seq<Segment>, threshold: int) {
    && before != [] && after != []
    && match call
       case BatchCall(add, del) => Batched(before, |before| - 1, after, |after| - 1, add, del, threshold)
       case SealCall => |after| == |before| && forall i :: 0 <= i < |before| ==> after[i].store == before[i].store
  }

  /** states[k] are the segments after the first k calls on a fresh index. */
  ghost predicate Run(calls: seq<Call>, states: seq<seq<Segment>>, threshold: int) {
    && |states| == |calls| + 1 && states[0] == [Empty(0)]
    && forall k :: 0 <= k < |calls| ==> Does(states[k], calls[k], states[k + 1], threshold)
  }

  /** Each id that the call adds is deleted by it or lives in no segment but the current one. */
  ghost predicate KeepsClear(before: seq<Segment>, call: Call) {
    call.BatchCall? ==>
      forall x, i :: x in call.add && 0 <= i < |before| - 1 && x in before[i].store ==> x in call.del
  }

  lemma StepUnique(before: seq<Segment>, call: Call, after: seq<Segment>, threshold: int)
    requires Does(before, call, after, threshold) && Unique(before)
    ensures Unique(after) <==> KeepsClear(before, call)
  {
    if call.BatchCall? {
      BatchKeepsUnique(before, |before| - 1, after, |after| - 1, call.add, call.del, threshold);
    }
  }

  /**
   In every run of calls from a fresh index, every id lives in at most one segment after each of them
   exactly if each added id is deleted by its batch or lives in no segment but the current one.
   */
  lemma {:induction false} RunsStayUniqueIff(calls: seq<Call>, states: seq<seq<Segment>>, threshold: int)
    requires Run(calls, states, threshold)
    ensures (forall k :: 0 <= k <= |calls| ==> Unique(states[k])) <==>
            (forall k :: 0 <= k < |calls| ==> KeepsClear(states[k], calls[k]))
  {
    if forall k :: 0 <= k < |calls| ==> KeepsClear(states[k], calls[k]) {
      for n := 0 to |calls|
        invariant forall k :: 0 <= k <= n ==> Unique(states[k])
      {
        StepUnique(states[n], calls[n], states[n + 1], threshold);
      }
    }
    if forall k :: 0 <= k <= |calls| ==> Unique(states[k]) {
      forall k | 0 <= k < |calls| ensures KeepsClear(states[k], calls[k]) {
        assert Unique(states[k]) && Unique(states[k + 1]);
        StepUnique(states[k], calls[k], states[k + 1], threshold);
      }
    }
  }

  /** In particular, ids that are new or deleted in their batch live in at most one segment throughout. */
  lemma NewOrDeletedRunsStayUnique(calls: seq<Call>, states: seq<seq<Segment>>, threshold: int, k: nat)
    requires Run(calls, states, threshold) && k <= |calls|
    requires forall n, x :: 0 <= n < |calls| && calls[n].BatchCall? && x in calls[n].add ==>
               x in calls[n].del || forall i :: 0 <= i < |states[n]| ==> x !in states[n][i].store
    ensures Unique(states[k])
  {
    RunsStayUniqueIff(calls, states, threshold);
  }

  /**
   It does fail with batches that add each id once: distinct ids fill the first segment, and one of them is
   added again without being deleted, as happens when an insert is consumed twice.
   */
  lemma AddedAgain(ids: seq<DocId>, x: DocId) returns (calls: seq<Call>, states: seq<seq<Segment>>)
    requires NoDup(ids) && x in ids
    ensures Run(calls, states, |ids|) && calls == [BatchCall(ids, []), BatchCall([x], [])]
    ensures Unique(states[1]) && !Unique(states[2])
  {
    var full := Segment(0, Growing, multiset(ids), multiset{}, |ids|);
    var second := Segment(1, Growing, multiset{x}, multiset{}, 1);
    var last := if |ids| <= 1 then [full, second, Empty(2)] else [full, second];
    calls := [BatchCall(ids, []), BatchCall([x], [])];
    states := [[Empty(0)], [full, Empty(1)], last];
    assert Does(states[0], calls[0], states[1], |ids|);
    assert Does(states[1], calls[1], states[2], |ids|);
    assert x in last[0].store && x in last[1].store;
  }

  // ----------------------------------------------------------------------- the count

  /** The ids in all vector stores together. */
  ghost function AllIds(segments: seq<Segment>): multiset<DocId> {
    if segments == [] then multiset{} else AllIds(segments[..|segments| - 1]) + segments[|segments| - 1].store
  }

  /** How many of the vectors have one of these ids. */
  ghost function Copies(m: multiset<DocId>, ids: seq<DocId>): nat {
    if ids == [] then 0 else m[ids[0]] + Copies(m[ids[0] := 0], ids[1..])
  }

  lemma {:induction false} RemovedAndKept(m: multiset<DocId>, ids: seq<DocId>)
    ensures |Remove(m, ids)| + Copies(m, ids) == |m|
    decreases |ids|
  {
    if ids != [] {
      RemovedAndKept(m[ids[0] := 0], ids[1..]);
    }
  }

  /** The counts kept in the metadata add up to the number of vectors. */
  lemma {:induction false} CountsAddUp(segments: seq<Segment>)
    requires forall i :: 0 <= i < |segments| ==> SegOk(segments[i])
    ensures SumCounts(segments) == |AllIds(segments)|
  {
    if segments != [] {
      CountsAddUp(segments[..|segments| - 1]);
    }
  }

  lemma AllIdsOneMore(segments: seq<Segment>, n: nat)
    requires 0 < n <= |segments|
    ensures AllIds(segments[..n]) == AllIds(segments[..n - 1]) + segments[n - 1].store
  {
    assert segments[..n][..n - 1] == segments[..n - 1];
  }

  /** How many vectors of an id are left of so many, and how many are added. */
  function CopiesAfter(copies: nat, deleted: bool, added: nat): nat {
    (if deleted then 0 else copies) + added
  }

  lemma {:induction false} BatchedAt(before: seq<Segment>, after: seq<Segment>, x: DocId, deleted: bool, current: nat,
                                     added: nat, n: nat)
    requires n <= |before| <= |after|
    requires forall i :: 0 <= i < |before| ==>
               after[i].store[x] == CopiesAfter(before[i].store[x], deleted, if i == current then added else 0)
    ensures AllIds(after[..n])[x] ==
            CopiesAfter(AllIds(before[..n])[x], deleted, if current < n then added else 0)
    decreases n
  {
    if n > 0 {
      BatchedAt(before, after, x, deleted, current, added, n - 1);
      AllIdsOneMore(before, n);
      AllIdsOneMore(after, n);
    }
  }

  /** A batch takes every copy of the deleted ids out of the index and puts the added ones in. */
  lemma BatchedIds(before: seq<Segment>, current: nat, after: seq<Segment>, current': nat, add: seq<DocId>,
                   del: seq<DocId>, threshold: int)
    requires current < |before| && Batched(before, current, after, current', add, del, threshold)
    ensures AllIds(after) == Remove(AllIds(before), del) + multiset(add)
    ensures |AllIds(after)| == |AllIds(before)| - Copies(AllIds(before), del) + |add|
  {
    var n := |before|;
    assert before[..n] == before;
    assert AllIds(after) == AllIds(after[..n]) by {
      if |after| > n {
        assert after[n..][0] == after[n] && after[..|after| - 1] == after[..n];
        assert AllIds(after) == AllIds(after[..n]) + multiset{};
      } else {
        assert after[..n] == after;
      }
    }
    forall x ensures AllIds(after)[x] == (Remove(AllIds(before), del) + multiset(add))[x] {
      BatchedAt(before, after, x, x in del, current, multiset(add)[x], n);
      RemoveAt(AllIds(before), del, x);
    }
    RemovedAndKept(AllIds(before), del);
    assert AllIds(after) == Remove(AllIds(before), del) + multiset(add);
  }

  // --------------------------------------------------------------------- the object

  function SumCounts(segments: seq<Segment>): nat {
    if segments == [] then 0 else SumCounts(segments[..|segments| - 1]) + segments[|segments| - 1].count
  }

  method CountAll(segments: seq<Segment>) returns (total: nat)
    ensures total == SumCounts(segments)
  {
    total := 0;
    for i := 0 to |segments|
      invariant total == SumCounts(segments[..i])
    {
      assert segments[..i + 1][..i] == segments[..i];
      total := total + segments[i].count;
    }
    assert segments[..|segments|] == segments;
  }

  /** Which of the ids a segment holds. */
  method GetExistsIds(seg: Segment, ids: seq<DocId>) returns (r: seq<DocId>)
    ensures forall x :: x in r <==> x in ids && x in seg.store
  {
    r := [];
    for i := 0 to |ids|
      invariant forall x :: x in r <==> x in ids[..i] && x in seg.store
    {
      assert ids[..i + 1] == ids[..i] + [ids[i]];
      if ids[i] in seg.store {
        r := r + [ids[i]];
      }
    }
    assert ids[..|ids|] == ids;
  }

  /** Deleting the ids that a segment holds deletes all of them. */
  lemma DeleteOneMore(before: seq<Segment>, segs: seq<Segment>, del: seq<DocId>, found: seq<DocId>, i: nat)
    requires DeletedFrom(before, segs, del, i) && i < |segs|
    requires forall x :: x in found <==> x in del && x in segs[i].store
    ensures DeletedFrom(before, segs[i := SegBatch(segs[i], [], found).value], del, i + 1)
    ensures found == [] ==> DeletedFrom(before, segs, del, i + 1)
  {
    assert SegDeleted(before[i], segs[i], []);
    SegDeleteFound(before[i], segs[i], del, found);
    if found == [] {
      assert segs[i := segs[i]] == segs;
    }
  }

  lemma SegDeleteFound(before: Segment, seg: Segment, del: seq<DocId>, found: seq<DocId>)
    requires SegDeleted(before, seg, []) && forall x :: x in found <==> x in del && x in seg.store
    ensures SegDeleted(before, SegBatch(seg, [], found).value, del)
    ensures found == [] ==> SegDeleted(before, seg, del)
  {
    SegBatchOk(seg, [], found);
    forall x ensures Remove(seg.store, found)[x] == if x in del then 0 else before.store[x] {
      RemoveAt(seg.store, found, x);
    }
    if found == [] {
      forall x ensures seg.store[x] == if x in del then 0 else before.store[x] {
        assert x !in found;
      }
    }
  }

  class IvfPqIndex {
    const threshold: int
    var segments: seq<Segment>
    var currentSegmentId: nat
    var count: nat

    /** The calls so far and the segments after each of them. */
    ghost var calls: seq<Call>
    ghost var states: seq<seq<Segment>>

    ghost predicate Shaped()
      reads this
    {
      Inv(State(segments, currentSegmentId, {}))
    }

    ghost predicate Valid()
      reads this
    {
      Shaped() && Run(calls, states, threshold) && states[|calls|] == segments && count == |AllIds(segments)|
    }

    constructor (threshold: int)
      ensures Valid() && this.threshold == threshold && segments == [Empty(0)] && calls == [] && count == 0
    {
      this.threshold := threshold;
      segments, currentSegmentId, count := [Empty(0)], 0, 0;
      calls, states := [], [[Empty(0)]];
    }

    ghost method Record(call: Call)
      requires Shaped() && Run(calls, states, threshold) && Does(states[|calls|], call, segments, threshold)
      requires count == |AllIds(segments)|
      modifies `calls, `states
      ensures Valid() && calls == old(calls) + [call] && states == old(states) + [segments]
    {
      calls, states := calls + [call], states + [segments];
    }

    method ProcessDel(del: seq<DocId>)
      requires Shaped()
      modifies `segments
      ensures Shaped() && DeletedFrom(old(segments), segments, del, |segments|)
    {
      if |del| == 0 {
        return;
      }
      for i := 0 to |segments|
        invariant |segments| == old(|segments|) && DeletedFrom(old(segments), segments, del, i)
      {
        var found := GetExistsIds(segments[i], del);
        DeleteOneMore(old(segments), segments, del, found, i);
        if |found| > 0 {
          segments := segments[i := SegBatch(segments[i], [], found).value];
        }
      }
    }

    method ProcessAdd(add: seq<DocId>) returns (ok: bool)
      requires Shaped()
      modifies `segments, `currentSegmentId
      ensures Shaped() && ok && Batched(old(segments), old(currentSegmentId), segments, currentSegmentId, add, [],
                                        threshold)
    {
      var r := SegBatch(segments[currentSegmentId], add, []);
      if r.None? {
        return false;
      }
      SegBatchOk(segments[currentSegmentId], add, []);
      segments := segments[currentSegmentId := r.value];
      if segments[currentSegmentId].count >= threshold {
        segments := segments + [Empty(currentSegmentId + 1)];
        currentSegmentId := currentSegmentId + 1;
      }
      return true;
    }

    /**
     Deletions first, then additions; the error for a segment that is not growing never comes up. The count stays
     the number of vectors in all segments: every copy of a deleted id goes, and every added vector comes in.
     */
    method Batch(add: seq<DocId>, del: seq<DocId>) returns (ok: bool)
      requires Valid()
      modifies this
      ensures Valid() && ok && calls == old(calls) + [BatchCall(add, del)]
      ensures Batched(old(segments), old(currentSegmentId), segments, currentSegmentId, add, del, threshold)
      ensures AllIds(segments) == Remove(AllIds(old(segments)), del) + multiset(add)
      ensures count == |AllIds(segments)| == old(count) - Copies(AllIds(old(segments)), del) + |add|
    {
      ok := Process(add, del);
      BatchedIds(old(segments), old(currentSegmentId), segments, currentSegmentId, add, del, threshold);
      Record(BatchCall(add, del));
    }

    method Process(add: seq<DocId>, del: seq<DocId>) returns (ok: bool)
      requires Shaped()
      modifies `segments, `currentSegmentId, `count
      ensures Shaped() && ok && count == |AllIds(segments)|
      ensures Batched(old(segments), old(currentSegmentId), segments, currentSegmentId, add, del, threshold)
    {
      ProcessDel(del);
      ghost var between := segments;
      ok := ProcessAdd(add);
      BatchedAfterDelete(old(segments), between, old(currentSegmentId), segments, currentSegmentId, add, del,
                         threshold);
      count := CountAll(segments);
      CountsAddUp(segments);
    }

    /**
     Seals the segments left behind that hold enough, and no others; an empty one stays growing. No vector is
     lost or moved.
     */
    method SealSeg()
      requires Valid()
      modifies `segments, `calls, `states
      ensures Valid() && |segments| == old(|segments|) && calls == old(calls) + [SealCall]
      ensures forall i: nat :: i < |segments| ==>
                && segments[i].store == old(segments)[i].store
                && (segments[i].status.Sealed? <==>
                      old(segments)[i].status.Sealed? ||
                      (i != currentSegmentId && |old(segments)[i].store| >= threshold && |old(segments)[i].store| > 0))
                && (segments[i].status == old(segments)[i].status ==> segments[i] == old(segments)[i])
    {
      var need: seq<nat> := [];
      for i := 0 to |segments|
        invariant forall k :: k in need <==> 0 <= k < i && NeedsSeal(segments[k], currentSegmentId, threshold)
        invariant forall k :: 0 <= k < |need| ==> need[k] < i
      {
        if NeedsSeal(segments[i], currentSegmentId, threshold) {
          need := need + [i];
        }
      }
      for j := 0 to |need|
        invariant Shaped() && |segments| == old(|segments|) && calls == old(calls) && states == old(states)
        invariant SealedAt(old(segments), segments, need[..j])
      {
        ReplaceKeepsInv(State(segments, currentSegmentId, {}), need[j], Seal(segments[need[j]]));
        SealOneMore(old(segments), segments, need, j);
        segments := segments[need[j] := Seal(segments[need[j]])];
      }
      assert need[..|need|] == need;
      SealedExactly(old(segments), segments, need, currentSegmentId, threshold);
      SameStores(old(segments), segments);
      Record(SealCall);
    }
  }

  ghost predicate SealedAt(before: seq<Segment>, after: seq<Segment>, at: seq<nat>) {
    && |after| == |before|
    && forall i: nat :: i < |before| ==> after[i] == if i in at then Seal(before[i]) else before[i]
  }

  lemma SealedExactly(before: seq<Segment>, after: seq<Segment>, need: seq<nat>, current: nat, threshold: int)
    requires SealedAt(before, after, need) && Inv(State(before, current, {}))
    requires forall k :: k in need <==> 0 <= k < |before| && NeedsSeal(before[k], current, threshold)
    ensures forall i: nat :: i < |before| ==>
              && after[i].store == before[i].store
              && (after[i].status.Sealed? <==>
                    before[i].status.Sealed? ||
                    (i != current && |before[i].store| >= threshold && |before[i].store| > 0))
              && (after[i].status == before[i].status ==> after[i] == before[i])
  {
  }

  lemma SealOneMore(before: seq<Segment>, segments: seq<Segment>, need: seq<nat>, j: nat)
    requires j < |need| && need[j] < |segments| && SealedAt(before, segments, need[..j])
    ensures SealedAt(before, segments[need[j] := Seal(segments[need[j]])], need[..j + 1])
  {
    assert need[..j + 1] == need[..j] + [need[j]];
  }

  lemma {:induction false} SameStores(before: seq<Segment>, after: seq<Segment>)
    requires |after| == |before| && forall i :: 0 <= i < |before| ==> after[i].store == before[i].store
    ensures AllIds(after) == AllIds(before)
  {
    if before != [] {
      SameStores(before[..|before| - 1], after[..|after| - 1]);
    }
  }

  lemma BatchedAfterDelete(before: seq<Segment>, between: seq<Segment>, current: nat, after: seq<Segment>,
                           current': nat, add: seq<DocId>, del: seq<DocId>, threshold: int)
    requires current < |before| && DeletedFrom(before, between, del, |between|)
    requires Batched(between, current, after, current', add, [], threshold)
    ensures Batched(before, current, after, current', add, del, threshold)
  {
    forall i, x | 0 <= i < |before|
      ensures after[i].store[x] ==
              (if x in del then 0 else before[i].store[x]) + if i == current then multiset(add)[x] else 0
    {
      assert between[i].store[x] == if x in del then 0 else before[i].store[x];
      assert after[i].store[x] == between[i].store[x] + if i == current then multiset(add)[x] else 0;
    }
  }
}
