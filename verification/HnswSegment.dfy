/**
 The segment object itself. The object carries the run of HnswProtocol it has made so far, and each
 of its smallest methods is one mutex section or one durable write, proved to make exactly one step
 of that machine. The worker's snapshots are handed from one such method to the next as arguments,
 so writers may come between any two of them.
 */
module HnswSegment {
  import opened Wrappers
  import opened HnswProtocol
  import HnswSafety
  import opened VectorCache

  // ---------------------------------------------------------- picking newest rows

  /** What the row loops of load and applyLogs accumulate over the rows seen so far. */
  ghost predicate PicksNewest(rows: map<nat, Row>, seen: set<nat>, upTo: nat, newest: map<DocId, nat>) {
    && (forall doc :: doc in newest ==>
          newest[doc] in rows && newest[doc] <= upTo && rows[newest[doc]].doc == doc)
    && (forall id :: id in seen && id in rows && id <= upTo ==>
          rows[id].doc in newest && id <= newest[rows[id].doc])
  }

  lemma PicksNewestIsNewest(rows: map<nat, Row>, upTo: nat, newest: map<DocId, nat>)
    requires forall id :: id in rows ==> 1 <= id
    requires PicksNewest(rows, rows.Keys, upTo, newest)
    ensures newest == Newest(rows, upTo)
  {
    HnswSafety.NewestFacts(rows, upTo);
    var expected := Newest(rows, upTo);
    forall doc ensures doc in newest <==> doc in expected {
      if doc in newest { assert newest[doc] in rows; }
      if doc in expected { assert expected[doc] in rows; }
    }
    assert newest.Keys == expected.Keys;
    forall doc | doc in newest ensures newest[doc] == expected[doc] {
      assert newest[doc] in rows && expected[doc] in rows;
    }
  }

  /** The newest row of each document among the rows numbered at most upTo, visited in any order. */
  method NewestRows(rows: map<nat, Row>, upTo: nat) returns (newest: map<DocId, nat>)
    requires forall id :: id in rows ==> 1 <= id
    ensures newest == Newest(rows, upTo)
  {
    newest := map[];
    var todo := rows.Keys;
    while todo != {}
      invariant todo <= rows.Keys
      invariant PicksNewest(rows, rows.Keys - todo, upTo, newest)
      decreases todo
    {
      var id: nat :| id in todo;
      todo := todo - {id};
      var row := rows[id];
      if id <= upTo && (row.doc !in newest || newest[row.doc] < id) {
        newest := newest[row.doc := id];
      }
    }
    PicksNewestIsNewest(rows, upTo, newest);
  }

  // -------------------------------------------------------------- stamping a batch

  /** The timestamps a batch writes: each document with the number of its last row. */
  function Stamps(from: nat, rows: seq<Row>): map<DocId, nat>
    decreases |rows|
  {
    if rows == [] then map[]
    else Stamps(from, rows[..|rows| - 1])[rows[|rows| - 1].doc := from + |rows|]
  }

  lemma {:induction false} CommitRowsShape(mem: Memory, rows: seq<Row>)
    ensures CommitRows(mem, rows) ==
            mem.(cache := ApplyRows(mem.cache, rows), docTS := mem.docTS + Stamps(mem.latestLogID, rows),
                 latestLogID := mem.latestLogID + |rows|)
    decreases |rows|
  {
    if rows == [] {
      assert mem.docTS + map[] == mem.docTS;
    } else {
      var less, row := rows[..|rows| - 1], rows[|rows| - 1];
      CommitRowsShape(mem, less);
      PlusOne(mem.docTS, Stamps(mem.latestLogID, less), row.doc, mem.latestLogID + |rows|);
    }
  }

  /** What a committed batch leaves of the segment's fields. */
  lemma CommittedMem(mem: Memory, req: Request) returns (after: Memory)
    ensures after == CommitRows(mem, Ops(req))
    ensures after == mem.(cache := ApplyRows(mem.cache, Ops(req)),
                          docTS := mem.docTS + Stamps(mem.latestLogID, Ops(req)),
                          latestLogID := mem.latestLogID + |req.dels| + |req.adds|)
  {
    CommitRowsShape(mem, Ops(req));
    DropsFirst(req.dels, req.adds);
    after := CommitRows(mem, Ops(req));
  }

  lemma PlusOne(a: map<DocId, nat>, b: map<DocId, nat>, doc: DocId, id: nat)
    ensures (a + b)[doc := id] == a + b[doc := id]
  {
  }

  lemma OneMoreRow(from: nat, rows: seq<Row>, i: nat)
    requires i < |rows|
    ensures Stamps(from, rows[..i + 1]) == Stamps(from, rows[..i])[rows[i].doc := from + i + 1]
    ensures NumberedRows(from, rows[..i + 1]) == NumberedRows(from, rows[..i])[from + i + 1 := rows[i]]
  {
    assert rows[..i + 1][..|rows[..i + 1]| - 1] == rows[..i];
  }

  /** The deletion loop of Batch: rows and timestamps for the deleted ids. */
  method NumberDrops(from: nat, dels: seq<DocId>) returns (rows: map<nat, Row>, stamps: map<DocId, nat>)
    ensures rows == NumberedRows(from, DropRows(dels)) && stamps == Stamps(from, DropRows(dels))
  {
    rows, stamps := map[], map[];
    AllOfIt(DropRows(dels));
    for i := 0 to |dels|
      invariant rows == NumberedRows(from, DropRows(dels)[..i]) && stamps == Stamps(from, DropRows(dels)[..i])
    {
      OneMoreRow(from, DropRows(dels), i);
      stamps := stamps[dels[i] := from + i + 1];
      rows := rows[from + i + 1 := Row(dels[i], Drop)];
    }
  }

  /** rows and stamps are those of the first n operations. */
  ghost predicate NumberedTo(from: nat, ops: seq<Row>, n: nat, rows: map<nat, Row>, stamps: map<DocId, nat>) {
    n <= |ops| && rows == NumberedRows(from, ops[..n]) && stamps == Stamps(from, ops[..n])
  }

  lemma NumberOneMore(from: nat, ops: seq<Row>, n: nat, rows: map<nat, Row>, stamps: map<DocId, nat>)
    requires n < |ops| && NumberedTo(from, ops, n, rows, stamps)
    ensures NumberedTo(from, ops, n + 1, rows[from + n + 1 := ops[n]], stamps[ops[n].doc := from + n + 1])
  {
    OneMoreRow(from, ops, n);
  }

  lemma DropsFirst(dels: seq<DocId>, adds: seq<(DocId, Vec)>)
    ensures |DropRows(dels)| == |dels| <= |Ops(Request(dels, adds))| == |dels| + |adds|
    ensures Ops(Request(dels, adds))[..|dels|] == DropRows(dels)
  {
  }

  /** The addition loop of Batch, which goes on numbering where the deletions ended. */
  method NumberPuts(from: nat, adds: seq<DocId>, vectors: seq<Vec>, n: nat, rows: map<nat, Row>,
                    stamps: map<DocId, nat>, ghost ops: seq<Row>)
    returns (rows': map<nat, Row>, stamps': map<DocId, nat>)
    requires |adds| == |vectors| && |ops| == n + |adds| && NumberedTo(from, ops, n, rows, stamps)
    requires forall i :: 0 <= i < |adds| ==> ops[n + i] == Row(adds[i], Put(vectors[i]))
    ensures NumberedTo(from, ops, |ops|, rows', stamps')
  {
    rows', stamps' := rows, stamps;
    for i := 0 to |adds|
      invariant NumberedTo(from, ops, n + i, rows', stamps')
    {
      NumberOneMore(from, ops, n + i, rows', stamps');
      stamps' := stamps'[adds[i] := from + n + i + 1];
      rows' := rows'[from + n + i + 1 := Row(adds[i], Put(vectors[i]))];
    }
  }

  /** The rows and timestamps that a batch writes: deletions first, then additions. */
  method NumberRows(from: nat, dels: seq<DocId>, adds: seq<DocId>, vectors: seq<Vec>)
    returns (rows: map<nat, Row>, stamps: map<DocId, nat>)
    requires |adds| == |vectors|
    ensures rows == NumberedRows(from, Ops(Request(dels, Zip(adds, vectors))))
    ensures stamps == Stamps(from, Ops(Request(dels, Zip(adds, vectors))))
  {
    rows, stamps := NumberDrops(from, dels);
    ghost var ops := Ops(Request(dels, Zip(adds, vectors)));
    DropsFirst(dels, Zip(adds, vectors));
    forall i: nat | i < |adds| ensures ops[|dels| + i] == Row(adds[i], Put(vectors[i])) {
      AddedRow(dels, adds, vectors, i);
    }
    rows, stamps := NumberPuts(from, adds, vectors, |dels|, rows, stamps, ops);
    AllOfIt(ops);
  }

  lemma PointsBack(logs: map<nat, Row>, n: nat)
    ensures forall doc :: doc in Newest(logs, n) ==>
              Newest(logs, n)[doc] in logs && logs[Newest(logs, n)[doc]].doc == doc
  {
    HnswSafety.NewestFacts(logs, n);
  }

  lemma PlusNothing(ts: map<DocId, nat>)
    ensures map[] + ts == ts
  {
  }

  ghost function Gained(signs: map<DocId, int>, done: set<DocId>, mem: Memory): set<DocId> {
    set doc | doc in done && doc in signs && signs[doc] > 0 && !Present(mem, doc)
  }

  ghost function Lost(signs: map<DocId, int>, done: set<DocId>, mem: Memory): set<DocId> {
    set doc | doc in done && doc in signs && signs[doc] < 0 && Present(mem, doc)
  }

  /** What one more visited id contributes. */
  lemma CountOneMore(signs: map<DocId, int>, done: set<DocId>, mem: Memory, doc: DocId)
    requires doc in signs && doc !in done && (signs[doc] == 1 || signs[doc] == -1)
    ensures |Gained(signs, done + {doc}, mem)| - |Lost(signs, done + {doc}, mem)| ==
            |Gained(signs, done, mem)| - |Lost(signs, done, mem)| +
            (if Present(mem, doc) then if signs[doc] < 0 then -1 else 0 else if signs[doc] > 0 then 1 else 0)
  {
    var gained, lost := Gained(signs, done, mem), Lost(signs, done, mem);
    assert Gained(signs, done + {doc}, mem) == if signs[doc] > 0 && !Present(mem, doc) then gained + {doc} else gained;
    assert Lost(signs, done + {doc}, mem) == if signs[doc] < 0 && Present(mem, doc) then lost + {doc} else lost;
  }

  /** The same, counted from the ids still to be visited. */
  lemma CountOneLess(signs: map<DocId, int>, todo: set<DocId>, mem: Memory, doc: DocId)
    requires doc in todo && todo <= signs.Keys && (signs[doc] == 1 || signs[doc] == -1)
    ensures |Gained(signs, signs.Keys - (todo - {doc}), mem)| - |Lost(signs, signs.Keys - (todo - {doc}), mem)| ==
            |Gained(signs, signs.Keys - todo, mem)| - |Lost(signs, signs.Keys - todo, mem)| +
            (if Present(mem, doc) then if signs[doc] < 0 then -1 else 0 else if signs[doc] > 0 then 1 else 0)
  {
    CountOneMore(signs, signs.Keys - todo, mem, doc);
    assert (signs.Keys - todo) + {doc} == signs.Keys - (todo - {doc});
  }

  lemma CountNone(signs: map<DocId, int>, mem: Memory)
    ensures |Gained(signs, signs.Keys - signs.Keys, mem)| - |Lost(signs, signs.Keys - signs.Keys, mem)| == 0
    ensures signs.Keys - {} == signs.Keys
  {
    assert signs.Keys - signs.Keys == {};
  }

  lemma CountAll(signs: map<DocId, int>, mem: Memory, req: Request)
    requires signs.Keys == Deleted(req) + Added(req)
    requires forall doc :: doc in signs ==> signs[doc] == if doc in Added(req) then 1 else -1
    ensures |Gained(signs, signs.Keys, mem)| - |Lost(signs, signs.Keys, mem)| == CountDelta(mem, req)
  {
    assert Gained(signs, signs.Keys, mem) == set doc | doc in Added(req) && !Present(mem, doc);
    assert Lost(signs, signs.Keys, mem) == set doc | doc in Deleted(req) - Added(req) && Present(mem, doc);
  }

  /** -1 for every deleted id, then +1 for every added one. */
  method Signs(adds: seq<DocId>, vectors: seq<Vec>, dels: seq<DocId>) returns (signs: map<DocId, int>)
    requires |adds| == |vectors|
    ensures var req := Request(dels, Zip(adds, vectors));
            signs.Keys == Deleted(req) + Added(req) &&
            forall doc :: doc in signs ==> signs[doc] == if doc in Added(req) then 1 else -1
  {
    signs := map[];
    for i := 0 to |dels|
      invariant forall doc :: doc in signs <==> doc in dels[..i]
      invariant forall doc :: doc in signs ==> signs[doc] == -1
    {
      signs := signs[dels[i] := -1];
    }
    assert dels[..|dels|] == dels;
    for i := 0 to |adds|
      invariant forall doc :: doc in signs <==> doc in dels || doc in adds[..i]
      invariant forall doc :: doc in signs ==> signs[doc] == if doc in adds[..i] then 1 else -1
    {
      signs := signs[adds[i] := 1];
    }
    assert adds[..|adds|] == adds;
    AddedIds(adds, vectors, dels);
    SignedIds(signs, Request(dels, Zip(adds, vectors)), adds);
  }

  lemma SignedIds(signs: map<DocId, int>, req: Request, adds: seq<DocId>)
    requires forall doc :: doc in signs <==> doc in req.dels || doc in adds
    requires forall doc :: doc in Added(req) <==> doc in adds
    ensures signs.Keys == Deleted(req) + Added(req)
  {
    forall doc ensures doc in signs.Keys <==> doc in Deleted(req) + Added(req) {}
  }

  lemma AddedIds(adds: seq<DocId>, vectors: seq<Vec>, dels: seq<DocId>)
    requires |adds| == |vectors|
    ensures forall doc :: doc in Added(Request(dels, Zip(adds, vectors))) <==> doc in adds
  {
    var zip := Zip(adds, vectors);
    forall doc | doc in adds ensures doc in Added(Request(dels, zip)) {
      var i :| 0 <= i < |adds| && adds[i] == doc;
      assert zip[i] in zip && zip[i].0 == doc;
    }
  }

  /** The counting loop of countDelta, visiting the batch's ids in any order. */
  method CountSigns(signs: map<DocId, int>, docIDIndex: map<DocId, nat>, docTS: map<DocId, nat>,
                    index: Option<map<DocId, Vec>>, ghost mem: Memory) returns (delta: int)
    requires mem.cache.Keys == docIDIndex.Keys && mem.docTS == docTS && mem.index == index
    requires forall doc :: doc in signs ==> signs[doc] == 1 || signs[doc] == -1
    ensures delta == |Gained(signs, signs.Keys, mem)| - |Lost(signs, signs.Keys, mem)|
  {
    delta := 0;
    var todo := signs.Keys;
    CountNone(signs, mem);
    while todo != {}
      invariant todo <= signs.Keys
      invariant delta == |Gained(signs, signs.Keys - todo, mem)| - |Lost(signs, signs.Keys - todo, mem)|
      decreases todo
    {
      var doc :| doc in todo;
      CountOneLess(signs, todo, mem, doc);
      if doc in docIDIndex {
        if signs[doc] < 0 { delta := delta + signs[doc]; }
      } else if doc in docTS {
        if signs[doc] > 0 { delta := delta + signs[doc]; }
      } else if index.None? {
        if signs[doc] > 0 { delta := delta + signs[doc]; }
      } else if doc in index.value {
        if signs[doc] < 0 { delta := delta + signs[doc]; }
      } else if signs[doc] > 0 {
        delta := delta + signs[doc];
      }
      todo := todo - {doc};
    }
  }

  // ------------------------------------------------------------- rebuild loops

  lemma FoldedEverywhere(r: map<DocId, Vec>, docs: map<DocId, Vec>, newest: map<DocId, nat>, overlay: map<DocId, Vec>)
    requires overlay.Keys <= newest.Keys
    requires forall doc :: doc in newest ==> Agree(r, overlay, doc)
    requires forall doc :: doc !in newest ==> Agree(r, docs, doc)
    ensures r == (docs - newest.Keys) + overlay
  {
    var expected := (docs - newest.Keys) + overlay;
    forall doc ensures Agree(r, expected, doc) {
      assert if doc in newest then Agree(r, overlay, doc) else Agree(r, docs, doc);
    }
    HnswSafety.SameMap(r, expected);
  }

  /** The write batch of applyLogs, built by visiting the newest rows in any order. */
  method FoldNewest(docs: map<DocId, Vec>, logs: map<nat, Row>, newest: map<DocId, nat>) returns (r: map<DocId, Vec>)
    requires forall doc :: doc in newest ==> newest[doc] in logs && logs[newest[doc]].doc == doc
    ensures r == (docs - newest.Keys) + Overlay(logs, newest)
  {
    r := docs;
    var todo := newest.Keys;
    while todo != {}
      invariant todo <= newest.Keys
      invariant forall doc :: doc in newest && doc !in todo ==> Agree(r, Overlay(logs, newest), doc)
      invariant forall doc :: doc !in newest ==> Agree(r, docs, doc)
      decreases todo
    {
      var doc :| doc in todo;
      r := ApplyRow(r, logs[newest[doc]]);
      todo := todo - {doc};
    }
    FoldedEverywhere(r, docs, newest, Overlay(logs, newest));
  }

  /** The body of applyLogs: pick the newest rows of the snapshot and fold them into the stored documents. */
  method FoldRows(docs: map<DocId, Vec>, rows: map<nat, Row>, upTo: nat) returns (r: map<DocId, Vec>)
    requires forall id :: id in rows ==> 1 <= id
    ensures r == Materialise(docs, rows, upTo)
  {
    var newest := NewestRows(rows, upTo);
    PointsBack(rows, upTo);
    r := FoldNewest(docs, rows, newest);
  }

  /** The row loop of cleanLogs: the rows to delete and the documents they belong to. */
  method CollectApplied(logs: map<nat, Row>, upTo: nat) returns (gone: set<nat>, touched: set<DocId>)
    ensures gone == RowsUpTo(logs, upTo).Keys
    ensures touched == set id | id in RowsUpTo(logs, upTo) :: RowsUpTo(logs, upTo)[id].doc
  {
    gone, touched := {}, {};
    var todo := logs.Keys;
    while todo != {}
      invariant todo <= logs.Keys
      invariant forall id :: id in gone <==> id in logs && id !in todo && id <= upTo
      invariant forall doc :: doc in touched <==> exists id :: id in gone && logs[id].doc == doc
      decreases todo
    {
      var id: nat :| id in todo;
      if id <= upTo {
        gone, touched := gone + {id}, touched + {logs[id].doc};
      }
      todo := todo - {id};
    }
  }

  lemma ZipOfDims(dels: seq<DocId>, adds: seq<DocId>, vectors: seq<Vec>, d: nat)
    requires |adds| == |vectors| && forall v :: v in vectors ==> |v| == d
    ensures RequestOfDims(Request(dels, Zip(adds, vectors)), d)
  {
    var zip := Zip(adds, vectors);
    forall i | 0 <= i < |zip| ensures |zip[i].1| == d { assert zip[i].1 == vectors[i]; }
  }

  /** Rows are numbered from 1, in the log and in the snapshot a worker took of it. */
  lemma NumberedFromOne(trace: seq<Event>, s: State, d: nat)
    requires HnswSafety.Follows(trace, s, d)
    ensures forall id :: id in s.disk.logs ==> 1 <= id
    ensures s.worker.Applying? ==> forall id :: id in s.worker.rows ==> 1 <= id
  {
    HnswSafety.FollowsKeepsInv(trace, s, d);
    if s.worker.Applying? {
      forall id | id in s.worker.rows ensures 1 <= id {
        if id <= s.worker.upTo { assert id in s.disk.logs; }
      }
    }
  }

  /** The documents a worker reads while it builds are still the stored ones when it saves the index. */
  lemma SnapshotIsCurrent(trace: seq<Event>, s: State, d: nat)
    requires HnswSafety.Follows(trace, s, d) && s.worker.Building?
    ensures s.worker.docs == s.disk.docs
  {
    HnswSafety.FollowsKeepsInv(trace, s, d);
  }

  lemma SameReplay(trace: seq<Event>, e: Event)
    requires !e.BatchWrite?
    ensures Replay(trace + [e]) == Replay(trace)
  {
    var more := trace + [e];
    assert more[..|more| - 1] == trace && more[|more| - 1] == e;
    assert AllOps(more) == AllOps(trace) + [] == AllOps(trace);
  }

  /** What a batch does to the replay, and the change in its size. */
  lemma BatchMeaning(trace: seq<Event>, s: State, d: nat, mem: Memory, dels: seq<DocId>, ids: seq<DocId>,
                     vectors: seq<Vec>)
    requires HnswSafety.Follows(trace, s, d) && s.writing.None? && s.mem == mem && |ids| == |vectors|
    ensures var req := Request(dels, Zip(ids, vectors));
            var after := Replay(trace + [BatchWrite(req)] + [BatchCommit]);
            && HnswSafety.AfterBatch(Replay(trace), dels, ids, vectors, after)
            && CountDelta(mem, req) == |after| - |Replay(trace)|
  {
    var req := Request(dels, Zip(ids, vectors));
    HnswSafety.ReplayAfterBatch(trace, req, ids, vectors);
    SameReplay(trace + [BatchWrite(req)], BatchCommit);
    HnswSafety.FollowsKeepsInv(trace, s, d);
    HnswSafety.FollowsReplays(trace, s, d);
    HnswSafety.CountDeltaIsExact(mem, s.disk.docs, req);
    HnswSafety.ReplayIs(trace, req);
  }

  /** Publishing an index that no row is newer than leaves that index alone, and it is the replay. */
  lemma QuietRebuild(trace: seq<Event>, s: State, d: nat)
    requires HnswSafety.Follows(trace, s, d) && s.worker.Cleaned? && s.writing.None?
    requires s.worker.upTo == s.mem.latestLogID
    ensures var mem := Next(s, CleanCommit).mem;
            mem.docTS == map[] && mem.cache == map[] && s.disk.logs == map[] && mem.index == Some(Replay(trace))
  {
    HnswSafety.FollowsKeepsInv(trace, s, d);
    HnswSafety.FollowsReplays(trace, s, d);
    HnswSafety.CleanCommitKeepsView(s);
    HnswSafety.QuietRebuildLeavesIndex(s);
  }

  /** What a new object needs to know of the log it is about to load. */
  lemma LoadableLog(trace: seq<Event>, s: State, d: nat)
    requires HnswSafety.Follows(trace, s, d)
    ensures RowsOfDims(s.disk.logs, d)
  {
    HnswSafety.FollowsKeepsInv(trace, s, d);
  }

  /** The row loop of buildHNSW: every document row of the snapshot is added to an empty index, in any order. */
  method AddRows(rows: map<DocId, Vec>) returns (index: map<DocId, Vec>)
    ensures index == rows
  {
    index := map[];
    var todo := rows.Keys;
    while todo != {}
      invariant todo <= rows.Keys && index.Keys == rows.Keys - todo
      invariant forall doc :: doc in index ==> index[doc] == rows[doc]
      decreases todo
    {
      var doc :| doc in todo;
      index := index[doc := rows[doc]];
      todo := todo - {doc};
    }
  }

  lemma SupersededOneMore(mem: Memory, touched: set<DocId>, todo: set<DocId>, n: nat, doc: DocId)
    requires doc in todo && todo <= touched
    ensures var before, after := Superseded(mem, touched - todo, n), Superseded(mem, touched - (todo - {doc}), n);
            var hit := (if doc in mem.docTS then mem.docTS[doc] else 0) <= n;
            && after == (if hit then before + {doc} else before)
            && mem.cache - after == (if hit then (mem.cache - before) - {doc} else mem.cache - before)
            && mem.docTS - after == (if hit then (mem.docTS - before) - {doc} else mem.docTS - before)
  {
    assert touched - (todo - {doc}) == (touched - todo) + {doc};
  }

  lemma SupersededNone(mem: Memory, touched: set<DocId>, n: nat)
    ensures Superseded(mem, touched - touched, n) == {} && touched - {} == touched
    ensures mem.cache - {} == mem.cache && mem.docTS - {} == mem.docTS
  {
    assert touched - touched == {};
  }

  class Segment {
    const dims: nat
    const cache: Cache
    var docTS: map<DocId, nat>
    var latestLogID: nat
    var hnswLogID: nat
    var index: Option<map<DocId, Vec>>
    /** The durable store and the saved index file. */
    var store: Disk
    /** The run made so far and the state it led to. */
    ghost var trace: seq<Event>
    ghost var state: State

    /** Holds of an object that is still to load its store, too. */
    ghost predicate Shaped()
      reads this, cache
    {
      cache.Valid() && cache.dims == dims && HnswSafety.Follows(trace, state, dims) && state.disk == store
    }

    ghost function Mem(): Memory
      requires Shaped()
      reads this, cache
    {
      Memory(cache.Contents, docTS, latestLogID, hnswLogID, index)
    }

    ghost predicate Valid()
      reads this, cache
    {
      Shaped() && state.mem == Mem()
    }

    /** The object has made the step e. */
    twostate predicate Stepped(e: Event)
      requires old(Valid())
      reads this, cache
    {
      && Valid() && Enabled(old(state), e)
      && trace == old(trace) + [e] && state == Next(old(state), e)
      && (!e.BatchWrite? ==> Replay(trace) == Replay(old(trace)))
    }

    /** A new object over a store that an earlier process, or none, has left behind. */
    constructor (dims: nat, store: Disk, ghost trace: seq<Event>, ghost state: State)
      requires HnswSafety.Follows(trace, state, dims) && state.disk == store
      ensures Shaped() && this.dims == dims && this.store == store && fresh(cache)
      ensures this.trace == trace && this.state == state
      ensures Mem() == Memory(map[], map[], 0, 0, None)
    {
      this.dims, this.store := dims, store;
      this.trace, this.state := trace, state;
      cache := new Cache(dims);
      docTS, latestLogID, hnswLogID, index := map[], 0, 0, None;
    }

    ghost method Advance(e: Event)
      requires HnswSafety.Follows(trace, state, dims) && Enabled(state, e) && EventOfDims(e, dims)
      modifies `trace, `state
      ensures HnswSafety.Follows(trace, state, dims)
      ensures trace == old(trace) + [e] && state == Next(old(state), e)
      ensures !e.BatchWrite? ==> Replay(trace) == Replay(old(trace))
    {
      HnswSafety.FollowsOneMore(trace, state, dims, e);
      if !e.BatchWrite? { SameReplay(trace, e); }
      trace, state := trace + [e], Next(state, e);
    }

    /** Restores the overlay from the log, visiting documents in the given order. */
    method LoadLogs(order: seq<DocId>)
      requires cache.Valid() && cache.Contents == map[] && docTS == map[]
      requires forall doc :: doc in Newest(store.logs, store.latestLogID) <==> doc in order
      requires forall id :: id in store.logs ==> 1 <= id
      requires RowsOfDims(store.logs, cache.dims)
      modifies this`docTS, cache
      ensures cache.Valid()
      ensures docTS == Newest(store.logs, store.latestLogID)
      ensures cache.Contents == Overlay(store.logs, docTS)
    {
      var newest := NewestRows(store.logs, store.latestLogID);
      PointsBack(store.logs, store.latestLogID);
      PlusNothing(newest);
      docTS := docTS + newest;
      cache.Restore(store.logs, newest, order);
    }

    /** Rebuilds the object from the store; called once on a new object. */
    method LoadStore(order: seq<DocId>)
      requires Shaped() && cache.Contents == map[] && docTS == map[]
      requires forall doc :: doc in Newest(store.logs, store.latestLogID) <==> doc in order
      modifies this, cache
      ensures Valid() && store == old(store) && Mem() == Load(store)
      ensures trace == old(trace) + [CrashAndLoad] && state == Next(old(state), CrashAndLoad)
    {
      NumberedFromOne(trace, state, dims);
      LoadableLog(trace, state, dims);
      LoadFields(order);
      Advance(CrashAndLoad);
    }

    method LoadFields(order: seq<DocId>)
      requires cache.Valid() && cache.Contents == map[] && docTS == map[]
      requires forall doc :: doc in Newest(store.logs, store.latestLogID) <==> doc in order
      requires forall id :: id in store.logs ==> 1 <= id
      requires RowsOfDims(store.logs, cache.dims)
      modifies `docTS, `latestLogID, `hnswLogID, `index, cache
      ensures cache.Valid()
      ensures Memory(cache.Contents, docTS, latestLogID, hnswLogID, index) == Load(store)
    {
      hnswLogID, latestLogID := store.hnswLogID, store.latestLogID;
      LoadLogs(order);
      index := store.indexFile;
    }

    /** A delta is added to the stored count, or the worker gives up: nothing of the object changes. */
    ghost method Environment(e: Event)
      requires Valid() && (e.AddCount? || e.RebuildFail?) && Enabled(state, e)
      modifies `trace, `state
      ensures Stepped(e)
    {
      Advance(e);
    }

    // ------------------------------------------------------------------- writers

    /** The change in the number of documents that a batch makes. */
    method CountBatch(adds: seq<DocId>, vectors: seq<Vec>, dels: seq<DocId>) returns (delta: int)
      requires Shaped() && |adds| == |vectors|
      ensures delta == CountDelta(Mem(), Request(dels, Zip(adds, vectors)))
    {
      var signs := Signs(adds, vectors, dels);
      CountAll(signs, Mem(), Request(dels, Zip(adds, vectors)));
      delta := CountSigns(signs, cache.docIDIndex, docTS, index, Mem());
    }

    /**
     One Batch call, from taking the mutex to releasing it. The replay changes as the batch says, and the result is
     the change in the number of documents.
     */
    method Batch(addIDs: seq<DocId>, vectors: seq<Vec>, delIDs: seq<DocId>) returns (r: Result<int>)
      requires Valid() && state.writing.None?
      modifies this, cache
      ensures Valid()
      ensures r.Success? <==> |addIDs| == |vectors| && forall v :: v in vectors ==> |v| == dims
      ensures r.Failure? ==> Mem() == old(Mem()) && trace == old(trace) && state == old(state)
      ensures r.Success? ==>
                var req := Request(delIDs, Zip(addIDs, vectors));
                && trace == old(trace) + [BatchWrite(req)] + [BatchCommit]
                && state == Next(Next(old(state), BatchWrite(req)), BatchCommit)
                && r == Success(CountDelta(old(Mem()), req))
      ensures r.Success? ==>
                && HnswSafety.AfterBatch(Replay(old(trace)), delIDs, addIDs, vectors, Replay(trace))
                && r.value == |Replay(trace)| - |Replay(old(trace))|
    {
      if |addIDs| != |vectors| {
        return Failure("invalid parameters: size of docIDs and vectors not equal");
      }
      for i := 0 to |vectors|
        invariant forall j :: 0 <= j < i ==> |vectors[j]| == dims
      {
        if |vectors[i]| != dims {
          assert vectors[i] in vectors;
          return Failure("wrong dimension for vector");
        }
      }
      BatchMeaning(trace, state, dims, Mem(), delIDs, addIDs, vectors);
      var stamps, last := WriteRows(addIDs, vectors, delIDs);
      var count := Publish(addIDs, vectors, delIDs, stamps, last);
      r := Success(count);
    }

    /** The durable write of a batch. */
    method WriteRows(addIDs: seq<DocId>, vectors: seq<Vec>, delIDs: seq<DocId>)
      returns (stamps: map<DocId, nat>, last: nat)
      requires Valid() && state.writing.None?
      requires |addIDs| == |vectors| && forall v :: v in vectors ==> |v| == dims
      modifies `store, `trace, `state
      ensures Stepped(BatchWrite(Request(delIDs, Zip(addIDs, vectors))))
      ensures stamps == Stamps(latestLogID, Ops(Request(delIDs, Zip(addIDs, vectors))))
      ensures last == latestLogID + |delIDs| + |addIDs|
    {
      ghost var req := Request(delIDs, Zip(addIDs, vectors));
      ZipOfDims(delIDs, addIDs, vectors, dims);
      DropsFirst(delIDs, Zip(addIDs, vectors));
      var rows;
      rows, stamps := NumberRows(latestLogID, delIDs, addIDs, vectors);
      last := latestLogID + |delIDs| + |addIDs|;
      Advance(BatchWrite(req));
      store := store.(logs := store.logs + rows, latestLogID := last);
    }

    /** Makes a batch visible once its rows are durable. */
    method Publish(addIDs: seq<DocId>, vectors: seq<Vec>, delIDs: seq<DocId>, stamps: map<DocId, nat>, last: nat)
      returns (count: int)
      requires Valid() && |addIDs| == |vectors| && forall v :: v in vectors ==> |v| == dims
      requires state.writing == Some(Request(delIDs, Zip(addIDs, vectors)))
      requires stamps == Stamps(latestLogID, Ops(Request(delIDs, Zip(addIDs, vectors))))
      requires last == latestLogID + |delIDs| + |addIDs|
      modifies `latestLogID, `docTS, `trace, `state, cache
      ensures Stepped(BatchCommit) && count == CountDelta(old(Mem()), old(state).writing.value)
    {
      count := CountBatch(addIDs, vectors, delIDs);
      ghost var req := Request(delIDs, Zip(addIDs, vectors));
      ghost var after := CommittedMem(Mem(), req);
      CommitOverlay(addIDs, vectors, delIDs, stamps, last);
      Advance(BatchCommit);
      assert Mem() == after;
    }

    /** The overlay after a batch. */
    method CommitOverlay(addIDs: seq<DocId>, vectors: seq<Vec>, delIDs: seq<DocId>, stamps: map<DocId, nat>, last: nat)
      requires cache.Valid() && |addIDs| == |vectors| && forall v :: v in vectors ==> |v| == cache.dims
      modifies `latestLogID, `docTS, cache
      ensures cache.Valid() && latestLogID == last && docTS == old(docTS) + stamps
      ensures cache.Contents == ApplyRows(old(cache.Contents), Ops(Request(delIDs, Zip(addIDs, vectors))))
    {
      latestLogID := last;
      docTS := docTS + stamps;
      cache.ApplyBatch(delIDs, addIDs, vectors);
    }

    // ---------------------------------------------------------------- the worker

    /** applyLogs takes its snapshot under the read lock. */
    method ApplyBegin() returns (logID: nat, rows: map<nat, Row>)
      requires Valid() && Enabled(state, HnswProtocol.ApplyBegin)
      modifies `trace, `state
      ensures Stepped(HnswProtocol.ApplyBegin) && state.worker == Applying(logID, rows)
    {
      logID, rows := latestLogID, store.logs;
      Advance(HnswProtocol.ApplyBegin);
    }

    /** applyLogs folds the newest rows of its snapshot into the documents stored by now. */
    method ApplyWrite(logID: nat, rows: map<nat, Row>)
      requires Valid() && state.worker == Applying(logID, rows)
      modifies `store, `trace, `state
      ensures Stepped(HnswProtocol.ApplyWrite)
    {
      NumberedFromOne(trace, state, dims);
      var docs := FoldRows(store.docs, rows, logID);
      Advance(HnswProtocol.ApplyWrite);
      store := store.(docs := docs);
    }

    /** buildHNSW opens its reader under the mutex. */
    method BuildBegin() returns (rows: map<DocId, Vec>)
      requires Valid() && Enabled(state, HnswProtocol.BuildBegin)
      modifies `trace, `state
      ensures Stepped(HnswProtocol.BuildBegin) && state.worker == Building(old(state).worker.upTo, rows)
    {
      rows := store.docs;
      Advance(HnswProtocol.BuildBegin);
    }

    /**
     buildHNSW adds the rows its reader shows to an empty index and saves it. However many batches have
     come in meanwhile, the saved index holds exactly the documents stored at that moment.
     */
    method BuildIndex(rows: map<DocId, Vec>) returns (built: map<DocId, Vec>)
      requires Valid() && state.worker.Building? && state.worker.docs == rows
      modifies `store, `trace, `state
      ensures Stepped(BuildSave) && state.worker == Built(old(state).worker.upTo, built)
      ensures store.indexFile == Some(built) && built == store.docs
    {
      built := AddRows(rows);
      SnapshotIsCurrent(trace, state, dims);
      Advance(BuildSave);
      store := store.(indexFile := Some(built));
    }

    /** cleanLogs opens its reader under the mutex. */
    method CleanBegin() returns (rows: map<nat, Row>)
      requires Valid() && Enabled(state, HnswProtocol.CleanBegin)
      modifies `trace, `state
      ensures Stepped(HnswProtocol.CleanBegin)
      ensures state.worker == Cleaning(old(state).worker.upTo, old(state).worker.index, rows)
    {
      rows := store.logs;
      Advance(HnswProtocol.CleanBegin);
    }

    /** cleanLogs removes the applied rows of its snapshot from the log. */
    method CleanWrite(logID: nat, built: map<DocId, Vec>, rows: map<nat, Row>) returns (touched: set<DocId>)
      requires Valid() && state.worker == Cleaning(logID, built, rows)
      modifies `store, `trace, `state
      ensures Stepped(HnswProtocol.CleanWrite) && state.worker == Cleaned(logID, built, touched)
    {
      var gone;
      gone, touched := CollectApplied(rows, logID);
      Advance(HnswProtocol.CleanWrite);
      store := store.(logs := store.logs - gone, hnswLogID := logID);
    }

    /** cleanLogs drops what the new index makes redundant and publishes that index. */
    method CleanCommit(logID: nat, built: map<DocId, Vec>, touched: set<DocId>)
      requires Valid() && state.worker == Cleaned(logID, built, touched) && state.writing.None?
      modifies this, cache
      ensures Stepped(HnswProtocol.CleanCommit)
    {
      Advance(HnswProtocol.CleanCommit);
      hnswLogID := logID;
      DropSuperseded(touched, logID);
      index := Some(built);
    }

    method DropSuperseded(touched: set<DocId>, logID: nat)
      requires Shaped()
      modifies this`docTS, cache
      ensures Shaped()
      ensures var gone := Superseded(old(Mem()), touched, logID);
              cache.Contents == old(cache.Contents) - gone && docTS == old(docTS) - gone
    {
      var todo := touched;
      SupersededNone(Mem(), touched, logID);
      while todo != {}
        invariant Shaped() && todo <= touched
        invariant cache.Contents == old(cache.Contents) - Superseded(old(Mem()), touched - todo, logID)
        invariant docTS == old(docTS) - Superseded(old(Mem()), touched - todo, logID)
        decreases todo
      {
        var doc :| doc in todo;
        SupersededOneMore(old(Mem()), touched, todo, logID, doc);
        if (if doc in docTS then docTS[doc] else 0) <= logID {
          cache.Delete(doc);
          docTS := docTS - {doc};
        }
        todo := todo - {doc};
      }
    }

    // ------------------------------------- the worker's phases when no writer comes in

    method ApplyLogs() returns (logID: nat)
      requires Valid() && state.worker.Idle? && state.writing.None?
      modifies `store, `trace, `state
      ensures Valid() && state.worker == Applied(logID) && state.writing.None?
      ensures logID == latestLogID && Replay(trace) == Replay(old(trace))
    {
      var rows;
      logID, rows := ApplyBegin();
      ApplyWrite(logID, rows);
    }

    method BuildSaved() returns (built: map<DocId, Vec>)
      requires Valid() && state.worker.Applied? && state.writing.None?
      modifies `store, `trace, `state
      ensures Valid() && state.worker == Built(old(state).worker.upTo, built) && state.writing.None?
      ensures store.indexFile == Some(built) && built == store.docs && Replay(trace) == Replay(old(trace))
    {
      var rows := BuildBegin();
      built := BuildIndex(rows);
    }

    method CleanLogs(logID: nat, built: map<DocId, Vec>)
      requires Valid() && state.worker == Built(logID, built) && state.writing.None? && logID == latestLogID
      modifies this, cache
      ensures Valid() && state.worker.Idle? && state.writing.None?
      ensures docTS == map[] && cache.Contents == map[] && store.logs == map[]
      ensures index == Some(Replay(trace)) && store.indexFile == old(store.indexFile)
      ensures Replay(trace) == Replay(old(trace))
    {
      var touched := CleanStored(logID, built);
      QuietRebuild(trace, state, dims);
      CleanCommit(logID, built, touched);
    }

    method CleanStored(logID: nat, built: map<DocId, Vec>) returns (touched: set<DocId>)
      requires Valid() && state.worker == Built(logID, built) && state.writing.None?
      modifies `store, `trace, `state
      ensures Valid() && state.worker == Cleaned(logID, built, touched) && state.writing.None?
      ensures state.mem == old(state).mem && store.indexFile == old(store.indexFile)
      ensures Replay(trace) == Replay(old(trace))
    {
      var rows := CleanBegin();
      touched := CleanWrite(logID, built, rows);
    }

    /**
     A whole rebuild that no writer comes into: it empties the log and the overlay, and the published
     index is the replay of every batch.
     */
    method BuildHNSW()
      requires Valid() && state.worker.Idle? && state.writing.None?
      modifies this, cache
      ensures Valid() && state.worker.Idle? && state.writing.None?
      ensures docTS == map[] && cache.Contents == map[] && store.logs == map[]
      ensures Replay(trace) == Replay(old(trace)) && index == Some(Replay(trace)) && store.indexFile.Some?
    {
      var logID := ApplyLogs();
      var built := BuildSaved();
      CleanLogs(logID, built);
    }
  }
}
