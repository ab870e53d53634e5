/**
 Safety of the HNSW segment over every interleaving and every crash point: the
 overlay, the stored documents and the log always denote the map obtained by
 applying all durable batches in order.
 */
module HnswSafety {
  import opened Wrappers
  import opened HnswProtocol

  // ------------------------------------------------------- facts about Newest

  lemma {:induction false} NewestFacts(logs: map<nat, Row>, n: nat)
    ensures forall doc :: doc in Newest(logs, n) ==>
              1 <= Newest(logs, n)[doc] <= n && Newest(logs, n)[doc] in logs &&
              logs[Newest(logs, n)[doc]].doc == doc
    ensures forall id :: id in logs && 1 <= id <= n ==>
              logs[id].doc in Newest(logs, n) && id <= Newest(logs, n)[logs[id].doc]
  {
    if n != 0 { NewestFacts(logs, n - 1); }
  }

  lemma {:induction false} NewestDependsOnPrefix(a: map<nat, Row>, b: map<nat, Row>, n: nat)
    requires SameUpTo(a, b, n)
    ensures Newest(a, n) == Newest(b, n)
  {
    if n != 0 {
      NewestDependsOnPrefix(a, b, n - 1);
    }
  }

  lemma OverlayDependsOnPrefix(a: map<nat, Row>, b: map<nat, Row>, n: nat)
    requires SameUpTo(a, b, n)
    ensures Overlay(a, Newest(a, n)) == Overlay(b, Newest(b, n))
  {
    NewestDependsOnPrefix(a, b, n);
    NewestFacts(a, n);
    var ts := Newest(a, n);
    assert forall doc :: doc in ts ==> ts[doc] <= n;
    assert Overlay(a, ts).Keys == Overlay(b, ts).Keys;
  }

  lemma NewestSettled(logs: map<nat, Row>, mem: Memory, n: nat, doc: DocId)
    requires MirrorsLog(logs, mem) && n <= mem.latestLogID
    requires doc in mem.docTS && mem.docTS[doc] <= n && mem.docTS[doc] in logs
    ensures doc in Newest(logs, n) && Newest(logs, n)[doc] == mem.docTS[doc]
  {
    NewestFacts(logs, n);
    NewestFacts(logs, mem.latestLogID);
  }

  // --------------------------------------------------- the invariant, per event

  lemma NewestGrows(a: map<nat, Row>, n: nat, b: map<nat, Row>, m: nat)
    requires n <= m && SameUpTo(a, b, n)
    ensures Newest(a, n).Keys <= Newest(b, m).Keys
  {
    NewestFacts(a, n);
    NewestFacts(b, m);
  }

  lemma MirrorsKept(a: map<nat, Row>, b: map<nat, Row>, mem: Memory)
    requires MirrorsLog(a, mem) && SameUpTo(a, b, mem.latestLogID)
    ensures MirrorsLog(b, mem)
  {
    NewestDependsOnPrefix(a, b, mem.latestLogID);
  }

  lemma FoldedKept(a: Disk, b: Disk, n: nat)
    requires Folded(a, n) && SameUpTo(a.logs, b.logs, n) && a.docs == b.docs
    ensures Folded(b, n)
  {
    NewestDependsOnPrefix(a.logs, b.logs, n);
    OverlayDependsOnPrefix(a.logs, b.logs, n);
  }

  lemma WorkerKept(s: State, s': State)
    requires WorkerOk(s) && s'.worker == s.worker && !s.worker.Cleaned?
    requires s'.mem.latestLogID == s.mem.latestLogID
    requires SameUpTo(s.disk.logs, s'.disk.logs, s.mem.latestLogID)
    requires s'.disk.docs == s.disk.docs && s'.disk.indexFile == s.disk.indexFile
    ensures WorkerOk(s')
  {
    if !s.worker.Idle? && !s.worker.Applying? {
      FoldedKept(s.disk, s'.disk, s.worker.upTo);
    }
  }

  lemma AppendKeepsInv(s: State, s': State, rows: seq<Row>)
    requires Inv(s) && s.writing.None?
    requires s' == s.(disk := s'.disk, writing := s'.writing) && s'.writing.Some? && rows == Ops(s'.writing.value)
    requires s'.disk == s.disk.(logs := s'.disk.logs, latestLogID := s.mem.latestLogID + |rows|)
    requires SameUpTo(s.disk.logs, s'.disk.logs, s.mem.latestLogID)
    requires HoldsRows(s'.disk.logs, s.mem.latestLogID, rows)
    requires forall id :: id in s'.disk.logs ==> 1 <= id <= s'.disk.latestLogID
    ensures Inv(s')
  {
    MirrorsKept(s.disk.logs, s'.disk.logs, s.mem);
    NewestGrows(s.disk.logs, s.mem.latestLogID, s'.disk.logs, s'.disk.latestLogID);
    assert Unlogged(s');
    if s.worker.Cleaned? {
      assert forall id :: id in s'.disk.logs ==> id in s.disk.logs || s.mem.latestLogID < id;
    } else {
      WorkerKept(s, s');
    }
  }

  lemma BatchWriteKeepsInv(s: State, req: Request)
    requires Inv(s) && Enabled(s, BatchWrite(req))
    ensures Inv(Next(s, BatchWrite(req)))
  {
    AppendKeepsInv(s, Next(s, BatchWrite(req)), Ops(req));
  }

  lemma CommitRowMirrors(logs: map<nat, Row>, mem: Memory, row: Row)
    requires MirrorsLog(logs, mem)
    requires mem.latestLogID + 1 in logs && logs[mem.latestLogID + 1] == row
    ensures MirrorsLog(logs, CommitRow(mem, row))
  {
    NewestFacts(logs, mem.latestLogID);
  }

  lemma {:induction false} CommitRowsMirrors(logs: map<nat, Row>, mem: Memory, rows: seq<Row>)
    requires MirrorsLog(logs, mem)
    requires HoldsRows(logs, mem.latestLogID, rows)
    ensures MirrorsLog(logs, CommitRows(mem, rows))
    ensures CommitRows(mem, rows).latestLogID == mem.latestLogID + |rows|
    ensures CommitRows(mem, rows).index == mem.index && CommitRows(mem, rows).hnswLogID == mem.hnswLogID
    ensures mem.docTS.Keys <= CommitRows(mem, rows).docTS.Keys
    ensures forall doc :: doc in CommitRows(mem, rows).docTS && CommitRows(mem, rows).docTS[doc] !in logs ==>
              doc in mem.docTS && CommitRows(mem, rows).docTS[doc] == mem.docTS[doc] &&
              Agree(CommitRows(mem, rows).cache, mem.cache, doc)
    decreases |rows|
  {
    if rows != [] {
      var k := |rows| - 1;
      CommitRowsMirrors(logs, mem, rows[..k]);
      assert mem.latestLogID + |rows| in logs;
      CommitRowMirrors(logs, CommitRows(mem, rows[..k]), rows[k]);
    }
  }

  lemma BatchCommitKeepsInv(s: State)
    requires Inv(s) && Enabled(s, BatchCommit)
    ensures Inv(Next(s, BatchCommit))
  {
    CommitRowsMirrors(s.disk.logs, s.mem, Ops(s.writing.value));
    assert Unlogged(Next(s, BatchCommit));
  }

  lemma ApplyFolds(disk: Disk, n: nat)
    ensures Folded(disk.(docs := Materialise(disk.docs, disk.logs, n)), n)
  {
  }

  lemma MirrorsCovers(logs: map<nat, Row>, mem: Memory)
    requires MirrorsLog(logs, mem)
    ensures Newest(logs, mem.latestLogID).Keys <= mem.docTS.Keys
  {
    forall doc | doc in Newest(logs, mem.latestLogID) ensures doc in mem.docTS {}
  }

  lemma IndexAgreesAfterApply(index: Option<map<DocId, Vec>>, disk: Disk, n: nat, covered: set<DocId>)
    requires IndexAgrees(index, disk.docs, covered) && Newest(disk.logs, n).Keys <= covered
    ensures IndexAgrees(index, Materialise(disk.docs, disk.logs, n), covered)
  {
  }

  lemma ApplyWriteKeepsInv(s: State)
    requires Inv(s) && Enabled(s, ApplyWrite)
    ensures Inv(Next(s, ApplyWrite))
  {
    var n := s.worker.upTo;
    var s' := Next(s, ApplyWrite);
    NewestDependsOnPrefix(s.worker.rows, s.disk.logs, n);
    OverlayDependsOnPrefix(s.worker.rows, s.disk.logs, n);
    ApplyFolds(s.disk, n);
    NewestGrows(s.disk.logs, n, s.disk.logs, s.mem.latestLogID);
    NewestGrows(s.disk.logs, n, s.disk.logs, s.disk.latestLogID);
    MirrorsCovers(s.disk.logs, s.mem);
    IndexAgreesAfterApply(s.mem.index, s.disk, n, s.mem.docTS.Keys);
    IndexAgreesAfterApply(s.disk.indexFile, s.disk, n, Newest(s.disk.logs, s.disk.latestLogID).Keys);
  }

  lemma CleanMirrors(logs: map<nat, Row>, gone: set<nat>, mem: Memory, n: nat)
    requires MirrorsLog(logs, mem)
    requires forall id :: id in logs ==> (id in gone <==> id <= n)
    ensures MirrorsLog(logs - gone, mem)
  {
    var n', before, after := mem.latestLogID, Newest(logs, mem.latestLogID), Newest(logs - gone, mem.latestLogID);
    NewestFacts(logs, n');
    NewestFacts(logs - gone, n');
    forall doc | doc in after ensures doc in before && after[doc] == before[doc] {
      assert after[doc] in logs && logs[after[doc]].doc == doc;
      assert before[doc] in logs && logs[before[doc]].doc == doc;
      if before[doc] !in gone { assert before[doc] in logs - gone; }
    }
  }

  lemma CleanWriteKeepsInv(s: State)
    requires Inv(s) && Enabled(s, CleanWrite)
    ensures Inv(Next(s, CleanWrite))
  {
    var s' := Next(s, CleanWrite);
    var n := s.worker.upTo;
    var gone := RowsUpTo(s.worker.rows, n);
    CleanMirrors(s.disk.logs, gone.Keys, s.mem, n);
    forall doc | doc in s.mem.docTS && s.mem.docTS[doc] !in s'.disk.logs
      ensures s.mem.docTS[doc] <= n && doc in s'.worker.touched && Agree(s.mem.cache, s.disk.docs, doc)
    {
      CleanSettles(s, doc);
    }
  }

  /** The rows that cleaning drops are settled in the stored documents. */
  lemma CleanSettles(s: State, doc: DocId)
    requires Inv(s) && Enabled(s, CleanWrite)
    requires doc in s.mem.docTS && s.mem.docTS[doc] !in Next(s, CleanWrite).disk.logs
    ensures s.mem.docTS[doc] <= s.worker.upTo && doc in Next(s, CleanWrite).worker.touched
    ensures Agree(s.mem.cache, s.disk.docs, doc)
  {
    NewestSettled(s.disk.logs, s.mem, s.worker.upTo, doc);
    assert s.mem.docTS[doc] in RowsUpTo(s.worker.rows, s.worker.upTo);
  }

  lemma CleanCommitKeepsInv(s: State)
    requires Inv(s) && Enabled(s, CleanCommit)
    ensures Inv(Next(s, CleanCommit))
  {
    NewestFacts(s.disk.logs, s.mem.latestLogID);
  }

  lemma LoadMirrors(disk: Disk)
    ensures MirrorsLog(disk.logs, Load(disk))
  {
    NewestFacts(disk.logs, disk.latestLogID);
  }

  lemma CrashKeepsInv(s: State)
    requires Inv(s)
    ensures Inv(Next(s, CrashAndLoad))
  {
    LoadMirrors(s.disk);
    NewestFacts(s.disk.logs, s.disk.latestLogID);
  }

  lemma NextKeepsInv(s: State, e: Event)
    requires Inv(s) && Enabled(s, e)
    ensures Inv(Next(s, e))
  {
    match e
    case BatchWrite(req) => BatchWriteKeepsInv(s, req);
    case BatchCommit => BatchCommitKeepsInv(s);
    case ApplyWrite => ApplyWriteKeepsInv(s);
    case CleanWrite => CleanWriteKeepsInv(s);
    case CleanCommit => CleanCommitKeepsInv(s);
    case CrashAndLoad => CrashKeepsInv(s);
    case _ =>
  }

  // ------------------------------------------------------------------ the view

  lemma {:induction false} ApplyRowsConcat(m: map<DocId, Vec>, a: seq<Row>, b: seq<Row>)
    ensures ApplyRows(m, a + b) == ApplyRows(ApplyRows(m, a), b)
    decreases |b|
  {
    if b == [] {
      assert a + b == a;
    } else {
      assert (a + b)[..|a + b| - 1] == a + b[..|b| - 1];
      ApplyRowsConcat(m, a, b[..|b| - 1]);
    }
  }

  lemma {:induction false} ViewOfCommit(mem: Memory, docs: map<DocId, Vec>, rows: seq<Row>)
    ensures View(CommitRows(mem, rows), docs) == ApplyRows(View(mem, docs), rows)
    decreases |rows|
  {
    if rows != [] {
      ViewOfCommit(mem, docs, rows[..|rows| - 1]);
      ViewOfRow(CommitRows(mem, rows[..|rows| - 1]), docs, rows[|rows| - 1]);
    }
  }

  lemma ViewOfRow(mem: Memory, docs: map<DocId, Vec>, row: Row)
    ensures View(CommitRow(mem, row), docs) == ApplyRow(View(mem, docs), row)
  {
  }

  lemma SameMap(a: map<DocId, Vec>, b: map<DocId, Vec>)
    requires forall doc :: Agree(a, b, doc)
    ensures a == b
  {
    forall doc ensures doc in a <==> doc in b { assert Agree(a, b, doc); }
    assert a.Keys == b.Keys;
    forall doc | doc in a ensures a[doc] == b[doc] { assert Agree(a, b, doc); }
  }

  lemma HiddenUpdate(docs: map<DocId, Vec>, gone: set<DocId>, update: map<DocId, Vec>, hidden: set<DocId>)
    requires gone <= hidden && update.Keys <= hidden
    ensures ((docs - gone) + update) - hidden == docs - hidden
  {
  }

  lemma MaterialiseIsInvisible(mem: Memory, docs: map<DocId, Vec>, logs: map<nat, Row>, n: nat)
    requires Newest(logs, n).Keys <= mem.docTS.Keys
    ensures View(mem, Materialise(docs, logs, n)) == View(mem, docs)
  {
    var overlay := Overlay(logs, Newest(logs, n));
    assert overlay.Keys <= Newest(logs, n).Keys;
    HiddenUpdate(docs, Newest(logs, n).Keys, overlay, mem.docTS.Keys);
  }

  lemma ApplyWriteKeepsView(s: State)
    requires Inv(s) && Enabled(s, ApplyWrite)
    ensures View(s.mem, Next(s, ApplyWrite).disk.docs) == View(s.mem, s.disk.docs)
  {
    var n := s.worker.upTo;
    NewestDependsOnPrefix(s.worker.rows, s.disk.logs, n);
    NewestGrows(s.disk.logs, n, s.disk.logs, s.mem.latestLogID);
    MirrorsCovers(s.disk.logs, s.mem);
    MaterialiseIsInvisible(s.mem, s.disk.docs, s.worker.rows, n);
  }

  lemma UncoverAgreeing(cache: map<DocId, Vec>, docs: map<DocId, Vec>, covered: set<DocId>, gone: set<DocId>)
    requires cache.Keys <= covered
    requires forall doc :: doc in gone && doc in covered ==> Agree(cache, docs, doc)
    ensures (docs - (covered - gone)) + (cache - gone) == (docs - covered) + cache
  {
    SameMap((docs - (covered - gone)) + (cache - gone), (docs - covered) + cache);
  }

  lemma CleanCommitKeepsView(s: State)
    requires Inv(s) && Enabled(s, CleanCommit)
    ensures View(Next(s, CleanCommit).mem, s.disk.docs) == View(s.mem, s.disk.docs)
  {
    var gone := Superseded(s.mem, s.worker.touched, s.worker.upTo);
    forall doc | doc in gone && doc in s.mem.docTS
      ensures Agree(s.mem.cache, s.disk.docs, doc)
    {
      assert s.mem.docTS[doc] !in s.disk.logs;
    }
    UncoverAgreeing(s.mem.cache, s.disk.docs, s.mem.docTS.Keys, gone);
    assert (s.mem.docTS - gone).Keys == s.mem.docTS.Keys - gone;
  }

  /** The map a restarted process sees, when no Batch is between its write and its commit. */
  lemma LoadedView(s: State)
    requires Inv(s) && s.writing.None?
    ensures View(Load(s.disk), s.disk.docs) == View(s.mem, s.disk.docs)
  {
    var n := s.disk.latestLogID;
    NewestFacts(s.disk.logs, n);
    forall doc
      ensures Agree(View(Load(s.disk), s.disk.docs), View(s.mem, s.disk.docs), doc)
    {
      if doc in s.mem.docTS && doc !in Newest(s.disk.logs, n) {
        assert s.mem.docTS[doc] !in s.disk.logs;
      }
    }
    SameMap(View(Load(s.disk), s.disk.docs), View(s.mem, s.disk.docs));
  }

  lemma LoadRestoresPending(s: State)
    requires Inv(s)
    ensures View(Load(s.disk), s.disk.docs) == Pending(s)
  {
    if s.writing.Some? {
      BatchCommitKeepsInv(s);
      ViewOfCommit(s.mem, s.disk.docs, Ops(s.writing.value));
      LoadedView(Next(s, BatchCommit));
    } else {
      LoadedView(s);
    }
  }

  lemma NextKeepsPending(s: State, e: Event)
    requires Inv(s) && Enabled(s, e) && !e.BatchWrite?
    ensures Pending(Next(s, e)) == Pending(s)
  {
    match e
    case BatchCommit => ViewOfCommit(s.mem, s.disk.docs, Ops(s.writing.value));
    case ApplyWrite => ApplyWriteKeepsView(s);
    case CleanCommit => CleanCommitKeepsView(s);
    case CrashAndLoad => LoadRestoresPending(s);
    case _ =>
  }

  // ------------------------------------------------------------ whole-run safety

  function NewOps(e: Event): seq<Row> {
    if e.BatchWrite? then Ops(e.req) else []
  }

  lemma NextKeepsHistory(s: State, history: seq<Row>, e: Event)
    requires LogIsHistory(s.disk, history) && WritingOk(s) && Enabled(s, e)
    ensures LogIsHistory(Next(s, e).disk, history + NewOps(e))
  {
    if e.BatchWrite? {
      MoreHistory(s.disk, history, Ops(e.req), NumberedRows(s.mem.latestLogID, Ops(e.req)));
    } else {
      assert history + [] == history;
    }
  }

  lemma MoreHistory(disk: Disk, history: seq<Row>, rows: seq<Row>, more: map<nat, Row>)
    requires LogIsHistory(disk, history)
    requires forall id :: id in more ==> |history| < id <= |history| + |rows| && more[id] == rows[id - |history| - 1]
    ensures LogIsHistory(disk.(logs := disk.logs + more, latestLogID := disk.latestLogID + |rows|), history + rows)
  {
  }

  lemma {:induction false} RunsKeepInv(trace: seq<Event>)
    requires Exec(trace).Some?
    ensures Inv(Exec(trace).value)
    decreases |trace|
  {
    if trace == [] {
      assert MirrorsLog(map[], INIT.mem);
    } else {
      RunsKeepInv(trace[..|trace| - 1]);
      NextKeepsInv(Exec(trace[..|trace| - 1]).value, trace[|trace| - 1]);
    }
  }

  lemma {:induction false} RunsKeepHistory(trace: seq<Event>)
    requires Exec(trace).Some?
    ensures LogIsHistory(Exec(trace).value.disk, AllOps(trace))
    decreases |trace|
  {
    if trace != [] {
      var before := trace[..|trace| - 1];
      RunsKeepHistory(before);
      assert WritingOk(Exec(before).value) by { RunsKeepInv(before); }
      NextKeepsHistory(Exec(before).value, AllOps(before), trace[|trace| - 1]);
    }
  }

  lemma {:induction false} RunsKeepReplay(trace: seq<Event>)
    requires Exec(trace).Some?
    ensures Pending(Exec(trace).value) == Replay(trace)
    decreases |trace|
  {
    if trace != [] {
      var before := trace[..|trace| - 1];
      var e := trace[|trace| - 1];
      RunsKeepReplay(before);
      RunsKeepInv(before);
      if e.BatchWrite? {
        ApplyRowsConcat(map[], AllOps(before), Ops(e.req));
      } else {
        assert AllOps(trace) == AllOps(before);
        NextKeepsPending(Exec(before).value, e);
      }
    }
  }

  /** Every interleaving: what searches see is all durable batches applied in order. */
  lemma ViewIsReplay(trace: seq<Event>)
    requires Exec(trace).Some? && Exec(trace).value.writing.None?
    ensures View(Exec(trace).value.mem, Exec(trace).value.disk.docs) == Replay(trace)
  {
    RunsKeepReplay(trace);
  }

  predicate IsRebuildEvent(e: Event) {
    e.ApplyBegin? || e.ApplyWrite? || e.BuildBegin? || e.BuildSave? ||
    e.CleanBegin? || e.CleanWrite? || e.CleanCommit? || e.RebuildFail?
  }

  /** No phase of a rebuild changes the view, even while a Batch holds the mutex. */
  lemma RebuildKeepsView(trace: seq<Event>, e: Event)
    requires Exec(trace).Some? && Enabled(Exec(trace).value, e) && IsRebuildEvent(e)
    ensures var s := Exec(trace).value;
            View(Next(s, e).mem, Next(s, e).disk.docs) == View(s.mem, s.disk.docs)
  {
    RunsKeepInv(trace);
    var s := Exec(trace).value;
    if e.ApplyWrite? {
      ApplyWriteKeepsView(s);
    } else if e.CleanCommit? {
      CleanCommitKeepsView(s);
    }
  }

  /** A crash at any point, followed by a load, restores the replayed map and the next log number. */
  lemma CrashRestoresReplay(trace: seq<Event>)
    requires Exec(trace).Some?
    ensures View(Load(Exec(trace).value.disk), Exec(trace).value.disk.docs) == Replay(trace)
    ensures Load(Exec(trace).value.disk).latestLogID == |AllOps(trace)|
  {
    var s := Exec(trace).value;
    RunsKeepReplay(trace);
    RunsKeepHistory(trace);
    assert View(Load(s.disk), s.disk.docs) == Pending(s) by {
      RunsKeepInv(trace);
      LoadRestoresPending(s);
    }
  }

  /** The index that a restart loads holds exactly the stored documents outside the restored overlay. */
  lemma LoadedIndexAgrees(trace: seq<Event>)
    requires Exec(trace).Some?
    ensures var disk := Exec(trace).value.disk;
            IndexAgrees(Load(disk).index, disk.docs, Load(disk).docTS.Keys)
  {
    RunsKeepInv(trace);
  }

  // ---------------------------------------------------------------- dimensions

  lemma OverlayOfDims(logs: map<nat, Row>, ts: map<DocId, nat>, d: nat)
    requires RowsOfDims(logs, d)
    ensures OfDims(Overlay(logs, ts), d)
  {
  }

  lemma MaterialiseOfDims(docs: map<DocId, Vec>, logs: map<nat, Row>, n: nat, d: nat)
    requires OfDims(docs, d) && RowsOfDims(logs, d)
    ensures OfDims(Materialise(docs, logs, n), d)
  {
    OverlayOfDims(logs, Newest(logs, n), d);
  }

  lemma RequestRowsOfDims(req: Request, d: nat, i: nat)
    requires RequestOfDims(req, d) && i < |Ops(req)| && Ops(req)[i].change.Put?
    ensures |Ops(req)[i].change.vec| == d
  {
    assert |req.dels| <= i;
    assert Ops(req)[i].change.vec == req.adds[i - |req.dels|].1;
  }

  lemma WrittenOfDims(logs: map<nat, Row>, from: nat, req: Request, d: nat)
    requires RowsOfDims(logs, d) && RequestOfDims(req, d)
    ensures RowsOfDims(logs + NumberedRows(from, Ops(req)), d)
  {
    var rows := NumberedRows(from, Ops(req));
    forall id | id in rows && rows[id].change.Put? ensures |rows[id].change.vec| == d {
      RequestRowsOfDims(req, d, id - from - 1);
    }
  }

  lemma {:induction false} CommitOfDims(mem: Memory, rows: seq<Row>, d: nat)
    requires OfDims(mem.cache, d)
    requires forall i :: 0 <= i < |rows| && rows[i].change.Put? ==> |rows[i].change.vec| == d
    ensures OfDims(CommitRows(mem, rows).cache, d) && CommitRows(mem, rows).index == mem.index
    decreases |rows|
  {
    if rows != [] {
      CommitOfDims(mem, rows[..|rows| - 1], d);
    }
  }

  lemma NextKeepsSized(s: State, e: Event, d: nat)
    requires Sized(s, d) && Enabled(s, e) && EventOfDims(e, d)
    ensures Sized(Next(s, e), d)
  {
    match e
    case BatchWrite(req) => WrittenOfDims(s.disk.logs, s.mem.latestLogID, req, d);
    case BatchCommit =>
      var req := s.writing.value;
      forall i: nat | i < |Ops(req)| && Ops(req)[i].change.Put? ensures |Ops(req)[i].change.vec| == d {
        RequestRowsOfDims(req, d, i);
      }
      CommitOfDims(s.mem, Ops(req), d);
    case ApplyWrite => MaterialiseOfDims(s.disk.docs, s.worker.rows, s.worker.upTo, d);
    case CrashAndLoad => OverlayOfDims(s.disk.logs, Newest(s.disk.logs, s.disk.latestLogID), d);
    case _ =>
  }

  lemma {:induction false} RunsKeepSized(trace: seq<Event>, d: nat)
    requires Exec(trace).Some? && TraceOfDims(trace, d)
    ensures Sized(Exec(trace).value, d)
    decreases |trace|
  {
    if trace != [] {
      RunsKeepSized(trace[..|trace| - 1], d);
      NextKeepsSized(Exec(trace[..|trace| - 1]).value, trace[|trace| - 1], d);
    }
  }

  /**
   In every reachable state a search finds the overlay and the index in agreement with the view, and,
   if no batch of another dimension was let in, every vector it compares has the segment's dimension.
   */
  lemma ReachableIsSearchable(trace: seq<Event>, d: nat)
    requires Exec(trace).Some?
    ensures var s := Exec(trace).value;
            s.mem.cache.Keys <= s.mem.docTS.Keys && IndexAgrees(s.mem.index, s.disk.docs, s.mem.docTS.Keys)
    ensures var s := Exec(trace).value;
            TraceOfDims(trace, d) ==>
              OfDims(s.mem.cache, d) && OfDims(s.disk.docs, d) && OfDims(Entries(s.mem.index), d)
  {
    RunsKeepInv(trace);
    if TraceOfDims(trace, d) {
      RunsKeepSized(trace, d);
    }
  }

  // ------------------------------------------------------------ what an object follows

  /**
   s is where the run leads, and no request of it has another dimension; the bound variable keeps the run
   folded up where only its end matters.
   */
  ghost predicate Follows(trace: seq<Event>, s: State, d: nat) {
    forall t :: t == trace ==> Exec(t) == Some(s) && TraceOfDims(t, d)
  }

  lemma FollowsOneMore(trace: seq<Event>, s: State, d: nat, e: Event)
    requires Follows(trace, s, d) && Enabled(s, e) && EventOfDims(e, d)
    ensures Follows(trace + [e], Next(s, e), d)
  {
    var more := trace + [e];
    assert more[..|more| - 1] == trace && more[|more| - 1] == e;
    assert Exec(trace) == Some(s) && TraceOfDims(trace, d);
    assert Exec(more) == Some(Next(s, e));
  }

  lemma FollowsKeepsInv(trace: seq<Event>, s: State, d: nat)
    requires Follows(trace, s, d)
    ensures Inv(s) && Sized(s, d)
  {
    RunsKeepInv(trace);
    RunsKeepSized(trace, d);
  }

  lemma FollowsReplays(trace: seq<Event>, s: State, d: nat)
    requires Follows(trace, s, d) && s.writing.None?
    ensures View(s.mem, s.disk.docs) == Replay(trace)
  {
    ViewIsReplay(trace);
  }

  /** A rebuild that ends with no row written since it began leaves nothing but the index. */
  lemma QuietRebuildLeavesIndex(s: State)
    requires Inv(s) && s.worker.Cleaned? && s.writing.None? && s.worker.upTo == s.mem.latestLogID
    ensures var mem := Next(s, CleanCommit).mem;
            mem.docTS == map[] && mem.cache == map[] && s.disk.logs == map[] &&
            mem.index == Some(View(mem, s.disk.docs))
  {
    var s' := Next(s, CleanCommit);
    CleanCommitKeepsInv(s);
    forall id ensures id !in s.disk.logs {}
    assert s'.disk.logs == s.disk.logs && s'.worker.Idle?;
    forall doc ensures doc !in s'.mem.docTS {}
    NothingHidden(s.disk.docs, s'.mem.docTS, s'.mem.cache);
  }

  lemma NothingHidden(docs: map<DocId, Vec>, ts: map<DocId, nat>, cache: map<DocId, Vec>)
    requires (forall doc :: doc !in ts) && cache.Keys <= ts.Keys
    ensures ts == map[] && cache == map[] && (docs - ts.Keys) + cache == docs
  {
  }

  /** A log number denotes the same operation for ever: later runs only extend the numbering. */
  lemma LogIdsAreNeverReused(trace: seq<Event>, more: seq<Event>)
    requires Exec(trace).Some? && Exec(trace + more).Some?
    ensures AllOps(trace) <= AllOps(trace + more)
    ensures LogIsHistory(Exec(trace).value.disk, AllOps(trace))
    ensures LogIsHistory(Exec(trace + more).value.disk, AllOps(trace + more))
    ensures forall id :: id in Exec(trace).value.disk.logs && id in Exec(trace + more).value.disk.logs ==>
              Exec(trace).value.disk.logs[id] == Exec(trace + more).value.disk.logs[id]
  {
    RunsKeepHistory(trace);
    RunsKeepHistory(trace + more);
    HistoryGrows(trace, more);
  }

  lemma {:induction false} HistoryGrows(trace: seq<Event>, more: seq<Event>)
    ensures AllOps(trace) <= AllOps(trace + more)
    decreases |more|
  {
    if more == [] {
      assert trace + more == trace;
    } else {
      assert (trace + more)[..|trace + more| - 1] == trace + more[..|more| - 1];
      HistoryGrows(trace, more[..|more| - 1]);
    }
  }

  // ---------------------------------------------------------------- live counts

  function Sum(xs: seq<int>): int {
    if xs == [] then 0 else Sum(xs[..|xs| - 1]) + xs[|xs| - 1]
  }

  lemma {:induction false} SumWithout(xs: seq<int>, i: nat)
    requires i < |xs|
    ensures Sum(xs[..i] + xs[i + 1..]) == Sum(xs) - xs[i]
    decreases |xs|
  {
    var last := |xs| - 1;
    if i == last {
      assert xs[..i] + xs[i + 1..] == xs[..last];
    } else {
      SumWithout(xs[..last], i);
      assert (xs[..i] + xs[i + 1..])[..last - 1] == xs[..last][..i] + xs[..last][i + 1..];
    }
  }

  // ------------------------------------------------------------------ what a batch means

  /** No later position has the same id. */
  ghost predicate LastOfId(ids: seq<DocId>, i: nat) {
    i < |ids| && forall j :: i < j < |ids| ==> ids[j] != ids[i]
  }

  /**
   The effect of one batch, document by document: what it adds is there with the vector given last, what it
   deletes and does not add is gone, and everything else is as it was.
   */
  ghost predicate AfterBatch(before: map<DocId, Vec>, dels: seq<DocId>, ids: seq<DocId>, vectors: seq<Vec>,
                             after: map<DocId, Vec>)
    requires |ids| == |vectors|
  {
    && (forall i: nat :: LastOfId(ids, i) ==> ids[i] in after && after[ids[i]] == vectors[i])
    && (forall doc :: doc in dels && doc !in ids ==> doc !in after)
    && (forall doc :: doc !in dels && doc !in ids ==> Agree(after, before, doc))
  }

  lemma {:induction false} DropsAt(m: map<DocId, Vec>, dels: seq<DocId>, doc: DocId)
    ensures doc in dels ==> doc !in ApplyRows(m, DropRows(dels))
    ensures doc !in dels ==> Agree(ApplyRows(m, DropRows(dels)), m, doc)
    decreases |dels|
  {
    if dels != [] {
      var k := |dels| - 1;
      assert DropRows(dels)[..k] == DropRows(dels[..k]);
      DropsAt(m, dels[..k], doc);
      assert dels == dels[..k] + [dels[k]];
    }
  }

  lemma {:induction false} PutsAt(m: map<DocId, Vec>, adds: seq<(DocId, Vec)>, ids: seq<DocId>, i: nat)
    requires |ids| == |adds| && (forall j :: 0 <= j < |adds| ==> adds[j].0 == ids[j]) && LastOfId(ids, i)
    ensures ids[i] in ApplyRows(m, PutRows(adds)) && ApplyRows(m, PutRows(adds))[ids[i]] == adds[i].1
    decreases |adds|
  {
    var k := |adds| - 1;
    assert PutRows(adds)[..k] == PutRows(adds[..k]);
    if i < k {
      assert LastOfId(ids[..k], i);
      PutsAt(m, adds[..k], ids[..k], i);
      assert ids[k] != ids[i];
    }
  }

  lemma {:induction false} PutsElsewhere(m: map<DocId, Vec>, adds: seq<(DocId, Vec)>, doc: DocId)
    requires forall j :: 0 <= j < |adds| ==> adds[j].0 != doc
    ensures Agree(ApplyRows(m, PutRows(adds)), m, doc)
    decreases |adds|
  {
    if adds != [] {
      var k := |adds| - 1;
      assert PutRows(adds)[..k] == PutRows(adds[..k]);
      PutsElsewhere(m, adds[..k], doc);
    }
  }

  lemma BatchOps(m: map<DocId, Vec>, req: Request, ids: seq<DocId>, vectors: seq<Vec>)
    requires |ids| == |vectors| == |req.adds|
    requires forall i :: 0 <= i < |ids| ==> req.adds[i] == (ids[i], vectors[i])
    ensures AfterBatch(m, req.dels, ids, vectors, ApplyRows(m, Ops(req)))
  {
    var dropped := ApplyRows(m, DropRows(req.dels));
    ApplyRowsConcat(m, DropRows(req.dels), PutRows(req.adds));
    forall i: nat | LastOfId(ids, i)
      ensures ids[i] in ApplyRows(m, Ops(req)) && ApplyRows(m, Ops(req))[ids[i]] == vectors[i]
    {
      PutsAt(dropped, req.adds, ids, i);
    }
    forall doc | doc !in ids
      ensures doc in req.dels ==> doc !in ApplyRows(m, Ops(req))
      ensures doc !in req.dels ==> Agree(ApplyRows(m, Ops(req)), m, doc)
    {
      DropsAt(m, req.dels, doc);
      forall j | 0 <= j < |req.adds| ensures req.adds[j].0 != doc { assert ids[j] in ids; }
      PutsElsewhere(dropped, req.adds, doc);
    }
  }

  lemma ReplayIs(trace: seq<Event>, req: Request)
    ensures Replay(trace + [BatchWrite(req)]) == ApplyRows(Replay(trace), Ops(req))
  {
    var more := trace + [BatchWrite(req)];
    assert more[..|more| - 1] == trace;
    ApplyRowsConcat(map[], AllOps(trace), Ops(req));
  }

  /** The replay starts empty, and each durable batch changes it as the batch says. */
  lemma ReplayAfterBatch(trace: seq<Event>, req: Request, ids: seq<DocId>, vectors: seq<Vec>)
    requires |ids| == |vectors| == |req.adds|
    requires forall i :: 0 <= i < |ids| ==> req.adds[i] == (ids[i], vectors[i])
    ensures Replay([]) == map[]
    ensures AfterBatch(Replay(trace), req.dels, ids, vectors, Replay(trace + [BatchWrite(req)]))
  {
    ReplayIs(trace, req);
    BatchOps(Replay(trace), req, ids, vectors);
  }

  lemma {:induction false} KeysAfterDrops(m: map<DocId, Vec>, dels: seq<DocId>)
    ensures ApplyRows(m, DropRows(dels)).Keys == m.Keys - set doc | doc in dels
    decreases |dels|
  {
    if dels != [] {
      var k := |dels| - 1;
      assert DropRows(dels)[..k] == DropRows(dels[..k]);
      KeysAfterDrops(m, dels[..k]);
      assert dels == dels[..k] + [dels[k]];
    }
  }

  lemma {:induction false} KeysAfterPuts(m: map<DocId, Vec>, adds: seq<(DocId, Vec)>)
    ensures ApplyRows(m, PutRows(adds)).Keys == m.Keys + set add | add in adds :: add.0
    decreases |adds|
  {
    if adds != [] {
      var k := |adds| - 1;
      assert PutRows(adds)[..k] == PutRows(adds[..k]);
      KeysAfterPuts(m, adds[..k]);
      assert adds == adds[..k] + [adds[k]];
    }
  }

  lemma KeysAfterBatch(m: map<DocId, Vec>, req: Request)
    ensures ApplyRows(m, Ops(req)).Keys == (m.Keys - Deleted(req)) + Added(req)
  {
    ApplyRowsConcat(m, DropRows(req.dels), PutRows(req.adds));
    KeysAfterDrops(m, req.dels);
    KeysAfterPuts(ApplyRows(m, DropRows(req.dels)), req.adds);
  }

  lemma SizeAfterBatch(present: set<DocId>, dels: set<DocId>, adds: set<DocId>)
    ensures |(present - dels) + adds| ==
            |present| + |set doc | doc in adds && doc !in present| - |set doc | doc in dels - adds && doc in present|
  {
    var extra := set doc | doc in adds && doc !in present;
    var gone := set doc | doc in dels - adds && doc in present;
    assert (present - dels) + adds == (present - gone) + extra;
    assert gone <= present && (present - gone) !! extra;
  }

  lemma PresentMeansVisible(mem: Memory, docs: map<DocId, Vec>, doc: DocId)
    requires mem.cache.Keys <= mem.docTS.Keys && IndexAgrees(mem.index, docs, mem.docTS.Keys)
    ensures Present(mem, doc) <==> doc in View(mem, docs)
  {
    assert doc !in mem.docTS ==> Agree(Entries(mem.index), docs, doc);
  }

  /** countDelta is the change in the size of the view, whatever mix of ids a batch holds. */
  lemma CountDeltaIsExact(mem: Memory, docs: map<DocId, Vec>, req: Request)
    requires mem.cache.Keys <= mem.docTS.Keys && IndexAgrees(mem.index, docs, mem.docTS.Keys)
    ensures CountDelta(mem, req) == |ApplyRows(View(mem, docs), Ops(req))| - |View(mem, docs)|
  {
    var before := View(mem, docs).Keys;
    var after := ApplyRows(View(mem, docs), Ops(req)).Keys;
    forall doc ensures Present(mem, doc) <==> doc in before { PresentMeansVisible(mem, docs, doc); }
    assert (set doc | doc in Added(req) && !Present(mem, doc)) == set doc | doc in Added(req) && doc !in before;
    assert (set doc | doc in Deleted(req) - Added(req) && Present(mem, doc)) ==
           set doc | doc in Deleted(req) - Added(req) && doc in before;
    assert |after| == |before| + CountDelta(mem, req) by {
      KeysAfterBatch(View(mem, docs), req);
      SizeAfterBatch(before, Deleted(req), Added(req));
    }
  }

  ghost predicate CrashFree(trace: seq<Event>) {
    forall i :: 0 <= i < |trace| ==> !trace[i].CrashAndLoad?
  }

  /**
   Without crashes the stored count plus the deltas not yet added is the number of live documents,
   so the count itself is exact whenever no Batch is waiting to add its delta.
   */
  lemma {:induction false} CountIsLive(trace: seq<Event>)
    requires Exec(trace).Some? && CrashFree(trace)
    ensures var s := Exec(trace).value;
            s.count + Sum(s.owed) == |View(s.mem, s.disk.docs)|
    decreases |trace|
  {
    if trace != [] {
      var before := trace[..|trace| - 1];
      var e := trace[|trace| - 1];
      CountIsLive(before);
      RunsKeepInv(before);
      var s := Exec(before).value;
      match e
      case BatchCommit =>
        CountDeltaIsExact(s.mem, s.disk.docs, s.writing.value);
        ViewOfCommit(s.mem, s.disk.docs, Ops(s.writing.value));
        assert Next(s, e).owed[..|s.owed|] == s.owed;
      case AddCount(i) => SumWithout(s.owed, i);
      case CrashAndLoad => assert false;
      case BatchWrite(_) =>
      case _ => RebuildKeepsView(before, e);
    }
  }
}
