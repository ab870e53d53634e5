/**
 The HNSW vector segment as a transition system.

 A segment keeps its documents in three places: log rows and materialised
 documents in a durable key/value store, a saved index file, and an in-memory
 overlay made of a cache and the map `docTS`. Writers append log rows while one
 background worker applies the log, builds an index and removes applied rows.
 Each event below is one section that runs under the segment's mutex, or one
 atomic durable write made outside it, so a trace is an arbitrary interleaving of
 writers and worker, with process crashes anywhere between them.
 */
module HnswProtocol {
  import opened Wrappers

  /** A 64-bit document number. */
  datatype DocId = DocId(num: int)
  type Vec = seq<real>

  /** What a log row does to its document. */
  datatype Change = Put(vec: Vec) | Drop

  datatype Row = Row(doc: DocId, change: Change)

  /** The arguments of one call of Batch. */
  datatype Request = Request(dels: seq<DocId>, adds: seq<(DocId, Vec)>)

  /** Everything that survives a process crash. */
  datatype Disk = Disk(
    logs: map<nat, Row>,
    docs: map<DocId, Vec>,
    latestLogID: nat,
    hnswLogID: nat,
    indexFile: Option<map<DocId, Vec>>)

  /** The fields of the segment object. */
  datatype Memory = Memory(
    cache: map<DocId, Vec>,
    docTS: map<DocId, nat>,
    latestLogID: nat,
    hnswLogID: nat,
    index: Option<map<DocId, Vec>>)

  /** How far the background rebuild has come, with the snapshots it holds. */
  datatype Worker =
    | Idle
    | Applying(upTo: nat, rows: map<nat, Row>)
    | Applied(upTo: nat)
    | Building(upTo: nat, docs: map<DocId, Vec>)
    | Built(upTo: nat, index: map<DocId, Vec>)
    | Cleaning(upTo: nat, index: map<DocId, Vec>, rows: map<nat, Row>)
    | Cleaned(upTo: nat, index: map<DocId, Vec>, touched: set<DocId>)

  /** `writing` is the request of a Batch that has written its rows and still holds the mutex. */
  datatype State = State(
    disk: Disk,
    mem: Memory,
    worker: Worker,
    writing: Option<Request>,
    owed: seq<int>,
    count: int)

  datatype Event =
    | BatchWrite(req: Request)
    | BatchCommit
    | AddCount(i: nat)
    | ApplyBegin
    | ApplyWrite
    | BuildBegin
    | BuildSave
    | CleanBegin
    | CleanWrite
    | CleanCommit
    | RebuildFail
    | CrashAndLoad

  // ---------------------------------------------------------------- operations

  function ApplyRow(m: map<DocId, Vec>, row: Row): map<DocId, Vec> {
    match row.change
    case Put(vec) => m[row.doc := vec]
    case Drop => m - {row.doc}
  }

  /** The reference semantics: the map obtained by applying rows one after the other. */
  function ApplyRows(m: map<DocId, Vec>, rows: seq<Row>): map<DocId, Vec>
    decreases |rows|
  {
    if rows == [] then m
    else ApplyRow(ApplyRows(m, rows[..|rows| - 1]), rows[|rows| - 1])
  }

  function DropRows(dels: seq<DocId>): (rows: seq<Row>)
    ensures |rows| == |dels|
  {
    seq(|dels|, i requires 0 <= i < |dels| => Row(dels[i], Drop))
  }

  function PutRows(adds: seq<(DocId, Vec)>): (rows: seq<Row>)
    ensures |rows| == |adds|
  {
    seq(|adds|, i requires 0 <= i < |adds| => Row(adds[i].0, Put(adds[i].1)))
  }

  /** A request is its deletions followed by its additions. */
  function Ops(req: Request): seq<Row> {
    DropRows(req.dels) + PutRows(req.adds)
  }

  /** The rows under consecutive numbers, starting after `from`. */
  function NumberedRows(from: nat, rows: seq<Row>): (m: map<nat, Row>)
    ensures forall id :: id in m <==> from < id <= from + |rows|
    ensures forall id :: id in m ==> m[id] == rows[id - from - 1]
    decreases |rows|
  {
    if rows == [] then map[]
    else NumberedRows(from, rows[..|rows| - 1])[from + |rows| := rows[|rows| - 1]]
  }

  /** For every document with a row numbered at most n, the highest such number. */
  function Newest(logs: map<nat, Row>, n: nat): map<DocId, nat> {
    if n == 0 then map[]
    else if n in logs then Newest(logs, n - 1)[logs[n].doc := n]
    else Newest(logs, n - 1)
  }

  /** The documents that the rows selected by ts leave present. */
  function Overlay(logs: map<nat, Row>, ts: map<DocId, nat>): map<DocId, Vec> {
    map doc | doc in ts && ts[doc] in logs && logs[ts[doc]].change.Put? :: logs[ts[doc]].change.vec
  }

  /** Stored documents with the newest rows numbered at most n applied to them. */
  function Materialise(docs: map<DocId, Vec>, logs: map<nat, Row>, n: nat): map<DocId, Vec> {
    (docs - Newest(logs, n).Keys) + Overlay(logs, Newest(logs, n))
  }

  function Load(disk: Disk): Memory {
    var ts := Newest(disk.logs, disk.latestLogID);
    Memory(Overlay(disk.logs, ts), ts, disk.latestLogID, disk.hnswLogID, disk.indexFile)
  }

  function CommitRow(mem: Memory, row: Row): Memory {
    mem.(cache := ApplyRow(mem.cache, row),
         docTS := mem.docTS[row.doc := mem.latestLogID + 1],
         latestLogID := mem.latestLogID + 1)
  }

  function CommitRows(mem: Memory, rows: seq<Row>): Memory
    decreases |rows|
  {
    if rows == [] then mem
    else CommitRow(CommitRows(mem, rows[..|rows| - 1]), rows[|rows| - 1])
  }

  /** The rows a reader snapshot shows up to n. */
  function RowsUpTo(logs: map<nat, Row>, n: nat): map<nat, Row> {
    map id | id in logs && id <= n :: logs[id]
  }

  /** The documents whose overlay entry the rebuild up to n makes redundant; a missing timestamp reads as 0. */
  function Superseded(mem: Memory, touched: set<DocId>, n: nat): set<DocId> {
    set doc | doc in touched && (if doc in mem.docTS then mem.docTS[doc] else 0) <= n
  }

  /** The presence test of countDelta: cache first, then docTS, then the index if there is one. */
  predicate Present(mem: Memory, doc: DocId) {
    if doc in mem.cache then true
    else if doc in mem.docTS then false
    else if mem.index.None? then false
    else doc in mem.index.value
  }

  function Added(req: Request): set<DocId> {
    set add | add in req.adds :: add.0
  }

  function Deleted(req: Request): set<DocId> {
    set doc | doc in req.dels
  }

  /** The change in the number of documents that Batch reports; an id both deleted and added counts as added. */
  function CountDelta(mem: Memory, req: Request): int {
    |set doc | doc in Added(req) && !Present(mem, doc)|
    - |set doc | doc in Deleted(req) - Added(req) && Present(mem, doc)|
  }

  // --------------------------------------------------------------- transitions

  const INIT := State(Disk(map[], map[], 0, 0, None), Memory(map[], map[], 0, 0, None), Idle, None, [], 0)

  predicate Enabled(s: State, e: Event) {
    match e
    case BatchWrite(_) => s.writing.None?
    case BatchCommit => s.writing.Some?
    case AddCount(i) => i < |s.owed|
    case ApplyBegin => s.worker.Idle? && s.writing.None?
    case ApplyWrite => s.worker.Applying?
    case BuildBegin => s.worker.Applied? && s.writing.None?
    case BuildSave => s.worker.Building?
    case CleanBegin => s.worker.Built? && s.writing.None?
    case CleanWrite => s.worker.Cleaning?
    case CleanCommit => s.worker.Cleaned? && s.writing.None?
    case RebuildFail => !s.worker.Cleaned?
    case CrashAndLoad => true
  }

  function Next(s: State, e: Event): State
    requires Enabled(s, e)
  {
    match e
    case BatchWrite(req) =>
      s.(disk := s.disk.(
           logs := s.disk.logs + NumberedRows(s.mem.latestLogID, Ops(req)),
           latestLogID := s.mem.latestLogID + |Ops(req)|),
         writing := Some(req))
    case BatchCommit =>
      s.(mem := CommitRows(s.mem, Ops(s.writing.value)),
         owed := s.owed + [CountDelta(s.mem, s.writing.value)],
         writing := None)
    case AddCount(i) =>
      s.(count := s.count + s.owed[i], owed := s.owed[..i] + s.owed[i + 1..])
    case ApplyBegin =>
      s.(worker := Applying(s.mem.latestLogID, s.disk.logs))
    case ApplyWrite =>
      s.(disk := s.disk.(docs := Materialise(s.disk.docs, s.worker.rows, s.worker.upTo)),
         worker := Applied(s.worker.upTo))
    case BuildBegin =>
      s.(worker := Building(s.worker.upTo, s.disk.docs))
    case BuildSave =>
      s.(disk := s.disk.(indexFile := Some(s.worker.docs)),
         worker := Built(s.worker.upTo, s.worker.docs))
    case CleanBegin =>
      s.(worker := Cleaning(s.worker.upTo, s.worker.index, s.disk.logs))
    case CleanWrite =>
      var gone := RowsUpTo(s.worker.rows, s.worker.upTo);
      s.(disk := s.disk.(logs := s.disk.logs - gone.Keys, hnswLogID := s.worker.upTo),
         worker := Cleaned(s.worker.upTo, s.worker.index, set id | id in gone :: gone[id].doc))
    case CleanCommit =>
      var gone := Superseded(s.mem, s.worker.touched, s.worker.upTo);
      s.(mem := s.mem.(cache := s.mem.cache - gone, docTS := s.mem.docTS - gone,
                       hnswLogID := s.worker.upTo, index := Some(s.worker.index)),
         worker := Idle)
    case RebuildFail => s.(worker := Idle)
    case CrashAndLoad => s.(mem := Load(s.disk), worker := Idle, writing := None)
  }

  /** The state a trace leads to from an empty segment, if every event of it is enabled. */
  function Exec(trace: seq<Event>): (r: Option<State>)
    decreases |trace|
  {
    if trace == [] then Some(INIT)
    else
      match Exec(trace[..|trace| - 1])
      case None => None
      case Some(s) =>
        var e := trace[|trace| - 1];
        if Enabled(s, e) then Some(Next(s, e)) else None
  }

  // ------------------------------------------------------------- specification

  /** What searches see: the overlay for documents in docTS, the stored documents for the rest. */
  function View(mem: Memory, docs: map<DocId, Vec>): map<DocId, Vec> {
    (docs - mem.docTS.Keys) + mem.cache
  }

  /** Every operation ever made durable, in order. */
  function AllOps(trace: seq<Event>): seq<Row>
    decreases |trace|
  {
    if trace == [] then []
    else
      var e := trace[|trace| - 1];
      AllOps(trace[..|trace| - 1]) + if e.BatchWrite? then Ops(e.req) else []
  }

  function Replay(trace: seq<Event>): map<DocId, Vec> {
    ApplyRows(map[], AllOps(trace))
  }

  predicate Agree(a: map<DocId, Vec>, b: map<DocId, Vec>, doc: DocId) {
    (doc in a <==> doc in b) && (doc in a ==> a[doc] == b[doc])
  }

  function Entries(index: Option<map<DocId, Vec>>): map<DocId, Vec> {
    if index.None? then map[] else index.value
  }

  // ----------------------------------------------------------------- invariant

  /** Every durable row number denotes the operation with that position in the history. */
  ghost predicate LogIsHistory(disk: Disk, history: seq<Row>) {
    && |history| == disk.latestLogID
    && forall id :: id in disk.logs ==> 1 <= id <= |history| && disk.logs[id] == history[id - 1]
  }

  /** The overlay mirrors the newest durable row of each document it knows. */
  ghost predicate MirrorsLog(logs: map<nat, Row>, mem: Memory) {
    && mem.cache.Keys <= mem.docTS.Keys
    && (forall doc :: doc in Newest(logs, mem.latestLogID) ==>
          doc in mem.docTS && mem.docTS[doc] == Newest(logs, mem.latestLogID)[doc])
    && (forall doc :: doc in mem.docTS ==> 1 <= mem.docTS[doc] <= mem.latestLogID)
    && (forall doc :: doc in mem.docTS && mem.docTS[doc] in logs ==>
          logs[mem.docTS[doc]].doc == doc &&
          if logs[mem.docTS[doc]].change.Put?
          then doc in mem.cache && mem.cache[doc] == logs[mem.docTS[doc]].change.vec
          else doc !in mem.cache)
  }

  /** Overlay entries without a durable row exist only while a finished clean-up is being published. */
  ghost predicate Unlogged(s: State) {
    forall doc :: doc in s.mem.docTS && s.mem.docTS[doc] !in s.disk.logs ==>
      && s.worker.Cleaned?
      && s.mem.docTS[doc] <= s.worker.upTo
      && doc in s.worker.touched
      && Agree(s.mem.cache, s.disk.docs, doc)
  }

  /** The newest rows up to n are already part of the stored documents. */
  ghost predicate Folded(disk: Disk, n: nat) {
    forall doc :: doc in Newest(disk.logs, n) ==>
      Agree(Overlay(disk.logs, Newest(disk.logs, n)), disk.docs, doc)
  }

  ghost predicate SameUpTo(a: map<nat, Row>, b: map<nat, Row>, n: nat) {
    forall id | id <= n :: (id in a <==> id in b) && (id in a ==> a[id] == b[id])
  }

  ghost predicate WorkerOk(s: State) {
    match s.worker
    case Idle => true
    case Applying(n, rows) => n <= s.mem.latestLogID && SameUpTo(rows, s.disk.logs, n)
    case Applied(n) => n <= s.mem.latestLogID && Folded(s.disk, n)
    case Building(n, docs) => n <= s.mem.latestLogID && Folded(s.disk, n) && docs == s.disk.docs
    case Built(n, index) =>
      n <= s.mem.latestLogID && Folded(s.disk, n) && index == s.disk.docs && s.disk.indexFile == Some(index)
    case Cleaning(n, index, rows) =>
      n <= s.mem.latestLogID && Folded(s.disk, n) && index == s.disk.docs && s.disk.indexFile == Some(index) &&
      SameUpTo(rows, s.disk.logs, n)
    case Cleaned(n, index, touched) =>
      n <= s.mem.latestLogID && index == s.disk.docs && s.disk.indexFile == Some(index) &&
      (forall id :: id in s.disk.logs ==> n < id)
  }

  /** An index holds exactly the stored documents, apart from those an overlay covers. */
  ghost predicate IndexAgrees(index: Option<map<DocId, Vec>>, docs: map<DocId, Vec>, covered: set<DocId>) {
    forall doc :: doc !in covered ==> Agree(Entries(index), docs, doc)
  }

  /** Both the loaded and the saved index agree with the stored documents outside their overlay. */
  ghost predicate IndexOk(s: State) {
    && IndexAgrees(s.mem.index, s.disk.docs, s.mem.docTS.Keys)
    && IndexAgrees(s.disk.indexFile, s.disk.docs, Newest(s.disk.logs, s.disk.latestLogID).Keys)
  }

  ghost predicate HoldsRows(logs: map<nat, Row>, from: nat, rows: seq<Row>) {
    forall id: nat | from < id <= from + |rows| :: id in logs && logs[id] == rows[id - from - 1]
  }

  ghost predicate WritingOk(s: State) {
    match s.writing
    case None => s.disk.latestLogID == s.mem.latestLogID
    case Some(req) =>
      && s.disk.latestLogID == s.mem.latestLogID + |Ops(req)|
      && HoldsRows(s.disk.logs, s.mem.latestLogID, Ops(req))
  }

  ghost predicate Inv(s: State) {
    && (forall id :: id in s.disk.logs ==> 1 <= id <= s.disk.latestLogID)
    && MirrorsLog(s.disk.logs, s.mem)
    && Unlogged(s)
    && WorkerOk(s)
    && IndexOk(s)
    && WritingOk(s)
  }

  /** The document map that would be visible once the Batch holding the mutex commits. */
  function Pending(s: State): map<DocId, Vec> {
    if s.writing.None? then View(s.mem, s.disk.docs)
    else ApplyRows(View(s.mem, s.disk.docs), Ops(s.writing.value))
  }

  // ---------------------------------------------------------------- dimensions

  ghost predicate OfDims<Id(!new)>(m: map<Id, Vec>, d: nat) {
    forall doc :: doc in m ==> |m[doc]| == d
  }

  ghost predicate RowsOfDims(rows: map<nat, Row>, d: nat) {
    forall id :: id in rows && rows[id].change.Put? ==> |rows[id].change.vec| == d
  }

  ghost predicate RequestOfDims(req: Request, d: nat) {
    forall i :: 0 <= i < |req.adds| ==> |req.adds[i].1| == d
  }

  /** Batch refuses vectors of another dimension, so only such requests reach the log. */
  ghost predicate EventOfDims(e: Event, d: nat) {
    e.BatchWrite? ==> RequestOfDims(e.req, d)
  }

  ghost predicate TraceOfDims(trace: seq<Event>, d: nat) {
    forall i :: 0 <= i < |trace| ==> EventOfDims(trace[i], d)
  }

  ghost predicate WorkerOfDims(worker: Worker, d: nat) {
    match worker
    case Idle => true
    case Applying(_, rows) => RowsOfDims(rows, d)
    case Applied(_) => true
    case Building(_, docs) => OfDims(docs, d)
    case Built(_, index) => OfDims(index, d)
    case Cleaning(_, index, rows) => OfDims(index, d) && RowsOfDims(rows, d)
    case Cleaned(_, index, _) => OfDims(index, d)
  }

  /** Every vector the segment keeps, on disk, in memory or in the hands of the worker, has dimension d. */
  ghost predicate Sized(s: State, d: nat) {
    && RowsOfDims(s.disk.logs, d)
    && OfDims(s.disk.docs, d)
    && OfDims(Entries(s.disk.indexFile), d)
    && OfDims(s.mem.cache, d)
    && OfDims(Entries(s.mem.index), d)
    && WorkerOfDims(s.worker, d)
    && (s.writing.Some? ==> RequestOfDims(s.writing.value, d))
  }
}
