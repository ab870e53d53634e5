/**
 The consumer of a shard's write-ahead log. It reads entries past the last committed one, brackets
 each merged write with a read marker and a write marker in the redo log, and truncates what is
 committed. Every event is one durable step, so a trace may fail or crash between any two of them,
 while writers keep appending; reopening compares the markers and rolls back.
 */
module WalConsumer {
  import opened Wrappers
  import opened WalMerge

  /** A log record; a record that does not parse stops the consumer. */
  datatype Record = Garbled | Parsed(entry: Entry)

  const MAX_BATCH_SIZE: nat := 10240

  /** The consumer's program position with its locals; docs are the entries read and not yet written. */
  datatype Consumer =
    | Idle
    | Reading(start: nat, next: nat, max: nat, docs: seq<Entry>)
    | Marked(start: nat, upTo: nat, max: nat, docs: seq<Entry>)
    | Flushed(start: nat, upTo: nat, max: nat, docs: seq<Entry>)

  /**
   Record n of the log has number n + 1 and is retained while that number is at least `first`.
   `effects` lists the entries of every completed write, `written` those of the committed ones.
   */
  datatype State = State(
    log: seq<Record>,
    first: nat,
    readMark: Option<(nat, nat)>,
    writeMark: Option<(nat, nat)>,
    consumer: Consumer,
    effects: seq<Entry>,
    written: seq<Entry>,
    commits: seq<(nat, nat)>)

  datatype Event =
    | Append(record: Record)
    | Begin
    | ReadOne
    | Mark
    | Write
    | Commit
    | Truncate
    | Fail
    | Crash
    | Rollback

  const INIT := State([], 1, None, None, Idle, [], [], [])

  /** The number of the last committed entry, 0 if the write marker is missing. */
  function Committed(s: State): nat {
    if s.writeMark.None? then 0 else s.writeMark.value.1
  }

  predicate Retained(s: State, id: nat) {
    s.first <= id && 1 <= id <= |s.log|
  }

  /** The last number of a run; the difference is an unsigned one. */
  function LastOfRun(last: nat, committed: nat): nat {
    if last < committed || last - committed > MAX_BATCH_SIZE then committed + MAX_BATCH_SIZE else last
  }

  /** What Rollback needs to find: markers that differ, and every entry of the read marker. */
  predicate NeedsRollback(s: State) {
    s.readMark.Some? && s.readMark != s.writeMark
  }

  predicate CanRollback(s: State) {
    NeedsRollback(s) &&
    forall id: nat | s.readMark.value.0 <= id <= s.readMark.value.1 :: Retained(s, id) && s.log[id - 1].Parsed?
  }

  function TruncateFront(first: nat, id: nat): nat {
    if first < id then id else first
  }

  predicate Enabled(s: State, e: Event) {
    match e
    case Append(_) => true
    case Begin => s.consumer.Idle? && Committed(s) != |s.log|
    case ReadOne =>
      s.consumer.Reading? && s.consumer.next <= s.consumer.max && Retained(s, s.consumer.next) &&
      s.log[s.consumer.next - 1].Parsed?
    case Mark => s.consumer.Reading? && s.consumer.start < s.consumer.next
    case Write => s.consumer.Marked?
    case Commit => s.consumer.Flushed?
    case Truncate => s.consumer.Reading? && s.consumer.start == s.consumer.next == s.consumer.max + 1
    case Fail => !s.consumer.Idle?
    case Crash => true
    case Rollback => s.consumer.Idle? && CanRollback(s) && s.readMark.value.0 > 0
  }

  function Next(s: State, e: Event): State
    requires Enabled(s, e)
  {
    match e
    case Append(r) => s.(log := s.log + [r])
    case Begin =>
      var c := Committed(s);
      s.(consumer := Reading(c + 1, c + 1, LastOfRun(|s.log|, c), []))
    case ReadOne =>
      var c := s.consumer;
      s.(consumer := c.(next := c.next + 1, docs := c.docs + [s.log[c.next - 1].entry]))
    case Mark =>
      var c := s.consumer;
      s.(readMark := Some((c.start, c.next - 1)), consumer := Marked(c.start, c.next - 1, c.max, c.docs))
    case Write =>
      var c := s.consumer;
      s.(effects := s.effects + c.docs, consumer := Flushed(c.start, c.upTo, c.max, c.docs))
    case Commit =>
      var c := s.consumer;
      s.(writeMark := Some((c.start, c.upTo)), written := s.written + c.docs,
         commits := s.commits + [(c.start, c.upTo)], consumer := Reading(c.upTo + 1, c.upTo + 1, c.max, []))
    case Truncate => s.(first := TruncateFront(s.first, s.consumer.max), consumer := Idle)
    case Fail => s.(consumer := Idle)
    case Crash => s.(consumer := Idle)
    case Rollback => s.(first := TruncateFront(s.first, s.readMark.value.0 - 1))
  }

  /** The state a trace leads to from an empty log, if every event of it is enabled. */
  function Exec(trace: seq<Event>): Option<State>
    decreases |trace|
  {
    if trace == [] then Some(INIT)
    else
      match Exec(trace[..|trace| - 1])
      case None => None
      case Some(s) =>
        var e := trace[|trace| - 1];
        if Enabled(s, e) then Some(Next(s, e)) else None
  }

  // ----------------------------------------------------------------- invariant

  /** The entries of records from..upTo - 1. */
  function Payload(log: seq<Record>, from: nat, upTo: nat): seq<Entry>
    requires from <= upTo <= |log|
  {
    if from == upTo then []
    else Payload(log, from, upTo - 1) + (match log[upTo - 1] case Garbled => [] case Parsed(e) => [e])
  }

  ghost predicate AllParsed(log: seq<Record>, from: nat, upTo: nat)
    requires upTo <= |log|
  {
    forall i :: from <= i < upTo ==> log[i].Parsed?
  }

  /** docs are the entries numbered from..upTo, all of which parse. */
  ghost predicate Spans(log: seq<Record>, docs: seq<Entry>, from: nat, upTo: nat) {
    && 1 <= from <= upTo + 1 <= |log| + 1
    && docs == Payload(log, from - 1, upTo) && AllParsed(log, from - 1, upTo)
  }

  /** Consecutive ranges from 1 to last, without gap or overlap. */
  ghost predicate Tiles(ranges: seq<(nat, nat)>, last: nat) {
    && (forall i :: 0 <= i < |ranges| ==> 1 <= ranges[i].0 <= ranges[i].1)
    && (forall i, j :: 0 <= i && j == i + 1 && j < |ranges| ==> ranges[j].0 == ranges[i].1 + 1)
    && (if ranges == [] then last == 0 else ranges[0].0 == 1 && ranges[|ranges| - 1].1 == last)
  }

  ghost predicate ConsumerOk(s: State) {
    match s.consumer
    case Idle => true
    case Reading(start, next, max, docs) =>
      start == Committed(s) + 1 && start <= next <= max + 1 <= |s.log| + 1 && Spans(s.log, docs, start, next - 1)
    case Marked(start, upTo, max, docs) =>
      start == Committed(s) + 1 && start <= upTo <= max <= |s.log| && Spans(s.log, docs, start, upTo) &&
      s.readMark == Some((start, upTo))
    case Flushed(start, upTo, max, docs) =>
      start == Committed(s) + 1 && start <= upTo <= max <= |s.log| && Spans(s.log, docs, start, upTo) &&
      s.readMark == Some((start, upTo))
  }

  ghost predicate MarksOk(s: State) {
    && (s.readMark.None? ==> s.writeMark.None?)
    && (s.readMark.Some? ==>
          var (a, b) := s.readMark.value;
          && 1 <= a <= b <= |s.log| && AllParsed(s.log, a - 1, b)
          && (s.readMark == s.writeMark || a == Committed(s) + 1))
  }

  ghost predicate Inv(s: State) {
    && Committed(s) <= |s.log|
    && 1 <= s.first && (s.first == 1 || s.first <= Committed(s))
    && Tiles(s.commits, Committed(s))
    && s.written == Payload(s.log, 0, Committed(s)) && AllParsed(s.log, 0, Committed(s))
    && MarksOk(s)
    && ConsumerOk(s)
  }

  lemma {:induction false} PayloadOfMore(log: seq<Record>, r: Record, from: nat, upTo: nat)
    requires from <= upTo <= |log|
    ensures Payload(log + [r], from, upTo) == Payload(log, from, upTo)
  {
    if from < upTo { PayloadOfMore(log, r, from, upTo - 1); }
  }

  lemma {:induction false} PayloadConcat(log: seq<Record>, a: nat, b: nat, c: nat)
    requires a <= b <= c <= |log|
    ensures Payload(log, a, b) + Payload(log, b, c) == Payload(log, a, c)
  {
    if b < c { PayloadConcat(log, a, b, c - 1); }
  }

  lemma SpansMore(log: seq<Record>, r: Record, docs: seq<Entry>, from: nat, upTo: nat)
    requires Spans(log, docs, from, upTo)
    ensures Spans(log + [r], docs, from, upTo)
  {
    PayloadOfMore(log, r, from - 1, upTo);
  }

  lemma AppendKeepsInv(s: State, r: Record)
    requires Inv(s)
    ensures Inv(Next(s, Append(r)))
  {
    PayloadOfMore(s.log, r, 0, Committed(s));
    match s.consumer
    case Idle =>
    case Reading(start, next, _, docs) => SpansMore(s.log, r, docs, start, next - 1);
    case Marked(start, upTo, _, docs) => SpansMore(s.log, r, docs, start, upTo);
    case Flushed(start, upTo, _, docs) => SpansMore(s.log, r, docs, start, upTo);
  }

  lemma CommitKeepsInv(s: State)
    requires Inv(s) && Enabled(s, Commit)
    ensures Inv(Next(s, Commit))
  {
    PayloadConcat(s.log, 0, s.consumer.start - 1, s.consumer.upTo);
  }

  lemma BeginKeepsInv(s: State)
    requires Inv(s) && Enabled(s, Begin)
    ensures Inv(Next(s, Begin))
  {
  }

  lemma ReadOneKeepsInv(s: State)
    requires Inv(s) && Enabled(s, ReadOne)
    ensures Inv(Next(s, ReadOne))
  {
  }

  lemma MarkKeepsInv(s: State)
    requires Inv(s) && Enabled(s, Mark)
    ensures Inv(Next(s, Mark))
  {
  }

  lemma RollbackKeepsInv(s: State)
    requires Inv(s) && Enabled(s, Rollback)
    ensures Inv(Next(s, Rollback))
  {
  }

  lemma NextKeepsInv(s: State, e: Event)
    requires Inv(s) && Enabled(s, e)
    ensures Inv(Next(s, e))
  {
    match e
    case Append(r) => AppendKeepsInv(s, r);
    case Begin => BeginKeepsInv(s);
    case ReadOne => ReadOneKeepsInv(s);
    case Mark => MarkKeepsInv(s);
    case Commit => CommitKeepsInv(s);
    case Rollback => RollbackKeepsInv(s);
    case _ =>
  }

  lemma {:induction false} RunsKeepInv(trace: seq<Event>)
    requires Exec(trace).Some?
    ensures Inv(Exec(trace).value)
    decreases |trace|
  {
    if trace != [] {
      RunsKeepInv(trace[..|trace| - 1]);
      NextKeepsInv(Exec(trace[..|trace| - 1]).value, trace[|trace| - 1]);
    }
  }

  // ------------------------------------------------------------------ theorems

  /** Whatever fails or crashes, no entry past the last committed one is ever truncated. */
  lemma NothingUncommittedIsTruncated(trace: seq<Event>, id: nat)
    requires Exec(trace).Some? && Committed(Exec(trace).value) < id <= |Exec(trace).value.log|
    ensures Retained(Exec(trace).value, id)
  {
    RunsKeepInv(trace);
  }

  /** Truncation, after a run or on reopening, drops exactly what comes before the last committed entry. */
  lemma TruncationDropsTheCommitted(trace: seq<Event>, e: Event, id: nat)
    requires Exec(trace).Some? && Enabled(Exec(trace).value, e) && (e.Truncate? || e.Rollback?)
    ensures var s' := Next(Exec(trace).value, e);
            Retained(s', id) <==> 1 <= id <= |s'.log| && Committed(s') <= id
  {
    RunsKeepInv(trace);
    if e.Rollback? {
      RollbackFindsItsEntries(trace);
    }
  }

  /** The committed ranges tile the log, and together they wrote exactly its entries up to the last committed one. */
  lemma CommitsTileTheLog(trace: seq<Event>)
    requires Exec(trace).Some?
    ensures var s := Exec(trace).value;
            && Tiles(s.commits, Committed(s)) && Committed(s) <= |s.log|
            && s.written == Payload(s.log, 0, Committed(s)) && |s.written| == Committed(s)
  {
    RunsKeepInv(trace);
    var s := Exec(trace).value;
    PayloadSize(s.log, 0, Committed(s));
  }

  lemma {:induction false} PayloadSize(log: seq<Record>, from: nat, upTo: nat)
    requires from <= upTo <= |log| && AllParsed(log, from, upTo)
    ensures |Payload(log, from, upTo)| == upTo - from
  {
    if from < upTo { PayloadSize(log, from, upTo - 1); }
  }

  /** Reopening after any crash finds every entry it has to roll back, just past the last committed one. */
  lemma RollbackFindsItsEntries(trace: seq<Event>)
    requires Exec(trace).Some? && NeedsRollback(Exec(trace).value)
    ensures CanRollback(Exec(trace).value)
    ensures Exec(trace).value.readMark.value.0 == Committed(Exec(trace).value) + 1
  {
    RunsKeepInv(trace);
  }

  ghost predicate FailureFree(trace: seq<Event>) {
    forall i :: 0 <= i < |trace| ==> !trace[i].Fail? && !trace[i].Crash?
  }

  /** Without failures every committed entry has been written exactly once, in log order. */
  lemma {:induction false} WrittenOnceWithoutFailure(trace: seq<Event>)
    requires Exec(trace).Some? && FailureFree(trace)
    ensures var s := Exec(trace).value;
            s.effects == s.written + if s.consumer.Flushed? then s.consumer.docs else []
    decreases |trace|
  {
    if trace != [] {
      WrittenOnceWithoutFailure(trace[..|trace| - 1]);
    }
  }

  /** Even with failures nothing is committed that was not written: each committed entry was written at least once. */
  lemma {:induction false} CommittedEntriesWereWritten(trace: seq<Event>)
    requires Exec(trace).Some?
    ensures var s := Exec(trace).value;
            multiset(s.written) + multiset(if s.consumer.Flushed? then s.consumer.docs else []) <= multiset(s.effects)
    decreases |trace|
  {
    if trace != [] {
      CommittedEntriesWereWritten(trace[..|trace| - 1]);
    }
  }

  // ---------------------------------------------------------------------- runs

  /** The trace is a run to this state; the bound variable keeps the run folded up where only its end matters. */
  ghost predicate Led(trace: seq<Event>, s: State) {
    forall t :: t == trace ==> Exec(t) == Some(s)
  }

  lemma LedOneMore(trace: seq<Event>, s: State, e: Event)
    requires Led(trace, s) && Enabled(s, e)
    ensures Led(trace + [e], Next(s, e))
  {
    var more := trace + [e];
    assert more[..|more| - 1] == trace;
    assert Exec(trace) == Some(s);
    assert Exec(more) == Some(Next(s, e));
  }
}
