/**
 The index manager: every load, store or delete of an index runs in a section that its goroutine owns
 by putting a wait channel under the name; others wait for the channel to be closed and try again.
 Events are the sections under the manager's mutex and the accesses to the metadata store between
 them. Index objects are known by their identity, a number, and channels are numbered as created.
 */
module IndexManager {
  import opened Wrappers

  datatype Op = Get | GetOrCreate | Store(inst: nat) | Delete

  datatype Outcome = Working | Failed | Done(inst: nat)

  datatype Task =
    | Waiting(name: string, chan: nat)
    | Owner(name: string, chan: nat, op: Op, outcome: Outcome)

  /**
   An index object belongs to a name; its content is that of the object it was loaded from, or its own once
   stored.
   */
  datatype Known = Known(name: string, content: nat)

  /** `stored` maps a name to the object whose content its metadata holds. */
  datatype State = State(
    cache: map<string, nat>,
    ready: map<string, nat>,
    stored: map<string, nat>,
    known: map<nat, Known>,
    chans: nat,
    closed: set<nat>,
    tasks: map<nat, Task>)

  datatype Event =
    | Wait(p: nat, name: string)
    | Wake(p: nat)
    | Claim(p: nat, name: string, op: Op)
    | Load(p: nat, inst: nat)
    | Create(p: nat, inst: nat)
    | SetMetadata(p: nat)
    | DeleteMetadata(p: nat)
    | Fail(p: nat)
    | Finish(p: nat)
    | DropCache(name: string)

  const INIT := State(map[], map[], map[], map[], 0, {}, map[])

  /** Get and GetOrCreate look at the cache before they claim the name. */
  predicate Loads(op: Op) {
    op.Get? || op.GetOrCreate?
  }

  predicate Works(s: State, p: nat) {
    p in s.tasks && s.tasks[p].Owner? && s.tasks[p].outcome.Working?
  }

  /** The object is new or has this name. */
  predicate Belongs(known: map<nat, Known>, inst: nat, name: string) {
    inst !in known || known[inst].name == name
  }

  predicate Enabled(s: State, e: Event) {
    match e
    case Wait(p, name) => p !in s.tasks && name in s.ready
    case Wake(p) => p in s.tasks && s.tasks[p].Waiting? && s.tasks[p].chan in s.closed
    case Claim(p, name, op) =>
      p !in s.tasks && name !in s.ready && (Loads(op) ==> name !in s.cache) &&
        (op.Store? ==> Belongs(s.known, op.inst, name))
    case Load(p, inst) => Works(s, p) && Loads(s.tasks[p].op) && s.tasks[p].name in s.stored && inst !in s.known
    case Create(p, inst) => Works(s, p) && s.tasks[p].op.GetOrCreate? && s.tasks[p].name !in s.stored &&
      inst !in s.known
    case SetMetadata(p) => Works(s, p) && s.tasks[p].op.Store?
    case DeleteMetadata(p) => Works(s, p) && s.tasks[p].op.Delete?
    case Fail(p) => Works(s, p)
    case Finish(p) => p in s.tasks && s.tasks[p].Owner? && !s.tasks[p].outcome.Working?
    case DropCache(_) => true
  }

  /** What the last section of an operation does to the cache. */
  function CacheAfter(cache: map<string, nat>, t: Task): map<string, nat>
    requires t.Owner?
  {
    if !t.outcome.Done? then cache
    else match t.op
      case Get => cache[t.name := t.outcome.inst]
      case GetOrCreate => cache[t.name := t.outcome.inst]
      case Store(inst) => if t.name in cache && cache[t.name] != inst then cache - {t.name} else cache
      case Delete => cache - {t.name}
  }

  function Conclude(s: State, p: nat, outcome: Outcome): State
    requires Works(s, p)
  {
    s.(tasks := s.tasks[p := s.tasks[p].(outcome := outcome)])
  }

  /** Writes the content of an object as the metadata of its name. */
  function Save(s: State, name: string, inst: nat): State {
    s.(stored := s.stored[name := inst], known := s.known[inst := Known(name, inst)])
  }

  function Next(s: State, e: Event): State
    requires Enabled(s, e)
  {
    match e
    case Wait(p, name) => s.(tasks := s.tasks[p := Waiting(name, s.ready[name])])
    case Wake(p) => s.(tasks := s.tasks - {p})
    case Claim(p, name, op) =>
      s.(ready := s.ready[name := s.chans], chans := s.chans + 1,
         tasks := s.tasks[p := Owner(name, s.chans, op, Working)],
         known := if op.Store? && op.inst !in s.known then s.known[op.inst := Known(name, op.inst)] else s.known)
    case Load(p, inst) =>
      var name := s.tasks[p].name;
      Conclude(s, p, Done(inst)).(known := s.known[inst := Known(name, s.stored[name])])
    case Create(p, inst) => Save(Conclude(s, p, Done(inst)), s.tasks[p].name, inst)
    case SetMetadata(p) =>
      var inst := s.tasks[p].op.inst;
      Save(Conclude(s, p, Done(inst)), s.tasks[p].name, inst)
    case DeleteMetadata(p) => Conclude(s, p, Done(0)).(stored := s.stored - {s.tasks[p].name})
    case Fail(p) => Conclude(s, p, Failed)
    case Finish(p) =>
      var t := s.tasks[p];
      s.(closed := s.closed + {t.chan}, ready := s.ready - {t.name}, cache := CacheAfter(s.cache, t),
         tasks := s.tasks - {p})
    case DropCache(name) => s.(cache := s.cache - {name})
  }

  function Exec(trace: seq<Event>): Option<State>
    decreases |trace|
  {
    if trace == [] then Some(INIT)
    else
      match Exec(trace[..|trace| - 1])
      case None => None
      case Some(s) =>
        var e := trace[|trace| - 1];
        if Enabled(s, e) then Some(Next(s, e)) else None
  }

  // ----------------------------------------------------------------- invariant

  predicate Owns(t: Task, name: string, chan: nat) {
    t.Owner? && t.name == name && t.chan == chan
  }

  /** The channels under names are those of the owners, one each. */
  ghost predicate OwnersOk(ready: map<string, nat>, tasks: map<nat, Task>) {
    && (forall p, name, chan :: p in tasks && Owns(tasks[p], name, chan) ==> name in ready && ready[name] == chan)
    && (forall name :: name in ready ==> exists p :: p in tasks && Owns(tasks[p], name, ready[name]))
    && (forall p, q ::
          p in tasks && q in tasks && tasks[p].Owner? && tasks[q].Owner? && tasks[p].name == tasks[q].name ==> p == q)
  }

  /** A channel is open exactly while it is under some name. */
  ghost predicate ChannelsOk(ready: map<string, nat>, chans: nat, closed: set<nat>) {
    && (forall name :: name in ready ==> ready[name] < chans && ready[name] !in closed)
    && (forall a, b :: a in ready && b in ready && ready[a] == ready[b] ==> a == b)
    && (forall c: nat :: c < chans && c !in closed ==> exists name :: name in ready && ready[name] == c)
    && (forall c :: c in closed ==> c < chans)
  }

  ghost predicate WaitersOk(chans: nat, tasks: map<nat, Task>) {
    forall p :: p in tasks && tasks[p].Waiting? ==> tasks[p].chan < chans
  }

  /** The object is up to date: it holds the content of the stored metadata of its name. */
  predicate UpToDate(stored: map<string, nat>, known: map<nat, Known>, name: string, inst: nat) {
    name in stored && inst in known && known[inst] == Known(name, stored[name])
  }

  /** Where an operation stands between working on the metadata and on the cache. */
  ghost predicate TaskOk(cache: map<string, nat>, stored: map<string, nat>, known: map<nat, Known>, t: Task) {
    t.Owner? ==>
      && (Loads(t.op) ==> t.name !in cache)
      && (t.op.Store? ==> t.op.inst in known && known[t.op.inst].name == t.name)
      && (t.outcome.Done? && !t.op.Delete? ==> UpToDate(stored, known, t.name, t.outcome.inst))
      && (t.outcome.Done? && t.op.Store? ==> t.outcome.inst == t.op.inst)
      && (!t.outcome.Done? && t.name in cache ==> UpToDate(stored, known, t.name, cache[t.name]))
  }

  ghost predicate CacheOk(cache: map<string, nat>, ready: map<string, nat>, stored: map<string, nat>,
                          known: map<nat, Known>) {
    forall name :: name in cache && name !in ready ==> UpToDate(stored, known, name, cache[name])
  }

  ghost predicate TasksOk(cache: map<string, nat>, stored: map<string, nat>, known: map<nat, Known>,
                          tasks: map<nat, Task>) {
    forall p :: p in tasks ==> TaskOk(cache, stored, known, tasks[p])
  }

  ghost predicate StoredOk(s: State) {
    && CacheOk(s.cache, s.ready, s.stored, s.known)
    && TasksOk(s.cache, s.stored, s.known, s.tasks)
    && (forall name :: name in s.cache ==> s.cache[name] in s.known && s.known[s.cache[name]].name == name)
  }

  ghost predicate Inv(s: State) {
    && OwnersOk(s.ready, s.tasks)
    && ChannelsOk(s.ready, s.chans, s.closed)
    && WaitersOk(s.chans, s.tasks)
    && StoredOk(s)
  }

  // ------------------------------------------------------------------- the steps

  /** A task that is new and no owner, or keeps owning what it owned. */
  lemma RetaskKeepsOwners(ready: map<string, nat>, tasks: map<nat, Task>, p: nat, t: Task)
    requires OwnersOk(ready, tasks)
    requires if p in tasks && tasks[p].Owner? then Owns(t, tasks[p].name, tasks[p].chan) else t.Waiting?
    ensures OwnersOk(ready, tasks[p := t])
  {
    var tasks' := tasks[p := t];
    if p in tasks && tasks[p].Owner? {
      assert Owns(tasks[p], tasks[p].name, tasks[p].chan);
    }
    forall name | name in ready ensures exists q :: q in tasks' && Owns(tasks'[q], name, ready[name]) {
      var q :| q in tasks && Owns(tasks[q], name, ready[name]);
      assert Owns(tasks'[q], name, ready[name]);
    }
  }

  lemma ClaimKeepsOwners(ready: map<string, nat>, tasks: map<nat, Task>, p: nat, t: Task)
    requires OwnersOk(ready, tasks) && p !in tasks && t.Owner? && t.name !in ready
    ensures OwnersOk(ready[t.name := t.chan], tasks[p := t])
  {
    var ready', tasks' := ready[t.name := t.chan], tasks[p := t];
    forall name | name in ready' ensures exists q :: q in tasks' && Owns(tasks'[q], name, ready'[name]) {
      if name == t.name {
        assert Owns(tasks'[p], name, ready'[name]);
      } else {
        var q :| q in tasks && Owns(tasks[q], name, ready[name]);
        assert Owns(tasks'[q], name, ready'[name]);
      }
    }
    forall q | q in tasks && tasks[q].Owner? ensures tasks[q].name != t.name {
      assert Owns(tasks[q], tasks[q].name, tasks[q].chan);
    }
  }

  lemma LeaveKeepsOwners(ready: map<string, nat>, tasks: map<nat, Task>, p: nat)
    requires OwnersOk(ready, tasks) && p in tasks
    ensures OwnersOk(if tasks[p].Owner? then ready - {tasks[p].name} else ready, tasks - {p})
  {
    var ready' := if tasks[p].Owner? then ready - {tasks[p].name} else ready;
    var tasks' := tasks - {p};
    forall name | name in ready' ensures exists q :: q in tasks' && Owns(tasks'[q], name, ready'[name]) {
      var q :| q in tasks && Owns(tasks[q], name, ready[name]);
      assert q != p && Owns(tasks'[q], name, ready'[name]);
    }
  }

  lemma NextKeepsOwners(s: State, e: Event)
    requires OwnersOk(s.ready, s.tasks) && Enabled(s, e)
    ensures OwnersOk(Next(s, e).ready, Next(s, e).tasks)
  {
    match e
    case Wait(p, name) => RetaskKeepsOwners(s.ready, s.tasks, p, Waiting(name, s.ready[name]));
    case Wake(p) => LeaveKeepsOwners(s.ready, s.tasks, p);
    case Claim(p, name, op) => ClaimKeepsOwners(s.ready, s.tasks, p, Owner(name, s.chans, op, Working));
    case Finish(p) => LeaveKeepsOwners(s.ready, s.tasks, p);
    case DropCache(_) =>
    case _ => RetaskKeepsOwners(s.ready, s.tasks, e.p, Next(s, e).tasks[e.p]);
  }

  lemma ClaimKeepsChannels(ready: map<string, nat>, chans: nat, closed: set<nat>, name: string)
    requires ChannelsOk(ready, chans, closed) && name !in ready
    ensures ChannelsOk(ready[name := chans], chans + 1, closed)
  {
    var ready' := ready[name := chans];
    forall c: nat | c < chans + 1 && c !in closed ensures exists n :: n in ready' && ready'[n] == c {
      if c == chans {
        assert ready'[name] == c;
      } else {
        var n :| n in ready && ready[n] == c;
        assert ready'[n] == c;
      }
    }
  }

  lemma CloseKeepsChannels(ready: map<string, nat>, chans: nat, closed: set<nat>, name: string)
    requires ChannelsOk(ready, chans, closed) && name in ready
    ensures ChannelsOk(ready - {name}, chans, closed + {ready[name]})
  {
    var ready' := ready - {name};
    forall c: nat | c < chans && c !in closed + {ready[name]} ensures exists n :: n in ready' && ready'[n] == c {
      var n :| n in ready && ready[n] == c;
      assert ready'[n] == c;
    }
  }

  lemma NextKeepsChannels(s: State, e: Event)
    requires OwnersOk(s.ready, s.tasks) && ChannelsOk(s.ready, s.chans, s.closed) && WaitersOk(s.chans, s.tasks)
    requires Enabled(s, e)
    ensures var s' := Next(s, e); ChannelsOk(s'.ready, s'.chans, s'.closed) && WaitersOk(s'.chans, s'.tasks)
  {
    match e
    case Claim(_, name, _) => ClaimKeepsChannels(s.ready, s.chans, s.closed, name);
    case Finish(p) =>
      assert Owns(s.tasks[p], s.tasks[p].name, s.tasks[p].chan);
      CloseKeepsChannels(s.ready, s.chans, s.closed, s.tasks[p].name);
    case _ =>
  }

  lemma NextKeepsStored(s: State, e: Event)
    requires OwnersOk(s.ready, s.tasks) && StoredOk(s) && Enabled(s, e)
    ensures StoredOk(Next(s, e))
  {
    match e
    case Claim(p, name, op) => ClaimKeepsStored(s, p, name, op);
    case Load(p, inst) => LoadKeepsStored(s, p, inst);
    case Create(p, inst) => SaveKeepsStored(s, p, inst);
    case SetMetadata(p) =>
      assert TaskOk(s.cache, s.stored, s.known, s.tasks[p]);
      SaveKeepsStored(s, p, s.tasks[p].op.inst);
    case DeleteMetadata(p) => DeleteKeepsStored(s, p);
    case Fail(p) => assert TaskOk(s.cache, s.stored, s.known, s.tasks[p]);
    case Finish(p) => FinishKeepsStored(s, p);
    case _ =>
  }

  /** More objects become known. */
  lemma LearnKeepsStored(s: State, inst: nat, k: Known)
    requires StoredOk(s) && inst !in s.known
    ensures StoredOk(s.(known := s.known[inst := k]))
  {
    forall p | p in s.tasks ensures TaskOk(s.cache, s.stored, s.known[inst := k], s.tasks[p]) {
      assert TaskOk(s.cache, s.stored, s.known, s.tasks[p]);
    }
  }

  lemma ClaimKeepsStored(s: State, p: nat, name: string, op: Op)
    requires OwnersOk(s.ready, s.tasks) && StoredOk(s) && Enabled(s, Claim(p, name, op))
    ensures StoredOk(Next(s, Claim(p, name, op)))
  {
    if op.Store? && op.inst !in s.known {
      LearnKeepsStored(s, op.inst, Known(name, op.inst));
    }
  }

  lemma LoadKeepsStored(s: State, p: nat, inst: nat)
    requires StoredOk(s) && Enabled(s, Load(p, inst))
    ensures StoredOk(Next(s, Load(p, inst)))
  {
    assert TaskOk(s.cache, s.stored, s.known, s.tasks[p]);
    LearnKeepsStored(s, inst, Known(s.tasks[p].name, s.stored[s.tasks[p].name]));
  }

  /** Another owner is not disturbed by a change of the metadata of a name it does not own. */
  lemma OtherTaskOk(s: State, p: nat, stored: map<string, nat>, known: map<nat, Known>, q: nat)
    requires OwnersOk(s.ready, s.tasks) && StoredOk(s) && Works(s, p) && q in s.tasks && q != p
    requires forall n :: n != s.tasks[p].name ==>
               (n in stored <==> n in s.stored) && (n in stored ==> stored[n] == s.stored[n])
    requires forall i :: i in s.known && s.known[i].name != s.tasks[p].name ==> i in known && known[i] == s.known[i]
    ensures TaskOk(s.cache, stored, known, s.tasks[q])
  {
    assert TaskOk(s.cache, s.stored, s.known, s.tasks[q]);
  }

  /** The owner p works on the metadata of its name; whatever else is cached stays up to date. */
  lemma OthersUpToDate(s: State, p: nat, stored: map<string, nat>, known: map<nat, Known>)
    requires OwnersOk(s.ready, s.tasks) && StoredOk(s) && Works(s, p)
    requires forall n :: n != s.tasks[p].name ==>
               (n in stored <==> n in s.stored) && (n in stored ==> stored[n] == s.stored[n])
    requires forall i :: i in s.known && s.known[i].name != s.tasks[p].name ==> i in known && known[i] == s.known[i]
    ensures CacheOk(s.cache, s.ready, stored, known)
  {
    assert Owns(s.tasks[p], s.tasks[p].name, s.tasks[p].chan);
  }

  lemma SaveKeepsStored(s: State, p: nat, inst: nat)
    requires OwnersOk(s.ready, s.tasks) && StoredOk(s) && Works(s, p) && !s.tasks[p].op.Delete?
    requires Belongs(s.known, inst, s.tasks[p].name) && (s.tasks[p].op.Store? ==> inst == s.tasks[p].op.inst)
    ensures StoredOk(Save(Conclude(s, p, Done(inst)), s.tasks[p].name, inst))
  {
    var s' := Save(Conclude(s, p, Done(inst)), s.tasks[p].name, inst);
    OthersUpToDate(s, p, s'.stored, s'.known);
    forall q | q in s'.tasks ensures TaskOk(s'.cache, s'.stored, s'.known, s'.tasks[q]) {
      assert TaskOk(s.cache, s.stored, s.known, s.tasks[q]);
      if q != p { OtherTaskOk(s, p, s'.stored, s'.known, q); }
    }
  }

  lemma DeleteKeepsStored(s: State, p: nat)
    requires OwnersOk(s.ready, s.tasks) && StoredOk(s) && Enabled(s, DeleteMetadata(p))
    ensures StoredOk(Next(s, DeleteMetadata(p)))
  {
    var s' := Next(s, DeleteMetadata(p));
    OthersUpToDate(s, p, s'.stored, s'.known);
    forall q | q in s'.tasks ensures TaskOk(s'.cache, s'.stored, s'.known, s'.tasks[q]) {
      assert TaskOk(s.cache, s.stored, s.known, s.tasks[q]);
      if q != p { OtherTaskOk(s, p, s'.stored, s'.known, q); }
    }
  }

  lemma FinishKeepsStored(s: State, p: nat)
    requires OwnersOk(s.ready, s.tasks) && StoredOk(s) && Enabled(s, Finish(p))
    ensures StoredOk(Next(s, Finish(p)))
  {
    var t := s.tasks[p];
    assert Owns(t, t.name, t.chan) && TaskOk(s.cache, s.stored, s.known, t);
    SettledCache(s.cache, s.stored, s.known, t);
    forall q | q in s.tasks && q != p ensures TaskOk(CacheAfter(s.cache, t), s.stored, s.known, s.tasks[q]) {
      assert TaskOk(s.cache, s.stored, s.known, s.tasks[q]);
    }
  }

  /** What the last section leaves cached under its name is up to date, and other names stay as they are. */
  lemma SettledCache(cache: map<string, nat>, stored: map<string, nat>, known: map<nat, Known>, t: Task)
    requires t.Owner? && !t.outcome.Working? && TaskOk(cache, stored, known, t)
    ensures t.name in CacheAfter(cache, t) ==> UpToDate(stored, known, t.name, CacheAfter(cache, t)[t.name])
    ensures forall n :: n != t.name ==> (n in CacheAfter(cache, t) <==> n in cache)
    ensures forall n :: n != t.name && n in cache ==> CacheAfter(cache, t)[n] == cache[n]
  {
  }

  lemma NextKeepsInv(s: State, e: Event)
    requires Inv(s) && Enabled(s, e)
    ensures Inv(Next(s, e))
  {
    NextKeepsOwners(s, e);
    NextKeepsChannels(s, e);
    NextKeepsStored(s, e);
  }

  lemma {:induction false} RunsKeepInv(trace: seq<Event>)
    requires Exec(trace).Some?
    ensures Inv(Exec(trace).value)
    decreases |trace|
  {
    if trace != [] {
      RunsKeepInv(trace[..|trace| - 1]);
      NextKeepsInv(Exec(trace[..|trace| - 1]).value, trace[|trace| - 1]);
    }
  }

  // ------------------------------------------------------------------- theorems

  /** At most one goroutine owns a name's section. */
  lemma OneOwnerPerName(trace: seq<Event>, p: nat, q: nat)
    requires Exec(trace).Some? && p in Exec(trace).value.tasks && q in Exec(trace).value.tasks
    requires var t := Exec(trace).value.tasks; t[p].Owner? && t[q].Owner? && t[p].name == t[q].name
    ensures p == q
  {
    RunsKeepInv(trace);
  }

  /** A cached index has stored metadata and holds its latest content, or a goroutine owns the name. */
  lemma CachedIsUpToDate(trace: seq<Event>, name: string)
    requires Exec(trace).Some? && name in Exec(trace).value.cache
    ensures var s := Exec(trace).value;
            || UpToDate(s.stored, s.known, name, s.cache[name])
            || exists p :: p in s.tasks && s.tasks[p].Owner? && s.tasks[p].name == name
  {
    RunsKeepInv(trace);
    var s := Exec(trace).value;
    if name in s.ready {
      var p :| p in s.tasks && Owns(s.tasks[p], name, s.ready[name]);
      assert s.tasks[p].name == name;
    }
  }

  /** The channel a goroutine waits for is closed, or the owner that will close it is at work. */
  lemma WaitersAreWoken(trace: seq<Event>, p: nat)
    requires Exec(trace).Some? && p in Exec(trace).value.tasks && Exec(trace).value.tasks[p].Waiting?
    ensures var s := Exec(trace).value;
            Enabled(s, Wake(p)) || exists q :: q in s.tasks && s.tasks[q].Owner? && s.tasks[q].chan == s.tasks[p].chan
  {
    RunsKeepInv(trace);
    var s := Exec(trace).value;
    var c := s.tasks[p].chan;
    if c !in s.closed {
      var name :| name in s.ready && s.ready[name] == c;
      var q :| q in s.tasks && Owns(s.tasks[q], name, s.ready[name]);
      assert s.tasks[q].chan == c;
    }
  }

  /** An entry goes away with its channel closed, and no channel is closed twice. */
  lemma ClosedBeforeDropped(trace: seq<Event>, e: Event, name: string)
    requires Exec(trace).Some? && Enabled(Exec(trace).value, e) && name in Exec(trace).value.ready
    ensures var s := Exec(trace).value;
            var s' := Next(s, e);
            var chan := s.ready[name];
            && chan !in s.closed
            && (name in s'.ready ==> s'.ready[name] == chan && chan !in s'.closed)
            && (name !in s'.ready ==> e.Finish? && chan in s'.closed)
  {
    RunsKeepInv(trace);
    var s := Exec(trace).value;
    NextKeepsInv(s, e);
    if e.Finish? {
      assert Owns(s.tasks[e.p], s.tasks[e.p].name, s.tasks[e.p].chan);
    }
  }

  // ------------------------------------------------------------- answers from the cache

  /** Events after which the cache need not hold the object under the name any more. */
  predicate Evicts(e: Event, name: string, inst: nat) {
    match e
    case Claim(_, n, op) => n == name && (op.Delete? || (op.Store? && op.inst != inst))
    case DropCache(n) => n == name
    case _ => false
  }

  /** The object is cached, and whoever owns the name is storing it. */
  ghost predicate Serves(s: State, name: string, inst: nat) {
    && name in s.cache && s.cache[name] == inst
    && forall p :: p in s.tasks && s.tasks[p].Owner? && s.tasks[p].name == name ==> s.tasks[p].op == Store(inst)
  }

  lemma NextKeepsServing(s: State, e: Event, name: string, inst: nat)
    requires Serves(s, name, inst) && Enabled(s, e) && !Evicts(e, name, inst)
    ensures Serves(Next(s, e), name, inst)
  {
    if e.Finish? {
      assert s.tasks[e.p].name == name ==> s.tasks[e.p].op == Store(inst);
    }
  }

  lemma {:induction false} PrefixRuns(trace: seq<Event>, i: nat)
    requires Exec(trace).Some? && i <= |trace|
    ensures Exec(trace[..i]).Some?
    ensures i < |trace| ==> Enabled(Exec(trace[..i]).value, trace[i])
    ensures i < |trace| ==> Exec(trace[..i + 1]) == Some(Next(Exec(trace[..i]).value, trace[i]))
    decreases |trace|
  {
    if i == |trace| {
      assert trace[..i] == trace;
    } else if i == |trace| - 1 {
      assert trace[..i + 1] == trace;
    } else {
      var before := trace[..|trace| - 1];
      PrefixRuns(before, i);
      assert before[..i] == trace[..i] && before[..i + 1] == trace[..i + 1];
    }
  }

  lemma {:induction false} ServesUntilEvicted(trace: seq<Event>, from: nat, upTo: nat, name: string, inst: nat)
    requires Exec(trace).Some? && from <= upTo <= |trace|
    requires Exec(trace[..from]).Some? && Serves(Exec(trace[..from]).value, name, inst)
    requires forall i :: from <= i < upTo ==> !Evicts(trace[i], name, inst)
    ensures Exec(trace[..upTo]).Some? && Serves(Exec(trace[..upTo]).value, name, inst)
    decreases upTo
  {
    if from < upTo {
      ServesUntilEvicted(trace, from, upTo - 1, name, inst);
      PrefixRuns(trace, upTo - 1);
      NextKeepsServing(Exec(trace[..upTo - 1]).value, trace[upTo - 1], name, inst);
    }
  }

  /**
   What Get or GetOrCreate obtained is cached when it ends, and answers every later Get and GetOrCreate, until
   another object is to be stored under the name, the index is to be deleted or its cache entry dropped.
   */
  lemma LoadedIsServed(trace: seq<Event>, from: nat, p: nat)
    requires Exec(trace).Some? && from < |trace| && trace[from] == Finish(p)
    requires Exec(trace[..from]).Some? && p in Exec(trace[..from]).value.tasks
    requires var t := Exec(trace[..from]).value.tasks[p];
             && t.Owner? && (t.op.Get? || t.op.GetOrCreate?) && t.outcome.Done?
             && forall i :: from < i < |trace| ==> !Evicts(trace[i], t.name, t.outcome.inst)
    ensures var t, s := Exec(trace[..from]).value.tasks[p], Exec(trace).value;
            && t.name in s.cache && s.cache[t.name] == t.outcome.inst
            && forall q: nat, op: Op :: op.Get? || op.GetOrCreate? ==> !Enabled(s, Claim(q, t.name, op))
  {
    var s := Exec(trace[..from]).value;
    var t := s.tasks[p];
    PrefixRuns(trace, from);
    RunsKeepInv(trace[..from]);
    ServesUntilEvicted(trace, from + 1, |trace|, t.name, t.outcome.inst);
    assert trace[..|trace|] == trace;
  }

  // ------------------------------------------------------------- what a load sees

  predicate WritesMetadata(e: Event) {
    e.SetMetadata? || e.Create? || e.DeleteMetadata?
  }

  /** After the first i events goroutine p is in the section of the name. */
  ghost predicate InSection(trace: seq<Event>, i: nat, p: nat, name: string) {
    && i <= |trace| && Exec(trace[..i]).Some?
    && p in Exec(trace[..i]).value.tasks && Exec(trace[..i]).value.tasks[p].name == name
  }

  ghost predicate DoesIn(trace: seq<Event>, i: nat, p: nat, op: Op) {
    && i <= |trace| && Exec(trace[..i]).Some? && p in Exec(trace[..i]).value.tasks
    && var t := Exec(trace[..i]).value.tasks[p]; t.Owner? && t.op == op
  }

  /** No step from `from` on writes or deletes the metadata of the name. */
  ghost predicate Unwritten(trace: seq<Event>, from: nat, upTo: nat, name: string)
    requires upTo <= |trace|
  {
    forall i: nat :: from <= i < upTo && WritesMetadata(trace[i]) ==> !InSection(trace, i, trace[i].p, name)
  }

  function StoredAs(s: State, name: string): Option<nat> {
    if name in s.stored then Some(s.stored[name]) else None
  }

  lemma NextKeepsMetadata(s: State, e: Event, name: string)
    requires Enabled(s, e) && (WritesMetadata(e) ==> s.tasks[e.p].name != name)
    ensures StoredAs(Next(s, e), name) == StoredAs(s, name)
  {
  }

  ghost predicate LeavesStored(trace: seq<Event>, name: string, v: Option<nat>) {
    Exec(trace).Some? && StoredAs(Exec(trace).value, name) == v
  }

  /** What is stored under the name after i events; the bound variable keeps the run folded up. */
  ghost predicate StoredAt(trace: seq<Event>, i: nat, name: string, v: Option<nat>) {
    i <= |trace| && forall t :: t == trace[..i] ==> LeavesStored(t, name, v)
  }

  lemma StoredOneMore(trace: seq<Event>, i: nat, name: string, v: Option<nat>)
    requires Exec(trace).Some? && i < |trace| && StoredAt(trace, i, name, v)
    requires WritesMetadata(trace[i]) ==> !InSection(trace, i, trace[i].p, name)
    ensures StoredAt(trace, i + 1, name, v)
  {
    assert LeavesStored(trace[..i], name, v);
    PrefixRuns(trace, i);
    NextKeepsMetadata(Exec(trace[..i]).value, trace[i], name);
    assert LeavesStored(trace[..i + 1], name, v);
  }

  lemma {:induction false} StoredStays(trace: seq<Event>, from: nat, upTo: nat, name: string, v: Option<nat>)
    requires Exec(trace).Some? && from <= upTo <= |trace| && Unwritten(trace, from, upTo, name)
    requires StoredAt(trace, from, name, v)
    ensures StoredAt(trace, upTo, name, v)
    decreases upTo
  {
    if from < upTo {
      StoredStays(trace, from, upTo - 1, name, v);
      StoredOneMore(trace, upTo - 1, name, v);
    }
  }

  /** Once the metadata of a name is deleted, nothing can be loaded under it until it is stored again. */
  lemma DeletedIsGone(trace: seq<Event>, from: nat, upTo: nat, p: nat, name: string, q: nat, inst: nat)
    requires Exec(trace).Some? && from < upTo <= |trace| && Unwritten(trace, from + 1, upTo, name)
    requires InSection(trace, from, p, name) && trace[from] == DeleteMetadata(p) && InSection(trace, upTo, q, name)
    ensures name !in Exec(trace[..upTo]).value.stored && !Enabled(Exec(trace[..upTo]).value, Load(q, inst))
  {
    PrefixRuns(trace, from);
    assert LeavesStored(trace[..from + 1], name, None);
    StoredStays(trace, from + 1, upTo, name, None);
    assert LeavesStored(trace[..upTo], name, None);
  }

  /** A load obtains the content of the object that was stored last under its name. */
  lemma LoadSeesLastStore(trace: seq<Event>, from: nat, upTo: nat, p: nat, q: nat, name: string, stored: nat,
                          loaded: nat)
    requires Exec(trace).Some? && from < upTo < |trace| && Unwritten(trace, from + 1, upTo, name)
    requires InSection(trace, from, p, name) && InSection(trace, upTo, q, name)
    requires trace[upTo] == Load(q, loaded)
    requires || trace[from] == Create(p, stored)
             || (trace[from] == SetMetadata(p) && DoesIn(trace, from, p, Store(stored)))
    ensures Exec(trace[..upTo + 1]).Some? && loaded in Exec(trace[..upTo + 1]).value.known
    ensures Exec(trace[..upTo + 1]).value.known[loaded] == Known(name, stored)
  {
    PrefixRuns(trace, from);
    PrefixRuns(trace, upTo);
    assert LeavesStored(trace[..from + 1], name, Some(stored));
    StoredStays(trace, from + 1, upTo, name, Some(stored));
    assert LeavesStored(trace[..upTo], name, Some(stored));
  }
}
