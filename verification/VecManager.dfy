/**
 The cache of vector indexes. Callers take references to a cached instance or load it under a claim
 on its name; waiting closers and the collector claim a name to free an idle instance. Instances are
 numbered in the order they are loaded. Every event is one section under the manager's lock, or the
 Free call between two of them.
 */
module VecManager {
  import opened Wrappers

  /** What a goroutine is doing between two lock sections. */
  datatype Task =
    | Loading(name: string)
    | Waiting(inst: nat)
    | Freeing(name: string, inst: nat)
    | Freed(name: string, inst: nat)

  /**
   names[i] is the name instance i was loaded under. `held` has one entry for each reference a caller
   still has to close, `freed` one for each Free call and `claimed` one for each claim to free.
   `stray` says that some waiting closer claimed an instance that was no longer cached.
   */
  datatype State = State(
    cache: map<string, nat>,
    ready: set<string>,
    names: seq<string>,
    refCount: seq<int>,
    tasks: map<nat, Task>,
    held: multiset<nat>,
    claimed: multiset<nat>,
    freed: multiset<nat>,
    stray: bool)

  datatype Event =
    | Hit(name: string)
    | Claim(p: nat, name: string)
    | LoadDone(p: nat)
    | LoadFailed(p: nat)
    | Close(inst: nat)
    | CloseAndWait(p: nat, inst: nat)
    | GiveUp(p: nat)
    | CloseClaim(p: nat)
    | CollectClaim(p: nat, name: string)
    | Free(p: nat)
    | FreeDone(p: nat)

  const INIT := State(map[], {}, [], [], map[], multiset{}, multiset{}, multiset{}, false)

  predicate Cached(cache: map<string, nat>, names: seq<string>, i: nat) {
    i < |names| && names[i] in cache && cache[names[i]] == i
  }

  predicate Exists(s: State, i: nat) {
    i < |s.names| && i < |s.refCount|
  }

  predicate Enabled(s: State, e: Event) {
    match e
    case Hit(name) => name in s.cache && Exists(s, s.cache[name])
    case Claim(p, name) => p !in s.tasks && name !in s.cache && name !in s.ready
    case LoadDone(p) => p in s.tasks && s.tasks[p].Loading?
    case LoadFailed(p) => p in s.tasks && s.tasks[p].Loading?
    case Close(i) => i in s.held && Exists(s, i)
    case CloseAndWait(p, i) => p !in s.tasks && i in s.held && Exists(s, i)
    case GiveUp(p) =>
      p in s.tasks && s.tasks[p].Waiting? && Exists(s, s.tasks[p].inst) && s.refCount[s.tasks[p].inst] == 0 &&
      s.names[s.tasks[p].inst] in s.ready
    case CloseClaim(p) =>
      p in s.tasks && s.tasks[p].Waiting? && Exists(s, s.tasks[p].inst) && s.refCount[s.tasks[p].inst] == 0 &&
      s.names[s.tasks[p].inst] !in s.ready
    case CollectClaim(p, name) =>
      p !in s.tasks && name in s.cache && Exists(s, s.cache[name]) && s.refCount[s.cache[name]] == 0 &&
      s.names[s.cache[name]] !in s.ready
    case Free(p) => p in s.tasks && s.tasks[p].Freeing?
    case FreeDone(p) => p in s.tasks && s.tasks[p].Freed?
  }

  function AddRef(s: State, i: nat): State
    requires Exists(s, i)
  {
    s.(refCount := s.refCount[i := s.refCount[i] + 1], held := s.held + multiset{i})
  }

  function ReduceRef(s: State, i: nat): State
    requires Exists(s, i)
  {
    s.(refCount := s.refCount[i := s.refCount[i] - 1], held := s.held - multiset{i})
  }

  /** Takes the name out of the cache, whichever instance it leads to, and claims it to free instance i. */
  function ClaimToFree(s: State, p: nat, i: nat): State
    requires Exists(s, i)
  {
    var name := s.names[i];
    s.(cache := s.cache - {name}, ready := s.ready + {name}, tasks := s.tasks[p := Freeing(name, i)],
       claimed := s.claimed + multiset{i})
  }

  function Next(s: State, e: Event): State
    requires Enabled(s, e)
  {
    match e
    case Hit(name) => AddRef(s, s.cache[name])
    case Claim(p, name) => s.(ready := s.ready + {name}, tasks := s.tasks[p := Loading(name)])
    case LoadDone(p) =>
      var name := s.tasks[p].name;
      s.(cache := s.cache[name := |s.names|], ready := s.ready - {name}, names := s.names + [name],
         refCount := s.refCount + [1], held := s.held + multiset{|s.names|}, tasks := s.tasks - {p})
    case LoadFailed(p) => s.(ready := s.ready - {s.tasks[p].name}, tasks := s.tasks - {p})
    case Close(i) => ReduceRef(s, i)
    case CloseAndWait(p, i) => ReduceRef(s, i).(tasks := s.tasks[p := Waiting(i)])
    case GiveUp(p) => s.(tasks := s.tasks - {p})
    case CloseClaim(p) =>
      var i := s.tasks[p].inst;
      ClaimToFree(s, p, i).(stray := s.stray || !Cached(s.cache, s.names, i))
    case CollectClaim(p, name) => ClaimToFree(s, p, s.cache[name])
    case Free(p) =>
      var t := s.tasks[p];
      s.(freed := s.freed + multiset{t.inst}, tasks := s.tasks[p := Freed(t.name, t.inst)])
    case FreeDone(p) => s.(ready := s.ready - {s.tasks[p].name}, tasks := s.tasks - {p})
  }

  function Exec(trace: seq<Event>): Option<State>
    decreases |trace|
  {
    if trace == [] then Some(INIT)
    else
      match Exec(trace[..|trace| - 1])
      case None => None
      case Some(s) =>
        var e := trace[|trace| - 1];
        if Enabled(s, e) then Some(Next(s, e)) else None
  }

  // ----------------------------------------------------------------- invariant

  predicate Owns(t: Task, name: string) {
    !t.Waiting? && t.name == name
  }

  /** A claimed name has exactly one owner and is not cached. */
  ghost predicate NamesOk(cache: map<string, nat>, ready: set<string>, tasks: map<nat, Task>) {
    && (forall p, name :: p in tasks && Owns(tasks[p], name) ==> name in ready)
    && (forall name :: name in ready ==> exists p :: p in tasks && Owns(tasks[p], name))
    && (forall p, q, name :: p in tasks && q in tasks && Owns(tasks[p], name) && Owns(tasks[q], name) ==> p == q)
    && (forall name :: name in cache ==> name !in ready)
  }

  /** Reference counts count the references that callers hold. */
  ghost predicate CountsOk(names: seq<string>, refCount: seq<int>, held: multiset<nat>) {
    && |refCount| == |names|
    && (forall i: nat :: i < |names| ==> refCount[i] == held[i])
    && (forall i: nat :: i in held ==> i < |names|)
  }

  ghost predicate CacheOk(cache: map<string, nat>, names: seq<string>) {
    forall name :: name in cache ==> cache[name] < |names| && names[cache[name]] == name
  }

  /** Whatever is claimed to be freed exists, is not cached and no caller holds it. */
  ghost predicate SetAside(cache: map<string, nat>, names: seq<string>, held: multiset<nat>, claimed: multiset<nat>) {
    forall i :: i in claimed ==> i < |names| && !Cached(cache, names, i) && held[i] == 0
  }

  ghost predicate TaskOk(names: seq<string>, t: Task, claimed: multiset<nat>) {
    t.Loading? ||
    (t.inst < |names| && (!t.Waiting? ==> t.inst in claimed && names[t.inst] == t.name))
  }

  ghost predicate TasksOk(names: seq<string>, tasks: map<nat, Task>, claimed: multiset<nat>) {
    forall p :: p in tasks ==> TaskOk(names, tasks[p], claimed)
  }

  /** Some goroutine has claimed the instance and not called Free yet. */
  ghost predicate AboutToFree(tasks: map<nat, Task>, i: nat) {
    exists p :: p in tasks && tasks[p].Freeing? && tasks[p].inst == i
  }

  /** Every claim has led to one Free call, or its goroutine is about to make it. */
  ghost predicate FreedOk(freed: multiset<nat>, claimed: multiset<nat>, tasks: map<nat, Task>) {
    forall i: nat :: claimed[i] == freed[i] + if AboutToFree(tasks, i) then 1 else 0
  }

  /** Claimed at most once, and uncached only by a claim, until a closer claims what is no longer cached. */
  ghost predicate OnceOk(cache: map<string, nat>, names: seq<string>, claimed: multiset<nat>, stray: bool) {
    if stray then ClaimedTwice(claimed)
    else forall i: nat :: i < |names| ==> claimed[i] == if Cached(cache, names, i) then 0 else 1
  }

  ghost predicate ClaimedTwice(claimed: multiset<nat>) {
    exists i :: claimed[i] >= 2
  }

  ghost predicate Inv(s: State) {
    && NamesOk(s.cache, s.ready, s.tasks)
    && CountsOk(s.names, s.refCount, s.held)
    && CacheOk(s.cache, s.names)
    && SetAside(s.cache, s.names, s.held, s.claimed)
    && TasksOk(s.names, s.tasks, s.claimed)
    && FreedOk(s.freed, s.claimed, s.tasks)
    && OnceOk(s.cache, s.names, s.claimed, s.stray)
  }

  // ------------------------------------------------------------------- the steps

  lemma ClaimKeepsNames(cache: map<string, nat>, ready: set<string>, tasks: map<nat, Task>, p: nat, t: Task,
                        name: string)
    requires NamesOk(cache, ready, tasks) && name !in ready && Owns(t, name)
    requires p !in tasks || tasks[p].Waiting?
    ensures NamesOk(cache - {name}, ready + {name}, tasks[p := t])
  {
    var ready', tasks' := ready + {name}, tasks[p := t];
    forall n | n in ready' ensures exists q :: q in tasks' && Owns(tasks'[q], n) {
      if n == name {
        assert Owns(tasks'[p], n);
      } else {
        var q :| q in tasks && Owns(tasks[q], n);
        assert q in tasks' && Owns(tasks'[q], n);
      }
    }
  }

  /** The owner of a name gives it up, caching an instance under it or not. */
  lemma UnclaimKeepsNames(cache: map<string, nat>, cache': map<string, nat>, ready: set<string>, tasks: map<nat, Task>,
                          p: nat, name: string)
    requires NamesOk(cache, ready, tasks) && p in tasks && Owns(tasks[p], name)
    requires forall n :: n in cache' ==> n in cache || n == name
    ensures NamesOk(cache', ready - {name}, tasks - {p})
  {
    var ready', tasks' := ready - {name}, tasks - {p};
    forall n | n in ready' ensures exists q :: q in tasks' && Owns(tasks'[q], n) {
      var q :| q in tasks && Owns(tasks[q], n);
      assert q in tasks' && Owns(tasks'[q], n);
    }
  }

  /** A task that keeps owning what it owned. */
  lemma RetaskKeepsNames(cache: map<string, nat>, ready: set<string>, tasks: map<nat, Task>, p: nat, t: Task)
    requires NamesOk(cache, ready, tasks)
    requires if p in tasks then forall n :: Owns(tasks[p], n) <==> Owns(t, n) else t.Waiting?
    ensures NamesOk(cache, ready, tasks[p := t])
  {
    var tasks' := tasks[p := t];
    forall n | n in ready ensures exists q :: q in tasks' && Owns(tasks'[q], n) {
      var q :| q in tasks && Owns(tasks[q], n);
      assert q in tasks' && Owns(tasks'[q], n);
    }
  }

  lemma DropWaitingKeepsNames(cache: map<string, nat>, ready: set<string>, tasks: map<nat, Task>, p: nat)
    requires NamesOk(cache, ready, tasks) && p in tasks && tasks[p].Waiting?
    ensures NamesOk(cache, ready, tasks - {p})
  {
    var tasks' := tasks - {p};
    forall n | n in ready ensures exists q :: q in tasks' && Owns(tasks'[q], n) {
      var q :| q in tasks && Owns(tasks[q], n);
      assert q in tasks' && Owns(tasks'[q], n);
    }
  }

  lemma NextKeepsNames(s: State, e: Event)
    requires Inv(s) && Enabled(s, e)
    ensures var s' := Next(s, e); NamesOk(s'.cache, s'.ready, s'.tasks)
  {
    match e
    case Hit(_) =>
    case Claim(p, name) =>
      assert s.cache - {name} == s.cache;
      ClaimKeepsNames(s.cache, s.ready, s.tasks, p, Loading(name), name);
    case LoadDone(p) =>
      UnclaimKeepsNames(s.cache, Next(s, e).cache, s.ready, s.tasks, p, s.tasks[p].name);
    case LoadFailed(p) => UnclaimKeepsNames(s.cache, s.cache, s.ready, s.tasks, p, s.tasks[p].name);
    case Close(_) =>
    case CloseAndWait(p, i) => RetaskKeepsNames(s.cache, s.ready, s.tasks, p, Waiting(i));
    case GiveUp(p) => DropWaitingKeepsNames(s.cache, s.ready, s.tasks, p);
    case CloseClaim(p) =>
      var i := s.tasks[p].inst;
      ClaimKeepsNames(s.cache, s.ready, s.tasks, p, Freeing(s.names[i], i), s.names[i]);
    case CollectClaim(p, name) =>
      var i := s.cache[name];
      ClaimKeepsNames(s.cache, s.ready, s.tasks, p, Freeing(s.names[i], i), s.names[i]);
    case Free(p) => RetaskKeepsNames(s.cache, s.ready, s.tasks, p, Freed(s.tasks[p].name, s.tasks[p].inst));
    case FreeDone(p) => UnclaimKeepsNames(s.cache, s.cache, s.ready, s.tasks, p, s.tasks[p].name);
  }

  lemma AddRefKeepsCounts(names: seq<string>, refCount: seq<int>, held: multiset<nat>, i: nat)
    requires CountsOk(names, refCount, held) && i < |names|
    ensures CountsOk(names, refCount[i := refCount[i] + 1], held + multiset{i})
  {
  }

  lemma ReduceRefKeepsCounts(names: seq<string>, refCount: seq<int>, held: multiset<nat>, i: nat)
    requires CountsOk(names, refCount, held) && i in held
    ensures CountsOk(names, refCount[i := refCount[i] - 1], held - multiset{i})
  {
  }

  lemma LoadKeepsCounts(names: seq<string>, refCount: seq<int>, held: multiset<nat>, name: string)
    requires CountsOk(names, refCount, held)
    ensures CountsOk(names + [name], refCount + [1], held + multiset{|names|})
  {
    assert |names| !in held;
  }

  lemma NextKeepsCounts(s: State, e: Event)
    requires CountsOk(s.names, s.refCount, s.held) && Enabled(s, e)
    ensures var s' := Next(s, e); CountsOk(s'.names, s'.refCount, s'.held)
  {
    match e
    case Hit(name) => AddRefKeepsCounts(s.names, s.refCount, s.held, s.cache[name]);
    case LoadDone(p) => LoadKeepsCounts(s.names, s.refCount, s.held, s.tasks[p].name);
    case Close(i) => ReduceRefKeepsCounts(s.names, s.refCount, s.held, i);
    case CloseAndWait(_, i) => ReduceRefKeepsCounts(s.names, s.refCount, s.held, i);
    case _ =>
  }

  lemma NextKeepsCache(s: State, e: Event)
    requires Inv(s) && Enabled(s, e)
    ensures var s' := Next(s, e); CacheOk(s'.cache, s'.names)
  {
  }

  lemma LoadKeepsSetAside(cache: map<string, nat>, names: seq<string>, held: multiset<nat>, claimed: multiset<nat>,
                          name: string)
    requires SetAside(cache, names, held, claimed)
    ensures SetAside(cache[name := |names|], names + [name], held + multiset{|names|}, claimed)
  {
    forall i | i in claimed
      ensures !Cached(cache[name := |names|], names + [name], i) && (held + multiset{|names|})[i] == 0
    {
      assert i < |names| && !Cached(cache, names, i) && held[i] == 0;
    }
  }

  lemma ClaimKeepsSetAside(cache: map<string, nat>, names: seq<string>, held: multiset<nat>, claimed: multiset<nat>,
                           i: nat)
    requires SetAside(cache, names, held, claimed) && i < |names| && held[i] == 0
    ensures SetAside(cache - {names[i]}, names, held, claimed + multiset{i})
  {
    forall j | j in claimed + multiset{i} ensures j < |names| && !Cached(cache - {names[i]}, names, j) && held[j] == 0 {
      assert j == i || j in claimed;
    }
  }

  lemma NextKeepsSetAside(s: State, e: Event)
    requires Inv(s) && Enabled(s, e)
    ensures var s' := Next(s, e); SetAside(s'.cache, s'.names, s'.held, s'.claimed)
  {
    match e
    case Hit(name) => assert Cached(s.cache, s.names, s.cache[name]);
    case LoadDone(p) => LoadKeepsSetAside(s.cache, s.names, s.held, s.claimed, s.tasks[p].name);
    case CloseClaim(p) => ClaimKeepsSetAside(s.cache, s.names, s.held, s.claimed, s.tasks[p].inst);
    case CollectClaim(_, name) => ClaimKeepsSetAside(s.cache, s.names, s.held, s.claimed, s.cache[name]);
    case _ =>
  }

  lemma MoreKeepsTasks(names: seq<string>, names': seq<string>, tasks: map<nat, Task>, tasks': map<nat, Task>,
                       claimed: multiset<nat>, claimed': multiset<nat>, p: nat)
    requires TasksOk(names, tasks, claimed) && names <= names' && claimed <= claimed'
    requires forall q :: q in tasks' && q != p ==> q in tasks && tasks'[q] == tasks[q]
    requires p in tasks' ==> TaskOk(names', tasks'[p], claimed')
    ensures TasksOk(names', tasks', claimed')
  {
  }

  lemma NextKeepsTasks(s: State, e: Event)
    requires TasksOk(s.names, s.tasks, s.claimed) && Enabled(s, e)
    ensures var s' := Next(s, e); TasksOk(s'.names, s'.tasks, s'.claimed)
  {
    var s' := Next(s, e);
    if !e.Hit? && !e.Close? {
      var p := e.p;
      assert e.CloseClaim? ==> s.tasks[p].inst in s'.claimed;
      assert e.CollectClaim? ==> s.cache[e.name] in s'.claimed;
      assert p in s'.tasks ==> TaskOk(s'.names, s'.tasks[p], s'.claimed);
      MoreKeepsTasks(s.names, s'.names, s.tasks, s'.tasks, s.claimed, s'.claimed, p);
    }
  }

  /** No task but p changes, and p is not about to free anything before or after. */
  lemma OtherTaskKeepsFreed(freed: multiset<nat>, claimed: multiset<nat>, tasks: map<nat, Task>, tasks': map<nat, Task>,
                            p: nat)
    requires FreedOk(freed, claimed, tasks)
    requires forall q :: q != p ==> (q in tasks' <==> q in tasks) && (q in tasks ==> tasks'[q] == tasks[q])
    requires (p in tasks ==> !tasks[p].Freeing?) && (p in tasks' ==> !tasks'[p].Freeing?)
    ensures FreedOk(freed, claimed, tasks')
  {
    forall i: nat ensures AboutToFree(tasks', i) <==> AboutToFree(tasks, i) {
      if AboutToFree(tasks, i) {
        var q :| q in tasks && tasks[q].Freeing? && tasks[q].inst == i;
        assert q in tasks' && tasks'[q].Freeing?;
      }
    }
  }

  /** A claim for instance i, which nobody was about to free. */
  lemma ClaimKeepsFreed(freed: multiset<nat>, claimed: multiset<nat>, tasks: map<nat, Task>, p: nat, name: string,
                        i: nat)
    requires FreedOk(freed, claimed, tasks) && (p in tasks ==> tasks[p].Waiting?) && !AboutToFree(tasks, i)
    ensures FreedOk(freed, claimed + multiset{i}, tasks[p := Freeing(name, i)])
  {
    var tasks' := tasks[p := Freeing(name, i)];
    assert tasks'[p].Freeing? && tasks'[p].inst == i;
    forall j: nat | j != i ensures AboutToFree(tasks', j) <==> AboutToFree(tasks, j) {
      if AboutToFree(tasks, j) {
        var q :| q in tasks && tasks[q].Freeing? && tasks[q].inst == j;
        assert q in tasks' && tasks'[q].Freeing?;
      }
    }
  }

  /** The one goroutine that was about to free instance i frees it. */
  lemma FreeKeepsFreed(freed: multiset<nat>, claimed: multiset<nat>, tasks: map<nat, Task>, p: nat)
    requires FreedOk(freed, claimed, tasks) && p in tasks && tasks[p].Freeing?
    requires forall q :: q in tasks && tasks[q].Freeing? && tasks[q].inst == tasks[p].inst ==> q == p
    ensures FreedOk(freed + multiset{tasks[p].inst}, claimed, tasks[p := Freed(tasks[p].name, tasks[p].inst)])
  {
    var i, tasks' := tasks[p].inst, tasks[p := Freed(tasks[p].name, tasks[p].inst)];
    assert AboutToFree(tasks, i);
    forall j: nat | j != i ensures AboutToFree(tasks', j) <==> AboutToFree(tasks, j) {
      if AboutToFree(tasks, j) {
        var q :| q in tasks && tasks[q].Freeing? && tasks[q].inst == j;
        assert q in tasks' && tasks'[q].Freeing?;
      }
    }
  }

  /** Whoever is about to free an instance owns its name, so there is at most one, and none while the name is free. */
  lemma FreeingOwns(s: State, p: nat)
    requires NamesOk(s.cache, s.ready, s.tasks) && TasksOk(s.names, s.tasks, s.claimed)
    requires p in s.tasks && s.tasks[p].Freeing?
    ensures s.tasks[p].inst < |s.names| && s.names[s.tasks[p].inst] in s.ready
    ensures forall q :: q in s.tasks && s.tasks[q].Freeing? && s.tasks[q].inst == s.tasks[p].inst ==> q == p
  {
    assert TaskOk(s.names, s.tasks[p], s.claimed) && Owns(s.tasks[p], s.tasks[p].name);
    forall q | q in s.tasks && s.tasks[q].Freeing? && s.tasks[q].inst == s.tasks[p].inst ensures q == p {
      assert TaskOk(s.names, s.tasks[q], s.claimed) && Owns(s.tasks[q], s.tasks[p].name);
    }
  }

  lemma NobodyFreesUnderFreeName(s: State, i: nat)
    requires NamesOk(s.cache, s.ready, s.tasks) && TasksOk(s.names, s.tasks, s.claimed)
    requires i < |s.names| && s.names[i] !in s.ready
    ensures !AboutToFree(s.tasks, i)
  {
    forall p | p in s.tasks && s.tasks[p].Freeing? ensures s.tasks[p].inst != i {
      FreeingOwns(s, p);
    }
  }

  lemma NextKeepsFreed(s: State, e: Event)
    requires NamesOk(s.cache, s.ready, s.tasks) && TasksOk(s.names, s.tasks, s.claimed)
    requires FreedOk(s.freed, s.claimed, s.tasks) && Enabled(s, e)
    ensures var s' := Next(s, e); FreedOk(s'.freed, s'.claimed, s'.tasks)
  {
    var s' := Next(s, e);
    match e
    case Hit(_) =>
    case Close(_) =>
    case CloseClaim(p) =>
      NobodyFreesUnderFreeName(s, s.tasks[p].inst);
      ClaimKeepsFreed(s.freed, s.claimed, s.tasks, p, s.names[s.tasks[p].inst], s.tasks[p].inst);
    case CollectClaim(p, name) =>
      NobodyFreesUnderFreeName(s, s.cache[name]);
      ClaimKeepsFreed(s.freed, s.claimed, s.tasks, p, s.names[s.cache[name]], s.cache[name]);
    case Free(p) =>
      FreeingOwns(s, p);
      FreeKeepsFreed(s.freed, s.claimed, s.tasks, p);
    case _ => OtherTaskKeepsFreed(s.freed, s.claimed, s.tasks, s'.tasks, e.p);
  }

  lemma LoadKeepsOnce(cache: map<string, nat>, names: seq<string>, claimed: multiset<nat>, stray: bool, name: string)
    requires OnceOk(cache, names, claimed, stray) && name !in cache && |names| !in claimed
    ensures OnceOk(cache[name := |names|], names + [name], claimed, stray)
  {
    if !stray {
      var cache', names' := cache[name := |names|], names + [name];
      forall i: nat | i < |names'| ensures claimed[i] == if Cached(cache', names', i) then 0 else 1 {
        if i < |names| {
          assert Cached(cache', names', i) <==> Cached(cache, names, i);
        }
      }
    }
  }

  lemma ClaimKeepsOnce(cache: map<string, nat>, names: seq<string>, claimed: multiset<nat>, stray: bool, i: nat)
    requires OnceOk(cache, names, claimed, stray) && CacheOk(cache, names) && i < |names|
    ensures OnceOk(cache - {names[i]}, names, claimed + multiset{i}, stray || !Cached(cache, names, i))
  {
    var cache', claimed' := cache - {names[i]}, claimed + multiset{i};
    if stray {
      var j :| claimed[j] >= 2;
      assert claimed'[j] >= 2;
    } else if !Cached(cache, names, i) {
      assert claimed'[i] == 2;
    } else {
      forall j: nat | j < |names| ensures claimed'[j] == if Cached(cache', names, j) then 0 else 1 {
        assert Cached(cache', names, j) <==> Cached(cache, names, j) && j != i;
      }
    }
  }

  lemma NextKeepsOnce(s: State, e: Event)
    requires Inv(s) && Enabled(s, e)
    ensures var s' := Next(s, e); OnceOk(s'.cache, s'.names, s'.claimed, s'.stray)
  {
    match e
    case LoadDone(p) =>
      assert Owns(s.tasks[p], s.tasks[p].name);
      LoadKeepsOnce(s.cache, s.names, s.claimed, s.stray, s.tasks[p].name);
    case CloseClaim(p) => ClaimKeepsOnce(s.cache, s.names, s.claimed, s.stray, s.tasks[p].inst);
    case CollectClaim(_, name) =>
      assert Cached(s.cache, s.names, s.cache[name]);
      ClaimKeepsOnce(s.cache, s.names, s.claimed, s.stray, s.cache[name]);
    case _ =>
  }

  lemma NextKeepsInv(s: State, e: Event)
    requires Inv(s) && Enabled(s, e)
    ensures Inv(Next(s, e))
  {
    NextKeepsNames(s, e);
    NextKeepsCounts(s, e);
    NextKeepsCache(s, e);
    NextKeepsSetAside(s, e);
    NextKeepsTasks(s, e);
    NextKeepsFreed(s, e);
    NextKeepsOnce(s, e);
  }

  lemma {:induction false} RunsKeepInv(trace: seq<Event>)
    requires Exec(trace).Some?
    ensures Inv(Exec(trace).value)
    decreases |trace|
  {
    if trace != [] {
      RunsKeepInv(trace[..|trace| - 1]);
      NextKeepsInv(Exec(trace[..|trace| - 1]).value, trace[|trace| - 1]);
    }
  }

  // ------------------------------------------------------------------- theorems

  /** An instance is freed only when nobody references it and it is out of the cache. */
  lemma FreedOnlyWhenIdle(trace: seq<Event>, p: nat)
    requires Exec(trace).Some? && Enabled(Exec(trace).value, Free(p))
    ensures var s := Exec(trace).value;
            var i := s.tasks[p].inst;
            && i < |s.refCount| && s.refCount[i] == 0 && i !in s.held
            && forall name :: name in s.cache ==> s.cache[name] != i
  {
    RunsKeepInv(trace);
    var s := Exec(trace).value;
    var i := s.tasks[p].inst;
    assert i in s.claimed && !Cached(s.cache, s.names, i);
  }

  /** No caller holds a freed instance, and the cache cannot hand one out. */
  lemma NoUseAfterFree(trace: seq<Event>, i: nat)
    requires Exec(trace).Some? && i in Exec(trace).value.freed
    ensures var s := Exec(trace).value;
            i !in s.held && forall name :: name in s.cache ==> s.cache[name] != i
  {
    RunsKeepInv(trace);
    var s := Exec(trace).value;
    assert s.claimed[i] >= s.freed[i];
    assert i in s.claimed && !Cached(s.cache, s.names, i);
  }

  lemma StepKeepsFreed(s: State, e: Event)
    requires Enabled(s, e)
    ensures s.freed <= Next(s, e).freed
  {
  }

  /** Freed instances stay freed, so the two facts above hold ever after. */
  lemma {:induction false} FreedForGood(before: seq<Event>, after: seq<Event>)
    requires Exec(before + after).Some?
    ensures Exec(before).Some? && Exec(before).value.freed <= Exec(before + after).value.freed
    decreases |after|
  {
    var all := before + after;
    if after == [] {
      assert all == before;
    } else {
      var less := before + after[..|after| - 1];
      assert all[..|all| - 1] == less;
      FreedForGood(before, after[..|after| - 1]);
      StepKeepsFreed(Exec(less).value, all[|all| - 1]);
    }
  }

  /** At most one goroutine owns a name, and none while it is cached. */
  lemma OneOwnerPerName(trace: seq<Event>, p: nat, q: nat, name: string)
    requires Exec(trace).Some? && p in Exec(trace).value.tasks && q in Exec(trace).value.tasks
    requires Owns(Exec(trace).value.tasks[p], name) && Owns(Exec(trace).value.tasks[q], name)
    ensures p == q && name !in Exec(trace).value.cache && name in Exec(trace).value.ready
  {
    RunsKeepInv(trace);
  }

  /** Some instance gets claimed to be freed twice exactly if some waiting closer claims what is no longer cached. */
  lemma ClaimedTwiceIffStray(trace: seq<Event>)
    requires Exec(trace).Some?
    ensures ClaimedTwice(Exec(trace).value.claimed) <==> Exec(trace).value.stray
  {
    RunsKeepInv(trace);
    var s := Exec(trace).value;
    if !s.stray {
      forall i ensures s.claimed[i] < 2 {
        assert i in s.claimed ==> i < |s.names|;
      }
    }
  }

  ghost predicate FreedTwice(freed: multiset<nat>) {
    exists i :: freed[i] >= 2
  }

  /**
   Once every goroutine that claimed an instance has freed it, some instance has been freed twice exactly
   if some waiting closer claimed an instance that was no longer cached.
   */
  lemma FreedTwiceIffStray(trace: seq<Event>)
    requires Exec(trace).Some?
    requires forall p :: p in Exec(trace).value.tasks ==> !Exec(trace).value.tasks[p].Freeing?
    ensures FreedTwice(Exec(trace).value.freed) <==> Exec(trace).value.stray
  {
    RunsKeepInv(trace);
    ClaimedTwiceIffStray(trace);
    var s := Exec(trace).value;
    forall i: nat ensures s.freed[i] == s.claimed[i] {
      assert !AboutToFree(s.tasks, i);
    }
    if ClaimedTwice(s.claimed) {
      var i :| s.claimed[i] >= 2;
      assert s.freed[i] >= 2;
    }
  }

  /** Until a closer claims what is no longer cached, nothing is freed twice, at any moment of the run. */
  lemma FreedOnceUnlessStray(trace: seq<Event>, i: nat)
    requires Exec(trace).Some? && !Exec(trace).value.stray
    ensures Exec(trace).value.freed[i] <= 1
  {
    RunsKeepInv(trace);
    ClaimedTwiceIffStray(trace);
    var s := Exec(trace).value;
    assert s.claimed[i] < 2 && s.claimed[i] >= s.freed[i];
  }

  /** Until then, too, whatever a caller holds is in the cache. */
  lemma HeldIsCachedUnlessStray(trace: seq<Event>, i: nat)
    requires Exec(trace).Some? && !Exec(trace).value.stray && i in Exec(trace).value.held
    ensures Cached(Exec(trace).value.cache, Exec(trace).value.names, i)
  {
    RunsKeepInv(trace);
    assert i !in Exec(trace).value.claimed;
  }

  /** Instance j leaves the cache with this event. */
  ghost predicate Drops(s: State, e: Event, j: nat)
    requires Enabled(s, e)
  {
    Cached(s.cache, s.names, j) && !Cached(Next(s, e).cache, Next(s, e).names, j)
  }

  /**
   The claim of a waiting closer takes another instance out of the cache exactly if the cache holds
   another one under the name, and takes out one that a caller holds exactly if that one is held.
   */
  lemma CloserDropsAnother(trace: seq<Event>, p: nat)
    requires Exec(trace).Some? && Enabled(Exec(trace).value, CloseClaim(p))
    ensures var s := Exec(trace).value;
            var i := s.tasks[p].inst;
            var other := s.names[i] in s.cache && s.cache[s.names[i]] != i;
            && ((exists j :: j != i && Drops(s, CloseClaim(p), j)) <==> other)
            && ((exists j :: j in s.held && Drops(s, CloseClaim(p), j)) <==> other && s.cache[s.names[i]] in s.held)
  {
    RunsKeepInv(trace);
    ClaimDropsOne(Exec(trace).value, p);
  }

  lemma ClaimDropsOne(s: State, p: nat)
    requires CacheOk(s.cache, s.names) && CountsOk(s.names, s.refCount, s.held) && Enabled(s, CloseClaim(p))
    ensures var i := s.tasks[p].inst;
            var other := s.names[i] in s.cache && s.cache[s.names[i]] != i;
            && ((exists j :: j != i && Drops(s, CloseClaim(p), j)) <==> other)
            && ((exists j :: j in s.held && Drops(s, CloseClaim(p), j)) <==> other && s.cache[s.names[i]] in s.held)
  {
    var i := s.tasks[p].inst;
    assert i !in s.held;
    forall j: nat ensures Drops(s, CloseClaim(p), j) <==> s.names[i] in s.cache && s.cache[s.names[i]] == j {
      RemovedFromCache(s.cache, s.names, s.names[i], j);
    }
    if s.names[i] in s.cache {
      assert Drops(s, CloseClaim(p), s.cache[s.names[i]]);
    }
  }

  lemma RemovedFromCache(cache: map<string, nat>, names: seq<string>, name: string, j: nat)
    requires CacheOk(cache, names)
    ensures Cached(cache, names, j) && !Cached(cache - {name}, names, j) <==> name in cache && cache[name] == j
  {
  }

  ghost predicate Reachable(s: State) {
    exists trace :: Exec(trace) == Some(s)
  }

  lemma StepIsReachable(s: State, e: Event)
    requires Reachable(s) && Enabled(s, e)
    ensures Reachable(Next(s, e))
  {
    var trace :| Exec(trace) == Some(s);
    var more := trace + [e];
    assert more[..|more| - 1] == trace;
    assert Exec(more) == Some(Next(s, e));
  }

  /** Goroutines p and q both wait for instance i, which nobody references and whose name nobody owns. */
  ghost predicate BothWait(s: State, p: nat, q: nat, i: nat) {
    && p != q && p in s.tasks && q in s.tasks && s.tasks[p] == s.tasks[q] == Waiting(i)
    && Exists(s, i) && s.refCount[i] == 0 && s.names[i] !in s.ready
  }

  /** The first closer frees the instance and gives the name back, which leaves the second waiting. */
  lemma FirstCloserFrees(s: State, p: nat, q: nat, i: nat) returns (s': State)
    requires Reachable(s) && BothWait(s, p, q, i)
    ensures Reachable(s') && s'.freed[i] == s.freed[i] + 1 && s'.names == s.names && s'.refCount == s.refCount
    ensures q in s'.tasks && s'.tasks[q] == Waiting(i) && p !in s'.tasks
    ensures s.names[i] !in s'.ready && s.names[i] !in s'.cache
  {
    StepIsReachable(s, CloseClaim(p));
    s' := Next(s, CloseClaim(p));
    StepIsReachable(s', Free(p));
    s' := Next(s', Free(p));
    StepIsReachable(s', FreeDone(p));
    s' := Next(s', FreeDone(p));
  }

  /** Another caller loads the name again. */
  lemma NextCallerLoads(s: State, p: nat, name: string) returns (s': State)
    requires Reachable(s) && p !in s.tasks && name !in s.ready && name !in s.cache && |s.refCount| == |s.names|
    ensures Reachable(s') && s'.freed == s.freed && s'.names == s.names + [name] && s'.refCount == s.refCount + [1]
    ensures |s.names| in s'.held && name !in s'.ready && s'.tasks == s.tasks
    ensures s'.cache == s.cache[name := |s.names|] && s'.held == s.held + multiset{|s.names|}
  {
    StepIsReachable(s, Claim(p, name));
    s' := Next(s, Claim(p, name));
    StepIsReachable(s', LoadDone(p));
    s' := Next(s', LoadDone(p));
    assert s.tasks[p := Loading(name)] - {p} == s.tasks;
  }

  /**
   Whenever two closers wait for an instance, a run exists in which both free it, and in which the
   second one drops from the cache a newer instance that a caller holds.
   */
  lemma TwoClosersFreeTwice(s: State, p: nat, q: nat, i: nat) returns (s': State)
    requires Reachable(s) && BothWait(s, p, q, i) && |s.refCount| == |s.names|
    ensures Reachable(s') && s'.freed[i] == s.freed[i] + 2
    ensures |s.names| in s'.held && s'.names == s.names + [s.names[i]] && s.names[i] !in s'.cache
  {
    var s1 := FirstCloserFrees(s, p, q, i);
    var s2 := NextCallerLoads(s1, p, s.names[i]);
    StepIsReachable(s2, CloseClaim(q));
    var s3 := Next(s2, CloseClaim(q));
    StepIsReachable(s3, Free(q));
    s' := Next(s3, Free(q));
  }

  /** A goroutine waits for an idle instance that is still cached, and q is free to collect. */
  ghost predicate WaitsForCached(s: State, p: nat, q: nat, i: nat) {
    && p in s.tasks && q !in s.tasks && s.tasks[p] == Waiting(i)
    && Exists(s, i) && Cached(s.cache, s.names, i) && s.refCount[i] == 0 && s.names[i] !in s.ready
  }

  /** The collector and one waiting closer fail in the same way: both free the instance. */
  lemma CollectorAndCloserFreeTwice(s: State, p: nat, q: nat, i: nat) returns (s': State)
    requires Reachable(s) && WaitsForCached(s, p, q, i)
    ensures Reachable(s') && s'.freed[i] == s.freed[i] + 2
  {
    StepIsReachable(s, CollectClaim(q, s.names[i]));
    s' := Next(s, CollectClaim(q, s.names[i]));
    StepIsReachable(s', Free(q));
    s' := Next(s', Free(q));
    StepIsReachable(s', FreeDone(q));
    s' := Next(s', FreeDone(q));
    StepIsReachable(s', CloseClaim(p));
    s' := Next(s', CloseClaim(p));
    StepIsReachable(s', Free(p));
    s' := Next(s', Free(p));
  }

  /** A closer does come to wait for a cached instance. */
  lemma CloserWaits() returns (s: State)
    ensures Reachable(s) && WaitsForCached(s, 1, 2, 0)
  {
    assert Exec([]) == Some(INIT);
    var s1 := NextCallerLoads(INIT, 0, "v");
    StepIsReachable(s1, CloseAndWait(1, 0));
    s := Next(s1, CloseAndWait(1, 0));
  }

  /** Two closers do come to wait for the same instance. */
  lemma TwoClosersMeet() returns (s: State)
    ensures Reachable(s) && BothWait(s, 1, 2, 0) && |s.refCount| == |s.names|
  {
    assert Exec([]) == Some(INIT);
    var s2 := NextCallerLoads(INIT, 0, "v");
    StepIsReachable(s2, Hit("v"));
    var s3 := Next(s2, Hit("v"));
    StepIsReachable(s3, CloseAndWait(1, 0));
    var s4 := Next(s3, CloseAndWait(1, 0));
    StepIsReachable(s4, CloseAndWait(2, 0));
    s := Next(s4, CloseAndWait(2, 0));
  }
}
