/**
 The manager object and the index objects it caches. Each method is one section under the manager's
 lock; together with Free between two of them they take exactly the steps of the machine in
 VecManager, with `insts` numbering the index objects in the order they were loaded.
 */
module VecManagerObject {
  import opened Wrappers
  import opened VecManager

  class VectorIndex {
    const name: string
    var refCount: int

    constructor (name: string)
      ensures this.name == name && refCount == 1
    {
      this.name := name;
      refCount := 1;
    }
  }

  class VecIndexManager {
    var cache: map<string, VectorIndex>
    var ready: set<string>
    ghost var insts: seq<VectorIndex>
    ghost var state: State

    /** The objects are the numbered instances of the machine's state. */
    ghost predicate Numbered()
      reads this, insts
    {
      && |insts| == |state.names| == |state.refCount|
      && (forall i :: 0 <= i < |insts| ==> insts[i].name == state.names[i] && insts[i].refCount == state.refCount[i])
      && (forall i, j :: 0 <= i < j < |insts| ==> insts[i] != insts[j])
    }

    ghost predicate Mirrors()
      reads this
    {
      && ready == state.ready
      && cache.Keys == state.cache.Keys
      && forall name :: name in cache ==> state.cache[name] < |insts| && cache[name] == insts[state.cache[name]]
    }

    ghost predicate Valid()
      reads this, insts
    {
      Reachable(state) && Numbered() && Mirrors()
    }

    constructor ()
      ensures Valid() && state == INIT && cache == map[]
    {
      cache, ready, insts, state := map[], {}, [], INIT;
      new;
      assert Exec([]) == Some(INIT);
    }

    /** The first section of GetVectorIndex: a cached instance, a claim to load it, or a wait. */
    method TryGet(name: string, ghost p: nat) returns (index: Option<VectorIndex>, claimed: bool)
      requires Valid() && p !in state.tasks
      modifies this, insts
      ensures Valid() && insts == old(insts)
      ensures name in old(cache) ==>
                index == Some(old(cache)[name]) && !claimed && state == Next(old(state), Hit(name)) &&
                old(state).cache[name] !in state.freed
      ensures name !in old(cache) ==>
                index.None? && claimed == (name !in old(ready)) &&
                state == if claimed then Next(old(state), Claim(p, name)) else old(state)
    {
      if name in cache {
        ghost var i := state.cache[name];
        CachedIsFresh(state, name);
        StepIsReachable(state, Hit(name));
        state := Next(state, Hit(name));
        cache[name].refCount := cache[name].refCount + 1;
        return Some(cache[name]), false;
      }
      if name in ready {
        return None, false;
      }
      StepIsReachable(state, Claim(p, name));
      state := Next(state, Claim(p, name));
      ready := ready + {name};
      return None, true;
    }

    /** The last section of GetVectorIndex: publishes the instance that was loaded, if loading succeeded. */
    method FinishLoad(name: string, ok: bool, ghost p: nat) returns (index: Option<VectorIndex>)
      requires Valid() && p in state.tasks && state.tasks[p] == Loading(name)
      modifies this
      ensures Valid() && index.Some? == ok && old(insts) <= insts
      ensures ok ==> fresh(index.value) && state == Next(old(state), LoadDone(p)) && insts == old(insts) + [index.value]
      ensures !ok ==> state == Next(old(state), LoadFailed(p)) && insts == old(insts)
    {
      if ok {
        StepIsReachable(state, LoadDone(p));
        state := Next(state, LoadDone(p));
        var loaded := new VectorIndex(name);
        insts := insts + [loaded];
        cache, ready := cache[name := loaded], ready - {name};
        return Some(loaded);
      } else {
        StepIsReachable(state, LoadFailed(p));
        state := Next(state, LoadFailed(p));
        ready := ready - {name};
        return None;
      }
    }

    /** The first section of CloseVectorIndex. */
    method ReduceRef(index: VectorIndex, wait: bool, ghost i: nat, ghost p: nat)
      requires Valid() && i < |insts| && insts[i] == index && i in state.held && p !in state.tasks
      modifies this`state, index
      ensures Valid()
      ensures state == Next(old(state), if wait then CloseAndWait(p, i) else Event.Close(i))
    {
      ghost var e := if wait then CloseAndWait(p, i) else Event.Close(i);
      StepIsReachable(state, e);
      state := Next(state, e);
      index.refCount := index.refCount - 1;
    }

    /** One round of a waiting closer: it waits on, gives up, or claims the name to free the instance. */
    method TryClose(index: VectorIndex, ghost i: nat, ghost p: nat) returns (done: bool, claimed: bool)
      requires Valid() && i < |insts| && insts[i] == index && p in state.tasks && state.tasks[p] == Waiting(i)
      modifies this
      ensures Valid() && insts == old(insts)
      ensures done == (index.refCount == 0) && claimed == (done && index.name !in old(ready))
      ensures claimed ==> state == Next(old(state), CloseClaim(p)) && index.name !in cache
      ensures done && !claimed ==> state == Next(old(state), GiveUp(p)) && cache == old(cache)
      ensures !done ==> state == old(state) && cache == old(cache)
    {
      if index.refCount != 0 {
        return false, false;
      }
      if index.name in ready {
        StepIsReachable(state, GiveUp(p));
        state := Next(state, GiveUp(p));
        return true, false;
      }
      StepIsReachable(state, CloseClaim(p));
      state := Next(state, CloseClaim(p));
      ready, cache := ready + {index.name}, cache - {index.name};
      return true, true;
    }

    /** The first section of execGC, for a cached instance that nobody has used lately. */
    method TryCollect(name: string, ghost p: nat) returns (claimed: Option<VectorIndex>)
      requires Valid() && name in cache && p !in state.tasks
      modifies this
      ensures Valid() && insts == old(insts)
      ensures claimed.Some? <==> old(cache)[name].refCount == 0
      ensures claimed.Some? ==>
                claimed.value == old(cache)[name] &&
                Enabled(old(state), CollectClaim(p, name)) && state == Next(old(state), CollectClaim(p, name))
      ensures claimed.None? ==> state == old(state) && cache == old(cache)
    {
      CachedIsFresh(state, name);
      var index := cache[name];
      if index.refCount != 0 || index.name in ready {
        return None;
      }
      StepIsReachable(state, CollectClaim(p, name));
      state := Next(state, CollectClaim(p, name));
      ready, cache := ready + {name}, cache - {name};
      return Some(index);
    }

    /** Frees the memory of an index between the two sections; the index is then idle and not cached. */
    method Free(index: VectorIndex, ghost i: nat, ghost p: nat)
      requires Valid() && i < |insts| && insts[i] == index && p in state.tasks &&
               state.tasks[p] == Freeing(index.name, i)
      modifies this`state
      ensures Valid() && state == Next(old(state), Event.Free(p))
      ensures index.refCount == 0 && forall name :: name in cache ==> cache[name] != index
    {
      ClaimedIsIdle(state, p);
      StepIsReachable(state, Event.Free(p));
      state := Next(state, Event.Free(p));
    }

    /** The last section of a closer or the collector, after it has freed the instance it claimed. */
    method FinishFree(name: string, ghost p: nat)
      requires Valid() && p in state.tasks && state.tasks[p].Freed? && state.tasks[p].name == name
      modifies this
      ensures Valid() && insts == old(insts) && cache == old(cache) && ready == old(ready) - {name}
      ensures state == Next(old(state), FreeDone(p))
    {
      StepIsReachable(state, FreeDone(p));
      state := Next(state, FreeDone(p));
      ready := ready - {name};
    }
  }

  lemma ClaimedIsIdle(s: State, p: nat)
    requires Reachable(s) && Enabled(s, Event.Free(p))
    ensures s.tasks[p].inst < |s.refCount| && s.refCount[s.tasks[p].inst] == 0
    ensures forall name :: name in s.cache ==> s.cache[name] != s.tasks[p].inst
  {
    var trace :| Exec(trace) == Some(s);
    FreedOnlyWhenIdle(trace, p);
  }

  /** What is cached under a name carries it, has not been freed, and nobody owns the name. */
  lemma CachedIsFresh(s: State, name: string)
    requires Reachable(s) && name in s.cache
    ensures s.cache[name] < |s.names| && s.names[s.cache[name]] == name && s.cache[name] !in s.freed && name !in s.ready
  {
    var trace :| Exec(trace) == Some(s);
    RunsKeepInv(trace);
    if s.cache[name] in s.freed {
      NoUseAfterFree(trace, s.cache[name]);
    }
  }
}
