/**
 The manager object: each method is one section under its mutex and takes exactly one step of the
 machine in IndexManager. The retry loops of the source call TryClaim again once they are woken.
 */
module IndexManagerObject {
  import opened Wrappers
  import opened IndexManager

  ghost predicate Reachable(s: State) {
    exists trace :: Exec(trace) == Some(s)
  }

  lemma StepIsReachable(s: State, e: Event)
    requires Reachable(s) && Enabled(s, e)
    ensures Reachable(Next(s, e))
  {
    var trace :| Exec(trace) == Some(s);
    var more := trace + [e];
    assert more[..|more| - 1] == trace;
    assert Exec(more) == Some(Next(s, e));
  }

  /** The channel an owner closes is open and under its name; what it leaves cached is up to date. */
  lemma FinishFacts(s: State, p: nat)
    requires Reachable(s) && Enabled(s, Event.Finish(p))
    ensures var t := s.tasks[p];
            && t.chan !in s.closed && t.name in s.ready
            && (t.name in Next(s, Event.Finish(p)).cache ==>
                  UpToDate(s.stored, s.known, t.name, Next(s, Event.Finish(p)).cache[t.name]))
  {
    var trace :| Exec(trace) == Some(s);
    RunsKeepInv(trace);
    assert Owns(s.tasks[p], s.tasks[p].name, s.tasks[p].chan);
    NextKeepsInv(s, Event.Finish(p));
  }

  /** What a goroutine gets from its attempt to enter a section. */
  datatype Entry = Cached(inst: nat) | MustWait(chan: nat) | Entered(chan: nat)

  class Manager {
    var cache: map<string, nat>
    var ready: map<string, nat>
    var chans: nat
    var closed: set<nat>
    ghost var state: State

    ghost predicate Valid()
      reads this
    {
      && Reachable(state)
      && cache == state.cache && ready == state.ready && chans == state.chans && closed == state.closed
    }

    constructor ()
      ensures Valid() && state == INIT
    {
      cache, ready, chans, closed, state := map[], map[], 0, {}, INIT;
      new;
      assert Exec([]) == Some(INIT);
    }

    /** The first section of every operation; only Get and GetOrCreate are served from the cache. */
    method TryClaim(name: string, op: Op, ghost p: nat) returns (r: Entry)
      requires Valid() && p !in state.tasks && (op.Store? ==> Belongs(state.known, op.inst, name))
      modifies this
      ensures Valid()
      ensures r.Cached? <==> (op.Get? || op.GetOrCreate?) && name in old(cache)
      ensures r.Cached? ==> r.inst == old(cache)[name] && state == old(state)
      ensures r.MustWait? ==>
                name in old(ready) && r.chan == old(ready)[name] && state == Next(old(state), Wait(p, name))
      ensures r.Entered? ==> Enabled(old(state), Claim(p, name, op)) && state == Next(old(state), Claim(p, name, op))
    {
      if Loads(op) && name in cache {
        return Cached(cache[name]);
      }
      if name in ready {
        StepIsReachable(state, Wait(p, name));
        state := Next(state, Wait(p, name));
        return MustWait(ready[name]);
      }
      var chan := Enter(name, op, p);
      return Entered(chan);
    }

    method Enter(name: string, op: Op, ghost p: nat) returns (chan: nat)
      requires Valid() && Enabled(state, Claim(p, name, op))
      modifies this
      ensures Valid() && state == Next(old(state), Claim(p, name, op)) && name in ready && ready[name] == chan
    {
      StepIsReachable(state, Claim(p, name, op));
      state := Next(state, Claim(p, name, op));
      chan := chans;
      ready, chans := ready[name := chan], chan + 1;
    }

    /**
     The last section: closes the channel, which is open, drops the claim and settles the cache. What was loaded
     is cached, an object that was stored stays cached if it was, and a failure leaves the cache alone.
     */
    method Finish(name: string, chan: nat, op: Op, outcome: Outcome, ghost p: nat)
      requires Valid() && p in state.tasks && state.tasks[p] == Owner(name, chan, op, outcome) && !outcome.Working?
      modifies this
      ensures Valid() && state == Next(old(state), Event.Finish(p))
      ensures chan !in old(closed) && chan in closed && name in old(ready) && name !in ready
      ensures name in cache ==> UpToDate(state.stored, state.known, name, cache[name])
      ensures outcome.Done? && (op.Get? || op.GetOrCreate?) ==> name in cache && cache[name] == outcome.inst
      ensures outcome.Done? && op.Store? ==>
                (name in cache <==> name in old(cache) && old(cache)[name] == op.inst) &&
                (name in cache ==> cache[name] == op.inst)
      ensures outcome.Done? && op.Delete? ==> name !in cache
      ensures outcome.Failed? ==> cache == old(cache)
      ensures cache - {name} == old(cache) - {name} && ready == old(ready) - {name}
    {
      FinishFacts(state, p);
      StepIsReachable(state, Event.Finish(p));
      state := Next(state, Event.Finish(p));
      closed := closed + {chan};
      ready := ready - {name};
      if outcome.Done? {
        match op
        case Get => cache := cache[name := outcome.inst];
        case GetOrCreate => cache := cache[name := outcome.inst];
        case Store(inst) =>
          if name in cache && cache[name] != inst {
            cache := cache - {name};
          }
        case Delete => cache := cache - {name};
      }
    }

    method DropCache(name: string) returns (dropped: Option<nat>)
      requires Valid()
      modifies this
      ensures Valid() && state == Next(old(state), Event.DropCache(name))
      ensures dropped == if name in old(cache) then Some(old(cache)[name]) else None
      ensures cache == old(cache) - {name} && ready == old(ready)
    {
      StepIsReachable(state, Event.DropCache(name));
      state := Next(state, Event.DropCache(name));
      dropped := if name in cache then Some(cache[name]) else None;
      cache := cache - {name};
    }
  }
}
