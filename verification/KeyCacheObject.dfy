/**
 The cache object: a map from prefix to item objects, changed in place. Each method is one critical
 section of List or Invalidate and takes exactly the step of the machine in KeyCache; `objs` numbers
 the item objects in the order they were made. Fetching a listing and mutating the store happen
 outside the mutex and are steps of the environment.
 */
module KeyCacheObject {
  import opened Wrappers
  import opened KeyCache

  ghost predicate Reachable(s: State) {
    exists contents, trace :: Exec(contents, trace) == Some(s)
  }

  lemma StepIsReachable(s: State, e: Event)
    requires Reachable(s) && Enabled(s, e)
    ensures Reachable(Next(s, e))
  {
    var contents, trace :| Exec(contents, trace) == Some(s);
    var more := trace + [e];
    assert more[..|more| - 1] == trace;
    assert Exec(contents, more) == Some(Next(s, e));
  }

  /** Marked on account of a prefix that is not left to do. */
  ghost predicate MarkedOutside(s: State, keys: set<Key>, i: nat, todo: set<Key>) {
    exists p :: p in s.items && p !in todo && s.items[p] == i && Matches(keys, p) && !Hit(s, p)
  }

  lemma OneLessToDo(s: State, keys: set<Key>, i: nat, todo: set<Key>, p: Key)
    requires p in todo && p in s.items
    ensures MarkedOutside(s, keys, i, todo - {p}) <==>
            MarkedOutside(s, keys, i, todo) || (s.items[p] == i && Matches(keys, p) && !Hit(s, p))
  {
    if MarkedOutside(s, keys, i, todo) {
      var q :| q in s.items && q !in todo && s.items[q] == i && Matches(keys, q) && !Hit(s, q);
      assert q !in todo - {p};
    }
    if s.items[p] == i && Matches(keys, p) && !Hit(s, p) {
      assert p !in todo - {p};
    }
  }

  /** An item once the prefixes outside `todo` have been visited. */
  ghost function WithMark(s: State, keys: set<Key>, i: nat, todo: set<Key>): Item
    requires i in s.heap
  {
    s.heap[i].(invalid := s.heap[i].invalid || MarkedOutside(s, keys, i, todo))
  }

  class CacheItem {
    var ready: bool
    var invalid: bool
    var keys: set<Key>

    constructor ()
      ensures !ready && !invalid && keys == {}
    {
      ready, invalid, keys := false, false, {};
    }

    /** The fields are those of the machine's item. */
    ghost predicate Is(item: Item)
      reads this
    {
      ready == item.ready && invalid == item.invalid && keys == item.keys
    }
  }

  /** The item objects have the numbers of the machine's heap. */
  ghost predicate Counted(objs: seq<CacheItem>, heap: map<nat, Item>, nextItem: nat) {
    && nextItem == |objs|
    && (forall i: nat :: i in heap <==> i < |objs|)
    && (forall i, j :: 0 <= i < j < |objs| ==> objs[i] != objs[j])
  }

  /** The two maps lead to the same items, and no item serves two prefixes. */
  ghost predicate SameItems(items: map<Key, CacheItem>, objs: seq<CacheItem>, numbers: map<Key, nat>) {
    && (forall p :: p in items <==> p in numbers)
    && (forall p :: p in items ==> numbers[p] < |objs| && items[p] == objs[numbers[p]])
    && (forall p, q :: p in numbers && q in numbers && numbers[p] == numbers[q] ==> p == q)
  }

  lemma SameItemsMore(items: map<Key, CacheItem>, objs: seq<CacheItem>, numbers: map<Key, nat>, prefix: Key,
                      item: CacheItem)
    requires SameItems(items, objs, numbers)
    ensures SameItems(items[prefix := item], objs + [item], numbers[prefix := |objs|])
  {
  }

  lemma SameItemsLess(items: map<Key, CacheItem>, items': map<Key, CacheItem>, objs: seq<CacheItem>,
                      numbers: map<Key, nat>, numbers': map<Key, nat>)
    requires SameItems(items, objs, numbers)
    requires forall p :: p in items' <==> p in numbers'
    requires forall p :: p in items' ==> p in items && items'[p] == items[p]
    requires forall p :: p in numbers' ==> p in numbers && numbers'[p] == numbers[p]
    ensures SameItems(items', objs, numbers')
  {
  }

  /** What is left of the items once the prefixes outside `todo` have been visited. */
  ghost predicate Left(items: map<Key, CacheItem>, all: map<Key, CacheItem>, s: State, keys: set<Key>, todo: set<Key>) {
    && (forall p :: p in items <==> p in all && !(p !in todo && Hit(s, p) && Matches(keys, p)))
    && (forall p :: p in items ==> items[p] == all[p])
  }

  lemma LeftOneMore(items: map<Key, CacheItem>, all: map<Key, CacheItem>, s: State, keys: set<Key>, todo: set<Key>,
                    p: Key)
    requires Left(items, all, s, keys, todo) && p in todo
    ensures Left(if Hit(s, p) && Matches(keys, p) then items - {p} else items, all, s, keys, todo - {p})
  {
  }

  /** The items and marks after the loop are those of the machine's step. */
  lemma InvalidatedState(all: map<Key, CacheItem>, items: map<Key, CacheItem>, objs: seq<CacheItem>, s: State, op: nat)
    requires op in s.mutations && s.mutations[op].phase.Running?
    requires SameItems(all, objs, s.items) && Left(items, all, s, s.mutations[op].keys, {})
    ensures var s' := Next(s, Event.Invalidate(op));
            && SameItems(items, objs, s'.items)
            && forall i :: i in s.heap ==> i in s'.heap && s'.heap[i] == WithMark(s, s.mutations[op].keys, i, {})
  {
    var s', keys := Next(s, Event.Invalidate(op)), s.mutations[op].keys;
    SameItemsLess(all, items, objs, s.items, s'.items);
    forall i | i in s.heap ensures MarkedOutside(s, keys, i, {}) <==> Marked(s, keys, i) {
      if Marked(s, keys, i) {
        var p :| p in s.items && s.items[p] == i && Matches(keys, p) && !Hit(s, p);
        assert p !in {};
      }
    }
  }

  /** The step that ends a List changes no item but its own, and that one only if it is still the one listed. */
  lemma FinishedHeap(items: map<Key, CacheItem>, objs: seq<CacheItem>, s: State, t: nat, n: nat)
    requires Counted(objs, s.heap, s.nextItem) && SameItems(items, objs, s.items) && Enabled(s, Finish(t))
    requires n == s.listers[t].item < |objs|
    ensures var s' := Next(s, Finish(t));
            && Counted(objs, s'.heap, s'.nextItem) && SameItems(items, objs, s'.items)
            && (forall i :: i in s.heap && i != n ==> s'.heap[i] == s.heap[i])
    ensures var l := s.listers[t];
            Next(s, Finish(t)).heap[n] ==
            if l.prefix in items && items[l.prefix] == objs[n] && !s.heap[n].invalid
            then s.heap[n].(ready := true, keys := l.fetched.value.0, at := l.fetched.value.1)
            else s.heap[n]
  {
  }

  /** The step that begins a List on a miss adds one item and changes no other. */
  lemma MissedHeap(objs: seq<CacheItem>, s: State, t: nat, prefix: Key, item: CacheItem)
    requires Counted(objs, s.heap, s.nextItem) && Enabled(s, ListMiss(t, prefix)) && item !in objs
    ensures var s' := Next(s, ListMiss(t, prefix));
            && Counted(objs + [item], s'.heap, s'.nextItem) && s'.items == s.items[prefix := |objs|]
            && (forall i: nat :: i < |objs| ==> s'.heap[i] == s.heap[i])
            && !s'.heap[|objs|].ready && !s'.heap[|objs|].invalid && s'.heap[|objs|].keys == {}
  {
  }

  class ObjectKeyCache {
    var items: map<Key, CacheItem>
    ghost var objs: seq<CacheItem>
    ghost var state: State

    ghost predicate Mirrors()
      reads this, objs
    {
      && Counted(objs, state.heap, state.nextItem) && SameItems(items, objs, state.items)
      && forall i: nat :: i < |objs| ==> objs[i].Is(state.heap[i])
    }

    ghost predicate Valid()
      reads this, objs
    {
      Reachable(state) && Mirrors()
    }

    constructor (ghost contents: set<Key>)
      ensures Valid() && items == map[] && state == Init(contents)
    {
      items, objs, state := map[], [], Init(contents);
      new;
      assert Exec(contents, []) == Some(Init(contents));
    }

    /** Listings and mutations of the store, and the beginning and return of a mutation. */
    ghost method Environment(e: Event)
      requires Valid() && Enabled(state, e) && (e.Fetch? || e.FetchError? || e.Begin? || e.Effect? || e.Return?)
      modifies `state
      ensures Valid() && state == Next(old(state), e)
    {
      StepIsReachable(state, e);
      state := Next(state, e);
    }

    /** First section of List: the cached keys, or a new item that replaces whatever was there. */
    method BeginList(prefix: Key, ghost t: nat) returns (keys: Option<set<Key>>, item: CacheItem)
      requires Valid() && t !in state.listers
      modifies `items, `objs, `state
      ensures Valid() && old(objs) <= objs
      ensures keys.Some? <==> Hit(old(state), prefix)
      ensures keys.Some? ==>
                && state == Next(old(state), ListHit(prefix)) && objs == old(objs)
                && state.answers[|state.answers| - 1].keys == keys.value
      ensures keys.None? ==>
                && state == Next(old(state), ListMiss(t, prefix))
                && fresh(item) && state.listers[t].item == |old(objs)| && objs == old(objs) + [item]
    {
      if prefix in items && items[prefix].ready {
        StepIsReachable(state, ListHit(prefix));
        state := Next(state, ListHit(prefix));
        return Some(items[prefix].keys), items[prefix];
      }
      item := Install(prefix, t);
      keys := None;
    }

    method Install(prefix: Key, ghost t: nat) returns (item: CacheItem)
      requires Valid() && t !in state.listers && !Hit(state, prefix)
      modifies `items, `objs, `state
      ensures Valid() && state == Next(old(state), ListMiss(t, prefix)) && fresh(item) && objs == old(objs) + [item]
    {
      StepIsReachable(state, ListMiss(t, prefix));
      item := MakeItem(prefix, t);
    }

    method MakeItem(prefix: Key, ghost t: nat) returns (item: CacheItem)
      requires Mirrors() && t !in state.listers && !Hit(state, prefix)
      modifies `items, `objs, `state
      ensures Mirrors()
      ensures state == Next(old(state), ListMiss(t, prefix)) && fresh(item) && objs == old(objs) + [item]
    {
      item := new CacheItem();
      MissedHeap(objs, state, t, prefix, item);
      SameItemsMore(items, objs, state.items, prefix, item);
      state := Next(state, ListMiss(t, prefix));
      objs := objs + [item];
      items := items[prefix := item];
    }

    /**
     Second section of List: the keys are published only on the very item that the call made, if it was not
     marked.
     */
    method EndList(prefix: Key, item: CacheItem, keys: set<Key>, ghost t: nat)
      requires Valid() && t in state.listers && state.listers[t].prefix == prefix
      requires state.listers[t].item < |objs| && objs[state.listers[t].item] == item
      requires state.listers[t].fetched.Some? && state.listers[t].fetched.value.0 == keys
      modifies `state, item
      ensures Valid() && state == Next(old(state), Finish(t)) && objs == old(objs)
    {
      StepIsReachable(state, Finish(t));
      PublishItem(prefix, item, keys, t);
    }

    method PublishItem(prefix: Key, item: CacheItem, keys: set<Key>, ghost t: nat)
      requires Mirrors() && t in state.listers && state.listers[t].prefix == prefix
      requires state.listers[t].item < |objs| && objs[state.listers[t].item] == item
      requires state.listers[t].fetched.Some? && state.listers[t].fetched.value.0 == keys
      modifies `state, item
      ensures Mirrors() && state == Next(old(state), Finish(t)) && objs == old(objs)
    {
      ghost var n := state.listers[t].item;
      FinishedHeap(items, objs, state, t, n);
      if prefix in items && items[prefix] == item && !item.invalid {
        item.ready := true;
        item.keys := keys;
      }
      state := Next(state, Finish(t));
      forall i: nat | i < |objs| ensures objs[i].Is(state.heap[i]) {
        if i != n { assert objs[i] != item; }
      }
    }

    /** Drops every ready item that matches and marks every matching item still being fetched. */
    method Invalidate(keys: set<Key>, ghost op: nat)
      requires Valid() && op in state.mutations && state.mutations[op].phase.Running? &&
               state.mutations[op].keys == keys
      modifies `items, `state, objs`invalid
      ensures Valid() && state == Next(old(state), Event.Invalidate(op)) && objs == old(objs)
    {
      StepIsReachable(state, Event.Invalidate(op));
      DropMatching(keys);
      InvalidatedState(old(items), items, objs, state, op);
      state := Next(state, Event.Invalidate(op));
    }

    /** The loop of Invalidate, over the items in any order. */
    method DropMatching(keys: set<Key>)
      requires Mirrors()
      modifies `items, objs`invalid
      ensures Left(items, old(items), state, keys, {}) && Flagged(keys, {})
    {
      var all := items;
      var todo := items.Keys;
      while todo != {}
        invariant todo <= all.Keys && Visiting(all, keys, todo)
        decreases todo
      {
        var p :| p in todo;
        Visit(all, keys, todo, p);
        todo := todo - {p};
      }
    }

    /** The prefixes outside `todo` have been visited. */
    ghost predicate Visiting(all: map<Key, CacheItem>, keys: set<Key>, todo: set<Key>)
      reads this, objs
    {
      && Counted(objs, state.heap, state.nextItem) && SameItems(all, objs, state.items)
      && Left(items, all, state, keys, todo) && Flagged(keys, todo)
    }

    method Visit(all: map<Key, CacheItem>, keys: set<Key>, ghost todo: set<Key>, p: Key)
      requires p in all && p in todo && Visiting(all, keys, todo)
      modifies `items, objs`invalid
      ensures Visiting(all, keys, todo - {p})
    {
      LeftOneMore(items, all, state, keys, todo, p);
      assert all[p].Is(WithMark(state, keys, state.items[p], todo));
      if Matches(keys, p) && all[p].ready {
        SameMarks(keys, todo, p);
        items := items - {p};
      } else {
        Mark(all[p], keys, todo, p);
      }
    }

    /** The flags of every item once the prefixes outside `todo` have been visited. */
    ghost predicate Flagged(keys: set<Key>, todo: set<Key>)
      reads this, objs
    {
      forall i: nat :: i < |objs| ==> i in state.heap && objs[i].Is(WithMark(state, keys, i, todo))
    }

    lemma SameMarks(keys: set<Key>, todo: set<Key>, p: Key)
      requires Flagged(keys, todo) && p in todo && p in state.items && (Matches(keys, p) ==> Hit(state, p))
      ensures Flagged(keys, todo - {p})
    {
      forall i: nat | i < |objs| ensures objs[i].Is(WithMark(state, keys, i, todo - {p})) {
        OneLessToDo(state, keys, i, todo, p);
      }
    }

    method Mark(item: CacheItem, keys: set<Key>, ghost todo: set<Key>, p: Key)
      requires Flagged(keys, todo) && Counted(objs, state.heap, state.nextItem)
      requires p in todo && p in state.items && state.items[p] < |objs| && objs[state.items[p]] == item
      requires Matches(keys, p) ==> !item.ready
      modifies item`invalid
      ensures Flagged(keys, todo - {p})
    {
      forall i: nat | i < |objs| {
        OneLessToDo(state, keys, i, todo, p);
      }
      if Matches(keys, p) {
        item.invalid := true;
      }
    }
  }
}
