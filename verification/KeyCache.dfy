/**
 The object key cache as a transition system over arbitrary interleavings of List calls with
 mutations made through the caching client. Items have an identity, because a finishing List
 publishes its keys only if the very item it created is still in the map.

 Besides the program's own state, a state records the history of the object store, which
 mutation made each change, and every answer that List has returned.
 */
module KeyCache {
  import opened Wrappers

  type Key = string

  /** `at` is the number of the store version that the keys list. */
  datatype Item = Item(ready: bool, invalid: bool, keys: set<Key>, at: nat)

  /** A List call between its two critical sections. */
  datatype Lister = Lister(prefix: Key, item: nat, settled: set<nat>, fetched: Option<(set<Key>, nat)>)

  datatype Phase = Running | Invalidated | Returned

  /** A Write, Remove or Copy; `last` is the version of its latest effect, 0 if it had none. */
  datatype Mutation = Mutation(keys: set<Key>, last: nat, phase: Phase)

  /** What a List returned, and which mutations had returned before it started. */
  datatype Answer = Answer(prefix: Key, keys: set<Key>, at: nat, settled: set<nat>)

  datatype State = State(
    items: map<Key, nat>,
    heap: map<nat, Item>,
    nextItem: nat,
    listers: map<nat, Lister>,
    mutations: map<nat, Mutation>,
    history: seq<set<Key>>,
    changedBy: seq<nat>,
    answers: seq<Answer>)

  datatype Event =
    | ListHit(prefix: Key)
    | ListMiss(thread: nat, prefix: Key)
    | Fetch(thread: nat)
    | FetchError(thread: nat)
    | Finish(thread: nat)
    | Begin(op: nat, keys: set<Key>)
    | Effect(op: nat, contents: set<Key>)
    | Invalidate(op: nat)
    | Return(op: nat)

  predicate HasPrefix(key: Key, prefix: Key) {
    prefix <= key
  }

  predicate Matches(keys: set<Key>, prefix: Key) {
    exists key :: key in keys && HasPrefix(key, prefix)
  }

  function Listing(prefix: Key, contents: set<Key>): set<Key> {
    set key | key in contents && HasPrefix(key, prefix)
  }

  function Settled(s: State): set<nat> {
    set op | op in s.mutations && s.mutations[op].phase.Returned?
  }

  predicate Hit(s: State, prefix: Key) {
    prefix in s.items && s.items[prefix] in s.heap && s.heap[s.items[prefix]].ready
  }

  function Init(contents: set<Key>): State {
    State(map[], map[], 0, map[], map[], [contents], [], [])
  }

  /** An operation changes only the keys it names, in any way: it may fail, or be applied in part. */
  predicate Enabled(s: State, e: Event) {
    match e
    case ListHit(prefix) => Hit(s, prefix)
    case ListMiss(t, prefix) => t !in s.listers && !Hit(s, prefix)
    case Fetch(t) => t in s.listers && s.listers[t].fetched.None? && |s.history| > 0
    case FetchError(t) => t in s.listers && s.listers[t].fetched.None?
    case Finish(t) => t in s.listers && s.listers[t].fetched.Some?
    case Begin(op, _) => op !in s.mutations
    case Effect(op, contents) =>
      && op in s.mutations && s.mutations[op].phase.Running? && |s.history| > 0
      && contents - s.mutations[op].keys == s.history[|s.history| - 1] - s.mutations[op].keys
    case Invalidate(op) => op in s.mutations && s.mutations[op].phase.Running?
    case Return(op) => op in s.mutations && s.mutations[op].phase.Invalidated?
  }

  /** The second critical section of List. */
  function Publish(s: State, l: Lister, keys: set<Key>, at: nat): map<nat, Item> {
    if l.prefix in s.items && s.items[l.prefix] == l.item && l.item in s.heap && !s.heap[l.item].invalid
    then s.heap[l.item := s.heap[l.item].(ready := true, keys := keys, at := at)]
    else s.heap
  }

  function Next(s: State, e: Event): State
    requires Enabled(s, e)
  {
    match e
    case ListHit(prefix) =>
      var item := s.heap[s.items[prefix]];
      s.(answers := s.answers + [Answer(prefix, item.keys, item.at, Settled(s))])
    case ListMiss(t, prefix) =>
      s.(items := s.items[prefix := s.nextItem],
         heap := s.heap[s.nextItem := Item(false, false, {}, 0)],
         nextItem := s.nextItem + 1,
         listers := s.listers[t := Lister(prefix, s.nextItem, Settled(s), None)])
    case Fetch(t) =>
      var l := s.listers[t];
      var now := |s.history| - 1;
      s.(listers := s.listers[t := l.(fetched := Some((Listing(l.prefix, s.history[now]), now)))])
    case FetchError(t) =>
      s.(listers := s.listers - {t})
    case Finish(t) =>
      var l := s.listers[t];
      var (keys, at) := l.fetched.value;
      s.(heap := Publish(s, l, keys, at),
         listers := s.listers - {t},
         answers := s.answers + [Answer(l.prefix, keys, at, l.settled)])
    case Begin(op, keys) =>
      s.(mutations := s.mutations[op := Mutation(keys, 0, Running)])
    case Effect(op, contents) =>
      s.(history := s.history + [contents],
         changedBy := s.changedBy + [op],
         mutations := s.mutations[op := s.mutations[op].(last := |s.history|)])
    case Invalidate(op) =>
      var keys := s.mutations[op].keys;
      s.(items := map p | p in s.items && !(Hit(s, p) && Matches(keys, p)) :: s.items[p],
         heap := map i | i in s.heap :: s.heap[i].(invalid := s.heap[i].invalid || Marked(s, keys, i)),
         mutations := s.mutations[op := s.mutations[op].(phase := Invalidated)])
    case Return(op) =>
      s.(mutations := s.mutations[op := s.mutations[op].(phase := Returned)])
  }

  /** Invalidate marks the items in the map that match and are still being fetched. */
  predicate Marked(s: State, keys: set<Key>, i: nat) {
    exists p :: p in s.items && s.items[p] == i && Matches(keys, p) && !Hit(s, p)
  }

  /** The state a trace leads to from a store with the given contents, if every event of it is enabled. */
  function Exec(contents: set<Key>, trace: seq<Event>): Option<State>
    decreases |trace|
  {
    if trace == [] then Some(Init(contents))
    else
      match Exec(contents, trace[..|trace| - 1])
      case None => None
      case Some(s) =>
        var e := trace[|trace| - 1];
        if Enabled(s, e) then Some(Next(s, e)) else None
  }

  // ----------------------------------------------------------------- invariant

  /** Only mutations that have not invalidated yet changed this prefix after version `at`. */
  ghost predicate Current(s: State, prefix: Key, at: nat) {
    && at < |s.history|
    && forall u :: at <= u < |s.changedBy| ==>
         s.changedBy[u] in s.mutations &&
         (Matches(s.mutations[s.changedBy[u]].keys, prefix) ==> s.mutations[s.changedBy[u]].phase.Running?)
  }

  /** Version u + 1 differs from version u only in keys of the mutation that made it. */
  ghost predicate HistoryOk(s: State) {
    && |s.history| == |s.changedBy| + 1
    && (forall u :: 0 <= u < |s.changedBy| ==>
          && s.changedBy[u] in s.mutations
          && u < s.mutations[s.changedBy[u]].last
          && s.history[u + 1] - s.mutations[s.changedBy[u]].keys == s.history[u] - s.mutations[s.changedBy[u]].keys)
    && (forall op :: op in s.mutations ==> s.mutations[op].last < |s.history|)
    && (forall op :: op in s.mutations && s.mutations[op].last > 0 ==> s.changedBy[s.mutations[op].last - 1] == op)
  }

  /** A published item lists some version, and is stale only through mutations yet to invalidate. */
  ghost predicate ItemsOk(s: State) {
    && (forall i :: i in s.heap ==> i < s.nextItem)
    && (forall p :: p in s.items ==> s.items[p] in s.heap)
    && (forall p, q :: p in s.items && q in s.items && s.items[p] == s.items[q] ==> p == q)
    && (forall p :: Hit(s, p) ==>
          var item := s.heap[s.items[p]];
          Current(s, p, item.at) && item.keys == Listing(p, s.history[item.at]))
  }

  /** A List in flight owns its item; what it fetched is current unless the item was marked or replaced. */
  ghost predicate ListersOk(s: State) {
    && (forall t :: t in s.listers ==>
          && s.listers[t].item in s.heap && !s.heap[s.listers[t].item].ready
          && s.listers[t].settled <= Settled(s))
    && (forall t, t' :: t in s.listers && t' in s.listers && s.listers[t].item == s.listers[t'].item ==> t == t')
    && (forall t, p :: t in s.listers && p in s.items && s.items[p] == s.listers[t].item ==> p == s.listers[t].prefix)
    && (forall t :: t in s.listers && s.listers[t].fetched.Some? ==> FetchedOk(s, s.listers[t]))
  }

  ghost predicate FetchedOk(s: State, l: Lister)
    requires l.fetched.Some?
  {
    var (keys, at) := l.fetched.value;
    && at < |s.history| && keys == Listing(l.prefix, s.history[at])
    && (forall op :: op in l.settled && op in s.mutations ==> s.mutations[op].last <= at)
    && (l.prefix in s.items && s.items[l.prefix] == l.item && l.item in s.heap && !s.heap[l.item].invalid ==>
          Current(s, l.prefix, at))
  }

  /** The promise of List: some version's listing, no older than any matching mutation settled before it began. */
  ghost predicate Fresh(s: State, a: Answer) {
    && a.at < |s.history| && a.keys == Listing(a.prefix, s.history[a.at])
    && a.settled <= Settled(s)
    && forall op :: op in a.settled && op in s.mutations && Matches(s.mutations[op].keys, a.prefix) ==>
         s.mutations[op].last <= a.at
  }

  ghost predicate Inv(s: State) {
    && HistoryOk(s) && ItemsOk(s) && ListersOk(s)
    && forall n :: 0 <= n < |s.answers| ==> Fresh(s, s.answers[n])
  }

  // --------------------------------------------------------------- preservation

  lemma HitIsFresh(s: State, prefix: Key)
    requires Inv(s) && Hit(s, prefix)
    ensures var item := s.heap[s.items[prefix]]; Fresh(s, Answer(prefix, item.keys, item.at, Settled(s)))
  {
    var item := s.heap[s.items[prefix]];
    forall op | op in Settled(s) && Matches(s.mutations[op].keys, prefix)
      ensures s.mutations[op].last <= item.at
    {
      var u := s.mutations[op].last - 1;
      if s.mutations[op].last > 0 { assert s.changedBy[u] == op; }
    }
  }

  /** Steps only extend the history, and never touch a mutation that has returned. */
  ghost predicate Grows(s: State, s': State) {
    && s.history <= s'.history
    && forall op :: op in Settled(s) ==> op in s'.mutations && s'.mutations[op] == s.mutations[op]
  }

  lemma FreshKept(s: State, s': State, a: Answer)
    requires Grows(s, s') && Fresh(s, a)
    ensures Fresh(s', a)
  {
    assert a.settled <= Settled(s');
  }

  /** The answers part of the invariant, for steps that return nothing. */
  lemma AnswersKept(s: State, s': State)
    requires Inv(s) && Grows(s, s') && s'.answers == s.answers
    ensures forall n :: 0 <= n < |s'.answers| ==> Fresh(s', s'.answers[n])
  {
    forall n | 0 <= n < |s'.answers| ensures Fresh(s', s'.answers[n]) { FreshKept(s, s', s.answers[n]); }
  }

  lemma OneMoreAnswer(s: State, s': State, a: Answer)
    requires Inv(s) && Grows(s, s') && s'.answers == s.answers + [a] && Fresh(s, a)
    ensures forall n :: 0 <= n < |s'.answers| ==> Fresh(s', s'.answers[n])
  {
    forall n | 0 <= n < |s'.answers| ensures Fresh(s', s'.answers[n]) {
      FreshKept(s, s', if n < |s.answers| then s.answers[n] else a);
    }
  }

  lemma MissKeepsInv(s: State, t: nat, prefix: Key)
    requires Inv(s) && Enabled(s, ListMiss(t, prefix))
    ensures Inv(Next(s, ListMiss(t, prefix)))
  {
    var s' := Next(s, ListMiss(t, prefix));
    assert Settled(s') == Settled(s);
    AnswersKept(s, s');
    MissItems(s, t, prefix);
    MissListers(s, t, prefix);
  }

  lemma MissItems(s: State, t: nat, prefix: Key)
    requires ItemsOk(s) && Enabled(s, ListMiss(t, prefix))
    ensures ItemsOk(Next(s, ListMiss(t, prefix)))
  {
    var s' := Next(s, ListMiss(t, prefix));
    forall p | Hit(s', p)
      ensures Hit(s, p) && s'.heap[s'.items[p]] == s.heap[s.items[p]] && Current(s', p, s.heap[s.items[p]].at)
    {
      assert p != prefix && Hit(s, p);
    }
  }

  lemma MissListers(s: State, t: nat, prefix: Key)
    requires ItemsOk(s) && ListersOk(s) && Enabled(s, ListMiss(t, prefix))
    ensures ListersOk(Next(s, ListMiss(t, prefix)))
  {
    var s' := Next(s, ListMiss(t, prefix));
    assert Settled(s') == Settled(s);
    forall t' | t' in s'.listers && s'.listers[t'].fetched.Some? ensures FetchedOk(s', s'.listers[t']) {
      assert t' in s.listers && FetchedOk(s, s.listers[t']);
    }
  }

  lemma FetchKeepsInv(s: State, t: nat)
    requires Inv(s) && Enabled(s, Fetch(t))
    ensures Inv(Next(s, Fetch(t)))
  {
    var s' := Next(s, Fetch(t));
    assert Settled(s') == Settled(s);
    AnswersKept(s, s');
    assert ItemsOk(s') by {
      forall p | Hit(s', p) ensures Hit(s, p) && Current(s', p, s.heap[s.items[p]].at) { assert Hit(s, p); }
    }
    forall t' | t' in s'.listers && s'.listers[t'].fetched.Some? ensures FetchedOk(s', s'.listers[t']) {
      if t' != t { assert FetchedOk(s, s.listers[t']); }
    }
  }

  lemma FetchErrorKeepsInv(s: State, t: nat)
    requires Inv(s) && Enabled(s, FetchError(t))
    ensures Inv(Next(s, FetchError(t)))
  {
    var s' := Next(s, FetchError(t));
    assert Settled(s') == Settled(s);
    AnswersKept(s, s');
    assert ItemsOk(s') by {
      forall p | Hit(s', p) ensures Hit(s, p) && Current(s', p, s.heap[s.items[p]].at) { assert Hit(s, p); }
    }
    forall t' | t' in s'.listers && s'.listers[t'].fetched.Some? ensures FetchedOk(s', s'.listers[t']) {
      assert FetchedOk(s, s.listers[t']);
    }
  }

  lemma FinishKeepsInv(s: State, t: nat)
    requires Inv(s) && Enabled(s, Finish(t))
    ensures Inv(Next(s, Finish(t)))
  {
    var s' := Next(s, Finish(t));
    assert Settled(s') == Settled(s);
    FinishItems(s, t);
    FinishListers(s, t);
    var l := s.listers[t];
    var a := Answer(l.prefix, l.fetched.value.0, l.fetched.value.1, l.settled);
    assert Fresh(s, a) by { assert FetchedOk(s, l); }
    OneMoreAnswer(s, s', a);
  }

  lemma FinishItems(s: State, t: nat)
    requires ItemsOk(s) && ListersOk(s) && Enabled(s, Finish(t))
    ensures ItemsOk(Next(s, Finish(t)))
  {
    var s', l := Next(s, Finish(t)), s.listers[t];
    assert FetchedOk(s, l);
    forall p | Hit(s', p)
      ensures var item := s'.heap[s'.items[p]];
              Current(s', p, item.at) && item.keys == Listing(p, s'.history[item.at])
    {
      if s.items[p] == l.item {
        assert p == l.prefix;
        assert Current(s, p, l.fetched.value.1);
      } else {
        assert Hit(s, p);
      }
    }
  }

  lemma FinishListers(s: State, t: nat)
    requires ItemsOk(s) && ListersOk(s) && Enabled(s, Finish(t))
    ensures ListersOk(Next(s, Finish(t)))
  {
    var s' := Next(s, Finish(t));
    assert Settled(s') == Settled(s);
    forall t' | t' in s'.listers && s'.listers[t'].fetched.Some? ensures FetchedOk(s', s'.listers[t']) {
      assert t' in s.listers && FetchedOk(s, s.listers[t']);
      assert s.listers[t'].item != s.listers[t].item;
    }
  }

  lemma BeginKeepsInv(s: State, op: nat, keys: set<Key>)
    requires Inv(s) && Enabled(s, Begin(op, keys))
    ensures Inv(Next(s, Begin(op, keys)))
  {
    var s' := Next(s, Begin(op, keys));
    assert Settled(s') == Settled(s);
    AnswersKept(s, s');
    MutationKept(s, s');
  }

  /** A step that changes only mutations and lets every matching change keep its excuse. */
  ghost predicate OnlyMutations(s: State, s': State) {
    && s'.items == s.items && s'.heap == s.heap && s'.nextItem == s.nextItem && s'.listers == s.listers
    && s.history <= s'.history && s.changedBy <= s'.changedBy && Settled(s) <= Settled(s')
    && (forall op :: op in s.mutations ==>
          op in s'.mutations && s'.mutations[op].keys == s.mutations[op].keys &&
          (s.mutations[op].phase.Running? ==> s'.mutations[op].phase.Running?))
    && (forall op :: op in Settled(s) ==> s'.mutations[op].last == s.mutations[op].last)
    && (forall u :: |s.changedBy| <= u < |s'.changedBy| ==>
          s'.changedBy[u] in s'.mutations && s'.mutations[s'.changedBy[u]].phase.Running?)
  }

  lemma CurrentKept(s: State, s': State, p: Key, at: nat)
    requires OnlyMutations(s, s') && Current(s, p, at)
    ensures Current(s', p, at) && s'.history[at] == s.history[at]
  {
    forall u | at <= u < |s'.changedBy|
      ensures s'.changedBy[u] in s'.mutations &&
              (Matches(s'.mutations[s'.changedBy[u]].keys, p) ==> s'.mutations[s'.changedBy[u]].phase.Running?)
    {
      if u < |s.changedBy| { assert s'.changedBy[u] == s.changedBy[u]; }
    }
  }

  lemma MutationKept(s: State, s': State)
    requires ItemsOk(s) && ListersOk(s) && OnlyMutations(s, s')
    ensures ItemsOk(s') && ListersOk(s')
  {
    assert ItemsOk(s') by {
      forall p | Hit(s', p)
        ensures var item := s'.heap[s'.items[p]];
                Current(s', p, item.at) && item.keys == Listing(p, s'.history[item.at])
      {
        assert Hit(s, p);
        CurrentKept(s, s', p, s.heap[s.items[p]].at);
      }
    }
    forall t | t in s'.listers && s'.listers[t].fetched.Some? ensures FetchedOk(s', s'.listers[t]) {
      var l := s.listers[t];
      assert FetchedOk(s, l);
      var at := l.fetched.value.1;
      assert s'.history[at] == s.history[at];
      if Current(s, l.prefix, at) { CurrentKept(s, s', l.prefix, at); }
      assert l.settled <= Settled(s);
    }
  }

  lemma EffectKeepsInv(s: State, op: nat, contents: set<Key>)
    requires Inv(s) && Enabled(s, Effect(op, contents))
    ensures Inv(Next(s, Effect(op, contents)))
  {
    var s' := Next(s, Effect(op, contents));
    assert Settled(s') == Settled(s);
    EffectHistory(s, op, contents);
    AnswersKept(s, s');
    MutationKept(s, s');
  }

  lemma EffectHistory(s: State, op: nat, contents: set<Key>)
    requires HistoryOk(s) && Enabled(s, Effect(op, contents))
    ensures HistoryOk(Next(s, Effect(op, contents)))
  {
    var s' := Next(s, Effect(op, contents));
    forall u | 0 <= u < |s'.changedBy|
      ensures var m := s'.mutations[s'.changedBy[u]];
              u < m.last && s'.history[u + 1] - m.keys == s'.history[u] - m.keys
    {
      if u < |s.changedBy| {
        assert s'.mutations[s'.changedBy[u]].keys == s.mutations[s.changedBy[u]].keys;
      }
    }
  }

  lemma ReturnKeepsInv(s: State, op: nat)
    requires Inv(s) && Enabled(s, Return(op))
    ensures Inv(Next(s, Return(op)))
  {
    var s' := Next(s, Return(op));
    assert Settled(s') == Settled(s) + {op};
    AnswersKept(s, s');
    MutationKept(s, s');
  }

  lemma InvalidateKeepsInv(s: State, op: nat)
    requires Inv(s) && Enabled(s, Invalidate(op))
    ensures Inv(Next(s, Invalidate(op)))
  {
    var s' := Next(s, Invalidate(op));
    assert Settled(s') == Settled(s);
    AnswersKept(s, s');
    InvalidateItems(s, op);
    InvalidateListers(s, op);
  }

  /** What stays current after op has invalidated: the prefixes it does not match. */
  lemma StillCurrent(s: State, op: nat, prefix: Key, at: nat)
    requires Enabled(s, Invalidate(op)) && Current(s, prefix, at) && !Matches(s.mutations[op].keys, prefix)
    ensures Current(Next(s, Invalidate(op)), prefix, at)
  {
  }

  lemma InvalidateItems(s: State, op: nat)
    requires ItemsOk(s) && Enabled(s, Invalidate(op))
    ensures ItemsOk(Next(s, Invalidate(op)))
  {
    var s' := Next(s, Invalidate(op));
    forall p | Hit(s', p)
      ensures var item := s'.heap[s'.items[p]];
              Current(s', p, item.at) && item.keys == Listing(p, s'.history[item.at])
    {
      assert Hit(s, p);
      StillCurrent(s, op, p, s.heap[s.items[p]].at);
    }
  }

  lemma InvalidateListers(s: State, op: nat)
    requires ItemsOk(s) && ListersOk(s) && Enabled(s, Invalidate(op))
    ensures ListersOk(Next(s, Invalidate(op)))
  {
    var s' := Next(s, Invalidate(op));
    var keys := s.mutations[op].keys;
    assert Settled(s') == Settled(s);
    forall t | t in s'.listers && s'.listers[t].fetched.Some? ensures FetchedOk(s', s'.listers[t]) {
      var l := s.listers[t];
      assert FetchedOk(s, l);
      if l.prefix in s'.items && s'.items[l.prefix] == l.item && !s'.heap[l.item].invalid {
        assert !Marked(s, keys, l.item);
        assert !Hit(s, l.prefix);
        StillCurrent(s, op, l.prefix, l.fetched.value.1);
      }
    }
  }

  lemma HitKeepsInv(s: State, prefix: Key)
    requires Inv(s) && Enabled(s, ListHit(prefix))
    ensures Inv(Next(s, ListHit(prefix)))
  {
    var s' := Next(s, ListHit(prefix));
    assert Settled(s') == Settled(s);
    MutationKept(s, s');
    HitIsFresh(s, prefix);
    OneMoreAnswer(s, s', s'.answers[|s.answers|]);
  }

  lemma NextKeepsInv(s: State, e: Event)
    requires Inv(s) && Enabled(s, e)
    ensures Inv(Next(s, e))
  {
    match e
    case ListHit(p) => HitKeepsInv(s, p);
    case ListMiss(t, p) => MissKeepsInv(s, t, p);
    case Fetch(t) => FetchKeepsInv(s, t);
    case FetchError(t) => FetchErrorKeepsInv(s, t);
    case Finish(t) => FinishKeepsInv(s, t);
    case Begin(op, keys) => BeginKeepsInv(s, op, keys);
    case Effect(op, contents) => EffectKeepsInv(s, op, contents);
    case Invalidate(op) => InvalidateKeepsInv(s, op);
    case Return(op) => ReturnKeepsInv(s, op);
  }

  lemma {:induction false} RunsKeepInv(contents: set<Key>, trace: seq<Event>)
    requires Exec(contents, trace).Some?
    ensures Inv(Exec(contents, trace).value)
    decreases |trace|
  {
    if trace != [] {
      RunsKeepInv(contents, trace[..|trace| - 1]);
      NextKeepsInv(Exec(contents, trace[..|trace| - 1]).value, trace[|trace| - 1]);
    }
  }

  // ------------------------------------------------------------------ theorems

  /**
   In every interleaving, every answer of List is the listing of one store version, and that version
   is no older than any matching mutation that had returned before the List began.
   */
  lemma AnswersAreFresh(contents: set<Key>, trace: seq<Event>, n: nat)
    requires Exec(contents, trace).Some? && n < |Exec(contents, trace).value.answers|
    ensures var s := Exec(contents, trace).value;
            var a := s.answers[n];
            && a.at < |s.history| && a.keys == Listing(a.prefix, s.history[a.at])
            && forall op :: op in a.settled && op in s.mutations && Matches(s.mutations[op].keys, a.prefix) ==>
                 s.mutations[op].last <= a.at
  {
    RunsKeepInv(contents, trace);
    assert Fresh(Exec(contents, trace).value, Exec(contents, trace).value.answers[n]);
  }

  lemma UnmatchedChange(before: set<Key>, after: set<Key>, keys: set<Key>, prefix: Key)
    requires before - keys == after - keys && !Matches(keys, prefix)
    ensures Listing(prefix, before) == Listing(prefix, after)
  {
    forall key | HasPrefix(key, prefix) ensures key in before <==> key in after {
      assert key !in keys;
      assert key in before - keys <==> key in after - keys;
    }
  }

  lemma {:induction false} ListingStable(s: State, prefix: Key, at: nat, now: nat)
    requires HistoryOk(s) && at <= now < |s.history|
    requires forall u :: at <= u < now ==> !Matches(s.mutations[s.changedBy[u]].keys, prefix)
    ensures Listing(prefix, s.history[at]) == Listing(prefix, s.history[now])
    decreases now - at
  {
    if at < now {
      ListingStable(s, prefix, at, now - 1);
      var m := s.mutations[s.changedBy[now - 1]];
      assert !Matches(s.mutations[s.changedBy[now - 1]].keys, prefix);
      UnmatchedChange(s.history[now - 1], s.history[now], m.keys, prefix);
    }
  }

  lemma StaleItem(s: State, prefix: Key)
    requires Inv(s) && Hit(s, prefix)
    ensures |s.history| > 0
    ensures s.heap[s.items[prefix]].keys != Listing(prefix, s.history[|s.history| - 1]) ==>
              exists op :: op in s.mutations && s.mutations[op].phase.Running? &&
                           Matches(s.mutations[op].keys, prefix) && s.heap[s.items[prefix]].at < s.mutations[op].last
  {
    var at := s.heap[s.items[prefix]].at;
    if forall u :: at <= u < |s.changedBy| ==> !Matches(s.mutations[s.changedBy[u]].keys, prefix) {
      ListingStable(s, prefix, at, |s.history| - 1);
    } else {
      var u :| at <= u < |s.changedBy| && Matches(s.mutations[s.changedBy[u]].keys, prefix);
      assert s.mutations[s.changedBy[u]].phase.Running? && u < s.mutations[s.changedBy[u]].last;
    }
  }

  /** A cached listing equals the store's, unless a matching mutation took effect and has yet to invalidate. */
  lemma StaleOnlyWhileMutating(contents: set<Key>, trace: seq<Event>, prefix: Key)
    requires Exec(contents, trace).Some? && Hit(Exec(contents, trace).value, prefix)
    ensures var s := Exec(contents, trace).value;
            |s.history| > 0 &&
            (s.heap[s.items[prefix]].keys != Listing(prefix, s.history[|s.history| - 1]) ==>
               exists op :: op in s.mutations && s.mutations[op].phase.Running? &&
                            Matches(s.mutations[op].keys, prefix) && s.heap[s.items[prefix]].at < s.mutations[op].last)
  {
    RunsKeepInv(contents, trace);
    StaleItem(Exec(contents, trace).value, prefix);
  }

  /** A listing holds exactly the keys that continue the prefix. */
  lemma ListingHolds(prefix: Key, contents: set<Key>, key: Key)
    ensures key in Listing(prefix, contents) <==> key in contents && exists rest :: key == prefix + rest
  {
    if prefix <= key {
      assert key == prefix + key[|prefix|..];
    }
  }

  /** A mutation matches a prefix exactly if it names a key that a listing of the prefix could hold. */
  lemma MatchesIffListed(keys: set<Key>, prefix: Key)
    ensures Matches(keys, prefix) <==> exists key :: key in Listing(prefix, keys)
  {
    if Matches(keys, prefix) {
      var key :| key in keys && HasPrefix(key, prefix);
      assert key in Listing(prefix, keys);
    }
  }

  // ------------------------------------------------------------- what stays cached

  /** The i-th event is the invalidation of a mutation that matches the prefix. */
  ghost predicate InvalidatesAt(contents: set<Key>, trace: seq<Event>, i: nat, prefix: Key) {
    && i < |trace| && trace[i].Invalidate? && Exec(contents, trace[..i]).Some?
    && Drops(Exec(contents, trace[..i]).value, trace[i], prefix)
  }

  predicate Drops(s: State, e: Event, prefix: Key) {
    e.Invalidate? && e.op in s.mutations && Matches(s.mutations[e.op].keys, prefix)
  }

  lemma {:induction false} PrefixRuns(contents: set<Key>, trace: seq<Event>, i: nat)
    requires Exec(contents, trace).Some? && i <= |trace|
    ensures Exec(contents, trace[..i]).Some? && Inv(Exec(contents, trace[..i]).value)
    ensures i < |trace| ==>
              && Enabled(Exec(contents, trace[..i]).value, trace[i])
              && Exec(contents, trace[..i + 1]) == Some(Next(Exec(contents, trace[..i]).value, trace[i]))
    decreases |trace|
  {
    if i == |trace| {
      assert trace[..i] == trace;
    } else if i == |trace| - 1 {
      assert trace[..i + 1] == trace;
    } else {
      var before := trace[..|trace| - 1];
      PrefixRuns(contents, before, i);
      assert before[..i] == trace[..i] && before[..i + 1] == trace[..i + 1];
    }
    RunsKeepInv(contents, trace[..i]);
  }

  ghost predicate Caches(s: State, prefix: Key, keys: set<Key>) {
    Hit(s, prefix) && s.heap[s.items[prefix]].keys == keys
  }

  lemma NextKeepsCached(s: State, e: Event, prefix: Key, keys: set<Key>)
    requires Inv(s) && Enabled(s, e) && Caches(s, prefix, keys) && !Drops(s, e, prefix)
    ensures Caches(Next(s, e), prefix, keys)
  {
  }

  ghost predicate LeavesCached(contents: set<Key>, trace: seq<Event>, prefix: Key, keys: set<Key>) {
    Exec(contents, trace).Some? && Caches(Exec(contents, trace).value, prefix, keys)
  }

  /** The keys are cached after i events; the bound variable keeps the run folded up. */
  ghost predicate CachedAt(contents: set<Key>, trace: seq<Event>, i: nat, prefix: Key, keys: set<Key>) {
    i <= |trace| && forall t :: t == trace[..i] ==> LeavesCached(contents, t, prefix, keys)
  }

  lemma CachedOneMore(contents: set<Key>, trace: seq<Event>, i: nat, prefix: Key, keys: set<Key>)
    requires Exec(contents, trace).Some? && i < |trace| && !InvalidatesAt(contents, trace, i, prefix)
    requires CachedAt(contents, trace, i, prefix, keys)
    ensures CachedAt(contents, trace, i + 1, prefix, keys)
  {
    assert LeavesCached(contents, trace[..i], prefix, keys);
    PrefixRuns(contents, trace, i);
    NextKeepsCached(Exec(contents, trace[..i]).value, trace[i], prefix, keys);
    assert LeavesCached(contents, trace[..i + 1], prefix, keys);
  }

  lemma {:induction false} StaysCached(contents: set<Key>, trace: seq<Event>, from: nat, upTo: nat, prefix: Key,
                                       keys: set<Key>)
    requires Exec(contents, trace).Some? && from <= upTo <= |trace| && CachedAt(contents, trace, from, prefix, keys)
    requires forall i: nat :: from <= i < upTo ==> !InvalidatesAt(contents, trace, i, prefix)
    ensures CachedAt(contents, trace, upTo, prefix, keys)
    decreases upTo
  {
    if from < upTo {
      StaysCached(contents, trace, from, upTo - 1, prefix, keys);
      CachedOneMore(contents, trace, upTo - 1, prefix, keys);
    }
  }

  /** A cached listing answers every List until a matching mutation invalidates it. */
  lemma CachedUntilInvalidated(contents: set<Key>, trace: seq<Event>, from: nat, upTo: nat, prefix: Key, keys: set<Key>)
    requires Exec(contents, trace).Some? && from <= upTo <= |trace|
    requires Exec(contents, trace[..from]).Some? && Caches(Exec(contents, trace[..from]).value, prefix, keys)
    requires forall i: nat :: from <= i < upTo ==> !InvalidatesAt(contents, trace, i, prefix)
    ensures Exec(contents, trace[..upTo]).Some? && Caches(Exec(contents, trace[..upTo]).value, prefix, keys)
  {
    assert LeavesCached(contents, trace[..from], prefix, keys);
    StaysCached(contents, trace, from, upTo, prefix, keys);
    assert LeavesCached(contents, trace[..upTo], prefix, keys);
  }

  /** The List of this thread made the item that the map holds for the prefix, and nothing marked it. */
  ghost predicate Undisturbed(s: State, t: nat, prefix: Key) {
    && t in s.listers && s.listers[t].prefix == prefix && prefix in s.items && s.items[prefix] == s.listers[t].item
    && s.listers[t].item in s.heap && !s.heap[s.listers[t].item].invalid
  }

  /** Events that keep the List of this thread from publishing what it fetched. */
  predicate Interferes(e: Event, t: nat, prefix: Key) {
    e == FetchError(t) || e == Finish(t) || (e.ListMiss? && e.prefix == prefix)
  }

  lemma NextKeepsUndisturbed(s: State, e: Event, t: nat, prefix: Key)
    requires Inv(s) && Enabled(s, e) && Undisturbed(s, t, prefix) && !Drops(s, e, prefix) && !Interferes(e, t, prefix)
    ensures Undisturbed(Next(s, e), t, prefix)
  {
  }

  /**
   A List that misses publishes what it fetched, so that the next List is answered from the cache, unless
   another List of the prefix misses or a matching mutation invalidates before it ends.
   */
  lemma {:induction false} UndisturbedIsPublished(contents: set<Key>, trace: seq<Event>, from: nat, upTo: nat, t: nat,
                                                  prefix: Key)
    requires Exec(contents, trace).Some? && from < upTo < |trace|
    requires trace[from] == ListMiss(t, prefix) && trace[upTo] == Finish(t)
    requires forall i: nat :: from < i < upTo ==>
               !Interferes(trace[i], t, prefix) && !InvalidatesAt(contents, trace, i, prefix)
    ensures Exec(contents, trace[..upTo]).Some? && Enabled(Exec(contents, trace[..upTo]).value, Finish(t))
    ensures Exec(contents, trace[..upTo + 1]).Some?
    ensures Caches(Exec(contents, trace[..upTo + 1]).value, prefix,
                   Exec(contents, trace[..upTo]).value.listers[t].fetched.value.0)
  {
    PrefixRuns(contents, trace, from);
    PrefixRuns(contents, trace, upTo);
    StaysUndisturbed(contents, trace, from, upTo, t, prefix);
  }

  lemma {:induction false} StaysUndisturbed(contents: set<Key>, trace: seq<Event>, from: nat, upTo: nat, t: nat,
                                            prefix: Key)
    requires Exec(contents, trace).Some? && from < upTo <= |trace| && trace[from] == ListMiss(t, prefix)
    requires forall i: nat :: from < i < upTo ==>
               !Interferes(trace[i], t, prefix) && !InvalidatesAt(contents, trace, i, prefix)
    ensures Exec(contents, trace[..upTo]).Some? && Undisturbed(Exec(contents, trace[..upTo]).value, t, prefix)
    decreases upTo
  {
    PrefixRuns(contents, trace, upTo - 1);
    if from < upTo - 1 {
      StaysUndisturbed(contents, trace, from, upTo - 1, t, prefix);
      assert !InvalidatesAt(contents, trace, upTo - 1, prefix);
      NextKeepsUndisturbed(Exec(contents, trace[..upTo - 1]).value, trace[upTo - 1], t, prefix);
    }
  }
}
