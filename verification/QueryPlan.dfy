/**
 Carrying out a plan. Every node that the plan names is asked for its part of every index, an empty
 list of shard ids standing for the whole index. Whatever the plan dealt out, each second shard of
 each index with metadata is opened by exactly one node, so the answer of the proxy is the answer of
 one search over all of them.
 */
module QueryPlan {
  import opened Wrappers
  import opened Sequences
  import opened TopHits
  import opened ScatterGather
  import opened QueryNodes

  /** A second shard with what it holds that matches the query. */
  datatype Second = Second(id: int, matches: seq<Hit>)

  type Corpus = map<string, seq<Second>>

  function SecondsOf(corpus: Corpus, index: string): seq<Second> {
    if index in corpus then corpus[index] else []
  }

  function Matches(seconds: seq<Second>): seq<seq<Hit>> {
    seq(|seconds|, i requires 0 <= i < |seconds| => seconds[i].matches)
  }

  function Ids(seconds: seq<Second>): seq<int> {
    seq(|seconds|, i requires 0 <= i < |seconds| => seconds[i].id)
  }

  /** What the proxy knows of an index that it deals out is what the nodes have: its second shards, each id once. */
  ghost predicate UpToDate(metas: map<string, IndexMeta>, corpus: Corpus) {
    forall index :: index in metas && metas[index].shardNum == 1 ==>
      metas[index].secondShards == Ids(SecondsOf(corpus, index)) && NoDup(metas[index].secondShards)
  }

  // ----------------------------------------------------------- what a node opens

  /** A node that was asked for ids opens those shards, and for none all of them. */
  predicate Opens(part: Option<seq<int>>, id: int) {
    part.Some? && (part.value == [] || id in part.value)
  }

  function Opened(part: Option<seq<int>>, seconds: seq<Second>): seq<seq<Hit>> {
    if seconds == [] then []
    else
      var last := seconds[|seconds| - 1];
      Opened(part, seconds[..|seconds| - 1]) + if Opens(part, last.id) then [last.matches] else []
  }

  /** The loop over the shards of an index that opens what was asked for. */
  method OpenShards(ids: seq<int>, seconds: seq<Second>) returns (shards: seq<seq<Hit>>)
    ensures shards == Opened(Some(ids), seconds)
  {
    shards := [];
    for i := 0 to |seconds|
      invariant shards == Opened(Some(ids), seconds[..i])
    {
      assert seconds[..i + 1][..i] == seconds[..i];
      if ids == [] || seconds[i].id in ids {
        shards := shards + [seconds[i].matches];
      }
    }
    assert seconds[..|seconds|] == seconds;
  }

  lemma {:induction false} NothingAskedNothingOpened(seconds: seq<Second>)
    ensures Opened(None, seconds) == []
  {
    if seconds != [] { NothingAskedNothingOpened(seconds[..|seconds| - 1]); }
  }

  // -------------------------------------------------------- one shard, exactly one node

  /** Exactly one node is asked for this shard. */
  ghost predicate OpenedOnce(m: NodeIndexMap, index: string, id: int) {
    exists a :: Opens(Part(m, a, index), id) && forall b :: Opens(Part(m, b, index), id) ==> b == a
  }

  lemma {:induction false} InShare(ids: seq<int>, k: nat, j: nat, n: nat, p: nat)
    requires n > 0 && k <= |ids| && p < |ids| && NoDup(ids)
    ensures ids[p] in Share(ids, k, j, n) <==> p < k && Cursor(p, n) == j
    decreases k
  {
    if k > 0 {
      InShare(ids, k - 1, j, n, p);
      assert ids[p] == ids[k - 1] <==> p == k - 1;
    }
  }

  lemma DealtOnce(m: NodeIndexMap, index: string, addrs: seq<NodeInfo>, ids: seq<int>, p: nat)
    requires addrs != [] && DistinctAddrs(addrs) && NoDup(ids) && p < |ids| && Dealt(m, index, addrs, ids, |ids|)
    ensures OpenedOnce(m, index, ids[p])
  {
    var n := |addrs|;
    var c := Cursor(p, n);
    InShare(ids, |ids|, c, n, p);
    assert Opens(Part(m, addrs[c].addr, index), ids[p]);
    forall b | Opens(Part(m, b, index), ids[p]) ensures b == addrs[c].addr {
      assert Addressed(addrs, b);
      var j :| 0 <= j < n && addrs[j].addr == b;
      InShare(ids, |ids|, j, n, p);
    }
  }

  lemma WholeOnce(m: NodeIndexMap, index: string, owner: string, id: int)
    requires forall a :: Part(m, a, index) == if a == owner then Some([]) else None
    ensures OpenedOnce(m, index, id)
  {
    assert Opens(Part(m, owner, index), id);
  }

  /** Every second shard of an index with metadata is asked of exactly one node. */
  lemma PlanOpensOnce(m: NodeIndexMap, nodes: seq<NodeInfo>, index: string, metas: map<string, IndexMeta>,
                      threshold: int, limit: nat, corpus: Corpus, p: nat)
    requires Planned(m, nodes, index, metas, threshold, limit) && index in metas && UpToDate(metas, corpus)
    requires p < |SecondsOf(corpus, index)|
    ensures OpenedOnce(m, index, SecondsOf(corpus, index)[p].id)
  {
    var info, id := metas[index], SecondsOf(corpus, index)[p].id;
    if info.shardNum != 1 || |info.secondShards| < threshold {
      WholeOnce(m, index, info.owner.value, id);
    } else {
      var ids := info.secondShards;
      var addrs :|
        && |addrs| == Min(|nodes|, limit) > 0 && DistinctAddrs(addrs)
        && info.nodeId.Some? && Consecutive(addrs, nodes, info.nodeId.value)
        && Dealt(m, index, addrs, ids, |ids|);
      DealtOnce(m, index, addrs, ids, p);
    }
  }

  // ------------------------------------------------------------- one index, all nodes

  /** What the nodes of this list open of one index, together. */
  function AtNodes(m: NodeIndexMap, order: seq<string>, index: string, seconds: seq<Second>): seq<seq<Hit>> {
    if order == [] then []
    else
      AtNodes(m, order[..|order| - 1], index, seconds) + Opened(Part(m, order[|order| - 1], index), seconds)
  }

  predicate SomeOpens(m: NodeIndexMap, order: seq<string>, index: string, id: int) {
    exists a :: a in order && Opens(Part(m, a, index), id)
  }

  lemma AddOne<T>(others': multiset<T>, others: multiset<T>, one': seq<T>, one: seq<T>, x: T, before: bool, here: bool)
    requires others' == others + (if before then multiset{x} else multiset{}) && !(before && here)
    requires one' == one + (if here then [x] else [])
    ensures others' + multiset(one') == others + multiset(one) + if before || here then multiset{x} else multiset{}
  {
  }

  lemma {:induction false} AtNodesStep(m: NodeIndexMap, order: seq<string>, index: string, seconds: seq<Second>,
                                       last: Second)
    requires NoDup(order) && OpenedOnce(m, index, last.id)
    ensures multiset(AtNodes(m, order, index, seconds + [last])) ==
            multiset(AtNodes(m, order, index, seconds)) +
            if SomeOpens(m, order, index, last.id) then multiset{last.matches} else multiset{}
    decreases |order|
  {
    if order != [] {
      var less, a := order[..|order| - 1], order[|order| - 1];
      AtNodesStep(m, less, index, seconds, last);
      assert (seconds + [last])[..|seconds|] == seconds;
      assert order == less + [a];
      var part := Part(m, a, index);
      AddOne(multiset(AtNodes(m, less, index, seconds + [last])), multiset(AtNodes(m, less, index, seconds)),
             Opened(part, seconds + [last]), Opened(part, seconds), last.matches,
             SomeOpens(m, less, index, last.id), Opens(part, last.id));
    }
  }

  lemma SomeNodeOpens(m: NodeIndexMap, order: seq<string>, index: string, id: int)
    requires OpenedOnce(m, index, id) && forall a :: a in m ==> a in order
    ensures SomeOpens(m, order, index, id)
  {
    var a :| Opens(Part(m, a, index), id);
    assert a in order;
  }

  lemma OneShardMore(m: NodeIndexMap, order: seq<string>, index: string, seconds: seq<Second>, last: Second)
    requires NoDup(order) && (forall a :: a in m ==> a in order) && OpenedOnce(m, index, last.id)
    requires multiset(AtNodes(m, order, index, seconds)) == multiset(Matches(seconds))
    ensures multiset(AtNodes(m, order, index, seconds + [last])) == multiset(Matches(seconds + [last]))
  {
    SomeNodeOpens(m, order, index, last.id);
    AtNodesStep(m, order, index, seconds, last);
    assert Matches(seconds + [last]) == Matches(seconds) + [last.matches];
  }

  lemma {:induction false} NothingAtNodes(m: NodeIndexMap, order: seq<string>, index: string)
    ensures AtNodes(m, order, index, []) == []
  {
    if order != [] { NothingAtNodes(m, order[..|order| - 1], index); }
  }

  /** Together the nodes open every shard of the index once. */
  lemma {:induction false} IndexOpenedOnce(m: NodeIndexMap, order: seq<string>, index: string, seconds: seq<Second>)
    requires NoDup(order) && (forall a :: a in m ==> a in order)
    requires forall p :: 0 <= p < |seconds| ==> OpenedOnce(m, index, seconds[p].id)
    ensures multiset(AtNodes(m, order, index, seconds)) == multiset(Matches(seconds))
    decreases |seconds|
  {
    if seconds == [] {
      NothingAtNodes(m, order, index);
      assert Matches(seconds) == [];
    } else {
      var less, last := seconds[..|seconds| - 1], seconds[|seconds| - 1];
      IndexOpenedOnce(m, order, index, less);
      assert less + [last] == seconds;
      OneShardMore(m, order, index, less, last);
    }
  }

  lemma {:induction false} UnplannedIsSkipped(m: NodeIndexMap, order: seq<string>, index: string, seconds: seq<Second>)
    requires forall a :: Part(m, a, index) == None
    ensures AtNodes(m, order, index, seconds) == []
  {
    if order != [] {
      UnplannedIsSkipped(m, order[..|order| - 1], index, seconds);
      NothingAskedNothingOpened(seconds);
    }
  }

  // -------------------------------------------------------------- all indexes, all nodes

  /** What the nodes of this list open, index by index. */
  function ByIndex(m: NodeIndexMap, order: seq<string>, indexes: seq<string>, corpus: Corpus): (r: seq<seq<seq<Hit>>>)
    ensures |r| == |indexes|
  {
    seq(|indexes|, i requires 0 <= i < |indexes| => AtNodes(m, order, indexes[i], SecondsOf(corpus, indexes[i])))
  }

  /** What one node opens, over all indexes of the search. */
  function AtNode(m: NodeIndexMap, a: string, indexes: seq<string>, corpus: Corpus): (r: seq<seq<seq<Hit>>>)
    ensures |r| == |indexes|
  {
    seq(|indexes|, i requires 0 <= i < |indexes| => Opened(Part(m, a, indexes[i]), SecondsOf(corpus, indexes[i])))
  }

  lemma {:induction false} FlattenSums<T>(a: seq<seq<T>>, b: seq<seq<T>>, c: seq<seq<T>>)
    requires |a| == |b| == |c| && forall i :: 0 <= i < |a| ==> c[i] == a[i] + b[i]
    ensures multiset(Flatten(c)) == multiset(Flatten(a)) + multiset(Flatten(b))
  {
    if a != [] {
      var n := |a| - 1;
      FlattenSums(a[..n], b[..n], c[..n]);
    }
  }

  lemma OneNodeMore(m: NodeIndexMap, order: seq<string>, a: string, indexes: seq<string>, corpus: Corpus)
    ensures multiset(Flatten(ByIndex(m, order + [a], indexes, corpus))) ==
            multiset(Flatten(ByIndex(m, order, indexes, corpus))) + multiset(Flatten(AtNode(m, a, indexes, corpus)))
  {
    assert (order + [a])[..|order|] == order;
    FlattenSums(ByIndex(m, order, indexes, corpus), AtNode(m, a, indexes, corpus),
                ByIndex(m, order + [a], indexes, corpus));
  }

  lemma {:induction false} AllEmpty<T>(xss: seq<seq<T>>)
    requires forall i :: 0 <= i < |xss| ==> xss[i] == []
    ensures Flatten(xss) == []
  {
    if xss != [] { AllEmpty(xss[..|xss| - 1]); }
  }

  /** ys lists the keys of xs and others, with the same values; the others have none. */
  ghost predicate Extends<T>(keys: seq<string>, xs: seq<seq<T>>, keys': seq<string>, ys: seq<seq<T>>) {
    && |keys| == |xs| && |keys'| == |ys| && NoDup(keys) && NoDup(keys')
    && (forall i :: 0 <= i < |keys| ==> keys[i] in keys')
    && (forall i, j :: 0 <= i < |keys| && 0 <= j < |keys'| && keys[i] == keys'[j] ==> xs[i] == ys[j])
    && (forall j :: 0 <= j < |keys'| && keys'[j] !in keys ==> ys[j] == [])
  }

  lemma KeyAt(keys: seq<string>, j: nat, at: nat, x: string)
    requires j < |keys| && NoDup(keys) && at < |keys| && keys[at] == x && at != j
    ensures x in Without(keys, j)
  {
    assert Without(keys, j)[if at < j then at else at - 1] == x;
  }

  lemma ExtendsLess<T>(keys: seq<string>, xs: seq<seq<T>>, keys': seq<string>, ys: seq<seq<T>>, j: nat)
    requires Extends(keys, xs, keys', ys) && keys != [] && j < |keys'| && keys'[j] == keys[|keys| - 1]
    ensures Extends(keys[..|keys| - 1], xs[..|keys| - 1], Without(keys', j), Without(ys, j))
  {
    var n := |keys| - 1;
    forall i | 0 <= i < n ensures keys[i] in Without(keys', j) {
      var at :| 0 <= at < |keys'| && keys'[at] == keys[i];
      KeyAt(keys', j, at, keys[i]);
    }
    forall p: nat | p < |keys'| - 1
      ensures Without(keys', j)[p] !in keys[..n] ==> Without(ys, j)[p] == []
      ensures forall i :: 0 <= i < n && keys[i] == Without(keys', j)[p] ==> xs[i] == Without(ys, j)[p]
    {
      ExtendsElsewhere(keys, xs, keys', ys, j, p);
    }
    NoDupWithout(keys', j);
  }

  lemma ExtendsElsewhere<T>(keys: seq<string>, xs: seq<seq<T>>, keys': seq<string>, ys: seq<seq<T>>, j: nat, p: nat)
    requires Extends(keys, xs, keys', ys) && keys != [] && j < |keys'| && keys'[j] == keys[|keys| - 1]
    requires p < |keys'| - 1
    ensures Without(keys', j)[p] !in keys[..|keys| - 1] ==> Without(ys, j)[p] == []
    ensures forall i :: 0 <= i < |keys| - 1 && keys[i] == Without(keys', j)[p] ==> xs[i] == Without(ys, j)[p]
  {
    var n, at := |keys| - 1, if p < j then p else p + 1;
    assert keys'[at] == Without(keys', j)[p] && ys[at] == Without(ys, j)[p] && keys'[at] != keys'[j];
    assert keys == keys[..n] + [keys[n]];
  }

  lemma NoDupWithout(keys: seq<string>, j: nat)
    requires NoDup(keys) && j < |keys|
    ensures NoDup(Without(keys, j))
  {
  }

  lemma {:induction false} SameSum<T>(keys: seq<string>, xs: seq<seq<T>>, keys': seq<string>, ys: seq<seq<T>>)
    requires Extends(keys, xs, keys', ys)
    ensures multiset(Flatten(xs)) == multiset(Flatten(ys))
    decreases |keys|
  {
    if keys == [] {
      AllEmpty(ys);
    } else {
      var n := |keys| - 1;
      var j :| 0 <= j < |keys'| && keys'[j] == keys[n];
      ExtendsLess(keys, xs, keys', ys, j);
      SameSum(keys[..n], xs[..n], Without(keys', j), Without(ys, j));
      FlattenWithoutOne(ys, j);
    }
  }

  // ---------------------------------------------------------------------- the requests

  /** The request to one node: its indexes, in any order, each with the shards it opens. */
  method NodeRequest(m: NodeIndexMap, a: string, ghost indexes: seq<string>, corpus: Corpus)
    returns (node: seq<seq<seq<Hit>>>)
    requires a in m && NoDup(indexes) && forall index :: index in m[a] ==> index in indexes
    ensures multiset(Flatten(node)) == multiset(Flatten(AtNode(m, a, indexes, corpus)))
  {
    node := [];
    var todo := m[a].Keys;
    ghost var done: seq<string> := [];
    while todo != {}
      invariant |done| == |node| && NoDup(done) && todo <= m[a].Keys
      invariant forall index :: index in done <==> index in m[a] && index !in todo
      invariant forall i :: 0 <= i < |done| ==> node[i] == Opened(Part(m, a, done[i]), SecondsOf(corpus, done[i]))
      decreases todo
    {
      var index :| index in todo;
      var shards := OpenShards(m[a][index], SecondsOf(corpus, index));
      node, done := node + [shards], done + [index];
      todo := todo - {index};
    }
    RequestCovers(m, a, indexes, corpus, done, node);
    SameSum(done, node, indexes, AtNode(m, a, indexes, corpus));
  }

  lemma RequestCovers(m: NodeIndexMap, a: string, indexes: seq<string>, corpus: Corpus, done: seq<string>,
                      node: seq<seq<seq<Hit>>>)
    requires a in m && NoDup(indexes) && NoDup(done) && |done| == |node|
    requires forall index :: index in m[a] ==> index in indexes
    requires forall index :: index in done <==> index in m[a]
    requires forall i :: 0 <= i < |done| ==> node[i] == Opened(Part(m, a, done[i]), SecondsOf(corpus, done[i]))
    ensures Extends(done, node, indexes, AtNode(m, a, indexes, corpus))
  {
    forall j | 0 <= j < |indexes| && indexes[j] !in done ensures AtNode(m, a, indexes, corpus)[j] == [] {
      NothingAskedNothingOpened(SecondsOf(corpus, indexes[j]));
    }
  }

  lemma AllShardsOneMore(nodes: seq<seq<seq<seq<Hit>>>>, node: seq<seq<seq<Hit>>>)
    ensures AllShards(nodes + [node]) == AllShards(nodes) + Flatten(node)
  {
    FlattenMore(nodes, node);
    FlattenConcat(Flatten(nodes), node);
  }

  /** The requests to all nodes of the plan, visited in any order. */
  method Requests(m: NodeIndexMap, ghost indexes: seq<string>, corpus: Corpus)
    returns (nodes: seq<seq<seq<seq<Hit>>>>, ghost order: seq<string>)
    requires NoDup(indexes) && forall a, index :: a in m && index in m[a] ==> index in indexes
    ensures NoDup(order) && forall a :: a in m <==> a in order
    ensures multiset(AllShards(nodes)) == multiset(Flatten(ByIndex(m, order, indexes, corpus)))
  {
    nodes, order := [], [];
    var todo := m.Keys;
    NoNodes(m, indexes, corpus);
    while todo != {}
      invariant NoDup(order) && todo <= m.Keys && forall a :: a in order <==> a in m && a !in todo
      invariant multiset(AllShards(nodes)) == multiset(Flatten(ByIndex(m, order, indexes, corpus)))
      decreases todo
    {
      var a :| a in todo;
      var node := NodeRequest(m, a, indexes, corpus);
      AllShardsOneMore(nodes, node);
      OneNodeMore(m, order, a, indexes, corpus);
      nodes, order := nodes + [node], order + [a];
      todo := todo - {a};
    }
  }

  lemma NoNodes(m: NodeIndexMap, indexes: seq<string>, corpus: Corpus)
    ensures Flatten(ByIndex(m, [], indexes, corpus)) == []
  {
    AllEmpty(ByIndex(m, [], indexes, corpus));
  }

  // ----------------------------------------------------------------------- the search

  /** All second shards of the searched indexes that the proxy has metadata of. */
  function Wanted(indexes: seq<string>, metas: map<string, IndexMeta>, corpus: Corpus): (r: seq<seq<seq<Hit>>>)
    ensures |r| == |indexes|
  {
    seq(|indexes|, i requires 0 <= i < |indexes| =>
      if indexes[i] in metas then Matches(SecondsOf(corpus, indexes[i])) else [])
  }

  /** What a search is about: the matches in the second shards of the searched indexes, where there is metadata. */
  lemma WantedHolds(indexes: seq<string>, metas: map<string, IndexMeta>, corpus: Corpus, hit: Hit)
    ensures hit in Flatten(Flatten(Wanted(indexes, metas, corpus))) <==>
            exists index, second ::
              && index in indexes && index in metas && index in corpus
              && second in corpus[index] && hit in second.matches
  {
    var wanted := Wanted(indexes, metas, corpus);
    InFlatten(Flatten(wanted), hit);
    if hit in Flatten(Flatten(wanted)) {
      var s :| 0 <= s < |Flatten(wanted)| && hit in Flatten(wanted)[s];
      var index, second := WantedShard(indexes, metas, corpus, Flatten(wanted)[s]);
    }
    forall index, second | index in indexes && index in metas && index in corpus && second in corpus[index] &&
                           hit in second.matches
      ensures hit in Flatten(Flatten(wanted))
    {
      ShardIsWanted(indexes, metas, corpus, index, second);
      var s :| 0 <= s < |Flatten(wanted)| && Flatten(wanted)[s] == second.matches;
    }
  }

  lemma WantedShard(indexes: seq<string>, metas: map<string, IndexMeta>, corpus: Corpus, shard: seq<Hit>)
    returns (index: string, second: Second)
    requires shard in Flatten(Wanted(indexes, metas, corpus))
    ensures index in indexes && index in metas && index in corpus && second in corpus[index] && second.matches == shard
  {
    var wanted := Wanted(indexes, metas, corpus);
    InFlatten(wanted, shard);
    var i :| 0 <= i < |wanted| && shard in wanted[i];
    var p :| 0 <= p < |wanted[i]| && wanted[i][p] == shard;
    index, second := indexes[i], corpus[indexes[i]][p];
  }

  lemma ShardIsWanted(indexes: seq<string>, metas: map<string, IndexMeta>, corpus: Corpus, index: string,
                      second: Second)
    requires index in indexes && index in metas && index in corpus && second in corpus[index]
    ensures second.matches in Flatten(Wanted(indexes, metas, corpus))
  {
    var wanted := Wanted(indexes, metas, corpus);
    InFlatten(wanted, second.matches);
    var i :| 0 <= i < |indexes| && indexes[i] == index;
    var p :| 0 <= p < |corpus[index]| && corpus[index][p] == second;
    assert wanted[i][p] == second.matches;
  }

  lemma {:induction false} FlattenAlike<T>(a: seq<seq<T>>, b: seq<seq<T>>)
    requires |a| == |b| && forall i :: 0 <= i < |a| ==> multiset(a[i]) == multiset(b[i])
    ensures multiset(Flatten(a)) == multiset(Flatten(b))
  {
    if a != [] {
      var n := |a| - 1;
      FlattenAlike(a[..n], b[..n]);
      assert multiset(a[n]) == multiset(b[n]);
    }
  }

  lemma PlannedIndex(m: NodeIndexMap, nodes: seq<NodeInfo>, index: string, metas: map<string, IndexMeta>,
                     threshold: int, limit: nat, corpus: Corpus, order: seq<string>)
    requires Planned(m, nodes, index, metas, threshold, limit) && UpToDate(metas, corpus)
    requires NoDup(order) && forall a :: a in m ==> a in order
    ensures multiset(AtNodes(m, order, index, SecondsOf(corpus, index))) ==
            multiset(if index in metas then Matches(SecondsOf(corpus, index)) else [])
  {
    if index in metas {
      forall p: nat | p < |SecondsOf(corpus, index)| ensures OpenedOnce(m, index, SecondsOf(corpus, index)[p].id) {
        PlanOpensOnce(m, nodes, index, metas, threshold, limit, corpus, p);
      }
      IndexOpenedOnce(m, order, index, SecondsOf(corpus, index));
    } else {
      UnplannedIsSkipped(m, order, index, SecondsOf(corpus, index));
    }
  }

  /** Carrying out the plan searches every second shard of every index with metadata exactly once. */
  lemma PlanSearchesAllOnce(m: NodeIndexMap, nodes: seq<NodeInfo>, indexes: seq<string>, metas: map<string, IndexMeta>,
                            threshold: int, limit: nat, corpus: Corpus, order: seq<string>)
    requires forall i :: 0 <= i < |indexes| ==> Planned(m, nodes, indexes[i], metas, threshold, limit)
    requires UpToDate(metas, corpus) && NoDup(order) && forall a :: a in m ==> a in order
    ensures multiset(Flatten(ByIndex(m, order, indexes, corpus))) == multiset(Flatten(Wanted(indexes, metas, corpus)))
  {
    forall i | 0 <= i < |indexes|
      ensures multiset(ByIndex(m, order, indexes, corpus)[i]) == multiset(Wanted(indexes, metas, corpus)[i])
    {
      PlannedIndex(m, nodes, indexes[i], metas, threshold, limit, corpus, order);
    }
    FlattenAlike(ByIndex(m, order, indexes, corpus), Wanted(indexes, metas, corpus));
  }

  /**
   A unified search: plan, ask, gather. With at least one node the answer is the best `size` matches of
   all second shards of all indexes with metadata, and the total counts every match once.
   */
  method UnifiedSearch(nodeList: seq<NodeInfo>, indexes: seq<string>, metas: map<string, IndexMeta>, threshold: int,
                       limit: nat, corpus: Corpus, size: nat)
    returns (r: Option<(seq<Hit>, nat)>)
    requires DistinctAddrs(nodeList) && NoDup(indexes) && limit >= 1 && UpToDate(metas, corpus)
    ensures nodeList == [] ==> r == Some(([], 0))
    ensures nodeList != [] && r.Some? ==>
              var all := Flatten(Flatten(Wanted(indexes, metas, corpus)));
              IsTop(r.value.0, multiset(all), size) && r.value.1 == |all|
    ensures r.None? <==> nodeList != [] && exists i :: 0 <= i < |indexes| && Unassigned(indexes[i], metas, threshold)
  {
    var plan := CalcNodeIndexMap(nodeList, indexes, metas, threshold, limit);
    if plan.None? {
      return None;
    }
    forall a, index | a in plan.value && index in plan.value[a] ensures index in indexes {
      assert Part(plan.value, a, index).Some?;
    }
    var nodes, order := Requests(plan.value, indexes, corpus);
    var hits, total := ExecParallelQueries(nodes, size);
    r := Some((hits, total));
    if nodeList == [] {
      NothingSearched(nodes, order, indexes, corpus);
    } else {
      PlanSearchesAllOnce(plan.value, nodeList, indexes, metas, threshold, limit, corpus, order);
      FlattenPermuted(AllShards(nodes), Flatten(Wanted(indexes, metas, corpus)));
      assert |multiset(Flatten(AllShards(nodes)))| == |Flatten(AllShards(nodes))|;
    }
  }

  lemma NothingSearched(nodes: seq<seq<seq<seq<Hit>>>>, order: seq<string>, indexes: seq<string>, corpus: Corpus)
    requires forall a :: a !in order
    requires multiset(AllShards(nodes)) == multiset(Flatten(ByIndex(map[], order, indexes, corpus)))
    ensures Flatten(AllShards(nodes)) == []
  {
    assert forall i :: 0 <= i < |order| ==> order[i] in order;
    NoNodes(map[], indexes, corpus);
    assert |multiset(AllShards(nodes))| == 0;
  }
}
