/**
 Which node searches which second shards. A large index is dealt out round robin over a limited
 number of nodes, starting with the node that owns it; any other index goes to one node as a whole,
 which an empty list of shard ids stands for.
 */
module QueryNodes {
  import opened Wrappers
  import opened Arithmetic
  import opened Sequences

  datatype NodeInfo = NodeInfo(id: int, addr: string)

  /** owner and nodeId are what the assignment tables say of the index, if anything. */
  datatype IndexMeta = IndexMeta(shardNum: int, secondShards: seq<int>, owner: Option<string>, nodeId: Option<int>)

  type PartialIndexes = map<string, seq<int>>

  type NodeIndexMap = map<string, PartialIndexes>

  /** What a node is asked to search of an index. */
  function Part(m: NodeIndexMap, addr: string, index: string): Option<seq<int>> {
    if addr in m && index in m[addr] then Some(m[addr][index]) else None
  }

  // ----------------------------------------------------------------- the circle

  /** Where a cursor that goes round n places stands after k steps, and how many rounds it has made. */
  function Cursor(k: nat, n: nat): (r: nat)
    requires n > 0
    ensures r < n
  {
    if k == 0 then 0 else if Cursor(k - 1, n) + 1 == n then 0 else Cursor(k - 1, n) + 1
  }

  function Rounds(k: nat, n: nat): nat
    requires n > 0
  {
    if k == 0 then 0 else if Cursor(k - 1, n) + 1 == n then Rounds(k - 1, n) + 1 else Rounds(k - 1, n)
  }

  class Circle {
    const addrs: seq<NodeInfo>
    var cur: nat

    constructor (addrs: seq<NodeInfo>)
      ensures this.addrs == addrs && cur == 0
    {
      this.addrs := addrs;
      cur := 0;
    }

    method Next() returns (node: NodeInfo)
      requires cur < |addrs|
      modifies this
      ensures node == addrs[old(cur)] && cur == if old(cur) + 1 == |addrs| then 0 else old(cur) + 1
    {
      node := addrs[cur];
      if cur + 1 == |addrs| {
        cur := 0;
      } else {
        cur := cur + 1;
      }
    }
  }

  /** The j-th of n places' share of the first k cards dealt. */
  function Share<T>(ids: seq<T>, k: nat, j: nat, n: nat): seq<T>
    requires n > 0 && k <= |ids|
  {
    if k == 0 then []
    else Share(ids, k - 1, j, n) + (if Cursor(k - 1, n) == j then [ids[k - 1]] else [])
  }

  /** Dealing goes round: card k goes to place k modulo n, and k cards make k / n full rounds. */
  lemma {:induction false} CursorIs(k: nat, n: nat)
    requires n > 0
    ensures Cursor(k, n) == k % n && Rounds(k, n) == k / n
  {
    if k > 0 {
      CursorIs(k - 1, n);
      NextRemainder(k - 1, n);
    }
  }

  lemma NextRemainder(k: nat, n: nat)
    requires n > 0
    ensures if k % n + 1 == n then (k + 1) % n == 0 && (k + 1) / n == k / n + 1
            else (k + 1) % n == k % n + 1 && (k + 1) / n == k / n
  {
    var q, r := k / n, k % n;
    QuotientBounds(k, n);
    if r + 1 == n {
      OneMoreRound(q, n);
      DivisionIs(k + 1, n, q + 1, 0);
    } else {
      DivisionIs(k + 1, n, q, r + 1);
    }
  }

  lemma OneMoreRound(q: nat, n: nat)
    ensures (q + 1) * n == q * n + n
  {
  }

  lemma {:induction false} ShareSize<T>(ids: seq<T>, k: nat, j: nat, n: nat)
    requires j < n && k <= |ids|
    ensures |Share(ids, k, j, n)| == Rounds(k, n) + if j < Cursor(k, n) then 1 else 0
  {
    if k > 0 { ShareSize(ids, k - 1, j, n); }
  }

  /** Loads differ by at most one. */
  lemma LoadsAreEven<T>(ids: seq<T>, i: nat, j: nat, n: nat)
    requires i < n && j < n
    ensures |Share(ids, |ids|, i, n)| <= |Share(ids, |ids|, j, n)| + 1
  {
    ShareSize(ids, |ids|, i, n);
    ShareSize(ids, |ids|, j, n);
  }

  /** What the first m places hold together. */
  ghost function Together<T>(ids: seq<T>, k: nat, m: nat, n: nat): multiset<T>
    requires m <= n && n > 0 && k <= |ids|
  {
    if m == 0 then multiset{} else Together(ids, k, m - 1, n) + multiset(Share(ids, k, m - 1, n))
  }

  lemma {:induction false} TogetherStep<T>(ids: seq<T>, k: nat, m: nat, n: nat)
    requires m <= n && n > 0 && 0 < k <= |ids|
    ensures Together(ids, k, m, n) ==
            Together(ids, k - 1, m, n) + if Cursor(k - 1, n) < m then multiset{ids[k - 1]} else multiset{}
    decreases m
  {
    if m > 0 {
      TogetherStep(ids, k, m - 1, n);
      OneMore(Together(ids, k, m - 1, n), Together(ids, k - 1, m - 1, n), Share(ids, k, m - 1, n),
              Share(ids, k - 1, m - 1, n), ids[k - 1], Cursor(k - 1, n), m);
    }
  }

  lemma OneMore<T>(others': multiset<T>, others: multiset<T>, share': seq<T>, share: seq<T>, x: T, c: nat, m: nat)
    requires m > 0 && others' == others + (if c < m - 1 then multiset{x} else multiset{})
    requires share' == share + (if c == m - 1 then [x] else [])
    ensures others' + multiset(share') == others + multiset(share) + if c < m then multiset{x} else multiset{}
  {
  }

  lemma {:induction false} NothingTogether<T>(ids: seq<T>, m: nat, n: nat)
    requires m <= n && n > 0
    ensures Together(ids, 0, m, n) == multiset{}
    decreases m
  {
    if m > 0 {
      NothingTogether(ids, m - 1, n);
    }
  }

  lemma TakeOneMore<T>(all: multiset<T>, before: multiset<T>, ids: seq<T>, k: nat)
    requires 0 < k <= |ids| && all == before + multiset{ids[k - 1]} && before == multiset(ids[..k - 1])
    ensures all == multiset(ids[..k])
  {
    assert ids[..k] == ids[..k - 1] + [ids[k - 1]];
  }

  /** Together the shares are the whole: every second shard goes to exactly one node. */
  lemma {:induction false} SharesAreAll<T>(ids: seq<T>, k: nat, n: nat)
    requires n > 0 && k <= |ids|
    ensures Together(ids, k, n, n) == multiset(ids[..k])
    decreases k
  {
    if k == 0 {
      NothingTogether(ids, n, n);
    } else {
      TogetherStep(ids, k, n, n);
      SharesAreAll(ids, k - 1, n);
      TakeOneMore(Together(ids, k, n, n), Together(ids, k - 1, n, n), ids, k);
    }
  }

  // -------------------------------------------------------------- the nodes of an index

  /** Where getQueryNodes starts: at the assigned node, or at the first if it is not on the list. */
  method FindNode(nodes: seq<NodeInfo>, id: int) returns (i: nat)
    requires nodes != []
    ensures i < |nodes|
    ensures (nodes[i].id == id && forall j :: 0 <= j < i ==> nodes[j].id != id) ||
            (i == 0 && forall j :: 0 <= j < |nodes| ==> nodes[j].id != id)
  {
    i := 0;
    while i < |nodes|
      invariant i <= |nodes| && forall j :: 0 <= j < i ==> nodes[j].id != id
    {
      if nodes[i].id == id {
        return;
      }
      i := i + 1;
    }
    i := 0;
  }

  ghost predicate DistinctAddrs(nodes: seq<NodeInfo>) {
    forall i, j :: 0 <= i < j < |nodes| ==> nodes[i].addr != nodes[j].addr
  }

  /** The place of a node in the list, or the first if it is not on the list. */
  ghost predicate StartsAt(nodes: seq<NodeInfo>, id: int, start: nat) {
    && start < |nodes|
    && (nodes[start].id == id || (start == 0 && forall j :: 0 <= j < |nodes| ==> nodes[j].id != id))
    && forall j :: 0 <= j < start ==> nodes[j].id != id
  }

  /** Consecutive nodes of the list, from the assigned one on and around. */
  ghost predicate Consecutive(addrs: seq<NodeInfo>, nodes: seq<NodeInfo>, id: int) {
    exists start: nat :: StartsAt(nodes, id, start) &&
      forall k :: 0 <= k < |addrs| <= |nodes| ==> addrs[k] == nodes[(start + k) % |nodes|]
  }

  /** As many nodes as there are and may be asked, from the assigned one on; never the same twice. */
  method GetQueryNodes(nodes: seq<NodeInfo>, limit: nat, nodeId: Option<int>) returns (r: Option<seq<NodeInfo>>)
    requires nodes != [] && DistinctAddrs(nodes)
    ensures r.None? <==> nodeId.None?
    ensures r.Some? ==> |r.value| == Min(|nodes|, limit) && DistinctAddrs(r.value)
    ensures r.Some? ==> Consecutive(r.value, nodes, nodeId.value)
  {
    var nodeNum := Min(|nodes|, limit);
    if nodeId.None? {
      return None;
    }
    var start := FindNode(nodes, nodeId.value);
    var i := start;
    var addrs := [];
    for k := 0 to nodeNum
      invariant |addrs| == k && i < |nodes| && i == if start + k < |nodes| then start + k else start + k - |nodes|
      invariant forall m :: 0 <= m < k ==> addrs[m] == nodes[Around(start, m, |nodes|)]
    {
      addrs := addrs + [nodes[i]];
      if i + 1 == |nodes| {
        i := 0;
      } else {
        i := i + 1;
      }
    }
    AreConsecutive(addrs, nodes, nodeId.value, start);
    r := Some(addrs);
  }

  lemma AreConsecutive(addrs: seq<NodeInfo>, nodes: seq<NodeInfo>, id: int, start: nat)
    requires |addrs| <= |nodes| && StartsAt(nodes, id, start)
    requires forall k :: 0 <= k < |addrs| ==> addrs[k] == nodes[Around(start, k, |nodes|)]
    ensures Consecutive(addrs, nodes, id)
  {
    forall k: nat | k < |addrs| ensures addrs[k] == nodes[(start + k) % |nodes|] {
      AroundIs(start, k, |nodes|);
    }
  }

  function Around(start: nat, m: nat, n: nat): nat
    requires start < n && m < n
  {
    if start + m < n then start + m else start + m - n
  }

  lemma AroundIs(start: nat, m: nat, n: nat)
    requires start < n && m < n
    ensures Around(start, m, n) == (start + m) % n
  {
    if start + m >= n {
      DivisionIs(start + m, n, 1, start + m - n);
    } else {
      DivisionIs(start + m, n, 0, start + m);
    }
  }

  // ---------------------------------------------------------------- the whole map

  function AddSecondShardId(p: PartialIndexes, index: string, id: int): PartialIndexes {
    if index in p then p[index := p[index] + [id]] else p[index := [id]]
  }

  function AddToNode(m: NodeIndexMap, addr: string, index: string, id: int): NodeIndexMap {
    if addr in m then m[addr := AddSecondShardId(m[addr], index, id)] else m[addr := map[index := [id]]]
  }

  lemma AddToNodePart(m: NodeIndexMap, addr: string, index: string, id: int, a: string, i: string)
    ensures Part(AddToNode(m, addr, index, id), a, i) ==
            if a == addr && i == index
            then Some((if Part(m, addr, index).Some? then Part(m, addr, index).value else []) + [id])
            else Part(m, a, i)
  {
    assert [] + [id] == [id];
  }

  function NonEmpty(ids: seq<int>): Option<seq<int>> {
    if ids == [] then None else Some(ids)
  }

  ghost predicate Addressed(nodes: seq<NodeInfo>, addr: string) {
    exists j :: 0 <= j < |nodes| && nodes[j].addr == addr
  }

  /** What a node should be asked of an index that is dealt out over these nodes, after k shards. */
  ghost predicate Dealt(m: NodeIndexMap, index: string, addrs: seq<NodeInfo>, ids: seq<int>, k: nat)
    requires addrs != [] && k <= |ids|
  {
    && (forall j :: 0 <= j < |addrs| ==> Part(m, addrs[j].addr, index) == NonEmpty(Share(ids, k, j, |addrs|)))
    && (forall a :: !Addressed(addrs, a) ==> Part(m, a, index) == None)
  }

  /** Nothing changes for other indexes. */
  ghost predicate SameElsewhere(m: NodeIndexMap, m': NodeIndexMap, index: string) {
    forall a, i :: i != index ==> Part(m', a, i) == Part(m, a, i)
  }

  lemma ShareStep(m: NodeIndexMap, m': NodeIndexMap, index: string, addrs: seq<NodeInfo>, ids: seq<int>, k: nat, j: nat)
    requires addrs != [] && DistinctAddrs(addrs) && k < |ids| && j < |addrs|
    requires Part(m, addrs[j].addr, index) == NonEmpty(Share(ids, k, j, |addrs|))
    requires Part(m', addrs[j].addr, index) ==
             if j == Cursor(k, |addrs|)
             then Some((if Part(m, addrs[j].addr, index).Some? then Part(m, addrs[j].addr, index).value else []) +
                       [ids[k]])
             else Part(m, addrs[j].addr, index)
    ensures Part(m', addrs[j].addr, index) == NonEmpty(Share(ids, k + 1, j, |addrs|))
  {
    assert Share(ids, k, j, |addrs|) + [] == Share(ids, k, j, |addrs|);
  }

  lemma DealOneMore(m: NodeIndexMap, index: string, addrs: seq<NodeInfo>, ids: seq<int>, k: nat)
    requires addrs != [] && DistinctAddrs(addrs) && k < |ids| && Dealt(m, index, addrs, ids, k)
    ensures var m' := AddToNode(m, addrs[Cursor(k, |addrs|)].addr, index, ids[k]);
            Dealt(m', index, addrs, ids, k + 1) && SameElsewhere(m, m', index)
  {
    var c := Cursor(k, |addrs|);
    var m' := AddToNode(m, addrs[c].addr, index, ids[k]);
    forall a, i ensures i != index ==> Part(m', a, i) == Part(m, a, i) {
      AddToNodePart(m, addrs[c].addr, index, ids[k], a, i);
    }
    forall j | 0 <= j < |addrs| ensures Part(m', addrs[j].addr, index) == NonEmpty(Share(ids, k + 1, j, |addrs|)) {
      AddToNodePart(m, addrs[c].addr, index, ids[k], addrs[j].addr, index);
      ShareStep(m, m', index, addrs, ids, k, j);
    }
    forall a | !Addressed(addrs, a) ensures Part(m', a, index) == None {
      AddToNodePart(m, addrs[c].addr, index, ids[k], a, index);
    }
  }

  /** Deals the second shards of an index out over the nodes. */
  method DealOut(m: NodeIndexMap, index: string, addrs: seq<NodeInfo>, ids: seq<int>) returns (m': NodeIndexMap)
    requires addrs != [] && DistinctAddrs(addrs) && forall a :: Part(m, a, index) == None
    ensures Dealt(m', index, addrs, ids, |ids|) && SameElsewhere(m, m', index)
  {
    m' := m;
    var nodes := new Circle(addrs);
    for k := 0 to |ids|
      invariant nodes.cur == Cursor(k, |addrs|)
      invariant Dealt(m', index, addrs, ids, k) && SameElsewhere(m, m', index)
    {
      var node := nodes.Next();
      DealOneMore(m', index, addrs, ids, k);
      m' := AddToNode(m', node.addr, index, ids[k]);
    }
  }

  /** What should become of one index: nothing, the whole of it to its owner, or its shards dealt out. */
  ghost predicate Planned(m: NodeIndexMap, nodes: seq<NodeInfo>, index: string, metas: map<string, IndexMeta>,
                          threshold: int, limit: nat)
  {
    if index !in metas then forall a :: Part(m, a, index) == None
    else
      var info := metas[index];
      if info.shardNum != 1 || |info.secondShards| < threshold then
        info.owner.Some? && forall a :: Part(m, a, index) == if a == info.owner.value then Some([]) else None
      else
        exists addrs ::
          && |addrs| == Min(|nodes|, limit) > 0 && DistinctAddrs(addrs)
          && info.nodeId.Some? && Consecutive(addrs, nodes, info.nodeId.value)
          && Dealt(m, index, addrs, info.secondShards, |info.secondShards|)
  }

  /** An index with metadata that no node is assigned to: as a whole if it is small, as a start if it is large. */
  ghost predicate Unassigned(index: string, metas: map<string, IndexMeta>, threshold: int) {
    && index in metas
    && if metas[index].shardNum != 1 || |metas[index].secondShards| < threshold then metas[index].owner.None?
       else metas[index].nodeId.None?
  }

  lemma PlannedElsewhere(m: NodeIndexMap, m': NodeIndexMap, nodes: seq<NodeInfo>, index: string, other: string,
                         metas: map<string, IndexMeta>, threshold: int, limit: nat)
    requires Planned(m, nodes, other, metas, threshold, limit) && SameElsewhere(m, m', index) && other != index
    ensures Planned(m', nodes, other, metas, threshold, limit)
  {
    if other in metas && metas[other].shardNum == 1 && |metas[other].secondShards| >= threshold {
      var ids := metas[other].secondShards;
      var addrs :|
        && |addrs| == Min(|nodes|, limit) > 0 && DistinctAddrs(addrs)
        && metas[other].nodeId.Some? && Consecutive(addrs, nodes, metas[other].nodeId.value)
        && Dealt(m, other, addrs, ids, |ids|);
      assert Dealt(m', other, addrs, ids, |ids|);
    }
  }

  /** The whole index to one node. */
  function AddWhole(m: NodeIndexMap, addr: string, index: string): NodeIndexMap {
    if addr in m then m[addr := m[addr][index := []]] else m[addr := map[index := []]]
  }

  lemma AddWholePart(m: NodeIndexMap, addr: string, index: string)
    ensures forall a, i :: Part(AddWhole(m, addr, index), a, i) ==
                           if a == addr && i == index then Some([]) else Part(m, a, i)
  {
  }

  /** One round of calcNodeIndexMap. */
  method PlanIndex(m: NodeIndexMap, nodes: seq<NodeInfo>, index: string, metas: map<string, IndexMeta>, threshold: int,
                   limit: nat) returns (r: Option<NodeIndexMap>)
    requires nodes != [] && DistinctAddrs(nodes) && limit >= 1 && forall a :: Part(m, a, index) == None
    ensures r.Some? ==> Planned(r.value, nodes, index, metas, threshold, limit) && SameElsewhere(m, r.value, index)
    ensures r.None? <==> Unassigned(index, metas, threshold)
  {
    if index !in metas {
      return Some(m);
    }
    var info := metas[index];
    if info.shardNum != 1 || |info.secondShards| < threshold {
      if info.owner.None? {
        return None;
      }
      AddWholePart(m, info.owner.value, index);
      return Some(AddWhole(m, info.owner.value, index));
    }
    var addrs := GetQueryNodes(nodes, limit, info.nodeId);
    if addrs.None? {
      return None;
    }
    var m' := DealOut(m, index, addrs.value, info.secondShards);
    assert Dealt(m', index, addrs.value, info.secondShards, |info.secondShards|);
    return Some(m');
  }

  /** The plan for a search of several indexes; it fails exactly if an index has no node assigned. */
  method CalcNodeIndexMap(nodes: seq<NodeInfo>, indexes: seq<string>, metas: map<string, IndexMeta>, threshold: int,
                          limit: nat) returns (r: Option<NodeIndexMap>)
    requires DistinctAddrs(nodes) && NoDup(indexes) && limit >= 1
    ensures nodes == [] ==> r == Some(map[])
    ensures nodes != [] && r.Some? ==>
              forall i :: 0 <= i < |indexes| ==> Planned(r.value, nodes, indexes[i], metas, threshold, limit)
    ensures r.Some? ==> forall a, x :: x !in indexes ==> Part(r.value, a, x) == None
    ensures r.None? <==> nodes != [] && exists i :: 0 <= i < |indexes| && Unassigned(indexes[i], metas, threshold)
  {
    if nodes == [] {
      return Some(map[]);
    }
    var m: NodeIndexMap := map[];
    for i := 0 to |indexes|
      invariant forall j :: 0 <= j < i ==> Planned(m, nodes, indexes[j], metas, threshold, limit)
      invariant forall a, x :: x !in indexes[..i] ==> Part(m, a, x) == None
      invariant forall j :: 0 <= j < i ==> !Unassigned(indexes[j], metas, threshold)
    {
      ghost var before := m;
      var next := PlanIndex(m, nodes, indexes[i], metas, threshold, limit);
      if next.None? {
        return None;
      }
      m := next.value;
      forall j | 0 <= j < i ensures Planned(m, nodes, indexes[j], metas, threshold, limit) {
        PlannedElsewhere(before, m, nodes, indexes[i], indexes[j], metas, threshold, limit);
      }
      assert indexes[..i + 1] == indexes[..i] + [indexes[i]];
    }
    assert indexes[..|indexes|] == indexes;
    r := Some(m);
  }
}
