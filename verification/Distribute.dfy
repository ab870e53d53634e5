/**
 Sharing the 256 index prefixes out among the alive nodes. Nodes keep what they have up to their
 quota; what is unassigned, on a dead node or above a quota goes to a pool and from there, shuffled,
 to the nodes that lack some. The result lists only the prefixes that change owner.
 */
module Distribute {
  import opened Sequences

  datatype NodeId = NodeId(num: int)

  type Prefix = string

  type Assignment = map<Prefix, NodeId>

  type Lists = map<NodeId, seq<Prefix>>

  const PARTITIONS: nat := 256
  const DIGITS := "0123456789abcdef"

  /** The two-digit hexadecimal form. */
  function Hex2(i: nat): Prefix
    requires i < PARTITIONS
  {
    [DIGITS[i / 16], DIGITS[i % 16]]
  }

  /** All prefixes in order. */
  function PrefixList(): seq<Prefix> {
    seq(PARTITIONS, i requires 0 <= i < PARTITIONS => Hex2(i))
  }

  ghost function Prefixes(): set<Prefix> {
    Elements(PrefixList())
  }

  /** How many prefixes the i-th of so many nodes gets. */
  function Quota(nodes: nat, i: nat): nat
    requires nodes > 0
  {
    PARTITIONS / nodes + if i < PARTITIONS % nodes then 1 else 0
  }

  function ListOf(lists: Lists, node: NodeId): seq<Prefix> {
    if node in lists then lists[node] else []
  }

  // ---------------------------------------------------------------- what is wanted

  function Owned(g: Assignment, node: NodeId): set<Prefix> {
    set p | p in g && g[p] == node
  }

  /** Every prefix has an alive owner and every node exactly its quota. */
  ghost predicate Balanced(full: set<Prefix>, nodes: seq<NodeId>, g: Assignment)
    requires nodes != []
  {
    && g.Keys == full
    && (forall p :: p in g ==> g[p] in nodes)
    && (forall i :: 0 <= i < |nodes| ==> |Owned(g, nodes[i])| == Quota(|nodes|, i))
  }

  /** The prefixes whose owner differs from what it was. */
  function Changed(assign: Assignment, g: Assignment): set<Prefix> {
    set p | p in g && !(p in assign && assign[p] == g[p])
  }

  // ------------------------------------------------------------------- arithmetic

  lemma DigitsDiffer(i: nat, j: nat)
    requires i < 16 && j < 16 && DIGITS[i] == DIGITS[j]
    ensures i == j
  {
  }

  lemma Hex2Injective(i: nat, j: nat)
    requires i < PARTITIONS && j < PARTITIONS && i != j
    ensures Hex2(i) != Hex2(j)
  {
    if Hex2(i) == Hex2(j) {
      assert Hex2(i)[0] == Hex2(j)[0] && Hex2(i)[1] == Hex2(j)[1];
      DigitsDiffer(i / 16, j / 16);
      DigitsDiffer(i % 16, j % 16);
      assert false;
    }
  }

  lemma PrefixCount()
    ensures |Prefixes()| == PARTITIONS
  {
    forall i: nat, j: nat | i < j < PARTITIONS ensures PrefixList()[i] != PrefixList()[j] {
      Hex2Injective(i, j);
    }
    CountElements(PrefixList());
  }

  predicate IsHexDigit(c: char) {
    '0' <= c <= '9' || 'a' <= c <= 'f'
  }

  /** The prefixes are the pairs of lower-case hexadecimal digits. */
  lemma PrefixesAre(p: Prefix)
    ensures p in Prefixes() <==> |p| == 2 && IsHexDigit(p[0]) && IsHexDigit(p[1])
  {
    if p in PrefixList() {
      var i: nat :| i < PARTITIONS && PrefixList()[i] == p;
      Hex2IsDigits(i);
    }
    if |p| == 2 && IsHexDigit(p[0]) && IsHexDigit(p[1]) {
      var i := DigitsAreHex2(p);
      assert PrefixList()[i] == p;
    }
  }

  lemma Hex2IsDigits(i: nat)
    requires i < PARTITIONS
    ensures |Hex2(i)| == 2 && IsHexDigit(Hex2(i)[0]) && IsHexDigit(Hex2(i)[1])
  {
    DigitIs(DIGITS[i / 16]);
    DigitIs(DIGITS[i % 16]);
  }

  lemma DigitsAreHex2(p: Prefix) returns (i: nat)
    requires |p| == 2 && IsHexDigit(p[0]) && IsHexDigit(p[1])
    ensures i < PARTITIONS && Hex2(i) == p
  {
    DigitIs(p[0]);
    DigitIs(p[1]);
    var a: nat :| a < 16 && DIGITS[a] == p[0];
    var b: nat :| b < 16 && DIGITS[b] == p[1];
    i := 16 * a + b;
    assert i / 16 == a && i % 16 == b;
  }

  lemma DigitIs(c: char)
    ensures IsHexDigit(c) <==> exists i: nat :: i < 16 && DIGITS[i] == c
  {
    var ds := ['0', '1', '2', '3', '4', '5', '6', '7', '8', '9', 'a', 'b', 'c', 'd', 'e', 'f'];
    assert ds == DIGITS;
    if IsHexDigit(c) {
      var i := if c <= '9' then c as int - '0' as int else c as int - 'a' as int + 10;
      assert 0 <= i < 16 && ds[i] == c;
    }
  }

  function SumQuota(nodes: nat, i: nat): nat
    requires nodes > 0
  {
    if i == 0 then 0 else SumQuota(nodes, i - 1) + Quota(nodes, i - 1)
  }

  lemma OnceMore(a: nat, i: nat)
    requires i > 0
    ensures a * i == a * (i - 1) + a
  {
  }

  lemma {:induction false} SumQuotaIs(nodes: nat, i: nat)
    requires nodes > 0
    ensures SumQuota(nodes, i) == PARTITIONS / nodes * i + Min(i, PARTITIONS % nodes)
  {
    if i > 0 {
      SumQuotaIs(nodes, i - 1);
      OnceMore(PARTITIONS / nodes, i);
    }
  }

  /** The quotas add up to all prefixes. */
  lemma QuotasAddUp(nodes: nat)
    requires nodes > 0
    ensures SumQuota(nodes, nodes) == PARTITIONS
  {
    SumQuotaIs(nodes, nodes);
  }

  // ---------------------------------------------------------- lists and pool

  /** What a node owns and has kept so far. */
  predicate Kept(nodes: seq<NodeId>, assign: Assignment, lists: Lists, p: Prefix) {
    p in assign && assign[p] in nodes && p in ListOf(lists, assign[p])
  }

  ghost predicate ListOk(assign: Assignment, lists: Lists, node: NodeId) {
    NoDup(ListOf(lists, node)) && forall p :: p in ListOf(lists, node) ==> p in assign && assign[p] == node
  }

  /** Every prefix is either in the pool or in the list of its owner. */
  ghost predicate Parts(full: set<Prefix>, nodes: seq<NodeId>, assign: Assignment, lists: Lists, pool: seq<Prefix>) {
    && NoDup(pool)
    && (forall node :: node in nodes ==> ListOk(assign, lists, node))
    && (forall p :: p in pool ==> p in full)
    && (forall p :: p in full ==> (p in pool <==> !Kept(nodes, assign, lists, p)))
  }

  lemma TrimKeepsParts(full: set<Prefix>, nodes: seq<NodeId>, assign: Assignment, lists: Lists, pool: seq<Prefix>,
                       node: NodeId, n: nat)
    requires Parts(full, nodes, assign, lists, pool) && assign.Keys <= full
    requires node in nodes && n <= |ListOf(lists, node)|
    ensures var list := ListOf(lists, node);
            Parts(full, nodes, assign, lists[node := list[..n]], pool + list[n..])
  {
    var list := ListOf(lists, node);
    var lists', pool' := lists[node := list[..n]], pool + list[n..];
    assert ListOk(assign, lists, node);
    assert list == list[..n] + list[n..];
    assert NoDup(list[n..]);
    forall p | p in list[n..] ensures p in full && p !in pool && p !in list[..n] {
      assert Kept(nodes, assign, lists, p);
    }
    forall other | other in nodes ensures ListOk(assign, lists', other) {
      assert ListOk(assign, lists, other);
    }
    forall p | p in full ensures p in pool' <==> !Kept(nodes, assign, lists', p) {
      assert p in pool <==> !Kept(nodes, assign, lists, p);
      assert p in list <==> p in list[..n] || p in list[n..];
    }
    forall i, j | 0 <= i < j < |pool'| ensures pool'[i] != pool'[j] {
      if i < |pool| && j >= |pool| {
        assert pool'[j] in list[n..] && pool'[i] in pool;
      }
    }
  }

  function Total(lists: Lists, nodes: seq<NodeId>, i: nat): nat
    requires i <= |nodes|
  {
    if i == 0 then 0 else Total(lists, nodes, i - 1) + |ListOf(lists, nodes[i - 1])|
  }

  /** The prefixes kept by the first i nodes. */
  ghost function KeptBy(full: set<Prefix>, nodes: seq<NodeId>, assign: Assignment, lists: Lists, i: nat): set<Prefix>
    requires i <= |nodes|
  {
    set p | p in full && Kept(nodes[..i], assign, lists, p)
  }

  lemma {:induction false} KeptCount(full: set<Prefix>, nodes: seq<NodeId>, assign: Assignment, lists: Lists,
                                     pool: seq<Prefix>, i: nat)
    requires Parts(full, nodes, assign, lists, pool) && NoDup(nodes) && assign.Keys <= full && i <= |nodes|
    ensures |KeptBy(full, nodes, assign, lists, i)| == Total(lists, nodes, i)
  {
    if i == 0 {
      assert KeptBy(full, nodes, assign, lists, 0) == {};
    } else {
      KeptCount(full, nodes, assign, lists, pool, i - 1);
      var node := nodes[i - 1];
      assert ListOk(assign, lists, node);
      var less, mine := KeptBy(full, nodes, assign, lists, i - 1), Elements(ListOf(lists, node));
      CountElements(ListOf(lists, node));
      assert nodes[..i] == nodes[..i - 1] + [node];
      Union(less, mine, KeptBy(full, nodes, assign, lists, i));
    }
  }

  /** Pool and lists together hold every prefix once. */
  lemma PoolCount(full: set<Prefix>, nodes: seq<NodeId>, assign: Assignment, lists: Lists, pool: seq<Prefix>)
    requires Parts(full, nodes, assign, lists, pool) && NoDup(nodes) && assign.Keys <= full
    ensures |pool| + Total(lists, nodes, |nodes|) == |full|
  {
    KeptCount(full, nodes, assign, lists, pool, |nodes|);
    assert nodes[..|nodes|] == nodes;
    var kept, rest := KeptBy(full, nodes, assign, lists, |nodes|), Elements(pool);
    CountElements(pool);
    Union(kept, rest, full);
  }

  // ------------------------------------------------------------------- filling

  /** What node i lacks of its quota, if it does not exceed it. */
  function Lacks(lists: Lists, nodes: seq<NodeId>, i: nat): int
    requires i < |nodes|
  {
    Quota(|nodes|, i) - |ListOf(lists, nodes[i])|
  }

  /** Where the pool is cut: node i gets the places from cuts[i] to cuts[i + 1], as many as it lacks. */
  ghost predicate Cuts(cuts: seq<nat>, lists: Lists, nodes: seq<NodeId>, n: nat)
    requires n <= |nodes|
  {
    && |cuts| == n + 1 && cuts[0] == 0
    && (forall i :: 0 <= i < n ==> Lacks(lists, nodes, i) >= 0 && cuts[i + 1] == cuts[i] + Lacks(lists, nodes, i))
  }

  ghost predicate Ordered(cuts: seq<nat>) {
    forall i, j :: 0 <= i <= j < |cuts| ==> cuts[i] <= cuts[j]
  }

  lemma {:induction false} CutsAreOrdered(cuts: seq<nat>, lists: Lists, nodes: seq<NodeId>, n: nat)
    requires n <= |nodes| && Cuts(cuts, lists, nodes, n)
    ensures Ordered(cuts)
    decreases n
  {
    if n > 0 {
      CutsAreOrdered(cuts[..n], lists, nodes, n - 1);
      forall i, j | 0 <= i <= j < |cuts| ensures cuts[i] <= cuts[j] {
        if j == n && i < n {
          assert cuts[..n][i] <= cuts[..n][n - 1];
        } else if j < n {
          assert cuts[..n][i] <= cuts[..n][j];
        }
      }
    }
  }

  lemma {:induction false} CutsAre(cuts: seq<nat>, lists: Lists, nodes: seq<NodeId>, n: nat, i: nat)
    requires i <= n <= |nodes| && nodes != [] && Cuts(cuts, lists, nodes, n)
    ensures cuts[i] + Total(lists, nodes, i) == SumQuota(|nodes|, i)
    decreases i
  {
    if i > 0 { CutsAre(cuts, lists, nodes, n, i - 1); }
  }

  /** The pool is as large as what the nodes lack, so it is used up exactly. */
  lemma PoolFillsGaps(full: set<Prefix>, nodes: seq<NodeId>, assign: Assignment, lists: Lists, pool: seq<Prefix>,
                      cuts: seq<nat>)
    requires Parts(full, nodes, assign, lists, pool) && NoDup(nodes) && nodes != [] && assign.Keys <= full
    requires |full| == PARTITIONS && Cuts(cuts, lists, nodes, |nodes|)
    ensures cuts[|nodes|] == |pool|
  {
    PoolCount(full, nodes, assign, lists, pool);
    CutsAre(cuts, lists, nodes, |nodes|, |nodes|);
    QuotasAddUp(|nodes|);
  }

  /** Nothing was taken from a node but what exceeded its quota. */
  ghost predicate Trimmed(nodes: seq<NodeId>, assign: Assignment, lists: Lists) {
    forall i :: 0 <= i < |nodes| ==> |ListOf(lists, nodes[i])| == Min(|Owned(assign, nodes[i])|, Quota(|nodes|, i))
  }

  /** The pool is handed out in order. */
  ghost predicate HandedOut(nodes: seq<NodeId>, cuts: seq<nat>, pool: seq<Prefix>, updates: Assignment)
    requires |cuts| == |nodes| + 1
  {
    && updates.Keys == Elements(pool)
    && forall i, x :: 0 <= i < |nodes| && cuts[i] <= x < cuts[i + 1] && x < |pool| ==> updates[pool[x]] == nodes[i]
  }

  /** Lists and pool when the pool is handed out, and how it is cut. */
  ghost predicate Ready(full: set<Prefix>, nodes: seq<NodeId>, assign: Assignment, lists: Lists, pool: seq<Prefix>,
                        cuts: seq<nat>) {
    && NoDup(nodes) && Parts(full, nodes, assign, lists, pool) && assign.Keys <= full
    && |cuts| == |nodes| + 1 && cuts[0] == 0 && cuts[|nodes|] == |pool| && Ordered(cuts)
  }

  /** Which stretch a place of the pool belongs to. */
  lemma {:induction false} StretchOf(cuts: seq<nat>, n: nat, x: nat) returns (i: nat)
    requires 0 < n < |cuts| && cuts[0] == 0 && x < cuts[n]
    ensures i < n && cuts[i] <= x < cuts[i + 1]
    decreases n
  {
    if cuts[n - 1] <= x {
      i := n - 1;
    } else {
      i := StretchOf(cuts, n - 1, x);
    }
  }

  /** Place x of the pool goes to node i exactly if it is in the stretch of node i. */
  lemma PlaceOwner(nodes: seq<NodeId>, cuts: seq<nat>, pool: seq<Prefix>, updates: Assignment, x: nat, i: nat)
    requires NoDup(nodes) && |cuts| == |nodes| + 1 && HandedOut(nodes, cuts, pool, updates)
    requires cuts[0] == 0 && Ordered(cuts) && x < |pool| == cuts[|nodes|] && i < |nodes|
    ensures pool[x] in updates && updates[pool[x]] in nodes
    ensures updates[pool[x]] == nodes[i] <==> cuts[i] <= x < cuts[i + 1]
  {
    var j := StretchOf(cuts, |nodes|, x);
    assert updates[pool[x]] == nodes[j];
    assert i < j ==> cuts[i + 1] <= cuts[j];
    assert j < i ==> cuts[j + 1] <= cuts[i];
  }

  /** Who owns a prefix in the end: the node that kept it or the one that got it from the pool. */
  lemma OwnerAfter(full: set<Prefix>, nodes: seq<NodeId>, assign: Assignment, lists: Lists, pool: seq<Prefix>,
                   cuts: seq<nat>, updates: Assignment, p: Prefix, i: nat)
    requires Ready(full, nodes, assign, lists, pool, cuts) && HandedOut(nodes, cuts, pool, updates)
    requires i < |nodes| && p in full
    ensures p in assign + updates && (assign + updates)[p] in nodes
    ensures (assign + updates)[p] == nodes[i] <==> p in ListOf(lists, nodes[i]) || p in pool[cuts[i]..cuts[i + 1]]
    ensures !(p in ListOf(lists, nodes[i]) && p in pool[cuts[i]..cuts[i + 1]])
  {
    assert ListOk(assign, lists, nodes[i]);
    assert p in pool <==> !Kept(nodes, assign, lists, p);
    if p in pool {
      var x: nat :| x < |pool| && pool[x] == p;
      PlaceOwner(nodes, cuts, pool, updates, x, i);
      InSlice(pool, cuts[i], cuts[i + 1], x);
    }
  }

  lemma OwnedAfter(full: set<Prefix>, nodes: seq<NodeId>, assign: Assignment, lists: Lists, pool: seq<Prefix>,
                   cuts: seq<nat>, updates: Assignment, i: nat)
    requires Ready(full, nodes, assign, lists, pool, cuts) && HandedOut(nodes, cuts, pool, updates) && i < |nodes|
    ensures |Owned(assign + updates, nodes[i])| == |ListOf(lists, nodes[i])| + (cuts[i + 1] - cuts[i])
  {
    var list, given := ListOf(lists, nodes[i]), pool[cuts[i]..cuts[i + 1]];
    assert ListOk(assign, lists, nodes[i]);
    CountElements(list);
    CountElements(given);
    forall p ensures (p in Owned(assign + updates, nodes[i]) <==> p in Elements(list) + Elements(given)) &&
                     !(p in Elements(list) && p in Elements(given))
    {
      if p in full {
        OwnerAfter(full, nodes, assign, lists, pool, cuts, updates, p, i);
      }
    }
    Union(Elements(list), Elements(given), Owned(assign + updates, nodes[i]));
  }

  /** Applied to the old assignment, the updates give every prefix an alive owner and every node its quota. */
  lemma BalancedAfter(full: set<Prefix>, nodes: seq<NodeId>, assign: Assignment, lists: Lists, pool: seq<Prefix>,
                      cuts: seq<nat>, updates: Assignment)
    requires nodes != [] && Ready(full, nodes, assign, lists, pool, cuts) && Cuts(cuts, lists, nodes, |nodes|)
    requires HandedOut(nodes, cuts, pool, updates)
    ensures Balanced(full, nodes, assign + updates)
  {
    var g := assign + updates;
    forall i: nat | i < |nodes| ensures |Owned(g, nodes[i])| == Quota(|nodes|, i) {
      OwnedAfter(full, nodes, assign, lists, pool, cuts, updates, i);
    }
    forall p | p in full ensures p in g && g[p] in nodes {
      OwnerAfter(full, nodes, assign, lists, pool, cuts, updates, p, 0);
    }
    assert g.Keys == full;
  }

  /** What a node gets from the pool was not its own before. */
  lemma PoolIsForeign(full: set<Prefix>, nodes: seq<NodeId>, assign: Assignment, lists: Lists, pool: seq<Prefix>,
                      cuts: seq<nat>, x: nat, i: nat)
    requires Ready(full, nodes, assign, lists, pool, cuts) && Cuts(cuts, lists, nodes, |nodes|)
    requires Trimmed(nodes, assign, lists) && x < |pool| && i < |nodes| && cuts[i] <= x < cuts[i + 1]
    ensures !(pool[x] in assign && assign[pool[x]] == nodes[i])
  {
    if pool[x] in assign && assign[pool[x]] == nodes[i] {
      assert !Kept(nodes, assign, lists, pool[x]);
      AllKeptBelowQuota(assign, lists, nodes[i], pool[x]);
      assert false;
    }
  }

  lemma AllKeptBelowQuota(assign: Assignment, lists: Lists, node: NodeId, p: Prefix)
    requires ListOk(assign, lists, node) && p in Owned(assign, node) && p !in ListOf(lists, node)
    ensures |ListOf(lists, node)| < |Owned(assign, node)|
  {
    var kept := Elements(ListOf(lists, node));
    CountElements(ListOf(lists, node));
    Larger(kept + {p}, Owned(assign, node));
  }

  // ---------------------------------------------------------------- least change

  /** What another assignment leaves as it was at the first i nodes. */
  ghost function Same(assign: Assignment, g: Assignment, nodes: seq<NodeId>, i: nat): set<Prefix>
    requires i <= |nodes|
  {
    set p | p in g && p in assign && assign[p] == g[p] && g[p] in nodes[..i]
  }

  lemma SameAtNode(assign: Assignment, g: Assignment, nodes: seq<NodeId>, i: nat)
    requires i < |nodes|
    ensures |Same(assign, g, nodes, i + 1)| <=
            |Same(assign, g, nodes, i)| + Min(|Owned(assign, nodes[i])|, |Owned(g, nodes[i])|)
  {
    var less, mine := Same(assign, g, nodes, i), Owned(assign, nodes[i]) * Owned(g, nodes[i]);
    Larger(mine, Owned(assign, nodes[i]));
    Larger(mine, Owned(g, nodes[i]));
    assert nodes[..i + 1] == nodes[..i] + [nodes[i]];
    Larger(Same(assign, g, nodes, i + 1), less + mine);
    assert |less + mine| <= |less| + |mine|;
  }

  lemma {:induction false} SameIsBounded(full: set<Prefix>, nodes: seq<NodeId>, assign: Assignment, lists: Lists,
                                         g: Assignment, i: nat)
    requires nodes != [] && Balanced(full, nodes, g) && Trimmed(nodes, assign, lists) && i <= |nodes|
    ensures |Same(assign, g, nodes, i)| <= Total(lists, nodes, i)
  {
    if i == 0 {
      assert Same(assign, g, nodes, 0) == {};
    } else {
      SameIsBounded(full, nodes, assign, lists, g, i - 1);
      var node := nodes[i - 1];
      SameAtNode(assign, g, nodes, i - 1);
      assert |ListOf(lists, node)| == Min(|Owned(assign, node)|, Quota(|nodes|, i - 1));
    }
  }

  /** No assignment with the same quotas changes fewer owners than there are prefixes in the pool. */
  lemma PoolIsLeast(full: set<Prefix>, nodes: seq<NodeId>, assign: Assignment, lists: Lists, pool: seq<Prefix>,
                    g: Assignment)
    requires nodes != [] && NoDup(nodes) && Parts(full, nodes, assign, lists, pool) && assign.Keys <= full
    requires Trimmed(nodes, assign, lists) && Balanced(full, nodes, g)
    ensures |pool| <= |Changed(assign, g)|
  {
    SameIsBounded(full, nodes, assign, lists, g, |nodes|);
    PoolCount(full, nodes, assign, lists, pool);
    assert nodes[..|nodes|] == nodes;
    Union(Changed(assign, g), Same(assign, g, nodes, |nodes|), full);
  }

  // ------------------------------------------------------------------ the allocator

  method FullAssigns() returns (full: set<Prefix>)
    ensures full == Prefixes()
  {
    full := {};
    for i := 0 to PARTITIONS
      invariant full == Elements(PrefixList()[..i])
    {
      ElementsOneMore(PrefixList(), i);
      full := full + {Hex2(i)};
    }
    assert PrefixList()[..PARTITIONS] == PrefixList();
  }

  /** The prefixes of every alive node, in any order. */
  method GroupByNode(nodes: seq<NodeId>, assign: Assignment) returns (lists: Lists)
    ensures forall node :: node in nodes ==>
              NoDup(ListOf(lists, node)) && Elements(ListOf(lists, node)) == Owned(assign, node)
  {
    lists := map[];
    var todo := assign.Keys;
    while todo != {}
      invariant todo <= assign.Keys
      invariant forall node :: node in nodes ==> Grouped(assign, assign.Keys - todo, lists, node)
      decreases |todo|
    {
      var p :| p in todo;
      var node := assign[p];
      if node in nodes {
        forall n | n in nodes
          ensures Grouped(assign, assign.Keys - todo + {p}, lists[node := ListOf(lists, node) + [p]], n)
        {
          GroupOneMore(assign, assign.Keys - todo, lists, p, n);
        }
        lists := lists[node := ListOf(lists, node) + [p]];
      } else {
        forall n | n in nodes ensures Grouped(assign, assign.Keys - todo + {p}, lists, n) {
          assert Grouped(assign, assign.Keys - todo, lists, n);
        }
      }
      todo := todo - {p};
      assert assign.Keys - todo == assign.Keys - (todo + {p}) + {p};
    }
  }

  /** The list of a node holds what it owns among the prefixes seen. */
  ghost predicate Grouped(assign: Assignment, seen: set<Prefix>, lists: Lists, node: NodeId) {
    && NoDup(ListOf(lists, node))
    && forall p :: p in ListOf(lists, node) <==> p in seen && p in assign && assign[p] == node
  }

  lemma GroupOneMore(assign: Assignment, seen: set<Prefix>, lists: Lists, p: Prefix, node: NodeId)
    requires p in assign && p !in seen && Grouped(assign, seen, lists, node)
    ensures Grouped(assign, seen + {p}, lists[assign[p] := ListOf(lists, assign[p]) + [p]], node)
  {
  }

  /** The prefixes that no alive node owns, in any order. */
  method Orphans(full: set<Prefix>, nodes: seq<NodeId>, assign: Assignment) returns (pool: seq<Prefix>)
    ensures NoDup(pool) && forall p :: p in pool <==> p in full && !(p in assign && assign[p] in nodes)
  {
    pool := [];
    var todo := full;
    while todo != {}
      invariant todo <= full && NoDup(pool)
      invariant forall p :: p in pool <==> p in full - todo && !(p in assign && assign[p] in nodes)
      decreases |todo|
    {
      var p :| p in todo;
      if !(p in assign && assign[p] in nodes) {
        pool := pool + [p];
      }
      todo := todo - {p};
    }
  }

  /** The first n nodes have been trimmed. */
  ghost predicate TrimmedTo(nodes: seq<NodeId>, assign: Assignment, lists: Lists, n: nat) {
    forall i :: 0 <= i < |nodes| ==>
      |ListOf(lists, nodes[i])| ==
      if i < n then Min(|Owned(assign, nodes[i])|, Quota(|nodes|, i)) else |Owned(assign, nodes[i])|
  }

  lemma TrimOneMore(nodes: seq<NodeId>, assign: Assignment, lists: Lists, i: nat)
    requires i < |nodes| && NoDup(nodes) && TrimmedTo(nodes, assign, lists, i)
    ensures var n, list := Quota(|nodes|, i), ListOf(lists, nodes[i]);
            TrimmedTo(nodes, assign, if |list| > n then lists[nodes[i] := list[..n]] else lists, i + 1)
  {
  }

  /** Takes from every node what exceeds its quota. */
  method Trim(ghost full: set<Prefix>, nodes: seq<NodeId>, ghost assign: Assignment, lists: Lists, pool: seq<Prefix>)
    returns (lists': Lists, pool': seq<Prefix>)
    requires nodes != [] && NoDup(nodes) && assign.Keys <= full && Parts(full, nodes, assign, lists, pool)
    requires forall node :: node in nodes ==> |ListOf(lists, node)| == |Owned(assign, node)|
    ensures Parts(full, nodes, assign, lists', pool') && Trimmed(nodes, assign, lists')
  {
    lists', pool' := lists, pool;
    for i := 0 to |nodes|
      invariant Parts(full, nodes, assign, lists', pool')
      invariant TrimmedTo(nodes, assign, lists', i)
    {
      var n, list := Quota(|nodes|, i), ListOf(lists', nodes[i]);
      TrimOneMore(nodes, assign, lists', i);
      if |list| > n {
        TrimKeepsParts(full, nodes, assign, lists', pool', nodes[i], n);
        pool' := pool' + list[n..];
        lists' := lists'[nodes[i] := list[..n]];
      }
    }
  }

  /** An arbitrary reordering, by swaps from the end. */
  method Shuffle(pool: seq<Prefix>) returns (r: seq<Prefix>)
    requires NoDup(pool)
    ensures |r| == |pool| && NoDup(r) && forall p :: p in r <==> p in pool
  {
    r := pool;
    var i := |pool| - 1;
    while i > 0
      invariant i < |pool| == |r| || pool == r == []
      invariant NoDup(r) && forall p :: p in r <==> p in pool
      decreases i
    {
      var j :| 0 <= j <= i;
      SwapKeepsElements(r, i, j);
      SwapKeepsNoDup(r, i, j);
      r := r[i := r[j]][j := r[i]];
      i := i - 1;
    }
  }

  /** Where the pool will be cut. */
  lemma {:induction false} MakeCuts(nodes: seq<NodeId>, assign: Assignment, lists: Lists, n: nat)
    returns (cuts: seq<nat>)
    requires n <= |nodes| && Trimmed(nodes, assign, lists)
    ensures Cuts(cuts, lists, nodes, n)
    decreases n
  {
    if n == 0 {
      cuts := [0];
    } else {
      cuts := MakeCuts(nodes, assign, lists, n - 1);
      cuts := cuts + [cuts[n - 1] + Lacks(lists, nodes, n - 1)];
    }
  }

  /** The nodes that lacked some have their list and their stretch of the pool. */
  ghost predicate Filled(nodes: seq<NodeId>, lists: Lists, pool: seq<Prefix>, cuts: seq<nat>, result: Lists, n: nat)
    requires n <= |nodes| && n < |cuts| && Ordered(cuts) && forall i :: 0 <= i < |cuts| ==> cuts[i] <= |pool|
  {
    && (forall node :: node in result ==> node in nodes[..n])
    && (forall i :: 0 <= i < n && cuts[i] == cuts[i + 1] ==> nodes[i] !in result)
    && (forall i :: 0 <= i < n && cuts[i] < cuts[i + 1] ==>
          nodes[i] in result && result[nodes[i]] == ListOf(lists, nodes[i]) + pool[cuts[i]..cuts[i + 1]])
  }

  lemma FillOneMore(nodes: seq<NodeId>, lists: Lists, pool: seq<Prefix>, cuts: seq<nat>, result: Lists, i: nat)
    requires i < |nodes| && i + 1 < |cuts| && Ordered(cuts) && NoDup(nodes)
    requires forall i :: 0 <= i < |cuts| ==> cuts[i] <= |pool|
    requires Filled(nodes, lists, pool, cuts, result, i)
    ensures Filled(nodes, lists, pool, cuts,
                   if cuts[i] == cuts[i + 1] then result
                   else result[nodes[i] := ListOf(lists, nodes[i]) + pool[cuts[i]..cuts[i + 1]]], i + 1)
  {
    assert nodes[..i + 1] == nodes[..i] + [nodes[i]];
  }

  /** The first n nodes have been served and the rest of the pool is left. */
  ghost predicate FilledTo(nodes: seq<NodeId>, lists: Lists, pool: seq<Prefix>, cuts: seq<nat>, result: Lists,
                           rest: seq<Prefix>, n: nat)
  {
    && n <= |nodes| && |cuts| == |nodes| + 1 && Ordered(cuts) && (forall i :: 0 <= i < |cuts| ==> cuts[i] <= |pool|)
    && Filled(nodes, lists, pool, cuts, result, n) && rest == pool[cuts[n]..]
  }

  lemma CutAgain(pool: seq<Prefix>, from: nat, upTo: nat)
    requires from <= upTo <= |pool|
    ensures pool[from..][..upTo - from] == pool[from..upTo] && pool[from..][upTo - from..] == pool[upTo..]
  {
  }

  /** Serving one node; the slice it is given is in range. */
  lemma ServeOneMore(nodes: seq<NodeId>, lists: Lists, pool: seq<Prefix>, cuts: seq<nat>, result: Lists,
                     rest: seq<Prefix>, i: nat)
    requires NoDup(nodes) && i < |nodes| && FilledTo(nodes, lists, pool, cuts, result, rest, i)
    requires Cuts(cuts, lists, nodes, |nodes|)
    ensures var m, list := Lacks(lists, nodes, i), ListOf(lists, nodes[i]);
            && 0 <= m <= |rest|
            && FilledTo(nodes, lists, pool, cuts, if m != 0 then result[nodes[i] := list + rest[..m]] else result,
                        rest[m..], i + 1)
  {
    assert cuts[i + 1] == cuts[i] + Lacks(lists, nodes, i);
    CutAgain(pool, cuts[i], cuts[i + 1]);
    FillOneMore(nodes, lists, pool, cuts, result, i);
  }

  /** Hands out the pool; every slice is in range and nothing is left in the end. */
  method Fill(nodes: seq<NodeId>, lists: Lists, pool: seq<Prefix>, ghost cuts: seq<nat>)
    returns (result: Lists, rest: seq<Prefix>)
    requires NoDup(nodes) && Cuts(cuts, lists, nodes, |nodes|) && Ordered(cuts) && cuts[|nodes|] == |pool|
    ensures Filled(nodes, lists, pool, cuts, result, |nodes|)
    ensures rest == []
  {
    result, rest := map[], pool;
    for i := 0 to |nodes|
      invariant FilledTo(nodes, lists, pool, cuts, result, rest, i)
    {
      var n, list := Quota(|nodes|, i), ListOf(lists, nodes[i]);
      ServeOneMore(nodes, lists, pool, cuts, result, rest, i);
      if n != |list| {
        var m := n - |list|;
        result := result[nodes[i] := list + rest[..m]];
        rest := rest[m..];
      }
    }
  }

  /** The updates name the new owners, and only those. */
  ghost predicate DiffOf(assign: Assignment, result: Lists, updates: Assignment) {
    && (forall node, p :: node in result && p in result[node] && !(p in assign && assign[p] == node) ==>
          p in updates && updates[p] == node)
    && (forall p :: p in updates ==>
          updates[p] in result && p in result[updates[p]] && !(p in assign && assign[p] == updates[p]))
  }

  ghost predicate Disjoint(result: Lists) {
    forall a, b, p :: a in result && b in result && p in result[a] && p in result[b] ==> a == b
  }

  method Diff(assign: Assignment, result: Lists) returns (updates: Assignment)
    requires Disjoint(result)
    ensures DiffOf(assign, result, updates)
  {
    updates := map[];
    var todo := result.Keys;
    ghost var done: Lists := map[];
    while todo != {}
      invariant todo <= result.Keys && done == result - todo
      invariant DiffOf(assign, done, updates)
      decreases |todo|
    {
      var node :| node in todo;
      updates := DiffNode(assign, done, node, result[node], updates);
      todo := todo - {node};
      done := done[node := result[node]];
    }
    assert done == result;
  }

  method DiffNode(assign: Assignment, ghost done: Lists, node: NodeId, partitions: seq<Prefix>, updates: Assignment)
    returns (r: Assignment)
    requires node !in done && Disjoint(done[node := partitions]) && DiffOf(assign, done, updates)
    ensures DiffOf(assign, done[node := partitions], r)
  {
    r := updates;
    assert done[node := []].Keys == done.Keys + {node};
    for i := 0 to |partitions|
      invariant DiffOf(assign, done[node := partitions[..i]], r)
    {
      var p := partitions[i];
      DiffOneMore(assign, done, node, partitions, r, i);
      if !(p in assign && assign[p] == node) {
        r := r[p := node];
      }
    }
    assert partitions[..|partitions|] == partitions;
  }

  lemma DiffOneMore(assign: Assignment, done: Lists, node: NodeId, partitions: seq<Prefix>, r: Assignment, i: nat)
    requires node !in done && Disjoint(done[node := partitions]) && i < |partitions|
    requires DiffOf(assign, done[node := partitions[..i]], r)
    ensures var p := partitions[i];
            DiffOf(assign, done[node := partitions[..i + 1]],
                   if p in assign && assign[p] == node then r else r[p := node])
  {
    var p, all := partitions[i], done[node := partitions];
    assert partitions[..i + 1] == partitions[..i] + [p];
    forall other | other in done ensures p !in done[other] {
      assert all[other] == done[other] && p in all[node];
    }
    var less, more := done[node := partitions[..i]], done[node := partitions[..i + 1]];
    var r' := if p in assign && assign[p] == node then r else r[p := node];
    forall n, q | n in more && q in more[n] && !(q in assign && assign[q] == n) ensures q in r' && r'[q] == n {
      assert n in less && (q in less[n] || (n == node && q == p));
    }
    forall q | q in r' ensures r'[q] in more && q in more[r'[q]] && !(q in assign && assign[q] == r'[q]) {
      assert q != p ==> r[q] in less && q in less[r[q]];
    }
  }

  lemma FilledHolds(full: set<Prefix>, nodes: seq<NodeId>, assign: Assignment, lists: Lists, pool: seq<Prefix>,
                    cuts: seq<nat>, result: Lists, i: nat, p: Prefix)
    requires Ready(full, nodes, assign, lists, pool, cuts) && Filled(nodes, lists, pool, cuts, result, |nodes|)
    requires i < |nodes| && nodes[i] in result && p in result[nodes[i]]
    ensures if p in pool then exists x :: 0 <= x < |pool| && pool[x] == p && cuts[i] <= x < cuts[i + 1]
            else p in assign && assign[p] == nodes[i]
  {
    var list, given := ListOf(lists, nodes[i]), pool[cuts[i]..cuts[i + 1]];
    assert ListOk(assign, lists, nodes[i]);
    if p in given {
      var y :| 0 <= y < |given| && given[y] == p;
      assert pool[cuts[i] + y] == p;
    } else {
      assert Kept(nodes, assign, lists, p);
    }
  }

  lemma ResultIsDisjoint(full: set<Prefix>, nodes: seq<NodeId>, assign: Assignment, lists: Lists, pool: seq<Prefix>,
                         cuts: seq<nat>, result: Lists)
    requires Ready(full, nodes, assign, lists, pool, cuts) && Filled(nodes, lists, pool, cuts, result, |nodes|)
    ensures Disjoint(result)
  {
    assert nodes[..|nodes|] == nodes;
    forall a, b, p | a in result && b in result && p in result[a] && p in result[b] ensures a == b {
      var i :| 0 <= i < |nodes| && nodes[i] == a;
      var j :| 0 <= j < |nodes| && nodes[j] == b;
      FilledHolds(full, nodes, assign, lists, pool, cuts, result, i, p);
      FilledHolds(full, nodes, assign, lists, pool, cuts, result, j, p);
      if p in pool {
        var x: nat :| x < |pool| && pool[x] == p && cuts[i] <= x < cuts[i + 1];
        StretchesAreApart(cuts, i, j, x);
      }
    }
  }

  lemma StretchesAreApart(cuts: seq<nat>, i: nat, j: nat, x: nat)
    requires Ordered(cuts) && i + 1 < |cuts| && j + 1 < |cuts| && cuts[i] <= x < cuts[i + 1] &&
             cuts[j] <= x < cuts[j + 1]
    ensures i == j
  {
  }

  lemma PlaceIsFilled(nodes: seq<NodeId>, lists: Lists, pool: seq<Prefix>, cuts: seq<nat>, result: Lists, i: nat,
                      x: nat)
    requires |cuts| == |nodes| + 1 && Ordered(cuts) && cuts[|nodes|] == |pool| && NoDup(pool)
    requires Filled(nodes, lists, pool, cuts, result, |nodes|) && i < |nodes| && cuts[i] <= x < cuts[i + 1]
    ensures x < |pool| && nodes[i] in result && pool[x] in result[nodes[i]]
  {
    InSlice(pool, cuts[i], cuts[i + 1], x);
  }

  lemma PlaceIsUpdated(full: set<Prefix>, nodes: seq<NodeId>, assign: Assignment, lists: Lists, pool: seq<Prefix>,
                       cuts: seq<nat>, result: Lists, updates: Assignment, i: nat, x: nat)
    requires Ready(full, nodes, assign, lists, pool, cuts) && Cuts(cuts, lists, nodes, |nodes|)
    requires Trimmed(nodes, assign, lists) && Filled(nodes, lists, pool, cuts, result, |nodes|)
    requires DiffOf(assign, result, updates) && i < |nodes| && x < |pool| && cuts[i] <= x < cuts[i + 1]
    ensures pool[x] in updates && updates[pool[x]] == nodes[i]
  {
    PoolIsForeign(full, nodes, assign, lists, pool, cuts, x, i);
    PlaceIsFilled(nodes, lists, pool, cuts, result, i, x);
  }

  lemma UpdatesComeFromPool(full: set<Prefix>, nodes: seq<NodeId>, assign: Assignment, lists: Lists, pool: seq<Prefix>,
                            cuts: seq<nat>, result: Lists, updates: Assignment, p: Prefix)
    requires Ready(full, nodes, assign, lists, pool, cuts) && Filled(nodes, lists, pool, cuts, result, |nodes|)
    requires DiffOf(assign, result, updates) && p in updates
    ensures p in pool
  {
    assert nodes[..|nodes|] == nodes;
    var i :| 0 <= i < |nodes| && nodes[i] == updates[p];
    FilledHolds(full, nodes, assign, lists, pool, cuts, result, i, p);
  }

  /** The updates are the pool as it was handed out. */
  lemma DiffHandsOut(full: set<Prefix>, nodes: seq<NodeId>, assign: Assignment, lists: Lists, pool: seq<Prefix>,
                     cuts: seq<nat>, result: Lists, updates: Assignment)
    requires Ready(full, nodes, assign, lists, pool, cuts) && Cuts(cuts, lists, nodes, |nodes|)
    requires Trimmed(nodes, assign, lists) && Filled(nodes, lists, pool, cuts, result, |nodes|)
    requires DiffOf(assign, result, updates)
    ensures HandedOut(nodes, cuts, pool, updates)
  {
    forall i: nat, x: nat | i < |nodes| && cuts[i] <= x < cuts[i + 1] && x < |pool|
      ensures pool[x] in updates && updates[pool[x]] == nodes[i]
    {
      PlaceIsUpdated(full, nodes, assign, lists, pool, cuts, result, updates, i, x);
    }
    forall p ensures p in updates <==> p in pool {
      if p in pool {
        var x: nat :| x < |pool| && pool[x] == p;
        var i := StretchOf(cuts, |nodes|, x);
        PlaceIsUpdated(full, nodes, assign, lists, pool, cuts, result, updates, i, x);
      }
      if p in updates {
        UpdatesComeFromPool(full, nodes, assign, lists, pool, cuts, result, updates, p);
      }
    }
    SameElements(updates.Keys, pool);
  }

  lemma SameElements<T(!new)>(s: set<T>, xs: seq<T>)
    requires forall x :: x in s <==> x in xs
    ensures s == Elements(xs)
  {
  }

  /** Balanced, without a change that is none, and with as few changes as any balanced assignment. */
  ghost predicate Redistributes(full: set<Prefix>, nodes: seq<NodeId>, assign: Assignment, updates: Assignment)
    requires nodes != []
  {
    && Balanced(full, nodes, assign + updates)
    && updates.Keys == Changed(assign, assign + updates)
    && forall g :: Balanced(full, nodes, g) ==> |updates| <= |Changed(assign, g)|
  }

  lemma UpdatesAreChanges(full: set<Prefix>, nodes: seq<NodeId>, assign: Assignment, lists: Lists, pool: seq<Prefix>,
                          cuts: seq<nat>, updates: Assignment)
    requires nodes != [] && Ready(full, nodes, assign, lists, pool, cuts) && Cuts(cuts, lists, nodes, |nodes|)
    requires Trimmed(nodes, assign, lists) && HandedOut(nodes, cuts, pool, updates)
    ensures updates.Keys == Changed(assign, assign + updates)
  {
    forall p | p in updates ensures !(p in assign && assign[p] == updates[p]) {
      var x: nat :| x < |pool| && pool[x] == p;
      var i := StretchOf(cuts, |nodes|, x);
      assert updates[pool[x]] == nodes[i];
      PoolIsForeign(full, nodes, assign, lists, pool, cuts, x, i);
    }
    ChangedKeys(assign, updates);
  }

  lemma ChangedKeys(assign: Assignment, updates: Assignment)
    requires forall p :: p in updates ==> !(p in assign && assign[p] == updates[p])
    ensures updates.Keys == Changed(assign, assign + updates)
  {
  }

  lemma HandedOutRedistributes(full: set<Prefix>, nodes: seq<NodeId>, assign: Assignment, lists: Lists,
                               pool: seq<Prefix>, cuts: seq<nat>, updates: Assignment)
    requires nodes != [] && Ready(full, nodes, assign, lists, pool, cuts) && Cuts(cuts, lists, nodes, |nodes|)
    requires Trimmed(nodes, assign, lists) && HandedOut(nodes, cuts, pool, updates)
    ensures Redistributes(full, nodes, assign, updates)
  {
    BalancedAfter(full, nodes, assign, lists, pool, cuts, updates);
    UpdatesAreChanges(full, nodes, assign, lists, pool, cuts, updates);
    CountElements(pool);
    assert |updates| == |updates.Keys|;
    forall g | Balanced(full, nodes, g) ensures |updates| <= |Changed(assign, g)| {
      PoolIsLeast(full, nodes, assign, lists, pool, g);
    }
  }

  /** The allocator, whatever the order of maps and the shuffle. */
  method Distribute(nodes: seq<NodeId>, assign: Assignment) returns (updates: Assignment)
    requires nodes != [] && NoDup(nodes) && assign.Keys <= Prefixes()
    ensures Redistributes(Prefixes(), nodes, assign, updates)
    ensures forall i :: 0 <= i < |nodes| ==>
              |Owned(assign + updates, nodes[i])| == 256 / |nodes| + if i < 256 % |nodes| then 1 else 0
  {
    var full := FullAssigns();
    PrefixCount();
    var lists := GroupByNode(nodes, assign);
    var pool := Orphans(full, nodes, assign);
    GroupedParts(full, nodes, assign, lists, pool);
    lists, pool := Trim(full, nodes, assign, lists, pool);
    ghost var cuts := MakeCuts(nodes, assign, lists, |nodes|);
    CutsAreOrdered(cuts, lists, nodes, |nodes|);
    PoolFillsGaps(full, nodes, assign, lists, pool, cuts);
    if |pool| == 0 {
      HandedOutRedistributes(full, nodes, assign, lists, pool, cuts, map[]);
      return map[];
    }
    ghost var unshuffled := pool;
    pool := Shuffle(pool);
    ShuffleKeepsParts(full, nodes, assign, lists, unshuffled, pool);
    var result, rest := Fill(nodes, lists, pool, cuts);
    ResultIsDisjoint(full, nodes, assign, lists, pool, cuts, result);
    updates := Diff(assign, result);
    DiffHandsOut(full, nodes, assign, lists, pool, cuts, result, updates);
    HandedOutRedistributes(full, nodes, assign, lists, pool, cuts, updates);
  }

  lemma GroupedParts(full: set<Prefix>, nodes: seq<NodeId>, assign: Assignment, lists: Lists, pool: seq<Prefix>)
    requires forall node :: node in nodes ==>
               NoDup(ListOf(lists, node)) && Elements(ListOf(lists, node)) == Owned(assign, node)
    requires NoDup(pool) && forall p :: p in pool <==> p in full && !(p in assign && assign[p] in nodes)
    ensures Parts(full, nodes, assign, lists, pool)
    ensures forall node :: node in nodes ==> |ListOf(lists, node)| == |Owned(assign, node)|
  {
    forall node | node in nodes ensures ListOk(assign, lists, node) && |ListOf(lists, node)| == |Owned(assign, node)| {
      CountElements(ListOf(lists, node));
      forall p ensures p in ListOf(lists, node) <==> p in Owned(assign, node) {
        assert p in ListOf(lists, node) <==> p in Elements(ListOf(lists, node));
      }
    }
    forall p | p in full ensures p in pool <==> !Kept(nodes, assign, lists, p) {
      if p in assign && assign[p] in nodes {
        assert p in Owned(assign, assign[p]);
        assert p in Elements(ListOf(lists, assign[p]));
      }
    }
  }

  lemma ShuffleKeepsParts(full: set<Prefix>, nodes: seq<NodeId>, assign: Assignment, lists: Lists, pool: seq<Prefix>,
                          pool': seq<Prefix>)
    requires Parts(full, nodes, assign, lists, pool) && NoDup(pool') && forall p :: p in pool' <==> p in pool
    ensures Parts(full, nodes, assign, lists, pool')
  {
  }

  /** Distributing again, on the updated map, changes nothing. */
  lemma SecondCallReturnsNothing(nodes: seq<NodeId>, assign: Assignment, updates: Assignment, again: Assignment)
    requires nodes != [] && Redistributes(Prefixes(), nodes, assign, updates) &&
             Redistributes(Prefixes(), nodes, assign + updates, again)
    ensures again == map[]
  {
    var g := assign + updates;
    assert Changed(g, g) == {};
    assert |again| == 0;
  }
}
