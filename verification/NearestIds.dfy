/**
 Nearest-neighbour answers: what it means for a list of ids to be the k nearest of a
 map of distances, how an exact scan produces one, and how two of them merge.
 */
module NearestIds {
  import opened Sequences

  ghost predicate RankedIds<Id>(ids: seq<Id>, dist: map<Id, real>) {
    && (forall i :: 0 <= i < |ids| ==> ids[i] in dist)
    && (forall i, j :: 0 <= i < j < |ids| ==> ids[i] != ids[j] && dist[ids[i]] <= dist[ids[j]])
  }

  /** ids are k nearest ids of dist (or all of them): sorted, without repetition, none nearer left out. */
  ghost predicate IsTopK<Id(!new)>(ids: seq<Id>, dist: map<Id, real>, k: nat) {
    && RankedIds(ids, dist)
    && |ids| == Min(k, |dist|)
    && (forall id, i :: id in dist && id !in ids && 0 <= i < |ids| ==> dist[ids[i]] <= dist[id])
  }

  ghost predicate Reports<Id>(distances: seq<real>, ids: seq<Id>, dist: map<Id, real>) {
    && |distances| == |ids|
    && forall i :: 0 <= i < |ids| ==> ids[i] in dist && distances[i] == dist[ids[i]]
  }

  /** keys lists positions without repetition, nearest first. */
  ghost predicate Ranked(keys: seq<nat>, dist: seq<real>) {
    && (forall i :: 0 <= i < |keys| ==> keys[i] < |dist|)
    && (forall i, j :: 0 <= i < j < |keys| ==> keys[i] != keys[j] && dist[keys[i]] <= dist[keys[j]])
  }

  /** keys are k nearest positions of the sequence dist. */
  ghost predicate IsNearest(keys: seq<nat>, dist: seq<real>, k: nat) {
    && Ranked(keys, dist)
    && |keys| == Min(k, |dist|)
    && (forall p: nat, i :: p < |dist| && p !in keys && 0 <= i < |keys| ==> dist[keys[i]] <= dist[p])
  }

  function Insert(keys: seq<nat>, at: nat, p: nat): (r: seq<nat>)
    requires at <= |keys|
    ensures |r| == |keys| + 1
    ensures forall i :: 0 <= i < |r| ==> r[i] == if i < at then keys[i] else if i == at then p else keys[i - 1]
  {
    keys[..at] + [p] + keys[at..]
  }

  lemma InsertHolds(keys: seq<nat>, at: nat, p: nat)
    requires at <= |keys|
    ensures forall q :: q in Insert(keys, at, p) <==> q == p || q in keys
  {
    var r := Insert(keys, at, p);
    assert r[at] == p;
    forall i | 0 <= i < |keys| ensures keys[i] in r {
      assert r[if i < at then i else i + 1] == keys[i];
    }
  }

  lemma InsertPair(dist: seq<real>, keys: seq<nat>, p: nat, at: nat, i: nat, j: nat)
    requires p < |dist| && Ranked(keys, dist) && at <= |keys| && p !in keys
    requires at < |keys| ==> dist[p] < dist[keys[at]]
    requires 0 < at ==> dist[keys[at - 1]] <= dist[p]
    requires i < j <= |keys|
    ensures var r := Insert(keys, at, p); r[i] < |dist| && r[j] < |dist| && r[i] != r[j] && dist[r[i]] <= dist[r[j]]
  {
    if j == at {
      assert i < at - 1 ==> dist[keys[i]] <= dist[keys[at - 1]];
    } else if i == at {
      assert at < j - 1 ==> dist[keys[at]] <= dist[keys[j - 1]];
    }
  }

  lemma CutIsNearest(keys: seq<nat>, dist: seq<real>, k: nat)
    requires Ranked(keys, dist) && |keys| == |dist|
    requires forall p: nat :: p < |dist| ==> p in keys
    ensures IsNearest(keys[..Min(k, |keys|)], dist, k)
  {
    var cut := keys[..Min(k, |keys|)];
    assert forall m :: 0 <= m < |cut| ==> keys[m] in cut;
    forall p: nat, i | p < |dist| && p !in cut && 0 <= i < |cut|
      ensures dist[cut[i]] <= dist[p]
    {
      assert p in keys;
      var j :| 0 <= j < |keys| && keys[j] == p;
    }
  }

  /** An exact scan: rank every position, then keep the first k. */
  method Scan(dist: seq<real>, k: nat) returns (keys: seq<nat>)
    ensures IsNearest(keys, dist, k)
  {
    keys := [];
    for n := 0 to |dist|
      invariant Ranked(keys, dist) && |keys| == n
      invariant forall p: nat :: p in keys <==> p < n
    {
      var at := n;
      while at > 0 && dist[n] < dist[keys[at - 1]]
        invariant 0 <= at <= n
        invariant at < n ==> dist[n] < dist[keys[at]]
      {
        at := at - 1;
      }
      forall i: nat, j: nat | i < j <= n { InsertPair(dist, keys, n, at, i, j); }
      InsertHolds(keys, at, n);
      keys := Insert(keys, at, n);
    }
    CutIsNearest(keys, dist, k);
    keys := keys[..Min(k, |keys|)];
  }

  // ------------------------------------------------------------- merging answers

  /** One answer ranked together with another; position by position it is at least as near as either. */
  ghost predicate IsMerge<Id(!new)>(all: seq<Id>, ids1: seq<Id>, ids2: seq<Id>, dist: map<Id, real>) {
    && RankedIds(all, dist)
    && |all| == |ids1| + |ids2|
    && (forall id :: id in all <==> id in ids1 || id in ids2)
    && RankedIds(ids1, dist) && RankedIds(ids2, dist)
    && (forall m :: 0 <= m < |ids1| ==> dist[all[m]] <= dist[ids1[m]])
    && (forall m :: 0 <= m < |ids2| ==> dist[all[m]] <= dist[ids2[m]])
  }

  /** An answer shorter than k leaves nothing out. */
  lemma ShortAnswerIsFull<Id(!new)>(ids: seq<Id>, dist: map<Id, real>, k: nat)
    requires IsTopK(ids, dist, k) && |ids| < k
    ensures forall id :: id in dist ==> id in ids
  {
    SetOfNoDup(ids);
    var held := set id | id in ids;
    assert held <= dist.Keys;
    assert |dist.Keys| == |held| + |dist.Keys - held|;
    forall id | id in dist ensures id in ids {
      assert id !in dist.Keys - held;
    }
  }

  /** What an answer leaves out is no nearer than the i-th of the first k. */
  lemma LeftOutIsFarther<Id(!new)>(ids: seq<Id>, dist: map<Id, real>, k: nat, id: Id, i: nat)
    requires IsTopK(ids, dist, k) && id in dist && id !in ids && i < k
    ensures i < |ids| && dist[ids[i]] <= dist[id]
  {
    if |ids| < k {
      ShortAnswerIsFull(ids, dist, k);
    }
  }

  /** What the merge of two answers leaves out is no nearer than the i-th of its first k. */
  lemma CutIsNearer<Id(!new)>(all: seq<Id>, ids1: seq<Id>, near: map<Id, real>, ids2: seq<Id>, far: map<Id, real>,
                              k: nat, id: Id, i: nat)
    requires near.Keys !! far.Keys
    requires IsTopK(ids1, near, k) && IsTopK(ids2, far, k) && IsMerge(all, ids1, ids2, near + far)
    requires id in near + far && i < Min(k, |all|) && id !in all[..Min(k, |all|)]
    ensures (near + far)[all[i]] <= (near + far)[id]
  {
    if id in all {
      var j :| 0 <= j < |all| && all[j] == id;
      TakeHolds(all, Min(k, |all|));
    } else if id in near {
      LeftOutIsFarther(ids1, near, k, id, i);
    } else {
      LeftOutIsFarther(ids2, far, k, id, i);
    }
  }

  lemma Apart<Id>(near: map<Id, real>, far: map<Id, real>)
    requires near.Keys !! far.Keys
    ensures |near + far| == |near| + |far|
  {
    assert (near + far).Keys == near.Keys + far.Keys;
  }

  lemma MergeIsTopK<Id(!new)>(all: seq<Id>, ids1: seq<Id>, near: map<Id, real>, ids2: seq<Id>, far: map<Id, real>,
                                k: nat)
    requires near.Keys !! far.Keys
    requires IsTopK(ids1, near, k) && IsTopK(ids2, far, k) && IsMerge(all, ids1, ids2, near + far)
    ensures IsTopK(all[..Min(k, |all|)], near + far, k)
  {
    var dist := near + far;
    var cut := all[..Min(k, |all|)];
    Apart(near, far);
    forall id, i | id in dist && id !in cut && 0 <= i < |cut| ensures dist[cut[i]] <= dist[id] {
      CutIsNearer(all, ids1, near, ids2, far, k, id, i);
    }
  }

  /** out is a merge of the first i of ids1 and the first j of ids2, and nothing left is nearer than out. */
  ghost predicate PartialMerge<Id(!new)>(out: seq<Id>, ids1: seq<Id>, i: nat, ids2: seq<Id>, j: nat,
                                         dist: map<Id, real>)
    requires i <= |ids1| && j <= |ids2|
  {
    && RankedIds(ids1, dist) && RankedIds(ids2, dist) && RankedIds(out, dist)
    && |out| == i + j
    && (forall id :: id in out <==> id in ids1[..i] || id in ids2[..j])
    && (forall m, p :: 0 <= m < |out| && i <= p < |ids1| ==> dist[out[m]] <= dist[ids1[p]])
    && (forall m, p :: 0 <= m < |out| && j <= p < |ids2| ==> dist[out[m]] <= dist[ids2[p]])
    && (forall m :: 0 <= m < |out| && m < |ids1| ==> dist[out[m]] <= dist[ids1[m]])
    && (forall m :: 0 <= m < |out| && m < |ids2| ==> dist[out[m]] <= dist[ids2[m]])
  }

  lemma TakeFirst<Id(!new)>(out: seq<Id>, ids1: seq<Id>, i: nat, ids2: seq<Id>, j: nat, dist: map<Id, real>)
    requires i < |ids1| && j <= |ids2| && PartialMerge(out, ids1, i, ids2, j, dist)
    requires ids1[i] !in ids2 && (j < |ids2| ==> dist[ids1[i]] <= dist[ids2[j]])
    ensures PartialMerge(out + [ids1[i]], ids1, i + 1, ids2, j, dist)
  {
    var id, more := ids1[i], out + [ids1[i]];
    assert ids1[..i + 1] == ids1[..i] + [id];
    assert id !in ids1[..i] && id !in ids2[..j];
    assert forall p :: j <= p < |ids2| ==> dist[id] <= dist[ids2[p]] by {
      forall p | j <= p < |ids2| ensures dist[id] <= dist[ids2[p]] {
        assert j < p ==> dist[ids2[j]] <= dist[ids2[p]];
      }
    }
    assert i + j < |ids2| ==> dist[id] <= dist[ids2[i + j]];
    assert i + j < |ids1| && 0 < j ==> dist[id] <= dist[ids1[i + j]];
  }

  lemma TakeSecond<Id(!new)>(out: seq<Id>, ids1: seq<Id>, i: nat, ids2: seq<Id>, j: nat, dist: map<Id, real>)
    requires i <= |ids1| && j < |ids2| && PartialMerge(out, ids1, i, ids2, j, dist)
    requires ids2[j] !in ids1 && (i < |ids1| ==> dist[ids2[j]] <= dist[ids1[i]])
    ensures PartialMerge(out + [ids2[j]], ids1, i, ids2, j + 1, dist)
  {
    assert PartialMerge(out, ids2, j, ids1, i, dist);
    TakeFirst(out, ids2, j, ids1, i, dist);
  }

  lemma FullMerge<Id(!new)>(out: seq<Id>, ids1: seq<Id>, ids2: seq<Id>, dist: map<Id, real>)
    requires PartialMerge(out, ids1, |ids1|, ids2, |ids2|, dist)
    ensures IsMerge(out, ids1, ids2, dist)
  {
    assert ids1[..|ids1|] == ids1 && ids2[..|ids2|] == ids2;
  }

  /** The merge loop: take the nearer head, the second list first on ties. */
  method MergeLoop<Id(==,!new)>(ids1: seq<Id>, dist1: seq<real>, ids2: seq<Id>, dist2: seq<real>,
                                ghost all: map<Id, real>)
    returns (ids: seq<Id>, dist: seq<real>)
    requires RankedIds(ids1, all) && RankedIds(ids2, all) && forall id :: id in ids1 ==> id !in ids2
    requires Reports(dist1, ids1, all) && Reports(dist2, ids2, all)
    ensures IsMerge(ids, ids1, ids2, all) && Reports(dist, ids, all)
  {
    var i, j := 0, 0;
    ids, dist := [], [];
    while i < |ids1| || j < |ids2|
      invariant 0 <= i <= |ids1| && 0 <= j <= |ids2|
      invariant PartialMerge(ids, ids1, i, ids2, j, all) && Reports(dist, ids, all)
      decreases |ids1| - i + |ids2| - j
    {
      if j == |ids2| || (i < |ids1| && dist1[i] < dist2[j]) {
        TakeFirst(ids, ids1, i, ids2, j, all);
        ids, dist, i := ids + [ids1[i]], dist + [dist1[i]], i + 1;
      } else {
        assert ids2[j] !in ids1;
        TakeSecond(ids, ids1, i, ids2, j, all);
        ids, dist, j := ids + [ids2[j]], dist + [dist2[j]], j + 1;
      }
    }
    FullMerge(ids, ids1, ids2, all);
  }

  /** Ranks two disjoint answers together and keeps the first k. */
  method MergeAnswers<Id(==,!new)>(ids1: seq<Id>, dist1: seq<real>, ids2: seq<Id>, dist2: seq<real>, k: nat,
                                   ghost near: map<Id, real>, ghost far: map<Id, real>)
    returns (ids: seq<Id>, dist: seq<real>)
    requires near.Keys !! far.Keys && IsTopK(ids1, near, k) && IsTopK(ids2, far, k)
    requires Reports(dist1, ids1, near) && Reports(dist2, ids2, far)
    ensures IsTopK(ids, near + far, k) && Reports(dist, ids, near + far)
  {
    assert forall id :: id in ids1 ==> id in near.Keys;
    assert forall id :: id in ids2 ==> id in far.Keys;
    ids, dist := MergeLoop(ids1, dist1, ids2, dist2, near + far);
    MergeIsTopK(ids, ids1, near, ids2, far, k);
    ids, dist := ids[..Min(k, |ids|)], dist[..Min(k, |ids|)];
  }
}
