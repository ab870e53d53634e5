/**
 Searching a segment: an exact scan of the overlay, an index query filtered by docTS, and a
 merge of the two. If the index answers exactly, the result is the true top k of the view.
 */
module HnswSearch {
  import opened Wrappers
  import opened HnswProtocol
  import HnswSafety
  import opened Sequences
  import opened Metric
  import opened NearestIds
  import opened VectorCache
  import opened HnswSegment

  ghost function Distances<Id(!new)>(query: Vec, m: map<Id, Vec>): map<Id, real>
    requires OfDims(m, |query|)
  {
    map id | id in m :: L2sq(query, m[id])
  }

  lemma DistancesCount<Id(!new)>(query: Vec, m: map<Id, Vec>)
    requires OfDims(m, |query|)
    ensures |Distances(query, m)| == |m|
  {
    assert Distances(query, m).Keys == m.Keys;
  }

  // ------------------------------------------------------- filtering an index answer

  /** Asking for k plus the number of hidden ids leaves k ids, or every live one. */
  lemma FilterLeavesEnough<Id(!new)>(keys: seq<Id>, indexed: set<Id>, hidden: set<Id>, k: nat)
    requires NoDup(keys) && |keys| == Min(k + |hidden|, |indexed|) && forall id :: id in keys ==> id in indexed
    ensures |(set id | id in keys) - hidden| >= Min(k, |indexed - hidden|)
  {
    var got := set id | id in keys;
    SetOfNoDup(keys);
    if |keys| == |indexed| {
      assert got <= indexed;
      assert |indexed| == |got| + |indexed - got|;
      assert got == indexed;
    } else {
      assert |got| == |got - hidden| + |got * hidden|;
      assert |hidden| == |got * hidden| + |hidden - got|;
    }
  }

  /** What a query of the index yields for the documents outside the overlay. */
  ghost predicate IndexAnswer<Id(!new)>(keys: seq<Id>, indexed: map<Id, real>, live: map<Id, real>, hidden: set<Id>,
                                        k: nat)
  {
    && IsTopK(keys, indexed, k + |hidden|)
    && (forall id :: id in live <==> id in indexed && id !in hidden)
    && (forall id :: id in live ==> live[id] == indexed[id])
  }

  ghost function Candidates<Id>(keys: seq<Id>, live: map<Id, real>): map<Id, real> {
    map id | id in live && id in keys :: live[id]
  }

  lemma EnoughCandidates<Id(!new)>(keys: seq<Id>, indexed: map<Id, real>, live: map<Id, real>, hidden: set<Id>, k: nat)
    requires IndexAnswer(keys, indexed, live, hidden, k)
    ensures Candidates(keys, live) == live || k <= |Candidates(keys, live)| <= |live|
  {
    var candidates := Candidates(keys, live);
    FilterLeavesEnough(keys, indexed.Keys, hidden, k);
    assert (set id | id in keys) - hidden == candidates.Keys;
    assert live.Keys == indexed.Keys - hidden;
    LargeSubset(candidates.Keys, live.Keys, k);
  }

  lemma LargeSubset<Id>(part: set<Id>, all: set<Id>, k: nat)
    requires part <= all && |part| >= Min(k, |all|)
    ensures part == all || k <= |part| <= |all|
  {
    assert |all| == |part| + |all - part|;
    if |all - part| == 0 { assert part == all; }
  }

  /** No live id that the index left out is nearer than a candidate. */
  lemma LeftOutIsFarther<Id(!new)>(keys: seq<Id>, indexed: map<Id, real>, live: map<Id, real>, hidden: set<Id>, k: nat,
                                   id: Id, candidate: Id)
    requires IndexAnswer(keys, indexed, live, hidden, k)
    requires id in live && id !in keys && candidate in live && candidate in keys
    ensures live[candidate] <= live[id]
  {
    var j :| 0 <= j < |keys| && keys[j] == candidate;
    assert indexed[keys[j]] <= indexed[id];
  }

  /**
   The nearest k among the unhidden ids of an exact answer for k + |hidden| are the nearest k
   of everything unhidden, even though the index may hold stale vectors for hidden ids.
   */
  lemma CandidatesSuffice<Id(!new)>(keys: seq<Id>, indexed: map<Id, real>, live: map<Id, real>, hidden: set<Id>, k: nat,
                                    ids: seq<Id>)
    requires IndexAnswer(keys, indexed, live, hidden, k) && IsTopK(ids, Candidates(keys, live), k)
    ensures IsTopK(ids, live, k)
  {
    EnoughCandidates(keys, indexed, live, hidden, k);
    var candidates := Candidates(keys, live);
    if candidates != live {
      forall id, i | id in live && id !in ids && 0 <= i < |ids|
        ensures live[ids[i]] <= live[id]
      {
        if id in keys {
          assert id in candidates;
        } else {
          LeftOutIsFarther(keys, indexed, live, hidden, k, id, ids[i]);
        }
      }
    }
  }

  // ------------------------------------------------------------------ exact search

  /** ids and vectors list the entries of m, each once. */
  ghost predicate Lists<Id(!new)>(ids: seq<Id>, vectors: seq<Vec>, m: map<Id, Vec>) {
    && |ids| == |vectors| && NoDup(ids)
    && (forall id :: id in m <==> id in ids)
    && (forall i :: 0 <= i < |ids| ==> ids[i] in m && m[ids[i]] == vectors[i])
  }

  function Pick<T>(xs: seq<T>, keys: seq<nat>): (r: seq<T>)
    requires forall i :: 0 <= i < |keys| ==> keys[i] < |xs|
    ensures |r| == |keys|
  {
    seq(|keys|, i requires 0 <= i < |keys| => xs[keys[i]])
  }

  /** ids and dist list the entries of m, each once. */
  ghost predicate ListsDistances<Id(!new)>(ids: seq<Id>, dist: seq<real>, m: map<Id, real>) {
    && |ids| == |dist| && NoDup(ids)
    && (forall id :: id in m <==> id in ids)
    && (forall i :: 0 <= i < |ids| ==> ids[i] in m && m[ids[i]] == dist[i])
  }

  lemma PickedPair<Id(!new)>(ids: seq<Id>, dist: seq<real>, m: map<Id, real>, keys: seq<nat>, k: nat, i: nat, j: nat)
    requires ListsDistances(ids, dist, m) && IsNearest(keys, dist, k) && i < j < |keys|
    ensures ids[keys[i]] != ids[keys[j]] && m[ids[keys[i]]] <= m[ids[keys[j]]]
  {
    assert keys[i] != keys[j] && dist[keys[i]] <= dist[keys[j]];
  }

  lemma PickedBeforeLeftOut<Id(!new)>(ids: seq<Id>, dist: seq<real>, m: map<Id, real>, keys: seq<nat>, k: nat, i: nat,
                                      p: nat)
    requires ListsDistances(ids, dist, m) && IsNearest(keys, dist, k) && i < |keys|
    requires p < |ids| && ids[p] !in Pick(ids, keys)
    ensures m[ids[keys[i]]] <= m[ids[p]]
  {
    var picked := Pick(ids, keys);
    forall j | 0 <= j < |keys| ensures keys[j] != p { assert picked[j] in picked; }
    assert dist[keys[i]] <= dist[p];
  }

  lemma PickIsTopK<Id(!new)>(ids: seq<Id>, dist: seq<real>, m: map<Id, real>, keys: seq<nat>, k: nat)
    requires ListsDistances(ids, dist, m) && IsNearest(keys, dist, k)
    ensures IsTopK(Pick(ids, keys), m, k)
  {
    var picked := Pick(ids, keys);
    assert |m| == |ids| by {
      SetOfNoDup(ids);
      assert m.Keys == set id | id in ids;
    }
    forall i: nat, j: nat | i < j < |picked|
      ensures picked[i] != picked[j] && m[picked[i]] <= m[picked[j]]
    {
      PickedPair(ids, dist, m, keys, k, i, j);
    }
    forall id, i | id in m && id !in picked && 0 <= i < |picked|
      ensures m[picked[i]] <= m[id]
    {
      var p :| 0 <= p < |ids| && ids[p] == id;
      PickedBeforeLeftOut(ids, dist, m, keys, k, i, p);
    }
  }

  lemma ListsOfDims<Id(!new)>(ids: seq<Id>, vectors: seq<Vec>, m: map<Id, Vec>, d: nat)
    requires Lists(ids, vectors, m) && forall i :: 0 <= i < |vectors| ==> |vectors[i]| == d
    ensures OfDims(m, d)
  {
    forall id | id in m ensures |m[id]| == d {
      var i :| 0 <= i < |ids| && ids[i] == id;
    }
  }

  /** Exact search of a flat list of vectors; ghost m names the map the lists stand for. */
  method ExactSearch<Id(!new)>(ids: seq<Id>, flat: seq<real>, query: Vec, dims: nat, k: nat, ghost m: map<Id, Vec>)
    returns (docIDs: seq<Id>, distances: seq<real>)
    requires dims == |query| && |flat| == Offset(dims, |ids|)
    requires Lists(ids, Unflatten(flat, dims, |ids|), m)
    ensures OfDims(m, dims)
    ensures IsTopK(docIDs, Distances(query, m), k)
    ensures Reports(distances, docIDs, Distances(query, m))
  {
    ghost var vs := Unflatten(flat, dims, |ids|);
    ListsOfDims(ids, vs, m, dims);
    var dist: seq<real> := [];
    for i := 0 to |ids|
      invariant |dist| == i && forall j :: 0 <= j < i ==> dist[j] == L2sq(query, vs[j])
    {
      dist := dist + [L2sq(query, Slot(flat, dims, |ids|, i))];
    }
    assert ListsDistances(ids, dist, Distances(query, m));
    var keys := Scan(dist, k);
    PickIsTopK(ids, dist, Distances(query, m), keys, k);
    docIDs, distances := Pick(ids, keys), Pick(dist, keys);
  }

  // ------------------------------------------------------------- searching a segment

  /** The stored vectors that a search by ids may return. */
  ghost function Fetchable(docs: map<DocId, Vec>, hidden: set<DocId>, filter: seq<DocId>): (r: map<DocId, Vec>)
    ensures forall doc :: doc in r <==> doc in docs && doc !in hidden && doc in filter
    ensures forall doc :: doc in r ==> r[doc] == docs[doc]
    decreases |filter|
  {
    if filter == [] then map[]
    else
      var id, before := filter[|filter| - 1], Fetchable(docs, hidden, filter[..|filter| - 1]);
      if id in docs && id !in hidden then before[id := docs[id]] else before
  }

  method FilterKeys(keys: seq<DocId>, docTS: map<DocId, nat>) returns (docIDs: seq<DocId>)
    ensures forall doc :: doc in docIDs <==> doc in keys && doc !in docTS
  {
    docIDs := [];
    for i := 0 to |keys|
      invariant forall doc :: doc in docIDs <==> doc in keys[..i] && doc !in docTS
    {
      if keys[i] !in docTS { docIDs := docIDs + [keys[i]]; }
    }
    assert keys[..|keys|] == keys;
  }

  lemma FetchableOneMore(docs: map<DocId, Vec>, hidden: set<DocId>, filter: seq<DocId>, i: nat)
    requires i < |filter|
    ensures var id, before := filter[i], Fetchable(docs, hidden, filter[..i]);
            Fetchable(docs, hidden, filter[..i + 1]) ==
            if id in docs && id !in hidden then before[id := docs[id]] else before
  {
    assert filter[..i + 1][..i] == filter[..i];
  }

  lemma ListOneMore<Id(!new)>(ids: seq<Id>, vectors: seq<Vec>, m: map<Id, Vec>, id: Id, v: Vec)
    requires Lists(ids, vectors, m) && id !in ids
    ensures Lists(ids + [id], vectors + [v], m[id := v])
  {
  }

  lemma FetchOneMore(ids: seq<DocId>, flat: seq<real>, d: nat, docs: map<DocId, Vec>, hidden: set<DocId>,
                     filter: seq<DocId>, i: nat)
    requires i < |filter| && |flat| == Offset(d, |ids|) && OfDims(docs, d)
    requires Lists(ids, Unflatten(flat, d, |ids|), Fetchable(docs, hidden, filter[..i]))
    ensures var hit := filter[i] in docs && filter[i] !in hidden && filter[i] !in ids;
            var ids', flat' := if hit then ids + [filter[i]] else ids, if hit then flat + docs[filter[i]] else flat;
            |flat'| == Offset(d, |ids'|) &&
            Lists(ids', Unflatten(flat', d, |ids'|), Fetchable(docs, hidden, filter[..i + 1]))
  {
    var id, before := filter[i], Fetchable(docs, hidden, filter[..i]);
    FetchableOneMore(docs, hidden, filter, i);
    if id in docs && id !in hidden {
      if id in ids {
        SameEntry(before, id);
      } else {
        UnflattenAppend(flat, d, |ids|, docs[id]);
        ListOneMore(ids, Unflatten(flat, d, |ids|), before, id, docs[id]);
      }
    }
  }

  lemma SameEntry<K, V>(m: map<K, V>, key: K)
    requires key in m
    ensures m[key := m[key]] == m
  {
  }

  /** Reads the stored vectors of the filtered ids, each once, leaving out what the overlay hides. */
  method FetchDocs(filter: seq<DocId>, docs: map<DocId, Vec>, docTS: map<DocId, nat>, ghost d: nat)
    returns (ids: seq<DocId>, flat: seq<real>)
    requires OfDims(docs, d)
    ensures |flat| == Offset(d, |ids|)
    ensures Lists(ids, Unflatten(flat, d, |ids|), Fetchable(docs, docTS.Keys, filter))
  {
    ids, flat := [], [];
    for i := 0 to |filter|
      invariant |flat| == Offset(d, |ids|)
      invariant Lists(ids, Unflatten(flat, d, |ids|), Fetchable(docs, docTS.Keys, filter[..i]))
    {
      FetchOneMore(ids, flat, d, docs, docTS.Keys, filter, i);
      if filter[i] in docs && filter[i] !in docTS && filter[i] !in ids {
        flat := flat + docs[filter[i]];
        ids := ids + [filter[i]];
      }
    }
    assert filter[..|filter|] == filter;
  }

  /** What a search needs of the segment. */
  ghost predicate Searchable(s: State, d: nat) {
    && s.mem.cache.Keys <= s.mem.docTS.Keys
    && IndexAgrees(s.mem.index, s.disk.docs, s.mem.docTS.Keys)
    && OfDims(s.mem.cache, d) && OfDims(s.disk.docs, d) && OfDims(Entries(s.mem.index), d)
  }

  /** Every run of well-dimensioned batches, rebuild steps and crashes leaves the segment searchable. */
  lemma RunsAreSearchable(trace: seq<Event>, s: State, d: nat)
    requires HnswSafety.Follows(trace, s, d)
    ensures Searchable(s, d)
    ensures s.writing.None? ==> View(s.mem, s.disk.docs) == Replay(trace)
  {
    HnswSafety.ReachableIsSearchable(trace, d);
    if s.writing.None? {
      HnswSafety.FollowsReplays(trace, s, d);
    }
  }

  /** The stored documents that the overlay does not hide. */
  ghost function Unhidden(docs: map<DocId, Vec>, hidden: set<DocId>): map<DocId, Vec> {
    docs - hidden
  }

  /**
   The documents outside the overlay: query the index for k + |docTS| keys, drop hidden ones, rank by stored
   vectors.
   */
  method SearchIndex(query: Vec, k: nat, answer: seq<DocId>, index: Option<map<DocId, Vec>>, docs: map<DocId, Vec>,
                     docTS: map<DocId, nat>)
    returns (ids: seq<DocId>, distances: seq<real>)
    requires OfDims(docs, |query|) && OfDims(Entries(index), |query|) && IndexAgrees(index, docs, docTS.Keys)
    requires index.Some? ==> IsTopK(answer, Distances(query, index.value), k + |docTS|)
    ensures IsTopK(ids, Distances(query, Unhidden(docs, docTS.Keys)), k)
    ensures Reports(distances, ids, Distances(query, Unhidden(docs, docTS.Keys)))
  {
    ghost var live := Distances(query, Unhidden(docs, docTS.Keys));
    if index.None? {
      NothingIndexed(docs, docTS.Keys, query);
      return [], [];
    }
    IndexAnswers(query, k, answer, index.value, docs, docTS);
    var docIDs := FilterKeys(answer, docTS);
    var fetched, flat := FetchDocs(docIDs, docs, docTS, |query|);
    ghost var m := Fetchable(docs, docTS.Keys, docIDs);
    ids, distances := ExactSearch(fetched, flat, query, |query|, k, m);
    FetchedCandidates(query, docs, docTS, answer, docIDs);
    CandidatesSuffice(answer, Distances(query, index.value), live, docTS.Keys, k, ids);
  }

  lemma NothingIndexed(docs: map<DocId, Vec>, hidden: set<DocId>, query: Vec)
    requires OfDims(docs, |query|) && IndexAgrees(None, docs, hidden)
    ensures Distances(query, Unhidden(docs, hidden)) == map[]
  {
    forall doc ensures doc !in Unhidden(docs, hidden) {
      if doc !in hidden { assert Agree(map[], docs, doc); }
    }
  }

  lemma IndexAnswers(query: Vec, k: nat, answer: seq<DocId>, index: map<DocId, Vec>, docs: map<DocId, Vec>,
                     docTS: map<DocId, nat>)
    requires OfDims(docs, |query|) && OfDims(index, |query|) && IndexAgrees(Some(index), docs, docTS.Keys)
    requires IsTopK(answer, Distances(query, index), k + |docTS|)
    ensures IndexAnswer(answer, Distances(query, index), Distances(query, Unhidden(docs, docTS.Keys)), docTS.Keys, k)
  {
    forall doc | doc !in docTS ensures Agree(index, docs, doc) {}
    assert |docTS.Keys| == |docTS|;
  }

  lemma FetchedCandidates(query: Vec, docs: map<DocId, Vec>, docTS: map<DocId, nat>, answer: seq<DocId>,
                          docIDs: seq<DocId>)
    requires OfDims(docs, |query|)
    requires forall doc :: doc in docIDs <==> doc in answer && doc !in docTS
    ensures Distances(query, Fetchable(docs, docTS.Keys, docIDs)) ==
            Candidates(answer, Distances(query, Unhidden(docs, docTS.Keys)))
  {
    var a := Distances(query, Fetchable(docs, docTS.Keys, docIDs));
    var b := Candidates(answer, Distances(query, Unhidden(docs, docTS.Keys)));
    assert a.Keys == b.Keys;
  }

  lemma ViewDistances(query: Vec, mem: Memory, docs: map<DocId, Vec>)
    requires OfDims(mem.cache, |query|) && OfDims(docs, |query|) && mem.cache.Keys <= mem.docTS.Keys
    ensures OfDims(View(mem, docs), |query|)
    ensures Distances(query, mem.cache).Keys !! Distances(query, Unhidden(docs, mem.docTS.Keys)).Keys
    ensures Distances(query, View(mem, docs)) ==
            Distances(query, mem.cache) + Distances(query, Unhidden(docs, mem.docTS.Keys))
  {
    var a := Distances(query, View(mem, docs));
    var b := Distances(query, mem.cache) + Distances(query, Unhidden(docs, mem.docTS.Keys));
    assert a.Keys == b.Keys;
  }

  lemma CacheLists(ids: seq<DocId>, vs: seq<Vec>, index: map<DocId, nat>)
    requires Inverse(ids, index) && |vs| == |ids|
    ensures Lists(ids, vs, Collect(vs, index))
  {
    forall doc ensures doc in index <==> doc in ids {
      if doc in index { assert ids[index[doc]] in ids; }
    }
  }

  /** The overlay part of a search. */
  method SearchCache(cache: Cache, query: Vec, k: nat) returns (ids: seq<DocId>, distances: seq<real>)
    requires cache.Valid() && cache.dims == |query|
    ensures OfDims(cache.Contents, |query|)
    ensures IsTopK(ids, Distances(query, cache.Contents), k)
    ensures Reports(distances, ids, Distances(query, cache.Contents))
  {
    CacheLists(cache.docIDs, Unflatten(cache.docVectors, cache.dims, |cache.docIDs|), cache.docIDIndex);
    ids, distances := ExactSearch(cache.docIDs, cache.docVectors, query, cache.dims, k, cache.Contents);
  }

  /** The answer of an index to a query it can answer. */
  ghost predicate AnswersExactly(answer: seq<DocId>, index: map<DocId, Vec>, query: Vec, n: nat) {
    OfDims(index, |query|) ==> IsTopK(answer, Distances(query, index), n)
  }

  function AtLeastZero(k: int): nat {
    if k < 0 then 0 else k
  }

  /**
   Search under the read lock; `answer` is what the index returns for k + |docTS| keys. If that
   answer is exact, the result is the true top k, with its true distances, of the map obtained by
   applying every batch ever made durable, whatever rebuilds and crashes came in between. A document that
   differs from another in one coordinate, where it is farther from the query, is answered only behind it.
   */
  method Search(seg: Segment, query: Vec, k: int, answer: seq<DocId>) returns (r: Result<(seq<DocId>, seq<real>)>)
    requires seg.Valid() && seg.state.writing.None?
    requires seg.index.Some? ==> AnswersExactly(answer, seg.index.value, query, AtLeastZero(k) + |seg.docTS|)
    ensures r.Success? <==> |query| == seg.dims
    ensures r.Success? ==>
              && OfDims(Replay(seg.trace), |query|)
              && IsTopK(r.value.0, Distances(query, Replay(seg.trace)), AtLeastZero(k))
              && Reports(r.value.1, r.value.0, Distances(query, Replay(seg.trace)))
              && NearerFirst(r.value.0, query, Replay(seg.trace))
              && |r.value.0| == if k < 0 then 0 else Min(k, |Replay(seg.trace)|)
  {
    if |query| != seg.dims {
      return Failure("wrong dimension for vector");
    }
    RunsAreSearchable(seg.trace, seg.state, seg.dims);
    var limit := AtLeastZero(k);
    var ids1, distances1 := SearchCache(seg.cache, query, limit);
    var ids2, distances2 := SearchIndex(query, limit, answer, seg.index, seg.store.docs, seg.docTS);
    ViewDistances(query, seg.Mem(), seg.store.docs);
    ghost var near := Distances(query, seg.cache.Contents);
    ghost var far := Distances(query, Unhidden(seg.store.docs, seg.docTS.Keys));
    var ids, distances := MergeAnswers(ids1, distances1, ids2, distances2, limit, near, far);
    DistancesCount(query, Replay(seg.trace));
    TopKIsNearerFirst(ids, query, Replay(seg.trace), Distances(query, Replay(seg.trace)), limit);
    r := Success((ids, distances));
  }
}
