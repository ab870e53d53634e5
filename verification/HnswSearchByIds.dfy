/**
 Searching a segment among given ids. The overlay part looks every entry of the filter up, so an
 id that is listed twice and lies in the overlay is answered twice; the stored part answers each
 id once. The answer is the top k of the filtered view when no such id is listed twice, and a
 search that returns all it finds is free of duplicates only then.
 */
module HnswSearchByIds {
  import opened Wrappers
  import opened HnswProtocol
  import opened Sequences
  import opened NearestIds
  import opened VectorCache
  import opened HnswSegment
  import HnswSafety
  import opened HnswSearch

  /** A candidate: an entry of the filter found in the overlay, or a stored document. */
  datatype Hit = Cached(doc: DocId, at: nat) | Stored(doc: DocId)

  function Docs(hits: seq<Hit>): (docs: seq<DocId>)
    ensures |docs| == |hits|
  {
    seq(|hits|, i requires 0 <= i < |hits| => hits[i].doc)
  }

  function AllStored(docs: seq<DocId>): (hits: seq<Hit>)
    ensures |hits| == |docs|
  {
    seq(|docs|, i requires 0 <= i < |docs| => Stored(docs[i]))
  }

  // ------------------------------------------------------------------ candidates

  /** The filter entries found in the overlay. */
  ghost function NearHits(cache: map<DocId, Vec>, filter: seq<DocId>): (hits: map<Hit, Vec>)
    ensures forall hit :: hit in hits <==>
              hit.Cached? && hit.at < |filter| && filter[hit.at] == hit.doc && hit.doc in cache
    ensures forall hit :: hit in hits ==> hits[hit] == cache[hit.doc]
  {
    if filter == [] then map[]
    else
      var last := |filter| - 1;
      var before := NearHits(cache, filter[..last]);
      if filter[last] in cache then before[Cached(filter[last], last) := cache[filter[last]]] else before
  }

  /** The stored documents of the filter that the overlay does not hide. */
  ghost function FarHits(m: map<DocId, Vec>): map<Hit, Vec> {
    map doc | doc in m :: Stored(doc) := m[doc]
  }

  /** What a search among the ids of a filter should range over. */
  ghost function Filtered(view: map<DocId, Vec>, filter: seq<DocId>): map<DocId, Vec> {
    map doc | doc in view && doc in filter :: view[doc]
  }

  /** Some id of the overlay is listed twice. */
  ghost predicate RepeatsCached(cache: map<DocId, Vec>, filter: seq<DocId>) {
    exists i, j :: 0 <= i < j < |filter| && filter[i] == filter[j] && filter[i] in cache
  }

  lemma NearOneMore(cache: map<DocId, Vec>, filter: seq<DocId>, i: nat)
    requires i < |filter|
    ensures var id, before := filter[i], NearHits(cache, filter[..i]);
            NearHits(cache, filter[..i + 1]) == if id in cache then before[Cached(id, i) := cache[id]] else before
  {
    assert filter[..i + 1][..i] == filter[..i];
  }

  lemma NearHitIsNew(cache: map<DocId, Vec>, filter: seq<DocId>, i: nat, ids: seq<Hit>, vectors: seq<Vec>)
    requires i < |filter| && Lists(ids, vectors, NearHits(cache, filter[..i]))
    ensures Cached(filter[i], i) !in ids
  {
    assert Cached(filter[i], i) !in NearHits(cache, filter[..i]);
  }

  /** The loop of searchCacheByIDs: one candidate for each entry of the filter that the overlay holds. */
  method CollectCached(cache: Cache, filter: seq<DocId>) returns (ids: seq<Hit>, flat: seq<real>)
    requires cache.Valid()
    ensures |flat| == Offset(cache.dims, |ids|)
    ensures Lists(ids, Unflatten(flat, cache.dims, |ids|), NearHits(cache.Contents, filter))
  {
    ids, flat := [], [];
    var d, n := cache.dims, |cache.docIDs|;
    for i := 0 to |filter|
      invariant |flat| == Offset(d, |ids|)
      invariant Lists(ids, Unflatten(flat, d, |ids|), NearHits(cache.Contents, filter[..i]))
    {
      NearOneMore(cache.Contents, filter, i);
      if filter[i] in cache.docIDIndex {
        NearHitIsNew(cache.Contents, filter, i, ids, Unflatten(flat, d, |ids|));
        var v := Slot(cache.docVectors, d, n, cache.docIDIndex[filter[i]]);
        UnflattenAppend(flat, d, |ids|, v);
        ListOneMore(ids, Unflatten(flat, d, |ids|), NearHits(cache.Contents, filter[..i]), Cached(filter[i], i), v);
        ids, flat := ids + [Cached(filter[i], i)], flat + v;
      }
    }
    assert filter[..|filter|] == filter;
  }

  lemma StoredList(ids: seq<DocId>, vectors: seq<Vec>, m: map<DocId, Vec>)
    requires Lists(ids, vectors, m)
    ensures Lists(AllStored(ids), vectors, FarHits(m))
  {
    var hits := AllStored(ids);
    forall hit ensures hit in FarHits(m) <==> hit in hits {
      if hit in FarHits(m) {
        var i :| 0 <= i < |ids| && ids[i] == hit.doc;
        assert hits[i] == hit;
      }
    }
  }

  // ------------------------------------------------------- from candidates to documents

  ghost predicate Stands(hits: set<Hit>, doc: DocId) {
    exists hit :: hit in hits && hit.doc == doc
  }

  /** Every hit stands for one of the documents, and every document for exactly one hit. */
  ghost predicate OneEach(hits: set<Hit>, docs: set<DocId>) {
    && (forall hit :: hit in hits ==> hit.doc in docs)
    && (forall doc :: doc in docs ==> Stands(hits, doc))
    && (forall a, b :: a in hits && b in hits && a.doc == b.doc ==> a == b)
  }

  lemma OneEachLess(hits: set<Hit>, docs: set<DocId>, hit: Hit)
    requires OneEach(hits, docs) && hit in hits
    ensures OneEach(hits - {hit}, docs - {hit.doc})
  {
    forall doc | doc in docs - {hit.doc} ensures Stands(hits - {hit}, doc) {
      assert Stands(hits, doc);
      var h :| h in hits && h.doc == doc;
      assert h in hits - {hit};
    }
  }

  lemma {:induction false} OneEachCounts(hits: set<Hit>, docs: set<DocId>)
    requires OneEach(hits, docs)
    ensures |hits| == |docs|
    decreases |hits|
  {
    if hits == {} {
      forall doc ensures doc !in docs { assert !Stands(hits, doc); }
      assert docs == {};
    } else {
      var hit :| hit in hits;
      OneEachLess(hits, docs, hit);
      OneEachCounts(hits - {hit}, docs - {hit.doc});
    }
  }

  lemma LeftOutDoc(ids: seq<Hit>, near: map<Hit, real>, k: nat, hit: Hit, i: nat)
    requires IsTopK(ids, near, k) && hit in near && hit.doc !in Docs(ids) && i < |ids|
    ensures near[ids[i]] <= near[hit]
  {
    forall j | 0 <= j < |ids| ensures ids[j] != hit { assert Docs(ids)[j] in Docs(ids); }
  }

  lemma HitsToDocs(ids: seq<Hit>, near: map<Hit, real>, dist: map<DocId, real>, k: nat)
    requires OneEach(near.Keys, dist.Keys) && forall hit :: hit in near ==> near[hit] == dist[hit.doc]
    requires IsTopK(ids, near, k)
    ensures IsTopK(Docs(ids), dist, k)
  {
    OneEachCounts(near.Keys, dist.Keys);
    var docs := Docs(ids);
    forall i, j | 0 <= i < j < |docs| ensures docs[i] != docs[j] && dist[docs[i]] <= dist[docs[j]] {
      assert ids[i] != ids[j] && near[ids[i]] <= near[ids[j]];
    }
    forall doc, i | doc in dist && doc !in docs && 0 <= i < |docs| ensures dist[docs[i]] <= dist[doc] {
      assert Stands(near.Keys, doc);
      var hit :| hit in near.Keys && hit.doc == doc;
      LeftOutDoc(ids, near, k, hit, i);
    }
  }

  ghost function AllHits(cache: map<DocId, Vec>, stored: map<DocId, Vec>, filter: seq<DocId>): map<Hit, Vec> {
    NearHits(cache, filter) + FarHits(stored)
  }

  lemma HitIsFiltered(mem: Memory, docs: map<DocId, Vec>, filter: seq<DocId>, hit: Hit)
    requires mem.cache.Keys <= mem.docTS.Keys
    requires hit in AllHits(mem.cache, Fetchable(docs, mem.docTS.Keys, filter), filter)
    ensures hit.doc in Filtered(View(mem, docs), filter)
    ensures AllHits(mem.cache, Fetchable(docs, mem.docTS.Keys, filter), filter)[hit] ==
            Filtered(View(mem, docs), filter)[hit.doc]
    ensures hit.Cached? <==> hit.doc in mem.cache
    ensures hit.Cached? ==> hit.at < |filter| && filter[hit.at] == hit.doc
  {
    if hit.Cached? {
      assert hit in NearHits(mem.cache, filter);
    } else {
      assert hit in FarHits(Fetchable(docs, mem.docTS.Keys, filter));
    }
  }

  lemma FilteredIsHit(mem: Memory, docs: map<DocId, Vec>, filter: seq<DocId>, doc: DocId)
    requires mem.cache.Keys <= mem.docTS.Keys && doc in Filtered(View(mem, docs), filter)
    ensures Stands(AllHits(mem.cache, Fetchable(docs, mem.docTS.Keys, filter), filter).Keys, doc)
  {
    var hits := AllHits(mem.cache, Fetchable(docs, mem.docTS.Keys, filter), filter);
    if doc in mem.cache {
      var at :| 0 <= at < |filter| && filter[at] == doc;
      assert Cached(doc, at) in NearHits(mem.cache, filter);
      assert Cached(doc, at) in hits.Keys;
    } else {
      assert Stored(doc) in FarHits(Fetchable(docs, mem.docTS.Keys, filter));
      assert Stored(doc) in hits.Keys;
    }
  }

  /** Without a repeated overlay id the candidates are the filtered view, document by document. */
  lemma CandidatesAreTheView(mem: Memory, docs: map<DocId, Vec>, filter: seq<DocId>)
    requires mem.cache.Keys <= mem.docTS.Keys && !RepeatsCached(mem.cache, filter)
    ensures OneEach(AllHits(mem.cache, Fetchable(docs, mem.docTS.Keys, filter), filter).Keys,
                    Filtered(View(mem, docs), filter).Keys)
  {
    var view := Filtered(View(mem, docs), filter);
    var hits := AllHits(mem.cache, Fetchable(docs, mem.docTS.Keys, filter), filter);
    forall hit | hit in hits.Keys ensures hit.doc in view.Keys { HitIsFiltered(mem, docs, filter, hit); }
    forall doc | doc in view.Keys ensures Stands(hits.Keys, doc) { FilteredIsHit(mem, docs, filter, doc); }
    forall a, b | a in hits.Keys && b in hits.Keys && a.doc == b.doc ensures a == b {
      HitIsFiltered(mem, docs, filter, a);
      HitIsFiltered(mem, docs, filter, b);
    }
  }

  // -------------------------------------------------------------------- duplicates

  lemma OneKeyMore<K, V>(m: map<K, V>, key: K, value: V)
    ensures |m[key := value]| <= |m| + 1
  {
    assert m[key := value].Keys == m.Keys + {key};
  }

  lemma NearGrows(cache: map<DocId, Vec>, filter: seq<DocId>, i: nat)
    requires i < |filter|
    ensures |NearHits(cache, filter[..i + 1])| <= |NearHits(cache, filter[..i])| + if filter[i] in cache then 1 else 0
  {
    NearOneMore(cache, filter, i);
    if filter[i] in cache {
      OneKeyMore(NearHits(cache, filter[..i]), Cached(filter[i], i), cache[filter[i]]);
    }
  }

  lemma FarGrows(docs: map<DocId, Vec>, hidden: set<DocId>, filter: seq<DocId>, i: nat)
    requires i < |filter|
    ensures |Fetchable(docs, hidden, filter[..i + 1])| <=
            |Fetchable(docs, hidden, filter[..i])| + if filter[i] in hidden then 0 else 1
  {
    FetchableOneMore(docs, hidden, filter, i);
    if filter[i] in docs && filter[i] !in hidden {
      OneKeyMore(Fetchable(docs, hidden, filter[..i]), filter[i], docs[filter[i]]);
    }
  }

  lemma NoEntries(docs: map<DocId, Vec>, hidden: set<DocId>)
    ensures |Fetchable(docs, hidden, [])| == 0
  {
  }

  /** The candidates that the first n entries of the filter make. */
  ghost function HitCount(cache: map<DocId, Vec>, docs: map<DocId, Vec>, hidden: set<DocId>, filter: seq<DocId>,
                          n: nat): nat
    requires n <= |filter|
  {
    |NearHits(cache, filter[..n])| + |Fetchable(docs, hidden, filter[..n])|
  }

  /** Those entries make at most so many; the bound variable keeps the count folded up. */
  ghost predicate AtMost(cache: map<DocId, Vec>, docs: map<DocId, Vec>, hidden: set<DocId>, filter: seq<DocId>, n: nat,
                         bound: nat)
  {
    n <= |filter| && forall m: nat :: m == n ==> HitCount(cache, docs, hidden, filter, m) <= bound
  }

  lemma AtMostGrows(cache: map<DocId, Vec>, docs: map<DocId, Vec>, hidden: set<DocId>, filter: seq<DocId>, n: nat)
    requires cache.Keys <= hidden && n < |filter| && AtMost(cache, docs, hidden, filter, n, n)
    ensures AtMost(cache, docs, hidden, filter, n + 1, n + 1)
  {
    NearGrows(cache, filter, n);
    FarGrows(docs, hidden, filter, n);
    assert HitCount(cache, docs, hidden, filter, n) <= n;
  }

  lemma AtMostNone(cache: map<DocId, Vec>, docs: map<DocId, Vec>, hidden: set<DocId>, filter: seq<DocId>)
    ensures AtMost(cache, docs, hidden, filter, 0, 0)
  {
    assert filter[..0] == [];
    NoEntries(docs, hidden);
  }

  /** Every entry of the filter makes at most one candidate. */
  lemma {:induction false} OnePerEntry(cache: map<DocId, Vec>, docs: map<DocId, Vec>, hidden: set<DocId>,
                                       filter: seq<DocId>, n: nat)
    requires cache.Keys <= hidden && n <= |filter|
    ensures AtMost(cache, docs, hidden, filter, n, n)
  {
    if n == 0 {
      AtMostNone(cache, docs, hidden, filter);
    } else {
      OnePerEntry(cache, docs, hidden, filter, n - 1);
      AtMostGrows(cache, docs, hidden, filter, n - 1);
    }
  }

  lemma StoredCount(stored: map<DocId, Vec>)
    ensures |FarHits(stored)| == |stored|
  {
    var hits := FarHits(stored);
    forall doc | doc in stored.Keys ensures Stands(hits.Keys, doc) { assert Stored(doc) in hits.Keys; }
    OneEachCounts(hits.Keys, stored.Keys);
  }

  lemma NoMoreThanEntries(cache: map<DocId, Vec>, docs: map<DocId, Vec>, hidden: set<DocId>, filter: seq<DocId>)
    requires cache.Keys <= hidden
    ensures |AllHits(cache, Fetchable(docs, hidden, filter), filter).Keys| <= |filter|
  {
    OnePerEntry(cache, docs, hidden, filter, |filter|);
    assert HitCount(cache, docs, hidden, filter, |filter|) <= |filter|;
    assert filter[..|filter|] == filter;
    StoredCount(Fetchable(docs, hidden, filter));
    var near, far := NearHits(cache, filter).Keys, FarHits(Fetchable(docs, hidden, filter)).Keys;
    assert AllHits(cache, Fetchable(docs, hidden, filter), filter).Keys == near + far;
  }

  /** An answer with room for every candidate holds every candidate. */
  lemma EverythingIsReturned(ids: seq<Hit>, dist: map<Hit, real>, k: nat)
    requires IsTopK(ids, dist, k) && |dist| <= k
    ensures forall hit :: hit in dist ==> hit in ids
  {
    SetOfNoDup(ids);
    var held := set hit | hit in ids;
    assert held <= dist.Keys;
    assert |dist.Keys| == |held| + |dist.Keys - held|;
    forall hit | hit in dist ensures hit in ids {
      assert hit !in dist.Keys - held;
    }
  }

  lemma RepeatedIsReturnedTwice(ids: seq<Hit>, a: Hit, b: Hit)
    requires a in ids && b in ids && a != b && a.doc == b.doc
    ensures !NoDup(Docs(ids))
  {
    var i :| 0 <= i < |ids| && ids[i] == a;
    var j :| 0 <= j < |ids| && ids[j] == b;
    assert Docs(ids)[i] == Docs(ids)[j];
  }

  lemma EntryIsHit(cache: map<DocId, Vec>, stored: map<DocId, Vec>, filter: seq<DocId>, i: nat)
    requires i < |filter| && filter[i] in cache
    ensures Cached(filter[i], i) in AllHits(cache, stored, filter).Keys
  {
    assert Cached(filter[i], i) in NearHits(cache, filter);
  }

  lemma RepeatedTwice(ids: seq<Hit>, mem: Memory, docs: map<DocId, Vec>, filter: seq<DocId>, near: map<Hit, real>,
                      k: nat)
    requires mem.cache.Keys <= mem.docTS.Keys && k >= |filter| && RepeatsCached(mem.cache, filter)
    requires near.Keys == AllHits(mem.cache, Fetchable(docs, mem.docTS.Keys, filter), filter).Keys
    requires IsTopK(ids, near, k)
    ensures !NoDup(Docs(ids))
  {
    NoMoreThanEntries(mem.cache, docs, mem.docTS.Keys, filter);
    assert |near| == |near.Keys|;
    EverythingIsReturned(ids, near, k);
    var i, j :| 0 <= i < j < |filter| && filter[i] == filter[j] && filter[i] in mem.cache;
    EntryIsHit(mem.cache, Fetchable(docs, mem.docTS.Keys, filter), filter, i);
    EntryIsHit(mem.cache, Fetchable(docs, mem.docTS.Keys, filter), filter, j);
    RepeatedIsReturnedTwice(ids, Cached(filter[i], i), Cached(filter[j], j));
  }

  lemma OnceEach(ids: seq<Hit>, near: map<Hit, real>, docs: set<DocId>, k: nat)
    requires OneEach(near.Keys, docs) && IsTopK(ids, near, k)
    ensures NoDup(Docs(ids))
  {
    forall i, j | 0 <= i < j < |ids| ensures Docs(ids)[i] != Docs(ids)[j] {
      assert ids[i] in near.Keys && ids[j] in near.Keys && ids[i] != ids[j];
    }
  }

  /** A search that returns all it finds is free of duplicates exactly if no overlay id is listed twice. */
  lemma DuplicateFreeIffNoneRepeated(ids: seq<Hit>, mem: Memory, docs: map<DocId, Vec>, filter: seq<DocId>,
                                     near: map<Hit, real>, k: nat)
    requires mem.cache.Keys <= mem.docTS.Keys && k >= |filter|
    requires near.Keys == AllHits(mem.cache, Fetchable(docs, mem.docTS.Keys, filter), filter).Keys
    requires IsTopK(ids, near, k)
    ensures NoDup(Docs(ids)) <==> !RepeatsCached(mem.cache, filter)
  {
    if RepeatsCached(mem.cache, filter) {
      RepeatedTwice(ids, mem, docs, filter, near, k);
    } else {
      CandidatesAreTheView(mem, docs, filter);
      OnceEach(ids, near, Filtered(View(mem, docs), filter).Keys, k);
    }
  }

  // ------------------------------------------------------------------ duplicates with little room

  ghost function Nearer(near: map<Hit, real>, d: real): set<Hit> {
    set hit | hit in near && near[hit] < d
  }

  /** Candidates of other documents at the same distance. */
  ghost function Ties(near: map<Hit, real>, doc: DocId, d: real): set<Hit> {
    set hit | hit in near && near[hit] == d && hit.doc != doc
  }

  ghost predicate Twins(near: map<Hit, real>, a: Hit, b: Hit) {
    a in near && b in near && a != b && a.doc == b.doc && near[a] == near[b]
  }

  /** What is nearer than an answered candidate is answered. */
  lemma NearerIsAnswered(ids: seq<Hit>, near: map<Hit, real>, k: nat, a: Hit, hit: Hit)
    requires IsTopK(ids, near, k) && a in ids && a in near && hit in near && near[hit] < near[a]
    ensures hit in ids
  {
    var i :| 0 <= i < |ids| && ids[i] == a;
    assert near[ids[i]] > near[hit];
  }

  lemma TwoMore(some: set<Hit>, all: set<Hit>, a: Hit, b: Hit)
    requires some <= all && a in all && b in all && a !in some && b !in some && a != b
    ensures |some| + 2 <= |all|
  {
    assert |some + {a}| == |some| + 1 && |some + {a} + {b}| == |some| + 2;
    Larger(some + {a} + {b}, all);
  }

  /** Both candidates of a document in the answer: everything nearer is in it, too. */
  lemma TwiceNeedsRoom(ids: seq<Hit>, near: map<Hit, real>, k: nat, a: Hit, b: Hit)
    requires IsTopK(ids, near, k) && Twins(near, a, b) && a in ids && b in ids
    ensures |Nearer(near, near[a])| + 2 <= k
  {
    SetOfNoDup(ids);
    var held, nearer := (set hit | hit in ids), Nearer(near, near[a]);
    forall hit | hit in nearer ensures hit in held { NearerIsAnswered(ids, near, k, a, hit); }
    TwoMore(nearer, held, a, b);
  }

  lemma AtMostOne(hits: set<Hit>)
    requires forall a, b :: a in hits && b in hits ==> a == b
    ensures |hits| <= 1
  {
    if hits != {} {
      var a :| a in hits;
      assert hits == {a};
    }
  }

  /** A left out candidate means a full answer of candidates no farther. */
  lemma LeftOutMeansFull(ids: seq<Hit>, near: map<Hit, real>, k: nat, a: Hit)
    requires IsTopK(ids, near, k) && a in near && a !in ids
    ensures |ids| == k && forall i :: 0 <= i < |ids| ==> near[ids[i]] <= near[a]
  {
    if |near| <= k {
      EverythingIsReturned(ids, near, k);
    }
  }

  lemma WithoutTwins(ids: seq<Hit>, near: map<Hit, real>, k: nat, a: Hit)
    requires IsTopK(ids, near, k) && a in near && a !in ids && NoDup(Docs(ids))
    ensures k <= |Nearer(near, near[a])| + |Ties(near, a.doc, near[a])| + 1
  {
    var d := near[a];
    LeftOutMeansFull(ids, near, k, a);
    SetOfNoDup(ids);
    var held, nearer, ties := (set hit | hit in ids), Nearer(near, d), Ties(near, a.doc, d);
    var mine := set hit | hit in ids && hit.doc == a.doc;
    forall x, y | x in mine && y in mine ensures x == y {
      if x != y { RepeatedIsReturnedTwice(ids, x, y); }
    }
    AtMostOne(mine);
    forall hit | hit in held ensures hit in nearer + ties + mine {
      var i :| 0 <= i < |ids| && ids[i] == hit;
    }
    Larger(held, nearer + ties + mine);
    assert |nearer + ties| <= |nearer| + |ties| && |nearer + ties + mine| <= |nearer + ties| + |mine|;
  }

  /** With room for everything nearer, for the ties and for two more, the document is answered twice. */
  lemma RoomGivesTwice(ids: seq<Hit>, near: map<Hit, real>, k: nat, a: Hit, b: Hit)
    requires IsTopK(ids, near, k) && Twins(near, a, b)
    requires |Nearer(near, near[a])| + |Ties(near, a.doc, near[a])| + 2 <= k
    ensures !NoDup(Docs(ids))
  {
    if NoDup(Docs(ids)) {
      if a !in ids {
        WithoutTwins(ids, near, k, a);
      } else if b !in ids {
        WithoutTwins(ids, near, k, b);
      } else {
        RepeatedIsReturnedTwice(ids, a, b);
      }
      assert false;
    }
  }

  /** No two documents are equally far. */
  ghost predicate NoTies(near: map<Hit, real>) {
    forall a, b :: a in near && b in near && near[a] == near[b] ==> a.doc == b.doc
  }

  /** Candidates of one document are equally far. */
  ghost predicate Consistent(near: map<Hit, real>) {
    forall a, b :: a in near && b in near && a.doc == b.doc ==> near[a] == near[b]
  }

  /** No document with two candidates is near enough for both to be answered. */
  ghost predicate OutOfReach(near: map<Hit, real>, k: nat) {
    forall a, b :: Twins(near, a, b) ==> k < |Nearer(near, near[a])| + 2
  }

  /**
   For every k: if no two documents are equally far, an answer is free of duplicates exactly if each
   document that has two candidates has at least k - 1 candidates nearer than it.
   */
  lemma DuplicateFreeIffOutOfReach(ids: seq<Hit>, near: map<Hit, real>, k: nat)
    requires IsTopK(ids, near, k) && NoTies(near) && Consistent(near)
    ensures NoDup(Docs(ids)) <==> OutOfReach(near, k)
  {
    if !OutOfReach(near, k) {
      var a, b :| Twins(near, a, b) && k >= |Nearer(near, near[a])| + 2;
      assert Ties(near, a.doc, near[a]) == {};
      RoomGivesTwice(ids, near, k, a, b);
    }
    if !NoDup(Docs(ids)) {
      var i, j :| 0 <= i < j < |Docs(ids)| && Docs(ids)[i] == Docs(ids)[j];
      assert Twins(near, ids[i], ids[j]);
      TwiceNeedsRoom(ids, near, k, ids[i], ids[j]);
    }
  }

  // ---------------------------------------------------------------------- the search

  lemma UnionDistances(query: Vec, a: map<Hit, Vec>, b: map<Hit, Vec>)
    requires OfDims(a, |query|) && OfDims(b, |query|)
    ensures OfDims(a + b, |query|)
    ensures Distances(query, a + b) == Distances(query, a) + Distances(query, b)
  {
    assert Distances(query, a + b).Keys == (Distances(query, a) + Distances(query, b)).Keys;
  }

  lemma HitDistances(cache: map<DocId, Vec>, stored: map<DocId, Vec>, filter: seq<DocId>, query: Vec)
    requires OfDims(NearHits(cache, filter), |query|) && OfDims(FarHits(stored), |query|)
    ensures OfDims(AllHits(cache, stored, filter), |query|)
    ensures Distances(query, NearHits(cache, filter)).Keys !! Distances(query, FarHits(stored)).Keys
    ensures Distances(query, AllHits(cache, stored, filter)) ==
            Distances(query, NearHits(cache, filter)) + Distances(query, FarHits(stored))
  {
    UnionDistances(query, NearHits(cache, filter), FarHits(stored));
    forall hit | hit in Distances(query, NearHits(cache, filter)).Keys ensures hit.Cached? {}
  }

  lemma FilteredOfDims(view: map<DocId, Vec>, filter: seq<DocId>, d: nat)
    requires OfDims(view, d)
    ensures OfDims(Filtered(view, filter), d)
  {
  }

  /** The hits a search among the ids of a filter ends with, and their distances. */
  method SearchHits(seg: Segment, query: Vec, k: nat, filter: seq<DocId>) returns (ids: seq<Hit>, distances: seq<real>)
    requires seg.Valid() && |query| == seg.dims
    ensures var hits := AllHits(seg.cache.Contents, Fetchable(seg.store.docs, seg.docTS.Keys, filter), filter);
            && OfDims(hits, |query|)
            && IsTopK(ids, Distances(query, hits), k) && Reports(distances, ids, Distances(query, hits))
  {
    RunsAreSearchable(seg.trace, seg.state, seg.dims);
    ghost var near := NearHits(seg.cache.Contents, filter);
    ghost var stored := Fetchable(seg.store.docs, seg.docTS.Keys, filter);
    var cached, flat1 := CollectCached(seg.cache, filter);
    var ids1, distances1 := ExactSearch(cached, flat1, query, seg.dims, k, near);
    var fetched, flat2 := FetchDocs(filter, seg.store.docs, seg.docTS, seg.dims);
    StoredList(fetched, Unflatten(flat2, seg.dims, |fetched|), stored);
    var ids2, distances2 := ExactSearch(AllStored(fetched), flat2, query, seg.dims, k, FarHits(stored));
    HitDistances(seg.cache.Contents, stored, filter, query);
    ids, distances := MergeAnswers(ids1, distances1, ids2, distances2, k, Distances(query, near),
                                   Distances(query, FarHits(stored)));
  }

  /** The candidates of a search among the ids of a filter. */
  ghost function Candidates(s: State, filter: seq<DocId>): map<Hit, Vec> {
    AllHits(s.mem.cache, Fetchable(s.disk.docs, s.mem.docTS.Keys, filter), filter)
  }

  /**
   SearchByIDs under the read lock. The answer is the documents of the nearest candidates `hits`, each a
   listed document of the replay with its true distance. If no id of the overlay is listed twice, the answer is
   the true top k among the listed ids; with room for every candidate it is duplicate-free exactly in that
   case, and with less room, barring ties, exactly if no document with two candidates is within reach.
   */
  method SearchByIDs(seg: Segment, query: Vec, k: int, filter: seq<DocId>)
    returns (r: Result<(seq<DocId>, seq<real>)>, ghost hits: seq<Hit>)
    requires seg.Valid() && seg.state.writing.None?
    ensures r.Success? <==> |query| == seg.dims
    ensures r.Success? ==>
              && OfDims(Filtered(Replay(seg.trace), filter), |query|)
              && Reports(r.value.1, r.value.0, Distances(query, Filtered(Replay(seg.trace), filter)))
    ensures r.Success? && !RepeatsCached(seg.cache.Contents, filter) ==>
              IsTopK(r.value.0, Distances(query, Filtered(Replay(seg.trace), filter)), AtLeastZero(k))
    ensures r.Success? && k >= |filter| ==> (NoDup(r.value.0) <==> !RepeatsCached(seg.cache.Contents, filter))
    ensures r.Success? ==>
              && OfDims(Candidates(seg.state, filter), |query|)
              && var near := Distances(query, Candidates(seg.state, filter));
                 && IsTopK(hits, near, AtLeastZero(k)) && r.value.0 == Docs(hits)
                 && |hits| == (if k < 0 then 0 else Min(k, |Candidates(seg.state, filter)|))
                 && (NoTies(near) ==> (NoDup(r.value.0) <==> OutOfReach(near, AtLeastZero(k))))
  {
    if |query| != seg.dims {
      return Failure("wrong dimension for vector"), [];
    }
    var ids, distances := SearchHits(seg, query, AtLeastZero(k), filter);
    r, hits := Success((Docs(ids), distances)), ids;
    DistancesCount(query, Candidates(seg.state, filter));
    SearchedIds(seg.trace, seg.state, seg.dims, ids, filter, query, AtLeastZero(k));
    SearchedDistances(seg.trace, seg.state, ids, distances, filter, query, AtLeastZero(k));
  }

  lemma SearchedDistances(trace: seq<Event>, s: State, ids: seq<Hit>, distances: seq<real>, filter: seq<DocId>,
                          query: Vec, k: nat)
    requires HnswSafety.Follows(trace, s, |query|) && s.writing.None?
    requires OfDims(Candidates(s, filter), |query|) && IsTopK(ids, Distances(query, Candidates(s, filter)), k)
    requires Reports(distances, ids, Distances(query, Candidates(s, filter)))
    ensures OfDims(Filtered(Replay(trace), filter), |query|)
    ensures Reports(distances, Docs(ids), Distances(query, Filtered(Replay(trace), filter)))
    ensures var near := Distances(query, Candidates(s, filter));
            NoTies(near) ==> (NoDup(Docs(ids)) <==> OutOfReach(near, k))
  {
    RunsAreSearchable(trace, s, |query|);
    ViewDistances(query, s.mem, s.disk.docs);
    FilteredOfDims(Replay(trace), filter, |query|);
    forall hit | hit in Candidates(s, filter)
      ensures hit.doc in Filtered(Replay(trace), filter)
      ensures Candidates(s, filter)[hit] == Filtered(Replay(trace), filter)[hit.doc]
    {
      HitIsFiltered(s.mem, s.disk.docs, filter, hit);
    }
    MatchingReports(ids, distances, Candidates(s, filter), Filtered(Replay(trace), filter), query);
    if NoTies(Distances(query, Candidates(s, filter))) {
      DuplicateFreeIffOutOfReach(ids, Distances(query, Candidates(s, filter)), k);
    }
  }

  lemma MatchingReports(ids: seq<Hit>, distances: seq<real>, hits: map<Hit, Vec>, view: map<DocId, Vec>, query: Vec)
    requires OfDims(hits, |query|) && OfDims(view, |query|)
    requires forall hit :: hit in hits ==> hit.doc in view && hits[hit] == view[hit.doc]
    requires Reports(distances, ids, Distances(query, hits))
    ensures Reports(distances, Docs(ids), Distances(query, view)) && Consistent(Distances(query, hits))
  {
    forall i | 0 <= i < |ids| ensures Docs(ids)[i] in view { assert ids[i] in hits; }
  }

  lemma SearchedIds(trace: seq<Event>, s: State, d: nat, ids: seq<Hit>, filter: seq<DocId>, query: Vec, k: nat)
    requires HnswSafety.Follows(trace, s, d) && s.writing.None? && |query| == d
    requires OfDims(Candidates(s, filter), d) && IsTopK(ids, Distances(query, Candidates(s, filter)), k)
    ensures !RepeatsCached(s.mem.cache, filter) ==>
              && OfDims(Filtered(Replay(trace), filter), d)
              && IsTopK(Docs(ids), Distances(query, Filtered(Replay(trace), filter)), k)
    ensures k >= |filter| ==> (NoDup(Docs(ids)) <==> !RepeatsCached(s.mem.cache, filter))
  {
    RunsAreSearchable(trace, s, d);
    if k >= |filter| {
      assert Distances(query, Candidates(s, filter)).Keys == Candidates(s, filter).Keys;
      DuplicateFreeIffNoneRepeated(ids, s.mem, s.disk.docs, filter, Distances(query, Candidates(s, filter)), k);
    }
    if !RepeatsCached(s.mem.cache, filter) {
      FilteredTopK(s, ids, filter, query, k);
    }
  }

  lemma FilteredTopK(s: State, ids: seq<Hit>, filter: seq<DocId>, query: Vec, k: nat)
    requires Searchable(s, |query|) && !RepeatsCached(s.mem.cache, filter)
    requires OfDims(Candidates(s, filter), |query|) && IsTopK(ids, Distances(query, Candidates(s, filter)), k)
    ensures OfDims(Filtered(View(s.mem, s.disk.docs), filter), |query|)
    ensures IsTopK(Docs(ids), Distances(query, Filtered(View(s.mem, s.disk.docs), filter)), k)
  {
    ViewDistances(query, s.mem, s.disk.docs);
    FilteredOfDims(View(s.mem, s.disk.docs), filter, |query|);
    CandidatesAreTheView(s.mem, s.disk.docs, filter);
    forall hit | hit in Candidates(s, filter)
      ensures hit.doc in Filtered(View(s.mem, s.disk.docs), filter)
      ensures Candidates(s, filter)[hit] == Filtered(View(s.mem, s.disk.docs), filter)[hit.doc]
    {
      HitIsFiltered(s.mem, s.disk.docs, filter, hit);
    }
    MatchingTopK(ids, Candidates(s, filter), Filtered(View(s.mem, s.disk.docs), filter), query, k);
  }

  lemma MatchingTopK(ids: seq<Hit>, hits: map<Hit, Vec>, view: map<DocId, Vec>, query: Vec, k: nat)
    requires OneEach(hits.Keys, view.Keys) && OfDims(hits, |query|) && OfDims(view, |query|)
    requires forall hit :: hit in hits ==> hit.doc in view && hits[hit] == view[hit.doc]
    requires IsTopK(ids, Distances(query, hits), k)
    ensures IsTopK(Docs(ids), Distances(query, view), k)
  {
    assert Distances(query, hits).Keys == hits.Keys && Distances(query, view).Keys == view.Keys;
    HitsToDocs(ids, Distances(query, hits), Distances(query, view), k);
  }

  /** One batch that adds a document is enough for a search that lists it twice to answer it twice. */
  lemma AddedIdIsAnsweredTwice(doc: DocId, v: Vec, ids: seq<Hit>)
    ensures var e := BatchWrite(Request([], [(doc, v)]));
            var s := Next(Next(INIT, e), BatchCommit);
            && HnswSafety.Follows([e, BatchCommit], s, |v|)
            && (OfDims(Candidates(s, [doc, doc]), |v|) && IsTopK(ids, Distances(v, Candidates(s, [doc, doc])), 2) ==>
                  !NoDup(Docs(ids)))
  {
    var e := BatchWrite(Request([], [(doc, v)]));
    var s := Next(INIT, e);
    var s' := Next(s, BatchCommit);
    assert HnswSafety.Follows([], INIT, |v|);
    HnswSafety.FollowsOneMore([], INIT, |v|, e);
    HnswSafety.FollowsOneMore([e], s, |v|, BatchCommit);
    assert [] + [e] == [e] && [e] + [BatchCommit] == [e, BatchCommit];
    OneRow(doc, v);
    assert [doc, doc][0] == [doc, doc][1];
    if OfDims(Candidates(s', [doc, doc]), |v|) && IsTopK(ids, Distances(v, Candidates(s', [doc, doc])), 2) {
      SearchedIds([e, BatchCommit], s', |v|, ids, [doc, doc], v, 2);
    }
  }

  lemma OneRow(doc: DocId, v: Vec)
    ensures doc in CommitRows(INIT.mem, Ops(Request([], [(doc, v)]))).cache
  {
    var rows := Ops(Request([], [(doc, v)]));
    assert rows == [Row(doc, Put(v))];
    assert rows[..0] == [];
  }
}
