/**
 The best hits of a collection: sorted by score, as many as asked for, none better left out. Hits of
 equal score may come in any order, and a document may match more than once, so collections are
 multisets. The theorem is that taking the best of the best of the parts is taking the best of all.
 */
module TopHits {
  import opened Sequences

  datatype Hit = Hit(index: string, id: string, score: real)

  ghost predicate Sorted(hits: seq<Hit>) {
    forall i, j :: 0 <= i <= j < |hits| ==> hits[i].score >= hits[j].score
  }

  /** No hit of `rest` beats a hit of `best`. */
  ghost predicate Beats(best: multiset<Hit>, rest: multiset<Hit>) {
    forall x, y :: x in best && y in rest ==> x.score >= y.score
  }

  /** hits are the best `size` hits of all. */
  ghost predicate IsTop(hits: seq<Hit>, all: multiset<Hit>, size: nat) {
    && Sorted(hits)
    && multiset(hits) <= all
    && |hits| == Min(size, |all|)
    && Beats(multiset(hits), all - multiset(hits))
  }

  // ------------------------------------------------------------------- merging

  /** Two multisets of the same size, one within the other. */
  lemma SameSize<T>(a: multiset<T>, b: multiset<T>)
    requires a <= b && |a| == |b|
    ensures a == b
  {
    assert b == a + (b - a);
  }

  /** If a has as many elements as b and one that is not in b, then b has one that is not in a. */
  lemma LeftOut<T>(a: multiset<T>, b: multiset<T>, x: T) returns (y: T)
    requires |a| == |b| && a[x] > b[x]
    ensures b[y] > a[y]
  {
    if forall z :: z in b ==> b[z] <= a[z] {
      assert b <= a;
      SameSize(b, a);
      assert false;
    }
    y :| y in b && b[y] > a[y];
  }

  /** A hit that one part leaves out does not beat what is best of the rest and that part's best. */
  lemma LeftOutIsBeaten(hits: seq<Hit>, others: multiset<Hit>, top: seq<Hit>, part: multiset<Hit>, size: nat, x: Hit,
                        y: Hit)
    requires IsTop(hits, others + multiset(top), size) && IsTop(top, part, size)
    requires x in multiset(hits) && y in part - multiset(top)
    ensures x.score >= y.score
  {
    var t, h := multiset(top), multiset(hits);
    if |top| < size {
      SameSize(t, part);
      assert false;
    }
    if x.score < y.score {
      assert x !in t;
      var z := LeftOut(h, t, x);
      assert false;
    }
  }

  /** The best of some hits and a part's best are the best of those hits and the whole part. */
  lemma PartMayBeCut(hits: seq<Hit>, others: multiset<Hit>, top: seq<Hit>, part: multiset<Hit>, size: nat)
    requires IsTop(hits, others + multiset(top), size) && IsTop(top, part, size)
    ensures IsTop(hits, others + part, size)
  {
    var t, h := multiset(top), multiset(hits);
    assert others + t <= others + part;
    forall x, y | x in h && y in others + part - h ensures x.score >= y.score {
      if y in others + t - h {
      } else {
        assert y in part - t;
        LeftOutIsBeaten(hits, others, top, part, size, x, y);
      }
    }
  }

  /** tops[i] are the best hits of parts[i]. */
  ghost predicate AreTops(tops: seq<seq<Hit>>, parts: seq<seq<Hit>>, size: nat) {
    |tops| == |parts| && forall i :: 0 <= i < |tops| ==> IsTop(tops[i], multiset(parts[i]), size)
  }

  lemma Regroup<T>(a: multiset<T>, b: multiset<T>, c: multiset<T>)
    ensures a + (b + c) == a + b + c == a + c + b
  {
  }

  /** The best of what the parts found best, and more, is the best of the parts, and more. */
  lemma {:induction false} TopOfTops(hits: seq<Hit>, others: multiset<Hit>, tops: seq<seq<Hit>>, parts: seq<seq<Hit>>,
                                     size: nat)
    requires AreTops(tops, parts, size) && IsTop(hits, others + multiset(Flatten(tops)), size)
    ensures IsTop(hits, others + multiset(Flatten(parts)), size)
    decreases |tops|
  {
    if tops != [] {
      var n := |tops| - 1;
      var less, part := multiset(Flatten(tops[..n])), multiset(parts[n]);
      Regroup(others, less, multiset(tops[n]));
      PartMayBeCut(hits, others + less, tops[n], part, size);
      Regroup(others, less, part);
      TopOfTops(hits, others + part, tops[..n], parts[..n], size);
      Regroup(others, multiset(Flatten(parts[..n])), part);
    }
  }

  /** Merging: the best of the parts' best hits are the best of all hits. */
  lemma MergeIsTop(hits: seq<Hit>, tops: seq<seq<Hit>>, parts: seq<seq<Hit>>, size: nat)
    requires AreTops(tops, parts, size) && IsTop(hits, multiset(Flatten(tops)), size)
    ensures IsTop(hits, multiset(Flatten(parts)), size)
  {
    assert multiset{} + multiset(Flatten(tops)) == multiset(Flatten(tops));
    TopOfTops(hits, multiset{}, tops, parts, size);
    assert multiset{} + multiset(Flatten(parts)) == multiset(Flatten(parts));
  }
}
