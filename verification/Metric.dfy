/**
 The metric of a vector segment, the squared Euclidean distance: what it takes from each coordinate,
 and what that means for an answer ranked by it.
 */
module Metric {
  import opened Sequences
  import opened NearestIds

  function Square(x: real): real {
    x * x
  }

  /** Squared Euclidean distance. */
  function L2sq(a: seq<real>, b: seq<real>): real
    requires |a| == |b|
  {
    if a == [] then 0.0 else Square(a[0] - b[0]) + L2sq(a[1..], b[1..])
  }

  /** Vectors may be measured piece by piece, so every coordinate counts alike. */
  lemma {:induction false} L2sqConcat(a: seq<real>, b: seq<real>, c: seq<real>, d: seq<real>)
    requires |a| == |b| && |c| == |d|
    ensures L2sq(a + c, b + d) == L2sq(a, b) + L2sq(c, d)
  {
    if a == [] {
      assert a + c == c && b + d == d;
    } else {
      L2sqConcat(a[1..], b[1..], c, d);
      assert (a + c)[1..] == a[1..] + c && (b + d)[1..] == b[1..] + d;
    }
  }

  lemma L2sqOfOne(x: real, y: real)
    ensures L2sq([x], [y]) == Square(x - y)
  {
  }

  /** One more coordinate adds the square of its difference. */
  lemma L2sqOneMore(a: seq<real>, b: seq<real>, x: real, y: real)
    requires |a| == |b|
    ensures L2sq(a + [x], b + [y]) == L2sq(a, b) + (x - y) * (x - y)
  {
    L2sqConcat(a, b, [x], [y]);
    L2sqOfOne(x, y);
  }

  /** The distance is never negative, and only a vector itself is at distance 0. */
  lemma {:induction false} L2sqZeroIffSame(a: seq<real>, b: seq<real>)
    requires |a| == |b|
    ensures L2sq(a, b) >= 0.0
    ensures L2sq(a, b) == 0.0 <==> a == b
  {
    if a != [] {
      L2sqZeroIffSame(a[1..], b[1..]);
      SquareZeroIff(a[0] - b[0]);
      assert a == b <==> a[0] == b[0] && a[1..] == b[1..] by {
        assert a == [a[0]] + a[1..] && b == [b[0]] + b[1..];
      }
    }
  }

  lemma SquareZeroIff(x: real)
    ensures Square(x) >= 0.0
    ensures Square(x) == 0.0 <==> x == 0.0
  {
    if x > 0.0 {
      Positive(x, x, Square(x));
    } else if x < 0.0 {
      SquareOfNegative(x);
      Positive(-x, -x, Square(-x));
    }
  }

  lemma SquareOfNegative(x: real)
    ensures Square(-x) == Square(x)
  {
    var y := -x;
    assert y * y == x * x;
  }

  lemma Positive(x: real, y: real, product: real)
    requires x > 0.0 && y > 0.0 && product == x * y
    ensures product > 0.0
  {
  }

  lemma {:induction false} L2sqSymmetric(a: seq<real>, b: seq<real>)
    requires |a| == |b|
    ensures L2sq(a, b) == L2sq(b, a)
  {
    if a != [] {
      L2sqSymmetric(a[1..], b[1..]);
      SquareOfNegative(a[0] - b[0]);
    }
  }

  /** Changing one coordinate changes the distance by what that coordinate contributes. */
  lemma L2sqChange(q: seq<real>, a: seq<real>, c: nat, x: real)
    requires |q| == |a| && c < |a|
    ensures L2sq(q, a[c := x]) - L2sq(q, a) == Square(q[c] - x) - Square(q[c] - a[c])
  {
    L2sqAt(q, a, c);
    L2sqAt(q, a[c := x], c);
    assert a[c := x][..c] == a[..c] && a[c := x][c + 1..] == a[c + 1..];
  }

  lemma L2sqAt(q: seq<real>, a: seq<real>, c: nat)
    requires |q| == |a| && c < |a|
    ensures L2sq(q, a) == L2sq(q[..c], a[..c]) + Square(q[c] - a[c]) + L2sq(q[c + 1..], a[c + 1..])
  {
    L2sqConcat(q[..c], a[..c], q[c..], a[c..]);
    assert q == q[..c] + q[c..] && a == a[..c] + a[c..];
    assert q[c..][1..] == q[c + 1..] && a[c..][1..] == a[c + 1..];
  }

  // ------------------------------------------------------------- answers ranked by the metric

  function Abs(x: real): real {
    if x < 0.0 then -x else x
  }

  /** b is a but for one coordinate, where it is farther from the query. */
  ghost predicate FartherInOne(query: seq<real>, a: seq<real>, b: seq<real>, c: nat) {
    && |query| == |a| == |b| && c < |a|
    && b == a[c := b[c]]
    && Abs(query[c] - a[c]) < Abs(query[c] - b[c])
  }

  lemma FartherInOneIsFarther(query: seq<real>, a: seq<real>, b: seq<real>, c: nat)
    requires FartherInOne(query, a, b, c)
    ensures L2sq(query, a) < L2sq(query, b)
  {
    L2sqChange(query, a, c, b[c]);
    SquareGrows(query[c] - a[c], query[c] - b[c]);
  }

  lemma SquareGrows(x: real, y: real)
    requires Abs(x) < Abs(y)
    ensures Square(x) < Square(y)
  {
    SquareOfNegative(x);
    SquareOfNegative(y);
    Growing(Abs(x), Abs(y));
  }

  lemma Growing(a: real, b: real)
    requires 0.0 <= a < b
    ensures a * a < b * b
  {
    var d := b - a;
    Positive(d, b, d * b);
    if a > 0.0 { Positive(a, d, a * d); }
    assert b * b == a * a + a * d + d * b;
  }

  ghost predicate AnsweredBefore<Id>(ids: seq<Id>, a: Id, b: Id) {
    exists i, j :: 0 <= i < j < |ids| && ids[i] == a && ids[j] == b
  }

  /** Of two entries that differ in one coordinate, the farther is answered only behind the nearer. */
  ghost predicate NearerFirst<Id(!new)>(ids: seq<Id>, query: seq<real>, m: map<Id, seq<real>>) {
    forall a, b, c: nat :: a in m && b in m && b in ids && FartherInOne(query, m[a], m[b], c) ==>
      AnsweredBefore(ids, a, b)
  }

  lemma TopKIsNearerFirst<Id(!new)>(ids: seq<Id>, query: seq<real>, m: map<Id, seq<real>>, dist: map<Id, real>, k: nat)
    requires forall id :: id in m ==> |m[id]| == |query|
    requires forall id :: id in dist <==> id in m
    requires forall id :: id in m ==> dist[id] == L2sq(query, m[id])
    requires IsTopK(ids, dist, k)
    ensures NearerFirst(ids, query, m)
  {
    forall a, b, c: nat | a in m && b in m && b in ids && FartherInOne(query, m[a], m[b], c)
      ensures AnsweredBefore(ids, a, b)
    {
      FartherInOneIsFarther(query, m[a], m[b], c);
      var j :| 0 <= j < |ids| && ids[j] == b;
      NearerIsBefore(ids, dist, k, a, j);
    }
  }

  lemma NearerIsBefore<Id(!new)>(ids: seq<Id>, dist: map<Id, real>, k: nat, a: Id, j: nat)
    requires IsTopK(ids, dist, k) && a in dist && j < |ids| && dist[a] < dist[ids[j]]
    ensures AnsweredBefore(ids, a, ids[j])
  {
    assert a in ids;
    var i :| 0 <= i < |ids| && ids[i] == a;
    assert i < j;
  }
}
