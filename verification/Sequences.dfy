/** Sequences without repetition. */
module Sequences {

  function Min(a: int, b: int): int {
    if a <= b then a else b
  }

  ghost predicate NoDup<T>(xs: seq<T>) {
    forall i, j :: 0 <= i < j < |xs| ==> xs[i] != xs[j]
  }

  ghost function Elements<T>(xs: seq<T>): set<T> {
    set x | x in xs
  }

  lemma CountElements<T>(xs: seq<T>)
    requires NoDup(xs)
    ensures |Elements(xs)| == |xs|
  {
    SetOfNoDup(xs);
  }

  lemma {:induction false} SetOfNoDup<T>(xs: seq<T>)
    requires NoDup(xs)
    ensures |set x | x in xs| == |xs|
  {
    if xs != [] {
      var k := |xs| - 1;
      SetOfNoDup(xs[..k]);
      assert (set x | x in xs) == (set x | x in xs[..k]) + {xs[k]} by {
        assert xs == xs[..k] + [xs[k]];
      }
    }
  }

  lemma InSlice<T>(xs: seq<T>, from: nat, upTo: nat, x: nat)
    requires NoDup(xs) && from <= upTo <= |xs| && x < |xs|
    ensures xs[x] in xs[from..upTo] <==> from <= x < upTo
  {
    var part := xs[from..upTo];
    if from <= x < upTo {
      assert part[x - from] == xs[x];
    }
    if xs[x] in part {
      var y :| 0 <= y < |part| && part[y] == xs[x];
      assert xs[from + y] == xs[x];
    }
  }

  lemma Larger<T>(a: set<T>, b: set<T>)
    requires a <= b
    ensures |a| <= |b|
  {
    assert b == a + (b - a);
  }

  lemma Union<T(!new)>(a: set<T>, b: set<T>, c: set<T>)
    requires forall x :: (x in c <==> x in a + b) && !(x in a && x in b)
    ensures |c| == |a| + |b|
  {
    assert c == a + b && a !! b;
  }

  lemma ElementsOneMore<T>(xs: seq<T>, i: nat)
    requires i < |xs|
    ensures Elements(xs[..i + 1]) == Elements(xs[..i]) + {xs[i]}
  {
    assert xs[..i + 1] == xs[..i] + [xs[i]];
  }

  lemma SwapKeepsElements<T(!new)>(xs: seq<T>, i: nat, j: nat)
    requires i < |xs| && j < |xs|
    ensures forall x :: x in xs[i := xs[j]][j := xs[i]] <==> x in xs
  {
    var ys := xs[i := xs[j]][j := xs[i]];
    forall k | 0 <= k < |xs| ensures xs[k] in ys && ys[k] in xs {
      assert xs[k] == ys[if k == i then j else if k == j then i else k];
    }
  }

  lemma SwapKeepsNoDup<T>(xs: seq<T>, i: nat, j: nat)
    requires i < |xs| && j < |xs| && NoDup(xs)
    ensures NoDup(xs[i := xs[j]][j := xs[i]])
  {
  }

  function Flatten<T>(xss: seq<seq<T>>): seq<T> {
    if xss == [] then [] else Flatten(xss[..|xss| - 1]) + xss[|xss| - 1]
  }

  lemma FlattenMore<T>(xss: seq<seq<T>>, xs: seq<T>)
    ensures Flatten(xss + [xs]) == Flatten(xss) + xs
  {
    assert (xss + [xs])[..|xss + [xs]| - 1] == xss;
  }

  lemma {:induction false} FlattenConcat<T>(a: seq<seq<T>>, b: seq<seq<T>>)
    ensures Flatten(a + b) == Flatten(a) + Flatten(b)
    decreases |b|
  {
    if b == [] {
      assert a + b == a;
    } else {
      var n := |b| - 1;
      FlattenConcat(a, b[..n]);
      assert (a + b)[..|a + b| - 1] == a + b[..n];
    }
  }

  function Without<T>(xs: seq<T>, i: nat): (r: seq<T>)
    requires i < |xs|
    ensures |r| == |xs| - 1
  {
    xs[..i] + xs[i + 1..]
  }

  lemma WithoutOne<T>(xs: seq<T>, i: nat)
    requires i < |xs|
    ensures multiset(xs) == multiset(Without(xs, i)) + multiset{xs[i]}
  {
    assert xs == xs[..i] + [xs[i]] + xs[i + 1..];
  }

  lemma Cancel<T>(a: multiset<T>, b: multiset<T>, x: T)
    requires a + multiset{x} == b + multiset{x}
    ensures a == b
  {
    assert a == a + multiset{x} - multiset{x};
    assert b == b + multiset{x} - multiset{x};
  }

  lemma WithoutSame<T>(a: seq<T>, b: seq<T>, i: nat, j: nat)
    requires multiset(a) == multiset(b) && i < |a| && j < |b| && a[i] == b[j]
    ensures multiset(Without(a, i)) == multiset(Without(b, j))
  {
    WithoutOne(a, i);
    WithoutOne(b, j);
    Cancel(multiset(Without(a, i)), multiset(Without(b, j)), a[i]);
  }

  lemma FlattenWithoutOne<T>(xss: seq<seq<T>>, i: nat)
    requires i < |xss|
    ensures multiset(Flatten(xss)) == multiset(Flatten(Without(xss, i))) + multiset(xss[i])
  {
    FlattenMiddle(xss[..i], xss[i], xss[i + 1..]);
    Reassemble(xss, i);
  }

  lemma Reassemble<T>(xs: seq<T>, i: nat)
    requires i < |xs|
    ensures xs[..i] + [xs[i]] + xs[i + 1..] == xs
  {
  }

  lemma FlattenMiddle<T>(a: seq<seq<T>>, x: seq<T>, b: seq<seq<T>>)
    ensures multiset(Flatten(a + [x] + b)) == multiset(Flatten(a + b)) + multiset(x)
  {
    FlattenConcat(a + [x], b);
    FlattenMore(a, x);
    FlattenConcat(a, b);
  }

  /** The order of the parts does not matter to what is in them. */
  lemma {:induction false} FlattenPermuted<T>(a: seq<seq<T>>, b: seq<seq<T>>)
    requires multiset(a) == multiset(b)
    ensures multiset(Flatten(a)) == multiset(Flatten(b))
    decreases |a|
  {
    if a == [] {
      assert |multiset(a)| == |multiset(b)|;
    } else {
      assert a[0] in multiset(b);
      var i :| 0 <= i < |b| && b[i] == a[0];
      WithoutSame(a, b, 0, i);
      FlattenPermuted(Without(a, 0), Without(b, i));
      FlattenWithoutOne(a, 0);
      FlattenWithoutOne(b, i);
    }
  }

  lemma TakeHolds<T>(xs: seq<T>, n: nat)
    requires n <= |xs|
    ensures forall i :: 0 <= i < n ==> xs[i] in xs[..n]
  {
    forall i | 0 <= i < n ensures xs[i] in xs[..n] {
      assert xs[..n][i] == xs[i];
    }
  }

  lemma {:induction false} InFlatten<T>(xss: seq<seq<T>>, x: T)
    ensures x in Flatten(xss) <==> exists i :: 0 <= i < |xss| && x in xss[i]
  {
    if xss != [] {
      var n := |xss| - 1;
      InFlatten(xss[..n], x);
      if x in Flatten(xss[..n]) {
        var i :| 0 <= i < n && x in xss[..n][i];
        assert x in xss[i];
      }
      forall i | 0 <= i < |xss| && x in xss[i] ensures x in Flatten(xss) {
        if i < n { assert xss[..n][i] == xss[i]; }
      }
    }
  }
}
