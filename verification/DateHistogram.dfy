/**
 Automatic date histograms. Instants are put into buckets whose key is the instant cut down to a
 multiple of the interval; when there are too many buckets the interval grows and every bucket moves
 to the key its own key is cut down to. A pass visits the map while it changes it, so keys put in on
 the way may or may not be visited again. A bucket is known by the instants it has consumed.
 */
module DateHistogram {
  import opened Arithmetic
  import opened Sequences

  datatype Time = Time(ns: int)

  type Buckets = map<Time, multiset<Time>>

  const SECOND: nat := 1_000_000_000

  const MAX_INT64 := 0x7fff_ffff_ffff_ffff
  const MIN_INT64 := -0x8000_0000_0000_0000

  /** The fixed-width intervals, up to a week. */
  const INTERVALS: seq<nat> := [
    SECOND, SECOND * 5, SECOND * 10, SECOND * 30,
    SECOND * 60, SECOND * 300, SECOND * 600, SECOND * 1800,
    SECOND * 3600, SECOND * 10800, SECOND * 43200,
    SECOND * 86400, SECOND * 604800
  ]

  /** Division that truncates toward zero. */
  function TruncDiv(a: int, b: nat): int
    requires b > 0
  {
    if a >= 0 then a / b else -((-a) / b)
  }

  function BucketKey(x: Time, interval: nat): Time
    requires interval > 0
  {
    Time(TruncDiv(x.ns, interval) * interval)
  }

  // ------------------------------------------------------------------- arithmetic

  predicate Divides(a: nat, b: nat)
    requires a > 0
  {
    b % a == 0
  }

  /** The largest multiple up to n. */
  function Cut(n: nat, interval: nat): (r: int)
    requires interval > 0
    ensures 0 <= r
  {
    n / interval * interval
  }

  /** A multiple of f up to x is up to the largest such multiple. */
  lemma LargestMultiple(x: nat, f: nat, k: nat)
    requires f > 0 && k * f <= x
    ensures k * f <= x / f * f
  {
    QuotientBounds(x, f);
    if k > x / f {
      MoreTimes(k, x / f + 1, f);
      assert false;
    }
    MoreTimes(x / f, k, f);
  }

  /** Cutting down twice is cutting down once. */
  lemma NestedCut(x: nat, f: nat, c: nat)
    requires f > 0 && c > 0 && Divides(f, c)
    ensures Cut(Cut(x, f), c) == Cut(x, c)
  {
    var q, y, m := x / c, x / f * f, c / f;
    QuotientBounds(x, c);
    QuotientBounds(x, f);
    assert c == m * f;
    assert q * c == (q * m) * f by { Regroup(q, m, f); }
    LargestMultiple(x, f, q * m);
    QuotientIs(y, c, q);
  }

  lemma Regroup(a: nat, b: nat, c: nat)
    ensures a * (b * c) == (a * b) * c
  {
  }

  lemma NegativeProduct(a: int, b: int)
    ensures (-a) * b == -(a * b)
  {
  }

  /** The key of an instant, before or after the epoch. */
  lemma KeyIsCut(x: Time, interval: nat)
    requires interval > 0
    ensures BucketKey(x, interval).ns == if x.ns >= 0 then Cut(x.ns, interval) else -Cut(-x.ns, interval)
  {
    if x.ns < 0 {
      NegativeProduct((-x.ns) / interval, interval);
    }
  }

  lemma KeyOfKey(x: Time, f: nat, c: nat)
    requires f > 0 && c > 0 && Divides(f, c)
    ensures BucketKey(BucketKey(x, f), c) == BucketKey(x, c)
  {
    KeyIsCut(x, f);
    KeyIsCut(x, c);
    KeyIsCut(BucketKey(x, f), c);
    if x.ns >= 0 {
      NestedCut(x.ns, f, c);
    } else {
      NestedCut(-x.ns, f, c);
      QuotientBounds(0, c);
    }
  }

  lemma LaterCut(x: nat, y: nat, interval: nat)
    requires interval > 0 && x <= y
    ensures Cut(x, interval) <= Cut(y, interval)
  {
    QuotientBounds(x, interval);
    LargestMultiple(y, interval, x / interval);
  }

  /** Later instants have no earlier keys. */
  lemma LaterKey(x: Time, y: Time, interval: nat)
    requires interval > 0 && x.ns <= y.ns
    ensures BucketKey(x, interval).ns <= BucketKey(y, interval).ns
  {
    KeyIsCut(x, interval);
    KeyIsCut(y, interval);
    if x.ns >= 0 {
      LaterCut(x.ns, y.ns, interval);
    } else if y.ns < 0 {
      LaterCut(-y.ns, -x.ns, interval);
    }
  }

  // --------------------------------------------------------------- the intervals

  lemma DividesTrans(a: nat, b: nat, c: nat)
    requires a > 0 && b > 0 && Divides(a, b) && Divides(b, c)
    ensures Divides(a, c)
  {
    var m, k := b / a, c / b;
    assert b == m * a && c == k * b;
    Regroup(k, m, a);
    MultipleHasNoRest(k * m, a);
  }

  lemma MultipleHasNoRest(k: nat, a: nat)
    requires a > 0
    ensures (k * a) % a == 0
  {
    QuotientIs(k * a, a, k);
  }

  lemma NextDivides(i: nat)
    requires i + 1 < |INTERVALS|
    ensures INTERVALS[i] > 0 && Divides(INTERVALS[i], INTERVALS[i + 1])
  {
  }

  /** Every interval of the list divides the later ones. */
  lemma {:induction false} IntervalsDivide(i: nat, j: nat)
    requires i <= j < |INTERVALS|
    ensures INTERVALS[i] > 0 && INTERVALS[j] > 0 && Divides(INTERVALS[i], INTERVALS[j])
    decreases j - i
  {
    if i < j {
      NextDivides(i);
      IntervalsDivide(i + 1, j);
      DividesTrans(INTERVALS[i], INTERVALS[i + 1], INTERVALS[j]);
    }
  }

  // ----------------------------------------------------------------- the buckets

  function Held(m: Buckets, key: Time, x: Time): nat {
    if key in m then m[key][x] else 0
  }

  /** Every instant is in the bucket of its key, as often as it was consumed, and nowhere else. */
  ghost predicate Bucketed(m: Buckets, all: multiset<Time>, interval: nat)
    requires interval > 0
  {
    && (forall key, x :: Held(m, key, x) == if BucketKey(x, interval) == key then all[x] else 0)
    && (forall key :: key in m ==> BucketKey(key, interval) == key)
  }

  /** Every instant is in one bucket, whose key is cut down to where the instant belongs. */
  ghost predicate Located(m: Buckets, all: multiset<Time>, interval: nat, x: Time, at: Time)
    requires interval > 0
  {
    && BucketKey(at, interval) == BucketKey(x, interval)
    && forall key :: Held(m, key, x) == if key == at then all[x] else 0
  }

  ghost predicate Somewhere(m: Buckets, all: multiset<Time>, interval: nat, x: Time)
    requires interval > 0
  {
    exists at :: Located(m, all, interval, x, at)
  }

  ghost predicate Coherent(m: Buckets, all: multiset<Time>, interval: nat)
    requires interval > 0
  {
    forall x :: Somewhere(m, all, interval, x)
  }

  /** Consuming an instant. */
  method Consume(m: Buckets, interval: nat, x: Time, ghost all: multiset<Time>) returns (m': Buckets)
    requires interval > 0 && Bucketed(m, all, interval)
    ensures Bucketed(m', all + multiset{x}, interval) && m'.Keys == m.Keys + {BucketKey(x, interval)}
  {
    var key := BucketKey(x, interval);
    KeyOfKey(x, interval, interval);
    if key in m {
      m' := m[key := m[key] + multiset{x}];
    } else {
      m' := m[key := multiset{x}];
    }
    forall k, y ensures Held(m', k, y) == if BucketKey(y, interval) == k then (all + multiset{x})[y] else 0 {
      assert Held(m, k, y) == if BucketKey(y, interval) == k then all[y] else 0;
    }
  }

  /** What was bucketed at an interval is coherent for every interval it divides. */
  lemma BucketedIsCoherent(m: Buckets, all: multiset<Time>, f: nat, c: nat)
    requires f > 0 && c > 0 && Divides(f, c) && Bucketed(m, all, f)
    ensures Coherent(m, all, c)
  {
    forall x ensures Somewhere(m, all, c, x) {
      KeyOfKey(x, f, c);
      assert Located(m, all, c, x, BucketKey(x, f));
    }
  }

  /** The visit of one key: its bucket moves to the key it is cut down to. */
  function Move(m: Buckets, key: Time, interval: nat): Buckets
    requires interval > 0 && key in m
  {
    var rest := m - {key};
    var to := BucketKey(key, interval);
    if to in rest then rest[to := rest[to] + m[key]] else rest[to := multiset{} + m[key]]
  }

  lemma MoveHeld(m: Buckets, key: Time, interval: nat, k: Time, x: Time)
    requires interval > 0 && key in m
    ensures var to := BucketKey(key, interval);
            Held(Move(m, key, interval), k, x) ==
            if k == to then (if k == key then Held(m, k, x) else Held(m, k, x) + Held(m, key, x))
            else if k == key then 0 else Held(m, k, x)
  {
  }

  lemma MoveKeepsLocated(m: Buckets, all: multiset<Time>, interval: nat, key: Time, x: Time, at: Time)
    requires interval > 0 && key in m && Located(m, all, interval, x, at)
    ensures Located(Move(m, key, interval), all, interval, x, if at == key then BucketKey(key, interval) else at)
  {
    var at' := if at == key then BucketKey(key, interval) else at;
    KeyOfKey(key, interval, interval);
    forall k ensures Held(Move(m, key, interval), k, x) == if k == at' then all[x] else 0 {
      MoveHeld(m, key, interval, k, x);
      assert Held(m, k, x) == if k == at then all[x] else 0;
      assert Held(m, key, x) == if key == at then all[x] else 0;
    }
  }

  lemma MoveKeepsCoherent(m: Buckets, all: multiset<Time>, interval: nat, key: Time)
    requires interval > 0 && key in m && Coherent(m, all, interval)
    ensures Coherent(Move(m, key, interval), all, interval)
  {
    forall x ensures Somewhere(Move(m, key, interval), all, interval, x) {
      assert Somewhere(m, all, interval, x);
      var at :| Located(m, all, interval, x, at);
      MoveKeepsLocated(m, all, interval, key, x, at);
    }
  }

  /** The buckets after a pass over these keys. */
  function MoveAll(m: Buckets, interval: nat, visits: seq<Time>): Buckets
    requires interval > 0
    decreases |visits|
  {
    if visits == [] then m
    else MoveIf(MoveAll(m, interval, visits[..|visits| - 1]), visits[|visits| - 1], interval)
  }

  function MoveIf(m: Buckets, key: Time, interval: nat): Buckets
    requires interval > 0
  {
    if key in m then Move(m, key, interval) else m
  }

  lemma {:induction false} PassKeepsCoherent(m: Buckets, all: multiset<Time>, interval: nat, visits: seq<Time>)
    requires interval > 0 && Coherent(m, all, interval)
    ensures Coherent(MoveAll(m, interval, visits), all, interval)
    decreases |visits|
  {
    if visits != [] {
      var n := |visits| - 1;
      PassKeepsCoherent(m, all, interval, visits[..n]);
      var before := MoveAll(m, interval, visits[..n]);
      if visits[n] in before { MoveKeepsCoherent(before, all, interval, visits[n]); }
    }
  }

  /** After a pass over all keys every key is a multiple of the interval. */
  lemma {:induction false} PassAligns(m: Buckets, interval: nat, visits: seq<Time>, rest: seq<Time>)
    requires interval > 0 && forall key :: key in m ==> key in visits + rest
    ensures forall key :: key in MoveAll(m, interval, visits) ==> BucketKey(key, interval) == key || key in rest
    decreases |visits|
  {
    if visits != [] {
      var n := |visits| - 1;
      assert visits[..n] + ([visits[n]] + rest) == visits + rest;
      PassAligns(m, interval, visits[..n], [visits[n]] + rest);
      KeyOfKey(visits[n], interval, interval);
    } else {
      assert visits + rest == rest;
    }
  }

  /** A pass moves buckets to the keys they are cut down to and nowhere else. */
  lemma {:induction false} PassKeys(m: Buckets, interval: nat, visits: seq<Time>, key: Time)
    requires interval > 0 && key in MoveAll(m, interval, visits)
    ensures exists k :: k in m && BucketKey(k, interval) == BucketKey(key, interval)
    decreases |visits|
  {
    if visits == [] {
      assert key in m;
    } else {
      var n := |visits| - 1;
      var before := MoveAll(m, interval, visits[..n]);
      if key in before {
        PassKeys(m, interval, visits[..n], key);
      } else {
        KeyOfKey(visits[n], interval, interval);
        PassKeys(m, interval, visits[..n], visits[n]);
      }
    }
  }

  /** The loop of a pass, visiting keys in any order, those put in on the way again or not. */
  method Pass(m: Buckets, interval: nat, visits: seq<Time>) returns (m': Buckets)
    requires interval > 0
    ensures m' == MoveAll(m, interval, visits)
  {
    m' := m;
    for i := 0 to |visits|
      invariant m' == MoveAll(m, interval, visits[..i])
    {
      assert visits[..i + 1][..i] == visits[..i];
      var key := visits[i];
      if key in m' {
        var bucket := m'[key];
        m' := m' - {key};
        var to := BucketKey(key, interval);
        if to in m' {
          m' := m'[to := m'[to] + bucket];
        } else {
          m' := m'[to := multiset{} + bucket];
        }
      }
    }
    assert visits[..|visits|] == visits;
  }

  /** A pass that visits every key that was there ends with the buckets of the coarser interval. */
  lemma PassIsBucketed(m: Buckets, all: multiset<Time>, interval: nat, visits: seq<Time>)
    requires interval > 0 && Coherent(m, all, interval) && forall key :: key in m ==> key in visits
    ensures Bucketed(MoveAll(m, interval, visits), all, interval)
  {
    PassKeepsCoherent(m, all, interval, visits);
    assert visits + [] == visits;
    PassAligns(m, interval, visits, []);
    AlignedIsBucketed(MoveAll(m, interval, visits), all, interval);
  }

  lemma AlignedIsBucketed(m: Buckets, all: multiset<Time>, interval: nat)
    requires interval > 0 && Coherent(m, all, interval) && forall key :: key in m ==> BucketKey(key, interval) == key
    ensures Bucketed(m, all, interval)
  {
    forall key, x ensures Held(m, key, x) == if BucketKey(x, interval) == key then all[x] else 0 {
      assert Somewhere(m, all, interval, x);
      var at :| Located(m, all, interval, x, at);
      if all[x] > 0 {
        assert Held(m, at, x) > 0;
        assert at in m;
      }
    }
  }

  // ------------------------------------------------------------------- counts

  /** What the buckets of these keys have consumed. */
  ghost function Consumed(m: Buckets, keys: seq<Time>): multiset<Time>
    requires forall k :: k in keys ==> k in m
  {
    if keys == [] then multiset{} else Consumed(m, keys[..|keys| - 1]) + m[keys[|keys| - 1]]
  }

  lemma {:induction false} ConsumedAt(m: Buckets, keys: seq<Time>, all: multiset<Time>, interval: nat, x: Time,
                                      at: Time)
    requires NoDup(keys) && (forall k :: k in keys ==> k in m) && interval > 0 && Located(m, all, interval, x, at)
    ensures Consumed(m, keys)[x] == if at in keys then all[x] else 0
    decreases |keys|
  {
    if keys != [] {
      var n := |keys| - 1;
      ConsumedAt(m, keys[..n], all, interval, x, at);
      assert Held(m, keys[n], x) == if keys[n] == at then all[x] else 0;
      assert at in keys <==> at in keys[..n] || at == keys[n];
    }
  }

  /** Buckets that are coherent hold every instant once, so their counts add up to the number of instants. */
  lemma NothingIsLost(m: Buckets, keys: seq<Time>, all: multiset<Time>, interval: nat)
    requires NoDup(keys) && (forall k :: k in keys <==> k in m) && interval > 0 && Coherent(m, all, interval)
    ensures Consumed(m, keys) == all
  {
    forall x ensures Consumed(m, keys)[x] == all[x] {
      assert Somewhere(m, all, interval, x);
      var at :| Located(m, all, interval, x, at);
      ConsumedAt(m, keys, all, interval, x, at);
      assert Held(m, at, x) == all[x];
    }
  }

  /** Buckets left behind by any finer interval of the list are ready for a pass at any coarser one. */
  lemma FinerIsCoherent(m: Buckets, all: multiset<Time>, i: nat, j: nat)
    requires i <= j < |INTERVALS| && INTERVALS[i] > 0 && Bucketed(m, all, INTERVALS[i])
    ensures INTERVALS[j] > 0 && Coherent(m, all, INTERVALS[j])
  {
    IntervalsDivide(i, j);
    BucketedIsCoherent(m, all, INTERVALS[i], INTERVALS[j]);
  }

  // -------------------------------------------------------------------- merging

  /** m holds what a and b hold, bucket by bucket. */
  ghost predicate IsSum(m: Buckets, a: Buckets, b: Buckets) {
    forall key, x :: Held(m, key, x) == Held(a, key, x) + Held(b, key, x)
  }

  /** The interval after a merge: raised only for a bucket that was not found. */
  function MergedInterval(a: Buckets, ca: nat, b: Buckets, cb: nat): nat {
    if b.Keys <= a.Keys || cb <= ca then ca else cb
  }

  lemma IntervalOneMore(a: set<Time>, done: set<Time>, key: Time)
    ensures done + {key} <= a <==> done <= a && key in a
  {
  }

  /** Bounds widened just for the buckets of b that a does not have, and no farther. */
  ghost predicate Widened(a: set<Time>, b: set<Time>, lo: int, hi: int, lo': int, hi': int) {
    && lo' <= lo && hi <= hi'
    && (forall key :: key in b && key !in a ==> lo' <= key.ns <= hi')
    && (lo' == lo || (Time(lo') in b && Time(lo') !in a))
    && (hi' == hi || (Time(hi') in b && Time(hi') !in a))
  }

  /** The loop over the other calculator's buckets; names stand for their keys. */
  method MergeBuckets(a: Buckets, ca: nat, b: Buckets, cb: nat, lo: int, hi: int)
    returns (m: Buckets, c: nat, lo': int, hi': int)
    ensures IsSum(m, a, b) && m.Keys == a.Keys + b.Keys && c == MergedInterval(a, ca, b, cb)
    ensures Widened(a.Keys, b.Keys, lo, hi, lo', hi')
  {
    m, c, lo', hi' := a, ca, lo, hi;
    var todo := b.Keys;
    ghost var done: set<Time> := {};
    while todo != {}
      invariant done !! todo && done + todo == b.Keys && m.Keys == a.Keys + done
      invariant forall key, x :: Held(m, key, x) == Held(a, key, x) + if key in done then Held(b, key, x) else 0
      invariant c == if done <= a.Keys || cb <= ca then ca else cb
      invariant Widened(a.Keys, done, lo, hi, lo', hi')
      decreases todo
    {
      var key :| key in todo;
      IntervalOneMore(a.Keys, done, key);
      if key in a {
        m := m[key := m[key] + b[key]];
      } else {
        m := m[key := b[key]];
        if key.ns < lo' {
          lo' := key.ns;
        }
        if hi' < key.ns {
          hi' := key.ns;
        }
        if c < cb {
          c := cb;
        }
      }
      done, todo := done + {key}, todo - {key};
    }
    assert done == b.Keys;
  }

  /** Moving a bucket of a sum moves it in both parts. */
  lemma MoveKeepsSum(m: Buckets, a: Buckets, b: Buckets, key: Time, interval: nat)
    requires interval > 0 && key in m && IsSum(m, a, b)
    ensures IsSum(Move(m, key, interval), MoveIf(a, key, interval), MoveIf(b, key, interval))
  {
    forall k, x
      ensures Held(Move(m, key, interval), k, x) ==
              Held(MoveIf(a, key, interval), k, x) + Held(MoveIf(b, key, interval), k, x)
    {
      MoveHeld(m, key, interval, k, x);
      if key in a { MoveHeld(a, key, interval, k, x); }
      if key in b { MoveHeld(b, key, interval, k, x); }
    }
  }

  /** Two parts, each coherent, that together are m. */
  ghost predicate Parts(m: Buckets, a: Buckets, allA: multiset<Time>, b: Buckets, allB: multiset<Time>, interval: nat)
    requires interval > 0
  {
    IsSum(m, a, b) && Coherent(a, allA, interval) && Coherent(b, allB, interval)
  }

  lemma MoveKeepsParts(m: Buckets, a: Buckets, allA: multiset<Time>, b: Buckets, allB: multiset<Time>, interval: nat,
                       key: Time)
    requires interval > 0 && key in m && Parts(m, a, allA, b, allB, interval)
    ensures Parts(Move(m, key, interval), MoveIf(a, key, interval), allA, MoveIf(b, key, interval), allB, interval)
  {
    MoveKeepsSum(m, a, b, key, interval);
    if key in a { MoveKeepsCoherent(a, allA, interval, key); }
    if key in b { MoveKeepsCoherent(b, allB, interval, key); }
  }

  lemma {:induction false} PassKeepsParts(m: Buckets, a: Buckets, allA: multiset<Time>, b: Buckets,
                                          allB: multiset<Time>,
                                          interval: nat, visits: seq<Time>) returns (a': Buckets, b': Buckets)
    requires interval > 0 && Parts(m, a, allA, b, allB, interval)
    ensures Parts(MoveAll(m, interval, visits), a', allA, b', allB, interval)
    decreases |visits|
  {
    a', b' := a, b;
    if visits != [] {
      var n := |visits| - 1;
      a', b' := PassKeepsParts(m, a, allA, b, allB, interval, visits[..n]);
      var before := MoveAll(m, interval, visits[..n]);
      if visits[n] in before {
        MoveKeepsParts(before, a', allA, b', allB, interval, visits[n]);
        a', b' := MoveIf(a', visits[n], interval), MoveIf(b', visits[n], interval);
      }
    }
  }

  /** Where a coherent part holds an instant, once all keys are aligned. */
  lemma PartIsAligned(m: Buckets, part: Buckets, all: multiset<Time>, interval: nat, key: Time, x: Time)
    requires interval > 0 && Coherent(part, all, interval)
    requires forall k, y :: Held(part, k, y) <= Held(m, k, y)
    requires forall k :: k in m ==> BucketKey(k, interval) == k
    ensures Held(part, key, x) == if BucketKey(x, interval) == key then all[x] else 0
  {
    assert Somewhere(part, all, interval, x);
    var at :| Located(part, all, interval, x, at);
    if all[x] > 0 {
      assert Held(part, at, x) > 0;
      assert Held(part, at, x) <= Held(m, at, x);
      assert at in m;
    }
  }

  lemma AlignedPartsAreBucketed(m: Buckets, a: Buckets, allA: multiset<Time>, b: Buckets, allB: multiset<Time>,
                                interval: nat)
    requires interval > 0 && Parts(m, a, allA, b, allB, interval)
    requires forall key :: key in m ==> BucketKey(key, interval) == key
    ensures Bucketed(m, allA + allB, interval)
  {
    forall key, x ensures Held(m, key, x) == if BucketKey(x, interval) == key then (allA + allB)[x] else 0 {
      PartIsAligned(m, a, allA, interval, key, x);
      PartIsAligned(m, b, allB, interval, key, x);
    }
  }

  /** A merge whose interval is at least as coarse as both ends with every instant in its bucket. */
  lemma CoarseMergeIsBucketed(a: Buckets, allA: multiset<Time>, ca: nat, b: Buckets, allB: multiset<Time>, cb: nat,
                              m: Buckets, c: nat, visits: seq<Time>)
    requires ca <= c && cb <= c < |INTERVALS| && INTERVALS[ca] > 0 && INTERVALS[cb] > 0 && INTERVALS[c] > 0
    requires Bucketed(a, allA, INTERVALS[ca]) && Bucketed(b, allB, INTERVALS[cb]) && IsSum(m, a, b)
    requires forall key :: key in m ==> key in visits
    ensures Bucketed(MoveAll(m, INTERVALS[c], visits), allA + allB, INTERVALS[c])
  {
    FinerIsCoherent(a, allA, ca, c);
    FinerIsCoherent(b, allB, cb, c);
    var a', b' := PassKeepsParts(m, a, allA, b, allB, INTERVALS[c], visits);
    assert visits + [] == visits;
    PassAligns(m, INTERVALS[c], visits, []);
    AlignedPartsAreBucketed(MoveAll(m, INTERVALS[c], visits), a', allA, b', allB, INTERVALS[c]);
  }

  /** A pass over aligned keys moves nothing. */
  lemma {:induction false} PassOverAligned(m: Buckets, interval: nat, visits: seq<Time>)
    requires interval > 0 && forall key :: key in m ==> BucketKey(key, interval) == key
    ensures MoveAll(m, interval, visits).Keys == m.Keys
    ensures forall key, x :: Held(MoveAll(m, interval, visits), key, x) == Held(m, key, x)
    decreases |visits|
  {
    if visits != [] {
      var n := |visits| - 1;
      PassOverAligned(m, interval, visits[..n]);
      var before := MoveAll(m, interval, visits[..n]);
      if visits[n] in before {
        forall key, x ensures Held(Move(before, visits[n], interval), key, x) == Held(before, key, x) {
          MoveHeld(before, visits[n], interval, key, x);
        }
      }
    }
  }

  /** The instants have the same key at both intervals. */
  ghost predicate SameKeys(all: multiset<Time>, f: nat, c: nat)
    requires f > 0 && c > 0
  {
    forall x :: x in all ==> BucketKey(x, f) == BucketKey(x, c)
  }

  lemma MisplacedUnlessSame(m: Buckets, a: Buckets, allA: multiset<Time>, b: Buckets, allB: multiset<Time>, f: nat,
                            c: nat)
    requires f > 0 && c > 0 && Bucketed(a, allA, f) && Bucketed(b, allB, c) && IsSum(m, a, b)
    requires forall key :: key in m ==> BucketKey(key, f) == key
    ensures Bucketed(m, allA + allB, f) <==> SameKeys(allB, f, c)
  {
    if SameKeys(allB, f, c) {
      forall key, x ensures Held(m, key, x) == if BucketKey(x, f) == key then (allA + allB)[x] else 0 {
        assert Held(m, key, x) == Held(a, key, x) + Held(b, key, x);
      }
    } else {
      var x :| x in allB && BucketKey(x, f) != BucketKey(x, c);
      assert Held(m, BucketKey(x, c), x) == Held(a, BucketKey(x, c), x) + Held(b, BucketKey(x, c), x);
    }
  }

  /** The exact condition for a merge to leave every instant in its bucket. */
  ghost predicate Coarsened(a: Buckets, ca: nat, b: Buckets, allB: multiset<Time>, cb: nat) {
    || cb <= ca
    || !(b.Keys <= a.Keys)
    || (ca < |INTERVALS| && cb < |INTERVALS| && INTERVALS[ca] > 0 && INTERVALS[cb] > 0 &&
        SameKeys(allB, INTERVALS[ca], INTERVALS[cb]))
  }

  /**
   After a merge and its pass the buckets are those of all instants exactly if the other interval was not
   coarser, or a bucket was not found and raised the interval, or the other's instants do not tell.
   */
  lemma MergedIsBucketedIff(a: Buckets, allA: multiset<Time>, ca: nat, b: Buckets, allB: multiset<Time>, cb: nat,
                            m: Buckets, visits: seq<Time>)
    requires ca < |INTERVALS| && cb < |INTERVALS| && INTERVALS[ca] > 0 && INTERVALS[cb] > 0
    requires Bucketed(a, allA, INTERVALS[ca]) && Bucketed(b, allB, INTERVALS[cb])
    requires IsSum(m, a, b) && m.Keys == a.Keys + b.Keys && forall key :: key in m ==> key in visits
    ensures var c := MergedInterval(a, ca, b, cb);
            && INTERVALS[c] > 0
            && (Bucketed(MoveAll(m, INTERVALS[c], visits), allA + allB, INTERVALS[c]) <==>
                Coarsened(a, ca, b, allB, cb))
  {
    var c := MergedInterval(a, ca, b, cb);
    if cb <= c {
      CoarseMergeIsBucketed(a, allA, ca, b, allB, cb, m, c, visits);
    } else {
      IntervalsDivide(ca, cb);
      forall key | key in m ensures BucketKey(key, INTERVALS[ca]) == key {}
      PassOverAligned(m, INTERVALS[ca], visits);
      assert IsSum(MoveAll(m, INTERVALS[ca], visits), a, b);
      MisplacedUnlessSame(MoveAll(m, INTERVALS[ca], visits), a, allA, b, allB, INTERVALS[ca], INTERVALS[cb]);
    }
  }

  // ---------------------------------------------------------------------- the bounds

  /** No bucket lies outside the range of the instants seen. */
  ghost predicate Within(m: Buckets, lo: int, hi: int, interval: nat)
    requires interval > 0
  {
    forall key :: key in m ==>
      BucketKey(Time(lo), interval).ns <= BucketKey(key, interval).ns <= BucketKey(Time(hi), interval).ns
  }

  lemma KeyWithin(key: Time, lo: int, hi: int, f: nat, c: nat)
    requires f > 0 && c > 0 && Divides(f, c)
    requires BucketKey(Time(lo), f).ns <= BucketKey(key, f).ns <= BucketKey(Time(hi), f).ns
    ensures BucketKey(Time(lo), c).ns <= BucketKey(key, c).ns <= BucketKey(Time(hi), c).ns
  {
    KeyOfKey(Time(lo), f, c);
    KeyOfKey(key, f, c);
    KeyOfKey(Time(hi), f, c);
    LaterKey(BucketKey(Time(lo), f), BucketKey(key, f), c);
    LaterKey(BucketKey(key, f), BucketKey(Time(hi), f), c);
  }

  lemma CoarserWithin(m: Buckets, lo: int, hi: int, f: nat, c: nat)
    requires f > 0 && c > 0 && Divides(f, c) && Within(m, lo, hi, f)
    ensures Within(m, lo, hi, c)
  {
    forall key | key in m
      ensures BucketKey(Time(lo), c).ns <= BucketKey(key, c).ns <= BucketKey(Time(hi), c).ns
    {
      KeyWithin(key, lo, hi, f, c);
    }
  }

  lemma WiderWithin(m: Buckets, lo: int, hi: int, lo': int, hi': int, interval: nat)
    requires interval > 0 && Within(m, lo, hi, interval) && lo' <= lo && hi <= hi'
    ensures Within(m, lo', hi', interval)
  {
    LaterKey(Time(lo'), Time(lo), interval);
    LaterKey(Time(hi), Time(hi'), interval);
  }

  lemma ConsumedWithin(m: Buckets, m': Buckets, lo: int, hi: int, interval: nat, x: Time)
    requires interval > 0 && Within(m, lo, hi, interval) && lo <= x.ns <= hi
    requires m'.Keys == m.Keys + {BucketKey(x, interval)}
    ensures Within(m', lo, hi, interval)
  {
    LaterKey(Time(lo), x, interval);
    LaterKey(x, Time(hi), interval);
    KeyOfKey(x, interval, interval);
  }

  lemma MergedWithin(a: Buckets, b: Buckets, m: Buckets, lo: int, hi: int, lo': int, hi': int, f: nat, c: nat)
    requires f > 0 && c > 0 && Divides(f, c) && Within(a, lo, hi, f)
    requires m.Keys == a.Keys + b.Keys && Widened(a.Keys, b.Keys, lo, hi, lo', hi')
    ensures Within(m, lo', hi', c)
  {
    CoarserWithin(a, lo, hi, f, c);
    WiderWithin(a, lo, hi, lo', hi', c);
    forall key | key in m
      ensures BucketKey(Time(lo'), c).ns <= BucketKey(key, c).ns <= BucketKey(Time(hi'), c).ns
    {
      if key !in a {
        LaterKey(Time(lo'), key, c);
        LaterKey(key, Time(hi'), c);
      }
    }
  }

  /** What else a merge leaves: bounded buckets, and the same keys if all were found by name. */
  lemma MergedIsWithin(a: Buckets, allA: multiset<Time>, ca: nat, b: Buckets, allB: multiset<Time>, cb: nat,
                       m: Buckets, visits: seq<Time>, lo: int, hi: int, lo': int, hi': int)
    requires ca < |INTERVALS| && cb < |INTERVALS| && INTERVALS[ca] > 0 && INTERVALS[cb] > 0
    requires Bucketed(a, allA, INTERVALS[ca]) && Within(a, lo, hi, INTERVALS[ca])
    requires IsSum(m, a, b) && m.Keys == a.Keys + b.Keys && Widened(a.Keys, b.Keys, lo, hi, lo', hi')
    ensures var c := MergedInterval(a, ca, b, cb);
            && INTERVALS[c] > 0 && Within(MoveAll(m, INTERVALS[c], visits), lo', hi', INTERVALS[c])
            && (cb > ca && b.Keys <= a.Keys ==>
                  MoveAll(m, INTERVALS[c], visits).Keys == a.Keys && IsSum(MoveAll(m, INTERVALS[c], visits), a, b))
  {
    var c := MergedInterval(a, ca, b, cb);
    IntervalsDivide(ca, c);
    MergedWithin(a, b, m, lo, hi, lo', hi', INTERVALS[ca], INTERVALS[c]);
    PassWithin(m, lo', hi', INTERVALS[c], visits);
    if cb > ca && b.Keys <= a.Keys {
      assert m.Keys == a.Keys;
      PassOverAligned(m, INTERVALS[c], visits);
    }
  }

  lemma PassWithin(m: Buckets, lo: int, hi: int, interval: nat, visits: seq<Time>)
    requires interval > 0 && Within(m, lo, hi, interval)
    ensures Within(MoveAll(m, interval, visits), lo, hi, interval)
  {
    forall key | key in MoveAll(m, interval, visits)
      ensures BucketKey(Time(lo), interval).ns <= BucketKey(key, interval).ns <= BucketKey(Time(hi), interval).ns
    {
      PassKeys(m, interval, visits, key);
      var k :| k in m && BucketKey(k, interval) == BucketKey(key, interval);
    }
  }

  // ----------------------------------------------------------------- replenishing

  function Tick(lo: int, j: nat, interval: nat): Time {
    Time(lo + j * interval)
  }

  /** There is a bucket, perhaps an empty one, at every step from lo up to hi. */
  ghost predicate Replenished(m: Buckets, lo: int, hi: int, interval: nat)
    requires interval > 0
  {
    forall j: nat :: Tick(lo, j, interval).ns < hi ==> BucketKey(Tick(lo, j, interval), interval) in m
  }

  /** The key is that of a step from lo up to hi. */
  ghost predicate AtStep(key: Time, lo: int, hi: int, interval: nat)
    requires interval > 0
  {
    exists j: nat :: Tick(lo, j, interval).ns < hi && key == BucketKey(Tick(lo, j, interval), interval)
  }

  /** How many steps there are from lo up to hi. */
  function StepCount(lo: int, hi: int, interval: nat): nat
    requires interval > 0
  {
    if lo < hi then (hi - lo - 1) / interval + 1 else 0
  }

  /** The keys of these steps. */
  function Steps(lo: int, hi: int, interval: nat): set<Time>
    requires interval > 0
  {
    set j: nat | j < StepCount(lo, hi, interval) :: BucketKey(Tick(lo, j, interval), interval)
  }

  lemma StepBefore(lo: int, hi: int, j: nat, interval: nat)
    requires interval > 0
    ensures Tick(lo, j, interval).ns < hi <==> j < StepCount(lo, hi, interval)
  {
    MoreTimes(j, 0, interval);
    if lo < hi {
      var q := (hi - lo - 1) / interval;
      QuotientBounds(hi - lo - 1, interval);
      if j <= q { MoreTimes(q, j, interval); } else { MoreTimes(j, q + 1, interval); }
    }
  }

  lemma StepsAre(lo: int, hi: int, interval: nat, key: Time)
    requires interval > 0
    ensures key in Steps(lo, hi, interval) <==> AtStep(key, lo, hi, interval)
  {
    if AtStep(key, lo, hi, interval) {
      var j: nat :| Tick(lo, j, interval).ns < hi && key == BucketKey(Tick(lo, j, interval), interval);
      StepBefore(lo, hi, j, interval);
    }
    if key in Steps(lo, hi, interval) {
      var j: nat :| j < StepCount(lo, hi, interval) && key == BucketKey(Tick(lo, j, interval), interval);
      StepBefore(lo, hi, j, interval);
    }
  }

  /** m with some empty buckets more, at the steps between the bounds. */
  ghost predicate Padded(m: Buckets, m': Buckets, lo: int, hi: int, interval: nat)
    requires interval > 0
  {
    && m.Keys <= m'.Keys
    && (forall key :: key in m ==> m'[key] == m[key])
    && (forall key :: key in m' && key !in m ==> m'[key] == multiset{} && AtStep(key, lo, hi, interval))
  }

  lemma StepIsWithin(key: Time, lo: int, hi: int, interval: nat)
    requires interval > 0 && AtStep(key, lo, hi, interval)
    ensures BucketKey(key, interval) == key && lo < hi
    ensures BucketKey(Time(lo), interval).ns <= key.ns <= BucketKey(Time(hi), interval).ns
  {
    var j: nat :| Tick(lo, j, interval).ns < hi && key == BucketKey(Tick(lo, j, interval), interval);
    MoreTimes(j, 0, interval);
    TickIsWithin(lo, hi, j, interval);
  }

  lemma PaddedIsBucketed(m: Buckets, m': Buckets, all: multiset<Time>, lo: int, hi: int, interval: nat)
    requires interval > 0 && Padded(m, m', lo, hi, interval)
    ensures Bucketed(m, all, interval) ==> Bucketed(m', all, interval)
    ensures Within(m, lo, hi, interval) ==> Within(m', lo, hi, interval)
  {
    forall key, x ensures Held(m', key, x) == Held(m, key, x) {}
    forall key | key in m' && key !in m
      ensures BucketKey(key, interval) == key
      ensures BucketKey(Time(lo), interval).ns <= key.ns <= BucketKey(Time(hi), interval).ns
    {
      StepIsWithin(key, lo, hi, interval);
    }
  }

  lemma PaddedKeys(m: Buckets, m': Buckets, lo: int, hi: int, interval: nat)
    requires interval > 0 && Padded(m, m', lo, hi, interval) && Replenished(m', lo, hi, interval)
    ensures m'.Keys == m.Keys + Steps(lo, hi, interval)
  {
    forall key ensures key in m' <==> key in m || key in Steps(lo, hi, interval) {
      StepsAre(lo, hi, interval, key);
    }
  }

  /** The first n steps have their buckets. */
  ghost predicate FilledTo(m: Buckets, m': Buckets, lo: int, hi: int, interval: nat, n: nat)
    requires interval > 0
  {
    && Padded(m, m', lo, hi, interval)
    && (forall j: nat :: j < n ==> BucketKey(Tick(lo, j, interval), interval) in m')
    && (Replenished(m, lo, hi, interval) ==> m' == m)
  }

  function AddEmpty(m: Buckets, key: Time): Buckets {
    if key in m then m else m[key := multiset{}]
  }

  lemma FillOneMore(m: Buckets, m': Buckets, lo: int, hi: int, interval: nat, n: nat)
    requires interval > 0 && FilledTo(m, m', lo, hi, interval, n) && Tick(lo, n, interval).ns < hi
    ensures FilledTo(m, AddEmpty(m', BucketKey(Tick(lo, n, interval), interval)), lo, hi, interval, n + 1)
  {
    var key := BucketKey(Tick(lo, n, interval), interval);
    assert AtStep(key, lo, hi, interval);
    assert Replenished(m, lo, hi, interval) ==> key in m;
  }

  lemma FilledIsReplenished(m: Buckets, m': Buckets, lo: int, hi: int, interval: nat, n: nat)
    requires interval > 0 && FilledTo(m, m', lo, hi, interval, n) && Tick(lo, n, interval).ns >= hi
    ensures Replenished(m', lo, hi, interval)
  {
    forall j: nat | Tick(lo, j, interval).ns < hi ensures BucketKey(Tick(lo, j, interval), interval) in m' {
      StepBefore(lo, hi, j, interval);
      StepBefore(lo, hi, n, interval);
    }
  }

  lemma NextTick(lo: int, n: nat, interval: nat)
    ensures Tick(lo, n, interval).ns + interval == Tick(lo, n + 1, interval).ns && Tick(lo, 0, interval).ns == lo
  {
  }

  /** Adds the missing buckets between the smallest and the largest instant. */
  method Replenish(m: Buckets, lo: int, hi: int, interval: nat) returns (m': Buckets)
    requires interval > 0
    ensures Padded(m, m', lo, hi, interval) && Replenished(m', lo, hi, interval)
    ensures Replenished(m, lo, hi, interval) ==> m' == m
  {
    m' := m;
    var value := lo;
    ghost var n: nat := 0;
    NextTick(lo, 0, interval);
    while value < hi
      invariant value == Tick(lo, n, interval).ns && FilledTo(m, m', lo, hi, interval, n)
      decreases hi - value
    {
      FillOneMore(m, m', lo, hi, interval, n);
      NextTick(lo, n, interval);
      m' := AddEmpty(m', BucketKey(Time(value), interval));
      value := value + interval;
      n := n + 1;
    }
    FilledIsReplenished(m, m', lo, hi, interval, n);
  }

  lemma TickIsWithin(lo: int, hi: int, j: nat, interval: nat)
    requires interval > 0 && Tick(lo, j, interval).ns < hi
    ensures var key := BucketKey(Tick(lo, j, interval), interval);
            && BucketKey(key, interval) == key
            && BucketKey(Time(lo), interval).ns <= key.ns <= BucketKey(Time(hi), interval).ns
    ensures Tick(lo, j, interval).ns + interval == Tick(lo, j + 1, interval).ns
  {
    MoreTimes(j, 0, interval);
    KeyOfKey(Tick(lo, j, interval), interval, interval);
    LaterKey(Time(lo), Tick(lo, j, interval), interval);
    LaterKey(Tick(lo, j, interval), Time(hi), interval);
  }

  // ------------------------------------------------------------- no bucket too many

  predicate Int64(x: Time) {
    MIN_INT64 <= x.ns <= MAX_INT64
  }

  /** The greatest instant seen shares its bucket with one that was consumed; without buckets there is none. */
  ghost predicate Anchored(m: Buckets, all: multiset<Time>, lo: int, hi: int, interval: nat)
    requires interval > 0
  {
    && (forall x :: x in all ==> Int64(x))
    && if m == map[] then lo == MAX_INT64 && hi == MIN_INT64
       else lo <= hi && exists x :: x in all && BucketKey(x, interval) == BucketKey(Time(hi), interval)
  }

  /** The quotients of instants one interval apart differ by no more than one. */
  lemma NextQuotient(t: int, c: nat)
    requires c > 0
    ensures TruncDiv(t + c, c) <= TruncDiv(t, c) + 1
  {
    if t >= 0 {
      OneMoreTime(t, c);
    } else if t + c <= 0 {
      OneMoreTime(-t - c, c);
    } else {
      QuotientIs(t + c, c, 0);
      QuotientIs(-t, c, 0);
    }
  }

  lemma OneMoreTime(n: nat, c: nat)
    requires c > 0
    ensures (n + c) / c == n / c + 1
  {
    QuotientBounds(n, c);
    QuotientIs(n + c, c, n / c + 1);
  }

  lemma SmallerQuotient(a: int, b: int, c: nat)
    requires a * c < b * c
    ensures (a + 1) * c <= b * c
  {
    if a + 1 > b { NoSmaller(a, b, c); }
    else { NoSmaller(b, a + 1, c); }
  }

  lemma NoSmaller(a: int, b: int, c: nat)
    requires a >= b
    ensures a * c >= b * c
  {
  }

  /** Of two instants with different keys, the later is at or behind the next step after the earlier. */
  lemma StepReaches(t: int, v: int, c: nat)
    requires c > 0 && t <= v < t + c && BucketKey(Time(t), c) != BucketKey(Time(v), c)
    ensures BucketKey(Time(t + c), c) == BucketKey(Time(v), c)
  {
    LaterKey(Time(t), Time(v), c);
    LaterKey(Time(v), Time(t + c), c);
    NextQuotient(t, c);
    SmallerQuotient(TruncDiv(t, c), TruncDiv(v, c), c);
    NoSmaller(TruncDiv(t, c) + 1, TruncDiv(t + c, c), c);
  }

  /** Every bucket between the bounds, but perhaps the last, is at one of the steps. */
  lemma SpannedIsStep(v: int, lo: int, hi: int, c: nat) returns (j: nat)
    requires c > 0 && lo <= v <= hi && BucketKey(Time(v), c) != BucketKey(Time(hi), c)
    ensures Tick(lo, j, c).ns < hi && BucketKey(Tick(lo, j, c), c) == BucketKey(Time(v), c)
  {
    j := (v - lo) / c;
    QuotientBounds(v - lo, c);
    var t := Tick(lo, j, c).ns;
    if BucketKey(Time(t), c) != BucketKey(Time(v), c) {
      StepReaches(t, v, c);
      assert t + c == Tick(lo, j + 1, c).ns;
      if t + c >= hi {
        LaterKey(Time(v), Time(hi), c);
        LaterKey(Time(hi), Time(t + c), c);
        assert false;
      }
      j := j + 1;
    }
  }

  /** A bucket within the bounds is that of some instant between them. */
  lemma WithinIsSpanned(key: Time, lo: int, hi: int, c: nat) returns (v: int)
    requires c > 0 && lo <= hi && BucketKey(key, c) == key
    requires BucketKey(Time(lo), c).ns <= key.ns <= BucketKey(Time(hi), c).ns
    ensures lo <= v <= hi && BucketKey(Time(v), c) == key
  {
    if key.ns < lo {
      LaterKey(key, Time(lo), c);
      v := lo;
    } else if key.ns > hi {
      LaterKey(Time(hi), key, c);
      v := hi;
    } else {
      v := key.ns;
    }
  }

  /** Replenished buckets of all instants include every bucket a calculator may have. */
  lemma BucketIsNeeded(m: Buckets, full: Buckets, all: multiset<Time>, lo: int, hi: int, interval: nat, key: Time)
    requires interval > 0 && Bucketed(m, all, interval) && Within(m, lo, hi, interval) && key in m
    requires Anchored(m, all, lo, hi, interval)
    requires Bucketed(full, all, interval) && Replenished(full, lo, hi, interval)
    ensures key in full
  {
    if key == BucketKey(Time(hi), interval) {
      var x :| x in all && BucketKey(x, interval) == BucketKey(Time(hi), interval);
      assert Held(full, key, x) == all[x];
    } else {
      var v := WithinIsSpanned(key, lo, hi, interval);
      var j := SpannedIsStep(v, lo, hi, interval);
    }
  }

  lemma ConsumedAnchored(m: Buckets, m': Buckets, all: multiset<Time>, lo: int, hi: int, interval: nat, x: Time)
    requires interval > 0 && Anchored(m, all, lo, hi, interval) && Int64(x) && m' != map[]
    ensures Anchored(m', all + multiset{x}, if x.ns < lo then x.ns else lo, if x.ns > hi then x.ns else hi, interval)
  {
    if m != map[] && x.ns <= hi {
      var y :| y in all && BucketKey(y, interval) == BucketKey(Time(hi), interval);
      assert y in all + multiset{x};
    } else {
      assert x in all + multiset{x};
    }
  }

  lemma PaddedIsAnchored(m: Buckets, m': Buckets, all: multiset<Time>, lo: int, hi: int, interval: nat)
    requires interval > 0 && Anchored(m, all, lo, hi, interval) && Padded(m, m', lo, hi, interval)
    ensures Anchored(m', all, lo, hi, interval)
  {
    if m == map[] {
      forall key ensures key !in m' {
        if key in m' { StepIsWithin(key, lo, hi, interval); }
      }
    }
  }

  lemma CoarserAnchored(m: Buckets, m': Buckets, all: multiset<Time>, lo: int, hi: int, f: nat, c: nat)
    requires f > 0 && c > 0 && Divides(f, c) && Anchored(m, all, lo, hi, f) && (m == map[] <==> m' == map[])
    ensures Anchored(m', all, lo, hi, c)
  {
    if m != map[] {
      var x :| x in all && BucketKey(x, f) == BucketKey(Time(hi), f);
      KeyOfKey(x, f, c);
      KeyOfKey(Time(hi), f, c);
    }
  }

  /**
   What a calculator keeps, but for merges that misplace instants. The bound variable keeps it folded up where
   its parts do not matter.
   */
  ghost predicate Sound(m: Buckets, all: multiset<Time>, lo: int, hi: int, interval: nat)
    requires interval > 0
  {
    forall t :: t == m ==> Bucketed(t, all, interval) && Anchored(t, all, lo, hi, interval)
  }

  lemma SoundIs(m: Buckets, all: multiset<Time>, lo: int, hi: int, interval: nat)
    requires interval > 0
    ensures Sound(m, all, lo, hi, interval) <==> Bucketed(m, all, interval) && Anchored(m, all, lo, hi, interval)
  {
    if Sound(m, all, lo, hi, interval) {
      assert Bucketed(m, all, interval);
    }
  }

  lemma ConsumedIsSound(m: Buckets, m': Buckets, all: multiset<Time>, lo: int, hi: int, interval: nat, x: Time)
    requires interval > 0 && Within(m, lo, hi, interval) && Sound(m, all, lo, hi, interval) && Int64(x)
    requires Bucketed(m', all + multiset{x}, interval) && m'.Keys == m.Keys + {BucketKey(x, interval)}
    ensures var lo', hi' := if x.ns < lo then x.ns else lo, if x.ns > hi then x.ns else hi;
            Within(m', lo', hi', interval) && Sound(m', all + multiset{x}, lo', hi', interval)
  {
    var lo', hi' := if x.ns < lo then x.ns else lo, if x.ns > hi then x.ns else hi;
    WiderWithin(m, lo, hi, lo', hi', interval);
    ConsumedWithin(m, m', lo', hi', interval, x);
    assert BucketKey(x, interval) in m';
    ConsumedAnchored(m, m', all, lo, hi, interval, x);
  }

  lemma PaddedIsSound(m: Buckets, m': Buckets, all: multiset<Time>, lo: int, hi: int, interval: nat)
    requires interval > 0 && Padded(m, m', lo, hi, interval)
    ensures Within(m, lo, hi, interval) ==> Within(m', lo, hi, interval)
    ensures Sound(m, all, lo, hi, interval) ==> Sound(m', all, lo, hi, interval)
  {
    PaddedIsBucketed(m, m', all, lo, hi, interval);
    if Sound(m, all, lo, hi, interval) {
      PaddedIsAnchored(m, m', all, lo, hi, interval);
    }
  }

  lemma MovedIsWithin(m: Buckets, lo: int, hi: int, f: nat, c: nat, visits: seq<Time>)
    requires f > 0 && c > 0 && Divides(f, c) && Within(m, lo, hi, f)
    ensures Within(MoveAll(m, c, visits), lo, hi, c)
  {
    CoarserWithin(m, lo, hi, f, c);
    PassWithin(m, lo, hi, c, visits);
  }

  /** The keys cut down at an interval. */
  function CutKeys(keys: set<Time>, interval: nat): set<Time>
    requires interval > 0
  {
    set key | key in keys :: BucketKey(key, interval)
  }

  lemma {:induction false} PassReaches(m: Buckets, interval: nat, visits: seq<Time>, k: Time)
    requires interval > 0 && k in m
    ensures exists key :: key in MoveAll(m, interval, visits) && BucketKey(key, interval) == BucketKey(k, interval)
    decreases |visits|
  {
    if visits != [] {
      var before, last := MoveAll(m, interval, visits[..|visits| - 1]), visits[|visits| - 1];
      PassReaches(m, interval, visits[..|visits| - 1], k);
      var key :| key in before && BucketKey(key, interval) == BucketKey(k, interval);
      KeyOfKey(last, interval, interval);
      if key == last {
        assert BucketKey(last, interval) in MoveIf(before, last, interval);
      } else {
        assert key in MoveIf(before, last, interval);
      }
    } else {
      assert k in MoveAll(m, interval, visits);
    }
  }

  lemma PassCutsKeys(m: Buckets, interval: nat, visits: seq<Time>)
    requires interval > 0 && forall key :: key in m ==> key in visits
    ensures MoveAll(m, interval, visits).Keys == CutKeys(m.Keys, interval)
  {
    var m' := MoveAll(m, interval, visits);
    assert visits + [] == visits;
    PassAligns(m, interval, visits, []);
    forall key | key in m' ensures key in CutKeys(m.Keys, interval) {
      PassKeys(m, interval, visits, key);
      var k :| k in m && BucketKey(k, interval) == BucketKey(key, interval);
    }
    forall k | k in m ensures BucketKey(k, interval) in m' {
      PassReaches(m, interval, visits, k);
      var key :| key in m' && BucketKey(key, interval) == BucketKey(k, interval);
    }
  }

  lemma {:induction false} PassIsEmptyIff(m: Buckets, interval: nat, visits: seq<Time>)
    requires interval > 0
    ensures MoveAll(m, interval, visits) == map[] <==> m == map[]
    decreases |visits|
  {
    if visits != [] {
      PassIsEmptyIff(m, interval, visits[..|visits| - 1]);
      var before, key := MoveAll(m, interval, visits[..|visits| - 1]), visits[|visits| - 1];
      assert key in before ==> BucketKey(key, interval) in Move(before, key, interval);
    }
  }

  // -------------------------------------------------------- an interval raised ahead of its buckets

  /** Buckets of some finer interval: ready for a pass, but perhaps not at their keys. */
  ghost predicate Near(m: Buckets, all: multiset<Time>, lo: int, hi: int, interval: nat)
    requires interval > 0
  {
    forall t :: t == m ==> Coherent(t, all, interval) && Anchored(t, all, lo, hi, interval)
  }

  ghost predicate Aligned(keys: set<Time>, interval: nat)
    requires interval > 0
  {
    forall key :: key in keys ==> BucketKey(key, interval) == key
  }

  lemma SoundIsNear(m: Buckets, all: multiset<Time>, lo: int, hi: int, f: nat, c: nat)
    requires f > 0 && c > 0 && Divides(f, c) && Sound(m, all, lo, hi, f)
    ensures Near(m, all, lo, hi, c)
  {
    BucketedIsCoherent(m, all, f, c);
    CoarserAnchored(m, m, all, lo, hi, f, c);
  }

  lemma PaddedIsCoherent(m: Buckets, m': Buckets, all: multiset<Time>, lo: int, hi: int, interval: nat)
    requires interval > 0 && Padded(m, m', lo, hi, interval) && Coherent(m, all, interval)
    ensures Coherent(m', all, interval)
  {
    forall key, x ensures Held(m', key, x) == Held(m, key, x) {}
    forall x ensures Somewhere(m', all, interval, x) {
      assert Somewhere(m, all, interval, x);
      var at :| Located(m, all, interval, x, at);
      assert Located(m', all, interval, x, at);
    }
  }

  lemma CoarserIsCoherent(m: Buckets, all: multiset<Time>, f: nat, c: nat)
    requires f > 0 && c > 0 && Divides(f, c) && Coherent(m, all, f)
    ensures Coherent(m, all, c)
  {
    forall x ensures Somewhere(m, all, c, x) {
      assert Somewhere(m, all, f, x);
      var at :| Located(m, all, f, x, at);
      KeyOfKey(at, f, c);
      KeyOfKey(x, f, c);
      assert Located(m, all, c, x, at);
    }
  }

  /** One pass puts every instant into its bucket. */
  lemma MovedNearIsSound(m: Buckets, all: multiset<Time>, lo: int, hi: int, f: nat, c: nat, visits: seq<Time>)
    requires f > 0 && c > 0 && Divides(f, c) && forall key :: key in m ==> key in visits
    ensures Near(m, all, lo, hi, f) ==> Sound(MoveAll(m, c, visits), all, lo, hi, c)
  {
    if Near(m, all, lo, hi, f) {
      CoarserIsCoherent(m, all, f, c);
      PassIsBucketed(m, all, c, visits);
      PassIsEmptyIff(m, c, visits);
      CoarserAnchored(m, MoveAll(m, c, visits), all, lo, hi, f, c);
    }
  }

  /** Without a pass they are in their buckets exactly if the keys happen to be multiples of the interval. */
  lemma NearIsSoundIff(m: Buckets, all: multiset<Time>, lo: int, hi: int, interval: nat)
    requires interval > 0 && Near(m, all, lo, hi, interval)
    ensures Sound(m, all, lo, hi, interval) <==> Aligned(m.Keys, interval)
  {
    assert Coherent(m, all, interval);
    if Aligned(m.Keys, interval) {
      AlignedIsBucketed(m, all, interval);
    }
    SoundIs(m, all, lo, hi, interval);
  }

  lemma PaddedIsNear(m: Buckets, m': Buckets, all: multiset<Time>, lo: int, hi: int, interval: nat)
    requires interval > 0 && Padded(m, m', lo, hi, interval)
    ensures Near(m, all, lo, hi, interval) ==> Near(m', all, lo, hi, interval)
    ensures Aligned(m'.Keys, interval) <==> Aligned(m.Keys, interval)
  {
    if Near(m, all, lo, hi, interval) {
      PaddedIsCoherent(m, m', all, lo, hi, interval);
      PaddedIsAnchored(m, m', all, lo, hi, interval);
    }
    forall key | key in m' && key !in m ensures BucketKey(key, interval) == key {
      StepIsWithin(key, lo, hi, interval);
    }
  }

  /** The interval that Finish starts with: the first from i on at which `terms` buckets span the range. */
  function StartInterval(lo: int, hi: int, i: nat, terms: nat): (c: nat)
    requires i < |INTERVALS|
    ensures i <= c < |INTERVALS|
    ensures c == |INTERVALS| - 1 || lo + INTERVALS[c] * terms >= hi
    ensures forall k :: i <= k < c ==> lo + INTERVALS[k] * terms < hi
    decreases |INTERVALS| - i
  {
    if i < |INTERVALS| - 1 && lo + INTERVALS[i] * terms < hi then StartInterval(lo, hi, i + 1, terms) else i
  }

  /** It stays the one to start with at every later interval. */
  lemma StartsThere(lo: int, hi: int, i: nat, c: nat, terms: nat)
    requires i < |INTERVALS| && StartInterval(lo, hi, i, terms) <= c < |INTERVALS|
    ensures StartInterval(lo, hi, c, terms) == c
  {
    var start := StartInterval(lo, hi, i, terms);
    IntervalsGrow(start, c);
    NoSmaller(INTERVALS[c], INTERVALS[start], terms);
    assert lo + INTERVALS[c] * terms >= hi || c == |INTERVALS| - 1 by {
      assert INTERVALS[c] * terms >= INTERVALS[start] * terms;
    }
  }

  lemma {:induction false} IntervalsGrow(i: nat, j: nat)
    requires i <= j < |INTERVALS|
    ensures INTERVALS[i] <= INTERVALS[j]
    decreases j - i
  {
    if i < j { IntervalsGrow(i + 1, j); }
  }

  /**
   Buckets with these keys are put right by Finish: the interval need not be raised for the range, or there
   are so many that a pass follows, or the keys are multiples of the raised interval anyway.
   */
  ghost predicate Settles(keys: set<Time>, lo: int, hi: int, i: nat, size: nat, terms: nat) {
    forall t :: t == keys ==> SettlesAt(t, lo, hi, i, size, terms)
  }

  ghost predicate SettlesAt(keys: set<Time>, lo: int, hi: int, i: nat, size: nat, terms: nat) {
    && i < |INTERVALS|
    && var c := StartInterval(lo, hi, i, terms);
       c == i || Crowded(keys, lo, hi, c, size) || (INTERVALS[c] > 0 && Aligned(keys, INTERVALS[c]))
  }

  lemma SettlesIs(keys: set<Time>, lo: int, hi: int, i: nat, size: nat, terms: nat)
    ensures Settles(keys, lo, hi, i, size, terms) <==> SettlesAt(keys, lo, hi, i, size, terms)
  {
    if Settles(keys, lo, hi, i, size, terms) {
      assert SettlesAt(keys, lo, hi, i, size, terms);
    }
  }

  /** With those missing added there are more than size buckets, and a coarser interval to move on to. */
  ghost predicate Crowded(keys: set<Time>, lo: int, hi: int, i: nat, size: nat) {
    i < |INTERVALS| - 1 && INTERVALS[i] > 0 && |keys + Steps(lo, hi, INTERVALS[i])| > size
  }

  /** The bucket of the greatest instant seen is the last one, and is not empty. */
  lemma LastBucket(m: Buckets, all: multiset<Time>, lo: int, hi: int, interval: nat) returns (x: Time)
    requires interval > 0 && m != map[] && Within(m, lo, hi, interval) && Sound(m, all, lo, hi, interval)
    ensures x in all && BucketKey(x, interval) == BucketKey(Time(hi), interval) && BucketKey(x, interval) in m
    ensures MIN_INT64 <= BucketKey(x, interval).ns && forall key :: key in m ==> key.ns <= BucketKey(x, interval).ns
  {
    SoundIs(m, all, lo, hi, interval);
    x :| x in all && BucketKey(x, interval) == BucketKey(Time(hi), interval);
    assert Held(m, BucketKey(x, interval), x) == all[x];
    KeyIsCut(x, interval);
    if x.ns < 0 { QuotientBounds(-x.ns, interval); }
  }

  /** Two instants with the same key have the same key at a coarser interval. */
  lemma SameKeyCoarser(x: Time, y: Time, f: nat, c: nat)
    requires f > 0 && c > 0 && Divides(f, c) && BucketKey(x, f) == BucketKey(y, f)
    ensures BucketKey(x, c) == BucketKey(y, c)
  {
    KeyOfKey(x, f, c);
    KeyOfKey(y, f, c);
  }

  /** An upper bound above hi that some key of a reaches is in the same bucket as hi. */
  lemma SqueezedKey(a: Buckets, allA: multiset<Time>, lo: int, hi: int, interval: nat, k: Time, last: Time)
    requires interval > 0 && Within(a, lo, hi, interval) && Bucketed(a, allA, interval)
    requires last in a && hi <= k.ns <= last.ns
    ensures BucketKey(k, interval) == BucketKey(Time(hi), interval)
  {
    LaterKey(Time(hi), k, interval);
    LaterKey(k, last, interval);
  }

  /** After a merge the greatest instant seen still shares its bucket with a consumed one. */
  lemma MergedAnchor(a: Buckets, allA: multiset<Time>, f: nat, lo: int, hi: int, b: Buckets, allB: multiset<Time>,
                     g: nat, loB: int, hiB: int, c: nat, lo': int, hi': int) returns (x: Time)
    requires f > 0 && g > 0 && c > 0 && Divides(f, c) && (b.Keys <= a.Keys || Divides(g, c))
    requires a != map[] || b != map[]
    requires Within(a, lo, hi, f) && Sound(a, allA, lo, hi, f) && Within(b, loB, hiB, g) && Sound(b, allB, loB, hiB, g)
    requires Widened(a.Keys, b.Keys, lo, hi, lo', hi')
    ensures x in allA + allB && BucketKey(x, c) == BucketKey(Time(hi'), c)
  {
    SoundIs(a, allA, lo, hi, f);
    SoundIs(b, allB, loB, hiB, g);
    if a != map[] && hi' == hi {
      x := LastBucket(a, allA, lo, hi, f);
      SameKeyCoarser(x, Time(hi), f, c);
    } else {
      x := LastBucket(b, allB, loB, hiB, g);
      var last := BucketKey(x, g);
      if last in a {
        SqueezedKey(a, allA, lo, hi, f, Time(hi'), last);
        x := LastBucket(a, allA, lo, hi, f);
        SameKeyCoarser(x, Time(hi'), f, c);
      } else {
        assert last == Time(hi');
        KeyOfKey(x, g, c);
      }
    }
  }

  lemma MergedIsAnchored(a: Buckets, allA: multiset<Time>, f: nat, lo: int, hi: int, b: Buckets, allB: multiset<Time>,
                         g: nat, loB: int, hiB: int, c: nat, lo': int, hi': int, m: Buckets)
    requires f > 0 && g > 0 && c > 0 && Divides(f, c) && (b.Keys <= a.Keys || Divides(g, c))
    requires Within(a, lo, hi, f) && Sound(a, allA, lo, hi, f) && Within(b, loB, hiB, g) && Sound(b, allB, loB, hiB, g)
    requires Widened(a.Keys, b.Keys, lo, hi, lo', hi') && (m == map[] <==> a == map[] && b == map[])
    ensures Anchored(m, allA + allB, lo', hi', c)
  {
    SoundIs(a, allA, lo, hi, f);
    SoundIs(b, allB, loB, hiB, g);
    if m != map[] {
      var x := MergedAnchor(a, allA, f, lo, hi, b, allB, g, loB, hiB, c, lo', hi');
      if a == map[] {
        var key :| key in b;
        assert lo' <= key.ns <= hi';
      }
    }
  }

  /** Buckets of these instants with none missing have at least the keys of m. */
  ghost predicate Least(m: Buckets, all: multiset<Time>, lo: int, hi: int, interval: nat)
    requires interval > 0
  {
    forall full :: Bucketed(full, all, interval) && Replenished(full, lo, hi, interval) ==> m.Keys <= full.Keys
  }

  /** A calculator has no bucket too many. */
  lemma NoneToSpare(m: Buckets, all: multiset<Time>, lo: int, hi: int, interval: nat)
    requires interval > 0 && Within(m, lo, hi, interval)
    ensures Sound(m, all, lo, hi, interval) ==> Least(m, all, lo, hi, interval)
  {
    forall full | Sound(m, all, lo, hi, interval) && Bucketed(full, all, interval) &&
                  Replenished(full, lo, hi, interval)
      ensures m.Keys <= full.Keys
    {
      forall key | key in m ensures key in full { BucketIsNeeded(m, full, all, lo, hi, interval, key); }
    }
  }

  ghost predicate AlwaysOver(all: multiset<Time>, lo: int, hi: int, i: nat, size: nat) {
    && i < |INTERVALS| && INTERVALS[i] > 0
    && forall m :: Bucketed(m, all, INTERVALS[i]) && Replenished(m, lo, hi, INTERVALS[i]) ==> |m| > size
  }

  /** However the instants are put into buckets at this interval, none missing, there are more than size. */
  ghost predicate TooMany(all: multiset<Time>, lo: int, hi: int, i: nat, size: nat) {
    forall t :: t == all ==> AlwaysOver(t, lo, hi, i, size)
  }

  /** At every interval from `from` on and before `upTo` there are too many. */
  ghost predicate PassedOver(all: multiset<Time>, lo: int, hi: int, from: nat, upTo: nat, size: nat) {
    forall i: nat :: from <= i < upTo ==> TooMany(all, lo, hi, i, size)
  }

  /** A calculator with too many buckets has no fewer once none of them is missing. */
  lemma CannotHaveFewer(m: Buckets, all: multiset<Time>, lo: int, hi: int, i: nat, size: nat)
    requires i < |INTERVALS| && INTERVALS[i] > 0 && |m| > size && Within(m, lo, hi, INTERVALS[i])
    ensures Sound(m, all, lo, hi, INTERVALS[i]) ==> TooMany(all, lo, hi, i, size)
  {
    NoneToSpare(m, all, lo, hi, INTERVALS[i]);
    forall full | Least(m, all, lo, hi, INTERVALS[i]) && Bucketed(full, all, INTERVALS[i]) &&
                  Replenished(full, lo, hi, INTERVALS[i])
      ensures |full| > size
    {
      Larger(m.Keys, full.Keys);
    }
    assert Sound(m, all, lo, hi, INTERVALS[i]) ==> AlwaysOver(all, lo, hi, i, size);
  }

  // ----------------------------------------------------------------- the calculator

  /** The keys in some order. */
  method KeysOf(m: Buckets) returns (keys: seq<Time>)
    ensures NoDup(keys) && forall k :: k in keys <==> k in m
  {
    keys := [];
    var todo := m.Keys;
    while todo != {}
      invariant todo <= m.Keys && NoDup(keys) && forall k :: k in keys <==> k in m && k !in todo
      decreases |todo|
    {
      var k :| k in todo;
      keys, todo := keys + [k], todo - {k};
    }
  }

  /** Any sequence of visits that comes across every key of the map. */
  method Visits(m: Buckets) returns (visits: seq<Time>)
    ensures forall k :: k in m ==> k in visits
  {
    visits := *;
    if exists k :: k in m && k !in visits {
      var keys := KeysOf(m);
      visits := visits + keys;
    }
  }

  /** The loop over the other's buckets and the pass that follows it. */
  method MergeAndPass(a: Buckets, ghost allA: multiset<Time>, ca: nat, lo: int, hi: int, b: Buckets,
                      ghost allB: multiset<Time>, cb: nat, ghost loB: int, ghost hiB: int)
    returns (m: Buckets, c: nat, lo': int, hi': int)
    requires ca < |INTERVALS| && cb < |INTERVALS| && INTERVALS[ca] > 0 && INTERVALS[cb] > 0
    requires Within(a, lo, hi, INTERVALS[ca]) && Sound(a, allA, lo, hi, INTERVALS[ca])
    requires Within(b, loB, hiB, INTERVALS[cb]) && Sound(b, allB, loB, hiB, INTERVALS[cb])
    ensures c == MergedInterval(a, ca, b, cb) && INTERVALS[c] > 0 && Within(m, lo', hi', INTERVALS[c])
    ensures Sound(m, allA + allB, lo', hi', INTERVALS[c]) <==> Coarsened(a, ca, b, allB, cb)
    ensures Widened(a.Keys, b.Keys, lo, hi, lo', hi') && m.Keys == CutKeys(a.Keys + b.Keys, INTERVALS[c])
    ensures cb > ca && b.Keys <= a.Keys ==> lo' == lo && hi' == hi && m.Keys == a.Keys && IsSum(m, a, b)
  {
    var sum;
    SoundIs(a, allA, lo, hi, INTERVALS[ca]);
    SoundIs(b, allB, loB, hiB, INTERVALS[cb]);
    sum, c, lo', hi' := MergeBuckets(a, ca, b, cb, lo, hi);
    var visits := Visits(sum);
    MergedIsBucketedIff(a, allA, ca, b, allB, cb, sum, visits);
    MergedIsWithin(a, allA, ca, b, allB, cb, sum, visits, lo, hi, lo', hi');
    PassIsEmptyIff(sum, INTERVALS[c], visits);
    PassCutsKeys(sum, INTERVALS[c], visits);
    IntervalsDivide(ca, c);
    if cb <= c { IntervalsDivide(cb, c); }
    MergedIsAnchored(a, allA, INTERVALS[ca], lo, hi, b, allB, INTERVALS[cb], loB, hiB, INTERVALS[c], lo', hi',
                     MoveAll(sum, INTERVALS[c], visits));
    SoundIs(MoveAll(sum, INTERVALS[c], visits), allA + allB, lo', hi', INTERVALS[c]);
    m := Pass(sum, INTERVALS[c], visits);
  }

  function LeastOf(lo: int, dates: seq<Time>): int {
    if dates == [] then lo
    else
      var least, x := LeastOf(lo, dates[..|dates| - 1]), dates[|dates| - 1].ns;
      if x < least then x else least
  }

  function GreatestOf(hi: int, dates: seq<Time>): int {
    if dates == [] then hi
    else
      var greatest, x := GreatestOf(hi, dates[..|dates| - 1]), dates[|dates| - 1].ns;
      if x > greatest then x else greatest
  }

  lemma FewerKeys(m: Buckets, more: set<Time>)
    ensures |m| <= |m.Keys + more| && |m| == |m.Keys|
  {
    Larger(m.Keys, m.Keys + more);
  }

  lemma OneMoreDate(lo: int, hi: int, dates: seq<Time>, i: nat)
    requires i < |dates|
    ensures var x, least, greatest := dates[i].ns, LeastOf(lo, dates[..i]), GreatestOf(hi, dates[..i]);
            && LeastOf(lo, dates[..i + 1]) == (if x < least then x else least)
            && GreatestOf(hi, dates[..i + 1]) == (if x > greatest then x else greatest)
    ensures multiset(dates[..i + 1]) == multiset(dates[..i]) + multiset{dates[i]}
  {
    assert dates[..i + 1] == dates[..i] + [dates[i]];
    assert dates[..i + 1][..i] == dates[..i];
  }

  lemma OneMoreKey(keys: set<Time>, dates: seq<Time>, i: nat, interval: nat)
    requires i < |dates| && interval > 0
    ensures keys + CutKeys(Elements(dates[..i + 1]), interval) ==
            keys + CutKeys(Elements(dates[..i]), interval) + {BucketKey(dates[i], interval)}
  {
    assert dates[..i + 1] == dates[..i] + [dates[i]];
  }

  class AutoDateHistogramCalculator {
    var currentInterval: nat
    var minValue: int
    var maxValue: int
    var bucketsMap: Buckets
    var total: nat
    ghost var consumed: multiset<Time>

    /** The current interval is one of the list. */
    ghost predicate Ranged()
      reads this
    {
      && currentInterval < |INTERVALS| && INTERVALS[currentInterval] > 0
      && Within(bucketsMap, minValue, maxValue, INTERVALS[currentInterval])
    }

    ghost predicate Valid()
      reads this
    {
      Ranged() && Sound(bucketsMap, consumed, minValue, maxValue, INTERVALS[currentInterval])
    }

    /** A valid calculator has no bucket that bucketing its instants with none missing could do without. */
    lemma NoBucketTooMany()
      requires Valid()
      ensures Least(bucketsMap, consumed, minValue, maxValue, INTERVALS[currentInterval])
    {
      NoneToSpare(bucketsMap, consumed, minValue, maxValue, INTERVALS[currentInterval]);
    }

    /** The range does not ask for a coarser interval, and the buckets fit. */
    ghost predicate Finished(size: nat, terms: nat)
      requires Ranged()
      reads this
    {
      Fits(size) && StartInterval(minValue, maxValue, currentInterval, terms) == currentInterval
    }

    /** There are few enough buckets, none of them missing, or the interval is the last. */
    ghost predicate Fits(size: nat)
      requires Ranged()
      reads this
    {
      && (|bucketsMap| <= size || currentInterval == |INTERVALS| - 1)
      && (|bucketsMap| <= size ==> Replenished(bucketsMap, minValue, maxValue, INTERVALS[currentInterval]))
    }

    constructor ()
      ensures Valid() && currentInterval == 0 && total == 0 && consumed == multiset{} && bucketsMap == map[]
      ensures minValue == MAX_INT64 && maxValue == MIN_INT64
    {
      currentInterval, bucketsMap, total, consumed := 0, map[], 0, multiset{};
      minValue, maxValue := MAX_INT64, MIN_INT64;
    }

    /** A document with some dates, in nanoseconds of 64 bits. */
    method ConsumeDocument(dates: seq<Time>)
      requires Valid() && forall x :: x in dates ==> Int64(x)
      modifies this
      ensures Valid() && currentInterval == old(currentInterval) && total == old(total) + 1
      ensures consumed == old(consumed) + multiset(dates)
      ensures minValue == LeastOf(old(minValue), dates) && maxValue == GreatestOf(old(maxValue), dates)
      ensures bucketsMap.Keys == old(bucketsMap).Keys + CutKeys(Elements(dates), INTERVALS[currentInterval])
    {
      total := total + 1;
      for i := 0 to |dates|
        invariant Valid() && currentInterval == old(currentInterval) && total == old(total) + 1
        invariant consumed == old(consumed) + multiset(dates[..i])
        invariant minValue == LeastOf(old(minValue), dates[..i]) && maxValue == GreatestOf(old(maxValue), dates[..i])
        invariant bucketsMap.Keys == old(bucketsMap).Keys + CutKeys(Elements(dates[..i]), INTERVALS[currentInterval])
      {
        OneMoreDate(old(minValue), old(maxValue), dates, i);
        OneMoreKey(old(bucketsMap).Keys, dates, i, INTERVALS[currentInterval]);
        ConsumeDate(dates[i]);
      }
      assert dates[..|dates|] == dates;
    }

    method ConsumeDate(x: Time)
      requires Valid() && Int64(x)
      modifies `minValue, `maxValue, `bucketsMap, `consumed
      ensures Valid() && consumed == old(consumed) + multiset{x}
      ensures bucketsMap.Keys == old(bucketsMap).Keys + {BucketKey(x, INTERVALS[currentInterval])}
      ensures minValue == (if x.ns < old(minValue) then x.ns else old(minValue))
      ensures maxValue == (if x.ns > old(maxValue) then x.ns else old(maxValue))
    {
      if x.ns < minValue { minValue := x.ns; }
      if x.ns > maxValue { maxValue := x.ns; }
      var m := Consume(bucketsMap, INTERVALS[currentInterval], x, consumed);
      ConsumedIsSound(bucketsMap, m, consumed, old(minValue), old(maxValue), INTERVALS[currentInterval], x);
      bucketsMap := m;
      consumed := consumed + multiset{x};
    }

    /** The first loop of Finish raises the interval and leaves the buckets where they are. */
    method ChooseInterval(terms: nat)
      requires Ranged()
      modifies `currentInterval
      ensures Ranged() && currentInterval == StartInterval(minValue, maxValue, old(currentInterval), terms)
      ensures old(Valid()) ==> Nearly()
    {
      while currentInterval < |INTERVALS| - 1 && minValue + INTERVALS[currentInterval] * terms < maxValue
        invariant Ranged() && old(currentInterval) <= currentInterval
        invariant StartInterval(minValue, maxValue, currentInterval, terms) ==
                  StartInterval(minValue, maxValue, old(currentInterval), terms)
        decreases |INTERVALS| - currentInterval
      {
        IntervalsDivide(currentInterval, currentInterval + 1);
        CoarserWithin(bucketsMap, minValue, maxValue, INTERVALS[currentInterval], INTERVALS[currentInterval + 1]);
        currentInterval := currentInterval + 1;
      }
      IntervalsDivide(old(currentInterval), currentInterval);
      if old(Valid()) {
        SoundIsNear(bucketsMap, consumed, minValue, maxValue, INTERVALS[old(currentInterval)],
                    INTERVALS[currentInterval]);
      }
    }

    /** The buckets are ready for a pass at the current interval. */
    ghost predicate Nearly()
      requires Ranged()
      reads this
    {
      Near(bucketsMap, consumed, minValue, maxValue, INTERVALS[currentInterval])
    }

    /** Adds missing buckets if there are few. */
    method AddIfFew(size: nat)
      requires Ranged()
      modifies `bucketsMap
      ensures Ranged() && (old(Valid()) ==> Valid()) && (old(Nearly()) ==> Nearly())
      ensures |bucketsMap| > size <==>
              |old(bucketsMap).Keys + Steps(minValue, maxValue, INTERVALS[currentInterval])| > size
      ensures |bucketsMap| <= size ==> Replenished(bucketsMap, minValue, maxValue, INTERVALS[currentInterval])
      ensures old(Fits(size) && |bucketsMap| <= size) ==> bucketsMap == old(bucketsMap)
      ensures Aligned(bucketsMap.Keys, INTERVALS[currentInterval]) <==>
              Aligned(old(bucketsMap).Keys, INTERVALS[currentInterval])
    {
      FewerKeys(bucketsMap, Steps(minValue, maxValue, INTERVALS[currentInterval]));
      if |bucketsMap| <= size {
        AddMissing();
        PaddedIsNear(old(bucketsMap), bucketsMap, consumed, minValue, maxValue, INTERVALS[currentInterval]);
      }
    }

    /** One round of the second loop: adds missing buckets if there are few, and moves on if there are many. */
    method Round(size: nat) returns (more: bool)
      requires Ranged()
      modifies `bucketsMap, `currentInterval
      ensures Ranged() && currentInterval == old(currentInterval) + if more then 1 else 0
      ensures more <==> Crowded(old(bucketsMap).Keys, minValue, maxValue, old(currentInterval), size)
      ensures !more ==> Fits(size)
      ensures old(Fits(size) && |bucketsMap| <= size) ==> !more && bucketsMap == old(bucketsMap)
      ensures old(Nearly()) && more ==> Valid()
      ensures old(Nearly()) && !more ==> (Valid() <==> Aligned(old(bucketsMap).Keys, INTERVALS[currentInterval]))
      ensures old(Valid()) ==> Valid() && (more ==> TooMany(consumed, minValue, maxValue, old(currentInterval), size))
    {
      AddIfFew(size);
      if |bucketsMap| <= size || currentInterval >= |INTERVALS| - 1 {
        if Nearly() {
          NearIsSoundIff(bucketsMap, consumed, minValue, maxValue, INTERVALS[currentInterval]);
        }
        more := false;
      } else {
        if Valid() {
          CannotHaveFewer(bucketsMap, consumed, minValue, maxValue, currentInterval, size);
          IntervalsDivide(currentInterval, currentInterval);
          SoundIsNear(bucketsMap, consumed, minValue, maxValue, INTERVALS[currentInterval], INTERVALS[currentInterval]);
        }
        MoveOn();
        more := true;
      }
    }

    /**
     Raises the interval for a long range, adds missing buckets while there are few, and moves on to coarser
     intervals while there are many. Every instant ends in the bucket of its key exactly if the buckets settle:
     the raised interval does not move them. From the interval after it on, or from the old one if it was not
     raised, Finish stops at the first that fits: at every one passed over there are more than size buckets if
     none is missing. A calculator that is finished already stays as it is, whatever its buckets hold.
     */
    method Finish(size: nat, terms: nat)
      requires Ranged()
      modifies `bucketsMap, `currentInterval
      ensures Ranged() && Finished(size, terms)
      ensures StartInterval(minValue, maxValue, old(currentInterval), terms) <= currentInterval
      ensures old(Valid()) ==>
                (Valid() <==> Settles(old(bucketsMap).Keys, minValue, maxValue, old(currentInterval), size, terms))
      ensures old(Valid()) ==>
                var c := StartInterval(minValue, maxValue, old(currentInterval), terms);
                PassedOver(consumed, minValue, maxValue, if c == old(currentInterval) then c else c + 1,
                           currentInterval, size)
      ensures old(|bucketsMap| <= size && Finished(size, terms)) ==>
                bucketsMap == old(bucketsMap) && currentInterval == old(currentInterval)
    {
      ChooseInterval(terms);
      FinishFrom(size);
      StartsThere(minValue, maxValue, old(currentInterval), currentInterval, terms);
      SettlesIs(old(bucketsMap).Keys, minValue, maxValue, old(currentInterval), size, terms);
    }

    /** All rounds, on buckets that are ready for a pass at least. */
    method FinishFrom(size: nat)
      requires Ranged()
      modifies `bucketsMap, `currentInterval
      ensures Ranged() && Fits(size) && old(currentInterval) <= currentInterval
      ensures old(Nearly()) ==>
                (Valid() <==> || Crowded(old(bucketsMap).Keys, minValue, maxValue, old(currentInterval), size)
                              || Aligned(old(bucketsMap).Keys, INTERVALS[old(currentInterval)]))
      ensures old(Nearly()) ==>
                PassedOver(consumed, minValue, maxValue, old(currentInterval) + 1, currentInterval, size)
      ensures old(Valid()) ==>
                Valid() && PassedOver(consumed, minValue, maxValue, old(currentInterval), currentInterval, size)
      ensures old(Fits(size) && |bucketsMap| <= size) ==>
                bucketsMap == old(bucketsMap) && currentInterval == old(currentInterval)
    {
      var more := Round(size);
      if more {
        FinishRounds(size);
      }
    }

    /** A round on buckets that are at their keys. */
    method NextRound(size: nat) returns (more: bool)
      requires Ranged()
      modifies `bucketsMap, `currentInterval
      ensures Ranged() && currentInterval == old(currentInterval) + (if more then 1 else 0) && (!more ==> Fits(size))
      ensures old(Valid()) ==> Valid() && (more ==> TooMany(consumed, minValue, maxValue, old(currentInterval), size))
    {
      more := Round(size);
    }

    /** The rest of the rounds. */
    method FinishRounds(size: nat)
      requires Ranged()
      modifies `bucketsMap, `currentInterval
      ensures Ranged() && Fits(size) && old(currentInterval) <= currentInterval
      ensures old(Valid()) ==>
                Valid() && PassedOver(consumed, minValue, maxValue, old(currentInterval), currentInterval, size)
    {
      var more := true;
      while more
        invariant Ranged() && old(currentInterval) <= currentInterval && (!more ==> Fits(size))
        invariant old(Valid()) ==>
                    Valid() && PassedOver(consumed, minValue, maxValue, old(currentInterval), currentInterval, size)
        decreases |INTERVALS| - currentInterval, more
      {
        more := NextRound(size);
      }
    }

    method AddMissing()
      requires Ranged()
      modifies `bucketsMap
      ensures Ranged() && (old(Valid()) ==> Valid())
      ensures Padded(old(bucketsMap), bucketsMap, minValue, maxValue, INTERVALS[currentInterval])
      ensures bucketsMap.Keys == old(bucketsMap).Keys + Steps(minValue, maxValue, INTERVALS[currentInterval])
      ensures Replenished(bucketsMap, minValue, maxValue, INTERVALS[currentInterval])
      ensures old(Replenished(bucketsMap, minValue, maxValue, INTERVALS[currentInterval])) ==>
                bucketsMap == old(bucketsMap)
    {
      var m := Replenish(bucketsMap, minValue, maxValue, INTERVALS[currentInterval]);
      PaddedIsSound(bucketsMap, m, consumed, minValue, maxValue, INTERVALS[currentInterval]);
      PaddedKeys(bucketsMap, m, minValue, maxValue, INTERVALS[currentInterval]);
      bucketsMap := m;
    }

    /** The next interval, and every bucket to its key there. */
    method MoveOn()
      requires Ranged() && currentInterval < |INTERVALS| - 1
      modifies `bucketsMap, `currentInterval
      ensures Ranged() && currentInterval == old(currentInterval) + 1
      ensures old(Nearly()) ==> Valid()
    {
      var visits := Visits(bucketsMap);
      var c := currentInterval + 1;
      IntervalsDivide(currentInterval, c);
      MovedIsWithin(bucketsMap, minValue, maxValue, INTERVALS[currentInterval], INTERVALS[c], visits);
      MovedNearIsSound(bucketsMap, consumed, minValue, maxValue, INTERVALS[currentInterval], INTERVALS[c], visits);
      currentInterval := c;
      bucketsMap := Pass(bucketsMap, INTERVALS[c], visits);
    }

    /** The part of Merge before its call of Finish. */
    method MergeIn(other: AutoDateHistogramCalculator)
      requires Valid() && other.Valid() && other != this
      modifies this
      ensures Ranged() && total == old(total) + other.total && consumed == old(consumed) + other.consumed
      ensures currentInterval == MergedInterval(old(bucketsMap), old(currentInterval), other.bucketsMap,
                                                other.currentInterval)
      ensures Valid() <==>
              Coarsened(old(bucketsMap), old(currentInterval), other.bucketsMap, other.consumed, other.currentInterval)
      ensures Widened(old(bucketsMap).Keys, other.bucketsMap.Keys, old(minValue), old(maxValue), minValue, maxValue)
      ensures bucketsMap.Keys == CutKeys(old(bucketsMap).Keys + other.bucketsMap.Keys, INTERVALS[currentInterval])
      ensures other.currentInterval > old(currentInterval) && other.bucketsMap.Keys <= old(bucketsMap).Keys ==>
                && minValue == old(minValue) && maxValue == old(maxValue)
                && bucketsMap.Keys == old(bucketsMap).Keys && IsSum(bucketsMap, old(bucketsMap), other.bucketsMap)
    {
      total := total + other.total;
      bucketsMap, currentInterval, minValue, maxValue :=
        MergeAndPass(bucketsMap, consumed, currentInterval, minValue, maxValue, other.bucketsMap, other.consumed,
                     other.currentInterval, other.minValue, other.maxValue);
      consumed := consumed + other.consumed;
    }

    /**
     Merges a finished calculator into this finished one. Every instant ends up in the bucket of its key
     exactly if it does before the final Finish and that settles the buckets. Before it does so exactly if the
     other interval is not coarser, or one of the other's buckets is missing here, which raises the interval, or
     the other's instants happen to have the same key at both intervals; if not, Finish changes nothing either.
     */
    method Merge(other: AutoDateHistogramCalculator, size: nat, terms: nat)
      requires Valid() && other.Valid() && Finished(size, terms) && other.Finished(size, terms) && other != this
      modifies this
      ensures Ranged() && Finished(size, terms)
      ensures total == old(total) + other.total && consumed == old(consumed) + other.consumed
      ensures Widened(old(bucketsMap).Keys, other.bucketsMap.Keys, old(minValue), old(maxValue), minValue, maxValue)
      ensures var from := MergedInterval(old(bucketsMap), old(currentInterval), other.bucketsMap,
                                         other.currentInterval);
              && from < |INTERVALS| && INTERVALS[from] > 0
              && (Valid() <==>
                    && Coarsened(old(bucketsMap), old(currentInterval), other.bucketsMap, other.consumed,
                                 other.currentInterval)
                    && Settles(CutKeys(old(bucketsMap).Keys + other.bucketsMap.Keys, INTERVALS[from]), minValue,
                               maxValue, from, size, terms))
      ensures var from := MergedInterval(old(bucketsMap), old(currentInterval), other.bucketsMap,
                                         other.currentInterval);
              var c := StartInterval(minValue, maxValue, from, terms);
              && c <= currentInterval
              && (Valid() ==>
                    PassedOver(consumed, minValue, maxValue, if c == from then c else c + 1, currentInterval, size))
      ensures other.currentInterval > old(currentInterval) && other.bucketsMap.Keys <= old(bucketsMap).Keys ==>
                && currentInterval == old(currentInterval) && bucketsMap.Keys == old(bucketsMap).Keys
                && IsSum(bucketsMap, old(bucketsMap), other.bucketsMap)
    {
      ghost var kept := other.currentInterval > currentInterval && other.bucketsMap.Keys <= bucketsMap.Keys;
      MergeIn(other);
      if kept {
        SameSize(bucketsMap, old(bucketsMap));
        SettlesIs(bucketsMap.Keys, minValue, maxValue, currentInterval, size, terms);
      }
      Finish(size, terms);
    }
  }

  lemma SameSize(a: Buckets, b: Buckets)
    requires a.Keys == b.Keys
    ensures |a| == |b|
  {
    assert |a.Keys| == |a| && |b.Keys| == |b|;
  }

  /**
   A calculator of one instant and one of two, both finished for a single bucket: the second has moved on to
   ten seconds, its only bucket has the name of the first one's, and merging leaves the later instant in
   the bucket of the second it does not belong to.
   */
  method CoarseIntoFineMisplaces() returns (a: AutoDateHistogramCalculator)
    ensures fresh(a) && a.Ranged() && a.currentInterval == 0 && a.Finished(1, 1000)
    ensures a.consumed == multiset{Time(0), Time(0), Time(5 * SECOND)} && a.bucketsMap.Keys == {Time(0)} && !a.Valid()
  {
    a := OneInstant();
    var b := TwoInstants();
    FiveSeconds(b.currentInterval);
    assert Time(5 * SECOND) in b.consumed;
    a.Merge(b, 1, 1000);
  }

  lemma FiveSeconds(i: nat)
    requires 2 <= i < |INTERVALS|
    ensures INTERVALS[0] > 0 && INTERVALS[i] > 0 && BucketKey(Time(0), INTERVALS[i]) == Time(0)
    ensures BucketKey(Time(5 * SECOND), INTERVALS[0]) == Time(5 * SECOND)
    ensures BucketKey(Time(5 * SECOND), INTERVALS[i]) == Time(0)
  {
  }

  method OneInstant() returns (a: AutoDateHistogramCalculator)
    ensures fresh(a) && a.Valid() && a.currentInterval == 0 && a.Finished(1, 1000)
    ensures a.consumed == multiset{Time(0)} && a.bucketsMap.Keys == {Time(0)}
  {
    a := new AutoDateHistogramCalculator();
    a.ConsumeDocument([Time(0)]);
    assert [Time(0)][..0] == [];
    OneBucket(a.bucketsMap, a.consumed);
    NotRaised(a.bucketsMap.Keys, 0);
    a.Finish(1, 1000);
  }

  lemma OneBucket(m: Buckets, all: multiset<Time>)
    requires INTERVALS[0] > 0 && Bucketed(m, all, INTERVALS[0]) && Within(m, 0, 0, INTERVALS[0])
    requires all == multiset{Time(0)}
    ensures m.Keys == {Time(0)} && |m| == 1 && Replenished(m, 0, 0, INTERVALS[0])
  {
    assert BucketKey(Time(0), INTERVALS[0]) == Time(0);
    assert Held(m, Time(0), Time(0)) == 1;
    assert |m.Keys| == |m|;
    forall j: nat ensures Tick(0, j, INTERVALS[0]).ns >= 0 { MoreTimes(j, 0, INTERVALS[0]); }
  }

  method TwoInstants() returns (b: AutoDateHistogramCalculator)
    ensures fresh(b) && b.Valid() && b.currentInterval >= 2 && b.Finished(1, 1000)
    ensures b.consumed == multiset{Time(0), Time(5 * SECOND)} && b.bucketsMap.Keys == {Time(0)}
  {
    b := new AutoDateHistogramCalculator();
    b.ConsumeDocument([Time(0), Time(5 * SECOND)]);
    BoundsOfTwo(Time(0), Time(5 * SECOND));
    NotRaised(b.bucketsMap.Keys, 5 * SECOND);
    b.Finish(1, 1000);
    TwoBuckets(b.bucketsMap, b.consumed, b.currentInterval);
  }

  lemma BoundsOfTwo(x: Time, y: Time)
    requires Int64(x) && Int64(y) && x.ns < y.ns
    ensures LeastOf(MAX_INT64, [x, y]) == x.ns && GreatestOf(MIN_INT64, [x, y]) == y.ns
  {
    assert [x, y][..1] == [x] && [x][..0] == [];
    assert LeastOf(MAX_INT64, [x]) == x.ns && GreatestOf(MIN_INT64, [x]) == x.ns;
  }

  lemma NotRaised(keys: set<Time>, hi: int)
    requires 0 <= hi <= 1000 * SECOND
    ensures StartInterval(0, hi, 0, 1000) == 0 && Settles(keys, 0, hi, 0, 1, 1000)
  {
    SettlesIs(keys, 0, hi, 0, 1, 1000);
  }

  lemma TwoBuckets(m: Buckets, all: multiset<Time>, i: nat)
    requires i < |INTERVALS| && INTERVALS[i] > 0 && Bucketed(m, all, INTERVALS[i])
    requires Within(m, 0, 5 * SECOND, INTERVALS[i]) && all == multiset{Time(0), Time(5 * SECOND)}
    ensures i < 2 ==> |m| >= 2
    ensures i >= 2 ==> m.Keys == {Time(0)}
  {
    assert BucketKey(Time(0), INTERVALS[i]) == Time(0);
    assert Held(m, Time(0), Time(0)) == 1;
    if i < 2 {
      assert BucketKey(Time(5 * SECOND), INTERVALS[i]) == Time(5 * SECOND);
      assert Held(m, Time(5 * SECOND), Time(5 * SECOND)) == 1;
      assert {Time(0), Time(5 * SECOND)} <= m.Keys;
      Larger({Time(0), Time(5 * SECOND)}, m.Keys);
    } else {
      FiveSeconds(i);
    }
  }

  lemma {:induction false} StepsFew(lo: int, n: nat, interval: nat)
    requires interval > 0
    ensures |set j: nat | j < n :: BucketKey(Tick(lo, j, interval), interval)| <= n
    decreases n
  {
    if n > 0 {
      StepsFew(lo, n - 1, interval);
      var less := set j: nat | j < n - 1 :: BucketKey(Tick(lo, j, interval), interval);
      assert (set j: nat | j < n :: BucketKey(Tick(lo, j, interval), interval)) ==
             less + {BucketKey(Tick(lo, n - 1, interval), interval)};
    }
  }

  /** Two instants so far apart that Finish raises the interval to five seconds, and few enough steps between. */
  lemma RaisedForTwo(keys: set<Time>)
    requires keys == {Time(SECOND), Time(3000 * SECOND)}
    ensures StartInterval(SECOND, 3000 * SECOND, 0, 1000) == 1
    ensures !Settles(keys, SECOND, 3000 * SECOND, 0, 700, 1000)
  {
    var steps := Steps(SECOND, 3000 * SECOND, INTERVALS[1]);
    assert StartInterval(SECOND, 3000 * SECOND, 0, 1000) == StartInterval(SECOND, 3000 * SECOND, 1, 1000);
    assert StepCount(SECOND, 3000 * SECOND, INTERVALS[1]) == 600;
    StepsFew(SECOND, 600, INTERVALS[1]);
    assert |keys + steps| <= |keys| + |steps|;
    assert BucketKey(Time(SECOND), INTERVALS[1]) == Time(0);
    SettlesIs(keys, SECOND, 3000 * SECOND, 0, 700, 1000);
  }

  /**
   Instants of the first and the 3000th second, with room for 700 buckets: Finish raises the interval to five
   seconds for the range, fills the gaps and stops, and leaves the first instant in a bucket of its own beside
   that of the five seconds it belongs to.
   */
  method RaisedIntervalMisplaces() returns (a: AutoDateHistogramCalculator)
    ensures fresh(a) && a.Ranged() && a.Finished(700, 1000) && !a.Valid()
    ensures a.consumed == multiset{Time(SECOND), Time(3000 * SECOND)}
  {
    a := FarApart();
    RaisedForTwo(a.bucketsMap.Keys);
    a.Finish(700, 1000);
  }

  method FarApart() returns (a: AutoDateHistogramCalculator)
    ensures fresh(a) && a.Valid() && a.currentInterval == 0 && a.minValue == SECOND && a.maxValue == 3000 * SECOND
    ensures a.consumed == multiset{Time(SECOND), Time(3000 * SECOND)}
    ensures a.bucketsMap.Keys == {Time(SECOND), Time(3000 * SECOND)}
  {
    a := new AutoDateHistogramCalculator();
    a.ConsumeDocument([Time(SECOND), Time(3000 * SECOND)]);
    BoundsOfTwo(Time(SECOND), Time(3000 * SECOND));
    KeysOfTwo(Time(SECOND), Time(3000 * SECOND), INTERVALS[0]);
  }

  lemma KeysOfTwo(x: Time, y: Time, interval: nat)
    requires interval > 0
    ensures CutKeys(Elements([x, y]), interval) == {BucketKey(x, interval), BucketKey(y, interval)}
  {
    assert Elements([x, y]) == {x, y};
  }
}
