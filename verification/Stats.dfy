/**
 Collection statistics for scoring across shards. Every node adds up the statistics of its shards and
 the proxy adds up those of the nodes, field by field and term by term, in counters of 64 bits. What
 comes out is the sum over all shards, however they are spread and in whatever order it is added up.
 */
module Stats {
  import opened Sequences

  const MODULUS: nat := 0x1_0000_0000_0000_0000

  type uint64 = n: nat | n < MODULUS witness 0

  function Add(a: uint64, b: uint64): uint64 {
    (a + b) % MODULUS
  }

  datatype FieldStats = FieldStats(
    field: string,
    termStats: map<string, uint64>,
    sumTotalTermFreq: uint64,
    docCount: uint64,
    totalDocCount: uint64)

  type Fields = map<string, FieldStats>

  /** One counter of the statistics. */
  datatype Counter =
    | Freq(field: string, term: string)
    | SumTotalTermFreq(field: string)
    | DocCount(field: string)
    | TotalDocCount(field: string)

  function FieldValue(f: FieldStats, c: Counter): uint64 {
    match c
    case Freq(_, term) => if term in f.termStats then f.termStats[term] else 0
    case SumTotalTermFreq(_) => f.sumTotalTermFreq
    case DocCount(_) => f.docCount
    case TotalDocCount(_) => f.totalDocCount
  }

  /** The value of a counter, 0 if it does not occur. */
  function Value(s: Fields, c: Counter): uint64 {
    if c.field in s then FieldValue(s[c.field], c) else 0
  }

  /** The counters tell everything: statistics of the same fields and terms that agree on them are the same. */
  lemma CountersTell(a: Fields, b: Fields)
    requires Filed(a) && Filed(b) && a.Keys == b.Keys
    requires forall name :: name in a ==> a[name].termStats.Keys == b[name].termStats.Keys
    requires forall c :: Value(a, c) == Value(b, c)
    ensures a == b
  {
    forall name | name in a ensures a[name] == b[name] {
      assert Value(a, SumTotalTermFreq(name)) == Value(b, SumTotalTermFreq(name));
      assert Value(a, DocCount(name)) == Value(b, DocCount(name));
      assert Value(a, TotalDocCount(name)) == Value(b, TotalDocCount(name));
      forall term | term in a[name].termStats ensures a[name].termStats[term] == b[name].termStats[term] {
        assert Value(a, Freq(name, term)) == Value(b, Freq(name, term));
      }
      assert a[name].termStats == b[name].termStats;
    }
  }

  /** Every entry is filed under its own field. */
  ghost predicate Filed(s: Fields) {
    forall name :: name in s ==> s[name].field == name
  }

  /** What a field's statistics add to a counter. */
  function Contribution(f: FieldStats, c: Counter): uint64 {
    if c.field == f.field then FieldValue(f, c) else 0
  }

  /** The same without the terms, and with some of them. */
  function PartialContribution(f: FieldStats, terms: set<string>, c: Counter): uint64 {
    if c.Freq? && c.term !in terms then 0 else Contribution(f, c)
  }

  lemma TermStep(f: FieldStats, done: set<string>, term: string, c: Counter, first: uint64, before: uint64)
    requires term in f.termStats && term !in done && before == Add(first, PartialContribution(f, done, c))
    ensures (if c == Freq(f.field, term) then Add(before, f.termStats[term]) else before) ==
            Add(first, PartialContribution(f, done + {term}, c))
  {
  }

  class UnifiedStats {
    var fieldStats: Fields

    constructor ()
      ensures fieldStats == map[]
    {
      fieldStats := map[];
    }

    method MergeTerm(field: string, term: string, freq: uint64)
      requires Filed(fieldStats)
      modifies this
      ensures Filed(fieldStats)
      ensures forall c :: Value(fieldStats, c) ==
                          if c == Freq(field, term) then Add(old(Value(fieldStats, c)), freq)
                          else old(Value(fieldStats, c))
    {
      if field in fieldStats {
        var f := fieldStats[field];
        if term in f.termStats {
          f := f.(termStats := f.termStats[term := Add(f.termStats[term], freq)]);
        } else {
          f := f.(termStats := f.termStats[term := freq]);
        }
        fieldStats := fieldStats[field := f];
      } else {
        fieldStats := fieldStats[field := FieldStats(field, map[term := freq], 0, 0, 0)];
      }
    }

    /** The counters of a field that are not about terms. */
    method MergeCounts(f: FieldStats)
      requires Filed(fieldStats)
      modifies this
      ensures Filed(fieldStats)
      ensures forall c :: Value(fieldStats, c) == Add(old(Value(fieldStats, c)), PartialContribution(f, {}, c))
    {
      if f.field in fieldStats {
        var g := fieldStats[f.field];
        fieldStats := fieldStats[f.field := g.(
          totalDocCount := Add(g.totalDocCount, f.totalDocCount),
          docCount := Add(g.docCount, f.docCount),
          sumTotalTermFreq := Add(g.sumTotalTermFreq, f.sumTotalTermFreq))];
      } else {
        fieldStats := fieldStats[f.field := FieldStats(f.field, map[], f.sumTotalTermFreq, f.docCount,
                                                       f.totalDocCount)];
      }
    }

    method MergeField(f: FieldStats)
      requires Filed(fieldStats)
      modifies this
      ensures Filed(fieldStats)
      ensures forall c :: Value(fieldStats, c) == Add(old(Value(fieldStats, c)), Contribution(f, c))
    {
      MergeCounts(f);
      var todo := f.termStats.Keys;
      while todo != {}
        invariant Filed(fieldStats) && todo <= f.termStats.Keys
        invariant forall c :: Value(fieldStats, c) ==
                              Add(old(Value(fieldStats, c)), PartialContribution(f, f.termStats.Keys - todo, c))
        decreases |todo|
      {
        var term :| term in todo;
        ghost var before, done := fieldStats, f.termStats.Keys - todo;
        MergeTerm(f.field, term, f.termStats[term]);
        forall c ensures Value(fieldStats, c) == Add(old(Value(fieldStats, c)),
                                                     PartialContribution(f, done + {term}, c)) {
          TermStep(f, done, term, c, old(Value(fieldStats, c)), Value(before, c));
        }
        todo := todo - {term};
        assert f.termStats.Keys - todo == done + {term};
      }
    }

    method Merge(other: Fields)
      requires Filed(fieldStats) && Filed(other)
      modifies this
      ensures Filed(fieldStats)
      ensures forall c :: Value(fieldStats, c) == Add(old(Value(fieldStats, c)), Value(other, c))
    {
      var todo := other.Keys;
      while todo != {}
        invariant Filed(fieldStats) && todo <= other.Keys
        invariant forall c :: Value(fieldStats, c) ==
                              Add(old(Value(fieldStats, c)), if c.field in todo then 0 else Value(other, c))
        decreases |todo|
      {
        var name :| name in todo;
        MergeField(other[name]);
        todo := todo - {name};
      }
    }
  }

  // ------------------------------------------------------------------- sums

  /** The exact sum of a counter over many statistics. */
  function Sum(parts: seq<Fields>, c: Counter): nat {
    if parts == [] then 0 else Sum(parts[..|parts| - 1], c) + Value(parts[|parts| - 1], c)
  }

  lemma SumMore(parts: seq<Fields>, part: Fields, c: Counter)
    ensures Sum(parts + [part], c) == Sum(parts, c) + Value(part, c)
  {
    assert (parts + [part])[..|parts|] == parts;
  }

  lemma {:induction false} SumConcat(a: seq<Fields>, b: seq<Fields>, c: Counter)
    ensures Sum(a + b, c) == Sum(a, c) + Sum(b, c)
    decreases |b|
  {
    if b == [] {
      assert a + b == a;
    } else {
      var n := |b| - 1;
      assert a + b == a + b[..n] + [b[n]];
      SumConcat(a, b[..n], c);
      SumMore(a + b[..n], b[n], c);
    }
  }

  /** The order of adding up does not matter. */
  lemma {:induction false} SumPermuted(a: seq<Fields>, b: seq<Fields>, c: Counter)
    requires multiset(a) == multiset(b)
    ensures Sum(a, c) == Sum(b, c)
    decreases |a|
  {
    if a == [] {
      assert |multiset(a)| == |multiset(b)|;
    } else {
      assert a[0] in multiset(b);
      var i :| 0 <= i < |b| && b[i] == a[0];
      WithoutSame(a, b, 0, i);
      SumPermuted(Without(a, 0), Without(b, i), c);
      SumWithoutOne(a, 0, c);
      SumWithoutOne(b, i, c);
    }
  }

  lemma SumWithoutOne(parts: seq<Fields>, i: nat, c: Counter)
    requires i < |parts|
    ensures Sum(parts, c) == Sum(Without(parts, i), c) + Value(parts[i], c)
  {
    var a, b := parts[..i], parts[i + 1..];
    assert parts == a + [parts[i]] + b;
    SumConcat(a + [parts[i]], b, c);
    SumMore(a, parts[i], c);
    SumConcat(a, b, c);
  }

  /** Counters that hold the exact sum, up to the width of a counter. */
  ghost predicate Sums(s: Fields, parts: seq<Fields>) {
    Filed(s) && forall c :: Value(s, c) == Sum(parts, c) % MODULUS
  }

  lemma AddIsModular(a: nat, b: nat)
    ensures Add(a % MODULUS, b % MODULUS) == (a + b) % MODULUS
  {
  }

  lemma SumsMore(s: Fields, s': Fields, local: Fields, parts: seq<Fields>, more: seq<Fields>)
    requires Sums(s, parts) && Sums(local, more) && Filed(s')
    requires forall c :: Value(s', c) == Add(Value(s, c), Value(local, c))
    ensures Sums(s', parts + more)
  {
    forall c ensures Value(s', c) == Sum(parts + more, c) % MODULUS {
      SumConcat(parts, more, c);
      AddIsModular(Sum(parts, c), Sum(more, c));
    }
  }

  lemma SumsOneMore(s: Fields, s': Fields, parts: seq<Fields>, part: Fields)
    requires Sums(s, parts) && Filed(part) && Filed(s')
    requires forall c :: Value(s', c) == Add(Value(s, c), Value(part, c))
    ensures Sums(s', parts + [part])
  {
    assert Sums(part, [part]) by {
      forall c ensures Value(part, c) == Sum([part], c) % MODULUS {
        SumMore([], part, c);
        assert [] + [part] == [part];
      }
    }
    SumsMore(s, s', part, parts, [part]);
  }

  /** A node adds up its shards. */
  method LocalStats(shards: seq<Fields>) returns (r: Fields)
    requires forall i :: 0 <= i < |shards| ==> Filed(shards[i])
    ensures Sums(r, shards)
  {
    var stats := new UnifiedStats();
    for i := 0 to |shards|
      invariant Sums(stats.fieldStats, shards[..i])
    {
      ghost var before := stats.fieldStats;
      stats.Merge(shards[i]);
      assert shards[..i + 1] == shards[..i] + [shards[i]];
      SumsOneMore(before, stats.fieldStats, shards[..i], shards[i]);
    }
    assert shards[..|shards|] == shards;
    r := stats.fieldStats;
  }

  /** The proxy adds up the nodes: the sum over all shards. */
  method ParallelGetStats(nodes: seq<seq<Fields>>) returns (r: Fields)
    requires forall i, j :: 0 <= i < |nodes| && 0 <= j < |nodes[i]| ==> Filed(nodes[i][j])
    ensures Sums(r, Flatten(nodes))
    ensures forall c :: Value(r, c) == Sum(Flatten(nodes), c) % 0x1_0000_0000_0000_0000
  {
    var stats := new UnifiedStats();
    for i := 0 to |nodes|
      invariant Sums(stats.fieldStats, Flatten(nodes[..i]))
    {
      var local := LocalStats(nodes[i]);
      ghost var before := stats.fieldStats;
      stats.Merge(local);
      assert nodes[..i + 1] == nodes[..i] + [nodes[i]];
      FlattenMore(nodes[..i], nodes[i]);
      SumsMore(before, stats.fieldStats, local, Flatten(nodes[..i]), nodes[i]);
    }
    assert nodes[..|nodes|] == nodes;
    r := stats.fieldStats;
  }

  /** Whatever the partition over nodes and the order within, the counters come out the same. */
  lemma PartitionDoesNotMatter(a: Fields, b: Fields, nodes: seq<seq<Fields>>, others: seq<seq<Fields>>, c: Counter)
    requires Sums(a, Flatten(nodes)) && Sums(b, Flatten(others)) &&
             multiset(Flatten(nodes)) == multiset(Flatten(others))
    ensures Value(a, c) == Value(b, c)
  {
    SumPermuted(Flatten(nodes), Flatten(others), c);
  }
}
