/**
 Searching many shards: each shard gives its best hits, the hits of an index are merged in a heap,
 and a node and then the proxy collect, sort and cut what came in. However the shards are spread
 over nodes, the answer is the best of all matches and the total counts them all.
 */
module ScatterGather {
  import opened Wrappers
  import opened Sequences
  import opened TopHits

  // ------------------------------------------------------------------ picking the best

  lemma {:induction false} BestExists(docs: seq<Hit>) returns (i: nat)
    requires docs != []
    ensures i < |docs| && forall j :: 0 <= j < |docs| ==> docs[j].score <= docs[i].score
  {
    var n := |docs| - 1;
    if n == 0 {
      i := 0;
    } else {
      i := BestExists(docs[..n]);
      assert forall j :: 0 <= j < n ==> docs[..n][j].score <= docs[i].score;
      if docs[n].score > docs[i].score {
        i := n;
      }
    }
  }

  /** Removes one of the best hits, whichever. */
  method PickBest(docs: seq<Hit>) returns (best: Hit, rest: seq<Hit>)
    requires docs != []
    ensures multiset(docs) == multiset(rest) + multiset{best} && |rest| == |docs| - 1
    ensures forall x :: x in multiset(docs) ==> best.score >= x.score
  {
    ghost var some := BestExists(docs);
    var i :| 0 <= i < |docs| && forall j :: 0 <= j < |docs| ==> docs[j].score <= docs[i].score;
    WithoutOne(docs, i);
    best, rest := docs[i], Without(docs, i);
  }

  /** The best first hits of all, with the rest. */
  ghost predicate Taken(hits: seq<Hit>, rest: multiset<Hit>, all: multiset<Hit>) {
    Sorted(hits) && multiset(hits) + rest == all && Beats(multiset(hits), rest)
  }

  lemma TakeOneMore(hits: seq<Hit>, rest: multiset<Hit>, all: multiset<Hit>, best: Hit)
    requires Taken(hits, rest + multiset{best}, all) && forall x :: x in rest ==> best.score >= x.score
    ensures Taken(hits + [best], rest, all)
  {
    assert best in rest + multiset{best};
    forall i | 0 <= i < |hits| ensures hits[i].score >= best.score {
      assert hits[i] in multiset(hits);
    }
  }

  lemma TakenIsTop(hits: seq<Hit>, rest: multiset<Hit>, all: multiset<Hit>, size: nat)
    requires Taken(hits, rest, all) && |hits| <= size && (|hits| < size ==> |rest| == 0)
    ensures IsTop(hits, all, size)
  {
    assert all - multiset(hits) == rest;
  }

  /** What a shard answers: its best hits, in some order among equals, and the number of its matches. */
  method SearchShard(matches: seq<Hit>, size: nat) returns (hits: seq<Hit>, total: nat)
    ensures IsTop(hits, multiset(matches), size) && total == |matches|
  {
    var rest := matches;
    hits, total := [], |matches|;
    while rest != [] && |hits| < size
      invariant Taken(hits, multiset(rest), multiset(matches)) && |hits| <= size
      decreases |rest|
    {
      var best;
      best, rest := PickBest(rest);
      TakeOneMore(hits, multiset(rest), multiset(matches), best);
      hits := hits + [best];
    }
    TakenIsTop(hits, multiset(rest), multiset(matches), size);
  }

  // --------------------------------------------------------------------- the heap

  class DocumentList {
    var from: int
    var size: int
    var len: int
    var next: int
    var docs: seq<Hit>

    constructor (from: int, size: int)
      ensures this.from == from && this.size == size && len == 0 && next == 0 && docs == []
    {
      this.from, this.size, this.len, this.next, this.docs := from, size, 0, 0, [];
    }

    method Push(doc: Hit)
      modifies `docs
      ensures multiset(docs) == old(multiset(docs)) + multiset{doc} && |docs| == old(|docs|) + 1
    {
      docs := docs + [doc];
    }

    /** Skips the first `from` hits. */
    method Done() returns (ghost skipped: seq<Hit>)
      modifies `docs, `len
      ensures len == |docs| && Taken(skipped, multiset(docs), old(multiset(docs)))
      ensures |skipped| == if from < 0 then 0 else Min(from, old(|docs|))
    {
      var all := |docs|;
      var i := 0;
      skipped := [];
      while i < from && i < all
        invariant |skipped| == i == all - |docs| <= all && i <= if from < 0 then 0 else from
        invariant Taken(skipped, multiset(docs), old(multiset(docs)))
      {
        var best;
        best, docs := PickBest(docs);
        TakeOneMore(skipped, multiset(docs), old(multiset(docs)), best);
        skipped := skipped + [best];
        i := i + 1;
      }
      len := |docs|;
    }

    /** The next hit, until `size` of them or all have been given. */
    method Next() returns (hit: Option<Hit>)
      requires |docs| == len - next
      modifies `docs, `next
      ensures |docs| == len - next
      ensures hit.None? <==> old(next) >= size || old(next) >= len
      ensures hit.None? ==> docs == old(docs) && next == old(next)
      ensures hit.Some? ==>
                && old(multiset(docs)) == multiset(docs) + multiset{hit.value} && next == old(next) + 1
                && forall x :: x in multiset(docs) ==> hit.value.score >= x.score
    {
      if next >= size || next >= len {
        return None;
      }
      var best;
      best, docs := PickBest(docs);
      next := next + 1;
      return Some(best);
    }
  }

  // ----------------------------------------------------------------- an index

  function SumOf(counts: seq<nat>): nat {
    if counts == [] then 0 else SumOf(counts[..|counts| - 1]) + counts[|counts| - 1]
  }

  /** Reads the heap out: the best `size` hits of what was pushed. */
  method ReadOut(list: DocumentList) returns (hits: seq<Hit>)
    requires list.next == 0 && list.len == |list.docs| && list.size >= 0
    modifies list`docs, list`next
    ensures IsTop(hits, old(multiset(list.docs)), list.size)
  {
    hits := [];
    var hit := list.Next();
    ghost var all := old(multiset(list.docs));
    while hit.Some?
      invariant |list.docs| == list.len - list.next
      invariant hit.Some? ==>
                  Taken(hits, multiset(list.docs) + multiset{hit.value}, all) && list.next == |hits| + 1 <= list.size
      invariant hit.Some? ==> forall x :: x in multiset(list.docs) ==> hit.value.score >= x.score
      invariant hit.None? ==> Taken(hits, multiset(list.docs), all) && list.next == |hits|
      invariant hit.None? ==> list.next >= list.size || list.next >= list.len
      invariant |hits| <= list.size
      decreases list.len - list.next + if hit.Some? then 1 else 0
    {
      TakeOneMore(hits, multiset(list.docs), all, hit.value);
      hits := hits + [hit.value];
      hit := list.Next();
    }
    TakenIsTop(hits, multiset(list.docs), all, list.size);
  }

  method PushAll(list: DocumentList, arrival: seq<Hit>)
    requires list.docs == []
    modifies list`docs
    ensures multiset(list.docs) == multiset(arrival)
  {
    for i := 0 to |arrival|
      invariant multiset(list.docs) == multiset(arrival[..i])
    {
      assert arrival[..i + 1] == arrival[..i] + [arrival[i]];
      list.Push(arrival[i]);
    }
    assert arrival[..|arrival|] == arrival;
  }

  /**
   The search of one index, over the answers of its shards. The hits of several shards reach the heap
   in any order; a single shard's answer is taken as it is.
   */
  method MultiZincSearch(answers: seq<seq<Hit>>, counts: seq<nat>, arrival: seq<Hit>, size: nat)
    returns (hits: seq<Hit>, total: nat)
    requires |counts| == |answers| && multiset(arrival) == multiset(Flatten(answers))
    requires |answers| == 1 ==> |answers[0]| <= size && Sorted(answers[0])
    ensures IsTop(hits, multiset(Flatten(answers)), size) && total == SumOf(counts)
  {
    if |answers| == 0 {
      return [], 0;
    }
    if |answers| == 1 {
      assert answers[..0] == [];
      assert Flatten(answers) == answers[0];
      return answers[0], counts[0];
    }
    var list := new DocumentList(0, size);
    PushAll(list, arrival);
    total := 0;
    for i := 0 to |answers|
      invariant list.size >= size && list.next == 0 && list.from == 0
      invariant multiset(list.docs) == multiset(arrival) && total == SumOf(counts[..i])
    {
      assert counts[..i + 1][..i] == counts[..i];
      total := total + counts[i];
      if |answers[i]| > list.size {
        list.size := |answers[i]|;
      }
    }
    assert counts[..|counts|] == counts;
    ghost var skipped := list.Done();
    assert multiset(list.docs) == multiset(arrival);
    if list.size > size {
      list.size := size;
    }
    hits := ReadOut(list);
  }

  // ------------------------------------------------------------- node and proxy

  /** Sorts by descending score; equal scores end up in any order. */
  method SortByScore(hits: seq<Hit>) returns (r: seq<Hit>)
    ensures Sorted(r) && multiset(r) == multiset(hits)
  {
    var rest := hits;
    r := [];
    while rest != []
      invariant Taken(r, multiset(rest), multiset(hits))
      decreases |rest|
    {
      var best;
      best, rest := PickBest(rest);
      TakeOneMore(r, multiset(rest), multiset(hits), best);
      r := r + [best];
    }
  }

  lemma SplitSorted(a: seq<Hit>, b: seq<Hit>)
    requires Sorted(a + b)
    ensures Sorted(a) && Taken(a, multiset(b), multiset(a + b))
  {
    forall x, y | x in multiset(a) && y in multiset(b) ensures x.score >= y.score {
      var i :| 0 <= i < |a| && a[i] == x;
      var j :| 0 <= j < |b| && b[j] == y;
      assert (a + b)[i] == x && (a + b)[|a| + j] == y;
    }
    forall i, j | 0 <= i <= j < |a| ensures a[i].score >= a[j].score {
      assert (a + b)[i] == a[i] && (a + b)[j] == a[j];
    }
  }

  lemma CutSorted(all: seq<Hit>, size: nat)
    requires Sorted(all)
    ensures IsTop(if |all| > size then all[..size] else all, multiset(all), size)
  {
    var n := if |all| > size then size else |all|;
    assert all == all[..n] + all[n..];
    SplitSorted(all[..n], all[n..]);
    TakenIsTop(all[..n], multiset(all[n..]), multiset(all), size);
  }

  /** Collects the answers that come in, in this order, adds up the totals, sorts and cuts. */
  method Gather(answers: seq<seq<Hit>>, totals: seq<nat>, size: nat) returns (hits: seq<Hit>, total: nat)
    requires |totals| == |answers|
    ensures IsTop(hits, multiset(Flatten(answers)), size) && total == SumOf(totals)
  {
    hits, total := [], 0;
    for i := 0 to |answers|
      invariant hits == Flatten(answers[..i]) && total == SumOf(totals[..i])
    {
      assert answers[..i + 1][..i] == answers[..i] && totals[..i + 1][..i] == totals[..i];
      total := total + totals[i];
      hits := hits + answers[i];
    }
    assert answers[..|answers|] == answers && totals[..|totals|] == totals;
    hits := SortByScore(hits);
    CutSorted(hits, size);
    if |hits| > size {
      hits := hits[..size];
    }
  }

  // ---------------------------------------------------------------- the whole search

  lemma TopsOneMore(tops: seq<seq<Hit>>, parts: seq<seq<Hit>>, top: seq<Hit>, part: seq<Hit>, size: nat)
    requires AreTops(tops, parts, size) && IsTop(top, multiset(part), size)
    ensures AreTops(tops + [top], parts + [part], size)
  {
  }

  /** The parts have given their best hits and counted their matches. */
  ghost predicate Answered(answers: seq<seq<Hit>>, counts: seq<nat>, parts: seq<seq<Hit>>, size: nat) {
    AreTops(answers, parts, size) && |counts| == |parts| && SumOf(counts) == |Flatten(parts)|
  }

  lemma AnswerOneMore(answers: seq<seq<Hit>>, counts: seq<nat>, parts: seq<seq<Hit>>, size: nat, top: seq<Hit>,
                      part: seq<Hit>)
    requires Answered(answers, counts, parts, size) && IsTop(top, multiset(part), size)
    ensures Answered(answers + [top], counts + [|part|], parts + [part], size)
  {
    TopsOneMore(answers, parts, top, part, size);
    SumOneMore(counts, |part|);
    FlattenMore(parts, part);
  }

  /** Asks every shard for its best hits. */
  method SearchShards(shards: seq<seq<Hit>>, size: nat) returns (answers: seq<seq<Hit>>, counts: seq<nat>)
    ensures Answered(answers, counts, shards, size)
  {
    answers, counts := [], [];
    ghost var done: seq<seq<Hit>> := [];
    for i := 0 to |shards|
      invariant |done| == i && (forall j :: 0 <= j < i ==> done[j] == shards[j]) &&
                Answered(answers, counts, done, size)
    {
      var found, n := SearchShard(shards[i], size);
      AnswerOneMore(answers, counts, done, size, found, shards[i]);
      answers, counts, done := answers + [found], counts + [n], done + [shards[i]];
    }
    assert done == shards;
  }

  /** The search of some shards of an index, or of all of them. */
  method PartialSearch(shards: seq<seq<Hit>>, size: nat) returns (hits: seq<Hit>, total: nat)
    ensures IsTop(hits, multiset(Flatten(shards)), size) && total == |Flatten(shards)|
  {
    var answers, counts := SearchShards(shards, size);
    hits, total := MultiZincSearch(answers, counts, Flatten(answers), size);
    MergeIsTop(hits, answers, shards, size);
  }

  lemma FlattenOneMore<T>(xss: seq<seq<T>>, i: nat)
    requires i < |xss|
    ensures Flatten(xss[..i + 1]) == Flatten(xss[..i]) + xss[i]
  {
    assert xss[..i + 1] == xss[..i] + [xss[i]];
    FlattenMore(xss[..i], xss[i]);
  }

  lemma FlattenTwiceOneMore<T>(xsss: seq<seq<seq<T>>>, i: nat)
    requires i < |xsss|
    ensures Flatten(Flatten(xsss[..i + 1])) == Flatten(Flatten(xsss[..i])) + Flatten(xsss[i])
  {
    FlattenOneMore(xsss, i);
    FlattenConcat(Flatten(xsss[..i]), xsss[i]);
  }

  /** A node searches its part of every index it was asked for. */
  method InternalUnifiedSearch(queries: seq<seq<seq<Hit>>>, size: nat) returns (hits: seq<Hit>, total: nat)
    ensures IsTop(hits, multiset(Flatten(Flatten(queries))), size) && total == |Flatten(Flatten(queries))|
  {
    var answers, totals: seq<nat> := [], [];
    ghost var parts: seq<seq<Hit>> := [];
    for i := 0 to |queries|
      invariant Answered(answers, totals, parts, size) && Flatten(parts) == Flatten(Flatten(queries[..i]))
    {
      var found, n := PartialSearch(queries[i], size);
      AnswerOneMore(answers, totals, parts, size, found, Flatten(queries[i]));
      FlattenMore(parts, Flatten(queries[i]));
      FlattenTwiceOneMore(queries, i);
      answers, totals := answers + [found], totals + [n];
      parts := parts + [Flatten(queries[i])];
    }
    assert queries[..|queries|] == queries;
    hits, total := Gather(answers, totals, size);
    MergeIsTop(hits, answers, parts, size);
  }

  lemma SumOneMore(counts: seq<nat>, n: nat)
    ensures SumOf(counts + [n]) == SumOf(counts) + n
  {
    assert (counts + [n])[..|counts|] == counts;
  }

  /** All shards that a search reaches, node by node and index by index. */
  function AllShards(nodes: seq<seq<seq<seq<Hit>>>>): seq<seq<Hit>> {
    Flatten(Flatten(nodes))
  }

  /** The proxy: the answer is the best of all matches in all shards, and the total counts every match. */
  method ExecParallelQueries(nodes: seq<seq<seq<seq<Hit>>>>, size: nat) returns (hits: seq<Hit>, total: nat)
    ensures IsTop(hits, multiset(Flatten(AllShards(nodes))), size) && total == |Flatten(AllShards(nodes))|
  {
    var answers, totals: seq<nat> := [], [];
    ghost var parts: seq<seq<Hit>> := [];
    for i := 0 to |nodes|
      invariant Answered(answers, totals, parts, size) && Flatten(parts) == Flatten(AllShards(nodes[..i]))
    {
      var found, n := InternalUnifiedSearch(nodes[i], size);
      AnswerOneMore(answers, totals, parts, size, found, Flatten(Flatten(nodes[i])));
      FlattenMore(parts, Flatten(Flatten(nodes[i])));
      FlattenTwiceOneMore(nodes, i);
      FlattenConcat(AllShards(nodes[..i]), Flatten(nodes[i]));
      answers, totals := answers + [found], totals + [n];
      parts := parts + [Flatten(Flatten(nodes[i]))];
    }
    assert nodes[..|nodes|] == nodes;
    hits, total := Gather(answers, totals, size);
    MergeIsTop(hits, answers, parts, size);
  }

  /** However the same shards are spread over nodes and indexes, an answer for one spread is one for the other. */
  lemma SpreadDoesNotMatter(nodes: seq<seq<seq<seq<Hit>>>>, others: seq<seq<seq<seq<Hit>>>>, hits: seq<Hit>, size: nat)
    requires multiset(AllShards(nodes)) == multiset(AllShards(others))
    ensures IsTop(hits, multiset(Flatten(AllShards(nodes))), size) <==>
            IsTop(hits, multiset(Flatten(AllShards(others))), size)
    ensures |Flatten(AllShards(nodes))| == |Flatten(AllShards(others))|
  {
    FlattenPermuted(AllShards(nodes), AllShards(others));
    assert |multiset(Flatten(AllShards(nodes)))| == |multiset(Flatten(AllShards(others)))|;
  }
}
