/**
 The flat in-memory cache of a segment: ids in one list, their vectors end to end in
 another, and a map from id to position. Deletion moves the last entry into the hole.
 */
module VectorCache {
  import opened HnswProtocol
  import HnswSafety

  /** Where the i-th vector starts; by recursion, so that no proof depends on products of variables. */
  function Offset(d: nat, i: nat): nat {
    if i == 0 then 0 else Offset(d, i - 1) + d
  }

  lemma {:induction false} OffsetIsProduct(d: nat, i: nat)
    ensures Offset(d, i) == i * d
  {
    if i != 0 { OffsetIsProduct(d, i - 1); }
  }

  lemma {:induction false} SlotBounds(d: nat, i: nat, n: nat)
    requires i < n
    ensures Offset(d, i) <= Offset(d, i + 1) == Offset(d, i) + d <= Offset(d, n)
  {
    if i + 1 < n { SlotBounds(d, i, n - 1); }
  }

  /** The i-th vector of a flat list of n vectors with d numbers each. */
  function Slot(flat: seq<real>, d: nat, n: nat, i: nat): (v: Vec)
    requires |flat| == Offset(d, n) && i < n
    ensures |v| == d
  {
    SlotBounds(d, i, n);
    flat[Offset(d, i)..Offset(d, i + 1)]
  }

  /** The vectors that a flat list stands for. */
  function Unflatten(flat: seq<real>, d: nat, n: nat): (vs: seq<Vec>)
    requires |flat| == Offset(d, n)
    ensures |vs| == n && forall i :: 0 <= i < n ==> |vs[i]| == d
  {
    seq(n, i requires 0 <= i < n => Slot(flat, d, n, i))
  }

  /** Overwrites the i-th vector in place. */
  function Overwrite(flat: seq<real>, d: nat, n: nat, i: nat, v: Vec): (r: seq<real>)
    requires |flat| == Offset(d, n) && i < n && |v| == d
    ensures |r| == Offset(d, n)
  {
    SlotBounds(d, i, n);
    flat[..Offset(d, i)] + v + flat[Offset(d, i + 1)..]
  }

  lemma OverwriteSlot(flat: seq<real>, d: nat, n: nat, i: nat, v: Vec, j: nat)
    requires |flat| == Offset(d, n) && i < n && |v| == d && j < n
    ensures Slot(Overwrite(flat, d, n, i, v), d, n, j) == if i == j then v else Slot(flat, d, n, j)
  {
    SlotBounds(d, i, n);
    SlotBounds(d, j, n);
    if i < j {
      SlotBounds(d, i, j);
    } else if j < i {
      SlotBounds(d, j, i);
    }
  }

  lemma UnflattenOverwrite(flat: seq<real>, d: nat, n: nat, i: nat, v: Vec)
    requires |flat| == Offset(d, n) && i < n && |v| == d
    ensures Unflatten(Overwrite(flat, d, n, i, v), d, n) == Unflatten(flat, d, n)[i := v]
  {
    forall j: nat | j < n { OverwriteSlot(flat, d, n, i, v, j); }
  }

  lemma AppendSlot(flat: seq<real>, d: nat, n: nat, v: Vec, j: nat)
    requires |flat| == Offset(d, n) && |flat + v| == Offset(d, n + 1) && j < n
    ensures Slot(flat + v, d, n + 1, j) == Slot(flat, d, n, j)
  {
    SlotBounds(d, j, n);
  }

  lemma UnflattenAppend(flat: seq<real>, d: nat, n: nat, v: Vec)
    requires |flat| == Offset(d, n) && |v| == d
    ensures |flat + v| == Offset(d, n + 1)
    ensures Unflatten(flat + v, d, n + 1) == Unflatten(flat, d, n) + [v]
  {
    SlotBounds(d, n, n + 1);
    forall j: nat | j < n { AppendSlot(flat, d, n, v, j); }
    assert Slot(flat + v, d, n + 1, n) == v;
  }

  lemma UnflattenCut(flat: seq<real>, d: nat, n: nat)
    requires |flat| == Offset(d, n) && n > 0
    ensures Offset(d, n - 1) <= |flat|
    ensures Unflatten(flat[..Offset(d, n - 1)], d, n - 1) == Unflatten(flat, d, n)[..n - 1]
  {
    SlotBounds(d, n - 1, n);
    forall j: nat | j < n - 1 ensures Slot(flat[..Offset(d, n - 1)], d, n - 1, j) == Slot(flat, d, n, j) {
      SlotBounds(d, j, n - 1);
    }
  }

  /** ids and index are inverse to each other. */
  ghost predicate Inverse(ids: seq<DocId>, index: map<DocId, nat>) {
    && (forall i :: 0 <= i < |ids| ==> ids[i] in index && index[ids[i]] == i)
    && (forall id :: id in index ==> index[id] < |ids| && ids[index[id]] == id)
  }

  ghost function Collect(vs: seq<Vec>, index: map<DocId, nat>): map<DocId, Vec>
    requires forall id :: id in index ==> index[id] < |vs|
  {
    map id | id in index :: vs[index[id]]
  }

  lemma AppendEntry(ids: seq<DocId>, vs: seq<Vec>, index: map<DocId, nat>, id: DocId, v: Vec)
    requires Inverse(ids, index) && |vs| == |ids| && id !in index
    ensures Inverse(ids + [id], index[id := |ids|])
    ensures Collect(vs + [v], index[id := |ids|]) == Collect(vs, index)[id := v]
  {
    var a, b := Collect(vs + [v], index[id := |ids|]), Collect(vs, index)[id := v];
    assert a.Keys == b.Keys;
    forall x | x in a ensures a[x] == b[x] {}
  }

  lemma OverwriteEntry(ids: seq<DocId>, vs: seq<Vec>, index: map<DocId, nat>, id: DocId, v: Vec)
    requires Inverse(ids, index) && |vs| == |ids| && id in index
    ensures Collect(vs[index[id] := v], index) == Collect(vs, index)[id := v]
  {
    var a, b := Collect(vs[index[id] := v], index), Collect(vs, index)[id := v];
    assert a.Keys == b.Keys;
    forall x | x in a ensures a[x] == b[x] {
      assert ids[index[x]] == x;
    }
  }

  /** The id list after the last entry has been moved into the hole at i, when that is another place. */
  function Moved<T>(xs: seq<T>, i: nat): (r: seq<T>)
    requires i < |xs|
    ensures |r| == |xs| && r == xs[i := xs[|xs| - 1]]
  {
    if i != |xs| - 1 then xs[i := xs[|xs| - 1]] else xs
  }

  function MovedIndex(ids: seq<DocId>, index: map<DocId, nat>, i: nat): map<DocId, nat>
    requires i < |ids|
  {
    if i != |ids| - 1 then index[ids[|ids| - 1] := i] else index
  }

  /** Moving the last entry into the hole and cutting the lists removes exactly one id. */
  lemma SwapDeleteIds(ids: seq<DocId>, index: map<DocId, nat>, id: DocId)
    requires Inverse(ids, index) && id in index
    ensures Inverse(Moved(ids, index[id])[..|ids| - 1], MovedIndex(ids, index, index[id]) - {id})
  {
    var i, j := index[id], |ids| - 1;
    var ids', index' := Moved(ids, i)[..j], MovedIndex(ids, index, i) - {id};
    forall m | 0 <= m < |ids'| ensures ids'[m] in index' && index'[ids'[m]] == m {
      assert ids[m] in index && ids[j] in index;
    }
    forall x | x in index' ensures index'[x] < |ids'| && ids'[index'[x]] == x {
      assert x in index && ids[index[x]] == x;
    }
  }

  /** The vectors go with the ids. */
  lemma SwapDeleteVectors(ids: seq<DocId>, vs: seq<Vec>, index: map<DocId, nat>, id: DocId)
    requires Inverse(ids, index) && |vs| == |ids| && id in index
    requires Inverse(Moved(ids, index[id])[..|ids| - 1], MovedIndex(ids, index, index[id]) - {id})
    ensures Collect(vs[index[id] := vs[|vs| - 1]][..|vs| - 1], MovedIndex(ids, index, index[id]) - {id}) ==
            Collect(vs, index) - {id}
  {
    var i, j := index[id], |ids| - 1;
    var index' := MovedIndex(ids, index, i) - {id};
    var a, b := Collect(vs[i := vs[j]][..j], index'), Collect(vs, index) - {id};
    assert ids[j] in index;
    assert a.Keys == b.Keys;
    forall x | x in a ensures a[x] == b[x] {
      assert ids[index[x]] == x;
    }
  }

  lemma OverlayOneMore(logs: map<nat, Row>, ts: map<DocId, nat>, doc: DocId, id: nat)
    requires id in logs && logs[id].doc == doc
    ensures Overlay(logs, ts[doc := id]) == ApplyRow(Overlay(logs, ts), logs[id])
  {
    var a, b := Overlay(logs, ts[doc := id]), ApplyRow(Overlay(logs, ts), logs[id]);
    assert a.Keys == b.Keys;
  }

  function MovedFlat(flat: seq<real>, d: nat, n: nat, i: nat): (r: seq<real>)
    requires |flat| == Offset(d, n) && i < n
    ensures |r| == Offset(d, n)
  {
    if i != n - 1 then Overwrite(flat, d, n, i, Slot(flat, d, n, n - 1)) else flat
  }

  lemma UnflattenMoved(flat: seq<real>, d: nat, n: nat, i: nat)
    requires |flat| == Offset(d, n) && i < n
    ensures Offset(d, n - 1) <= |flat|
    ensures Unflatten(MovedFlat(flat, d, n, i)[..Offset(d, n - 1)], d, n - 1) ==
            Unflatten(flat, d, n)[i := Unflatten(flat, d, n)[n - 1]][..n - 1]
  {
    UnflattenCut(flat, d, n);
    UnflattenCut(MovedFlat(flat, d, n, i), d, n);
    if i != n - 1 {
      UnflattenOverwrite(flat, d, n, i, Slot(flat, d, n, n - 1));
    }
  }

  lemma SwapDeleteFlat(ids: seq<DocId>, flat: seq<real>, d: nat, index: map<DocId, nat>, id: DocId)
    requires Inverse(ids, index) && |flat| == Offset(d, |ids|) && id in index
    requires Inverse(Moved(ids, index[id])[..|ids| - 1], MovedIndex(ids, index, index[id]) - {id})
    ensures var i, j := index[id], |ids| - 1;
            && Offset(d, j) <= |flat|
            && Collect(Unflatten(MovedFlat(flat, d, |ids|, i)[..Offset(d, j)], d, j),
                       MovedIndex(ids, index, i) - {id}) ==
               Collect(Unflatten(flat, d, |ids|), index) - {id}
  {
    UnflattenMoved(flat, d, |ids|, index[id]);
    SwapDeleteVectors(ids, Unflatten(flat, d, |ids|), index, id);
  }

  /** The part of a map that the first n steps of an iteration have visited. */
  ghost function Visited(m: map<DocId, nat>, order: seq<DocId>, n: nat): (r: map<DocId, nat>)
    requires n <= |order| && forall doc :: doc in order ==> doc in m
    ensures forall doc :: doc in r <==> doc in order[..n]
    ensures forall doc :: doc in r ==> doc in m && r[doc] == m[doc]
  {
    if n == 0 then map[]
    else
      assert order[..n] == order[..n - 1] + [order[n - 1]];
      Visited(m, order, n - 1)[order[n - 1] := m[order[n - 1]]]
  }

  lemma VisitedAll(m: map<DocId, nat>, order: seq<DocId>)
    requires forall doc :: doc in m <==> doc in order
    ensures Visited(m, order, |order|) == m
  {
    var all := Visited(m, order, |order|);
    assert order[..|order|] == order;
    forall doc ensures doc in all <==> doc in m {}
    assert all.Keys == m.Keys;
  }

  lemma OverlayNothing(logs: map<nat, Row>)
    ensures Overlay(logs, map[]) == map[]
  {
    assert Overlay(logs, map[]).Keys == {};
  }

  function Zip(ids: seq<DocId>, vectors: seq<Vec>): (adds: seq<(DocId, Vec)>)
    requires |ids| == |vectors|
    ensures |adds| == |ids|
  {
    seq(|ids|, i requires 0 <= i < |ids| => (ids[i], vectors[i]))
  }

  lemma AddedRow(dels: seq<DocId>, adds: seq<DocId>, vectors: seq<Vec>, i: nat)
    requires |adds| == |vectors| && i < |adds|
    ensures var ops := Ops(Request(dels, Zip(adds, vectors)));
            |ops| == |dels| + |adds| && ops[|dels| + i] == Row(adds[i], Put(vectors[i]))
  {
    assert PutRows(Zip(adds, vectors))[i] == Row(adds[i], Put(vectors[i]));
  }

  lemma AllOfIt(rows: seq<Row>)
    ensures rows[..0] == [] && rows[..|rows|] == rows
  {
  }

  lemma ApplyOneRow(m: map<DocId, Vec>, rows: seq<Row>, i: nat)
    requires i < |rows|
    ensures ApplyRows(m, rows[..i + 1]) == ApplyRow(ApplyRows(m, rows[..i]), rows[i])
  {
    assert rows[..i + 1][..|rows[..i + 1]| - 1] == rows[..i];
  }

  lemma OverwriteFlat(ids: seq<DocId>, flat: seq<real>, d: nat, index: map<DocId, nat>, id: DocId, v: Vec)
    requires Inverse(ids, index) && |flat| == Offset(d, |ids|) && id in index && |v| == d
    ensures Collect(Unflatten(Overwrite(flat, d, |ids|, index[id], v), d, |ids|), index) ==
            Collect(Unflatten(flat, d, |ids|), index)[id := v]
  {
    UnflattenOverwrite(flat, d, |ids|, index[id], v);
    OverwriteEntry(ids, Unflatten(flat, d, |ids|), index, id, v);
  }

  lemma AppendFlat(ids: seq<DocId>, flat: seq<real>, d: nat, index: map<DocId, nat>, id: DocId, v: Vec)
    requires Inverse(ids, index) && |flat| == Offset(d, |ids|) && id !in index && |v| == d
    ensures |flat + v| == Offset(d, |ids| + 1) && Inverse(ids + [id], index[id := |ids|])
    ensures Collect(Unflatten(flat + v, d, |ids| + 1), index[id := |ids|]) ==
            Collect(Unflatten(flat, d, |ids|), index)[id := v]
  {
    UnflattenAppend(flat, d, |ids|, v);
    AppendEntry(ids, Unflatten(flat, d, |ids|), index, id, v);
  }

  /** Fills the hole at i with the last entry, if that is another one, and drops the last place of the lists. */
  method MoveLast(ids: seq<DocId>, flat: seq<real>, d: nat, index: map<DocId, nat>, id: DocId, i: nat)
    returns (ids': seq<DocId>, flat': seq<real>, index': map<DocId, nat>)
    requires i < |ids| && |flat| == Offset(d, |ids|) && Offset(d, |ids| - 1) <= |flat|
    ensures ids' == Moved(ids, i)[..|ids| - 1] && index' == MovedIndex(ids, index, i) - {id}
    ensures flat' == MovedFlat(flat, d, |ids|, i)[..Offset(d, |ids| - 1)]
  {
    var j := |ids| - 1;
    ids', flat', index' := ids, flat, index;
    if i != j {
      flat' := Overwrite(flat, d, j + 1, i, Slot(flat, d, j + 1, j));
      ids' := ids[i := ids[j]];
      index' := index[ids[j] := i];
    }
    ids' := ids'[..j];
    flat' := flat'[..Offset(d, j)];
    index' := index' - {id};
  }

  /** The lists after a deletion stand for the map without the id. */
  method SwapDelete(ids: seq<DocId>, flat: seq<real>, d: nat, index: map<DocId, nat>, id: DocId)
    returns (ids': seq<DocId>, flat': seq<real>, index': map<DocId, nat>)
    requires Inverse(ids, index) && |flat| == Offset(d, |ids|) && id in index
    ensures |flat'| == Offset(d, |ids'|) && Inverse(ids', index')
    ensures Collect(Unflatten(flat', d, |ids'|), index') == Collect(Unflatten(flat, d, |ids|), index) - {id}
  {
    SwapDeleteIds(ids, index, id);
    SwapDeleteFlat(ids, flat, d, index, id);
    ids', flat', index' := MoveLast(ids, flat, d, index, id, index[id]);
  }

  class Cache {
    const dims: nat
    var docIDs: seq<DocId>
    var docVectors: seq<real>
    var docIDIndex: map<DocId, nat>

    /** The map that the three lists stand for. */
    ghost var Contents: map<DocId, Vec>

    ghost predicate Valid()
      reads this
    {
      && |docVectors| == Offset(dims, |docIDs|)
      && Inverse(docIDs, docIDIndex)
      && Contents == Collect(Unflatten(docVectors, dims, |docIDs|), docIDIndex)
    }

    constructor (dims: nat)
      ensures Valid() && this.dims == dims && Contents == map[]
    {
      this.dims := dims;
      docIDs, docVectors, docIDIndex := [], [], map[];
      Contents := map[];
    }

    method Update(id: DocId, v: Vec)
      requires Valid() && |v| == dims
      modifies this
      ensures Valid() && Contents == old(Contents)[id := v]
    {
      if id in docIDIndex {
        Replace(id, v);
      } else {
        Append(id, v);
      }
    }

    method Replace(id: DocId, v: Vec)
      requires Valid() && |v| == dims && id in docIDIndex
      modifies `docVectors, `Contents
      ensures Valid() && Contents == old(Contents)[id := v]
    {
      var i := docIDIndex[id];
      OverwriteFlat(docIDs, docVectors, dims, docIDIndex, id, v);
      docVectors := Overwrite(docVectors, dims, |docIDs|, i, v);
      Contents := Contents[id := v];
    }

    method Append(id: DocId, v: Vec)
      requires Valid() && |v| == dims && id !in docIDIndex
      modifies this
      ensures Valid() && Contents == old(Contents)[id := v]
    {
      AppendFlat(docIDs, docVectors, dims, docIDIndex, id, v);
      docIDs := docIDs + [id];
      docVectors := docVectors + v;
      docIDIndex := docIDIndex[id := |docIDs| - 1];
      Contents := Contents[id := v];
    }

    method Delete(id: DocId)
      requires Valid()
      modifies this
      ensures Valid() && Contents == old(Contents) - {id}
    {
      Contents := Contents - {id};
      if id in docIDIndex {
        docIDs, docVectors, docIDIndex := SwapDelete(docIDs, docVectors, dims, docIDIndex, id);
      }
    }

    /** Applies one log row to the cache. */
    method Apply(row: Row)
      requires Valid() && (row.change.Put? ==> |row.change.vec| == dims)
      modifies this
      ensures Valid() && Contents == ApplyRow(old(Contents), row)
    {
      match row.change {
        case Drop => Delete(row.doc);
        case Put(vec) => Update(row.doc, vec);
      }
    }

    method ApplyOneMore(logs: map<nat, Row>, ghost done: map<DocId, nat>, doc: DocId, id: nat)
      requires Valid() && Contents == Overlay(logs, done) && id in logs && logs[id].doc == doc
      requires logs[id].change.Put? ==> |logs[id].change.vec| == dims
      modifies this
      ensures Valid() && Contents == Overlay(logs, done[doc := id])
    {
      OverlayOneMore(logs, done, doc, id);
      Apply(logs[id]);
    }

    /** Applies the selected row of every document; `order` is the order in which map iteration visits them. */
    method Restore(logs: map<nat, Row>, newest: map<DocId, nat>, order: seq<DocId>)
      requires Valid() && Contents == map[]
      requires forall doc :: doc in newest <==> doc in order
      requires forall doc :: doc in newest ==> newest[doc] in logs && logs[newest[doc]].doc == doc
      requires forall id :: id in logs && logs[id].change.Put? ==> |logs[id].change.vec| == dims
      modifies this
      ensures Valid() && Contents == Overlay(logs, newest)
    {
      OverlayNothing(logs);
      VisitedAll(newest, order);
      for i := 0 to |order|
        invariant Valid() && Contents == Overlay(logs, Visited(newest, order, i))
      {
        assert order[i] in order;
        ApplyOneMore(logs, Visited(newest, order, i), order[i], newest[order[i]]);
      }
    }

    method DeleteAll(dels: seq<DocId>)
      requires Valid()
      modifies this
      ensures Valid() && Contents == ApplyRows(old(Contents), DropRows(dels))
    {
      ghost var was := Contents;
      AllOfIt(DropRows(dels));
      for i := 0 to |dels|
        invariant Valid() && Contents == ApplyRows(was, DropRows(dels)[..i])
      {
        ApplyOneRow(was, DropRows(dels), i);
        Delete(dels[i]);
      }
    }

    method UpdateAll(adds: seq<DocId>, vectors: seq<Vec>)
      requires Valid() && |adds| == |vectors| && forall v :: v in vectors ==> |v| == dims
      modifies this
      ensures Valid() && Contents == ApplyRows(old(Contents), PutRows(Zip(adds, vectors)))
    {
      ghost var was, rows := Contents, PutRows(Zip(adds, vectors));
      AllOfIt(rows);
      for i := 0 to |adds|
        invariant Valid() && Contents == ApplyRows(was, rows[..i])
      {
        ApplyOneRow(was, rows, i);
        assert vectors[i] in vectors;
        Update(adds[i], vectors[i]);
      }
    }

    /** The cache part of Batch: delete every deleted id, then update every added one. */
    method ApplyBatch(dels: seq<DocId>, adds: seq<DocId>, vectors: seq<Vec>)
      requires Valid() && |adds| == |vectors| && forall v :: v in vectors ==> |v| == dims
      modifies this
      ensures Valid() && Contents == ApplyRows(old(Contents), Ops(Request(dels, Zip(adds, vectors))))
    {
      HnswSafety.ApplyRowsConcat(Contents, DropRows(dels), PutRows(Zip(adds, vectors)));
      DeleteAll(dels);
      UpdateAll(adds, vectors);
    }
  }
}
