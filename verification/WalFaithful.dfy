/**
 What a merged write makes of every document. The entries of a batch were logged while their document
 was either not visible or in the shard its home names; whether it is visible when the batch is written
 is another matter. Groups are written in any order. The result is as if the requested operations had
 been applied one at a time, in every order, exactly if no document is mishandled; none is if every
 entry was logged against the documents that the batch finds.
 */
module WalFaithful {
  import opened Wrappers
  import opened Sequences
  import opened WalMerge

  // ------------------------------------------------------------- one document, one group

  /** What the group of a numbered shard has on a document. */
  ghost predicate Kept(doc: WalDoc, kinds: map<Field, Kind>) {
    && doc.actions != [] && (forall a :: a in doc.actions ==> Marks(a))
    && Full(Outcome(doc), kinds)
  }

  /** What the group of the latest shard has on a document. */
  ghost predicate Late(doc: WalDoc, kinds: map<Field, Kind>) {
    && doc.actions != []
    && (forall a :: a in doc.actions ==> !Marks(a) && (a.DeleteVecOnly? ==> kinds != map[]))
    && Full(Outcome(doc), kinds)
  }

  /** Updates and deletions replace whatever is there. */
  lemma WriteKept(slice: Slice, kinds: map<Field, Kind>, n: nat, doc: WalDoc)
    requires slice.vec.Keys == kinds.Keys && n < |slice.text| && Kept(doc, kinds)
    ensures var r := WriteDoc(slice, kinds, n, doc);
            && r.text == slice.text[n := if Outcome(doc).Some? then [doc.data.text] else []]
            && r.vec == Single(Outcome(doc), n, |slice.text|, kinds).vec
  {
    assert doc.actions[0] in doc.actions && doc.actions[|doc.actions| - 1] in doc.actions;
  }

  /** Inserts add to what is there, unless a delete_vec_only came first; a final delete_vec_only leaves the text. */
  lemma WriteLate(slice: Slice, kinds: map<Field, Kind>, t: nat, doc: WalDoc)
    requires slice.vec.Keys == kinds.Keys && t < |slice.text| && Late(doc, kinds)
    ensures var r := WriteDoc(slice, kinds, t, doc);
            if Outcome(doc).None? then r.text == slice.text && forall f :: f in kinds ==> r.vec[f] == []
            else if doc.actions[0].Insert? then
              && r.text == slice.text[t := slice.text[t] + [doc.data.text]]
              && forall f :: f in kinds ==> r.vec[f] == PutRow(kinds[f], slice.vec[f], doc.data.vecs[f])
            else
              && r.text == slice.text[t := [doc.data.text]]
              && forall f :: f in kinds ==> r.vec[f] == [doc.data.vecs[f]]
  {
    assert doc.actions[0] in doc.actions && doc.actions[|doc.actions| - 1] in doc.actions;
  }

  lemma OnlyKept(kinds: map<Field, Kind>, shards: nat, prior: Option<Data>, n: nat, kept: WalDoc)
    requires n < shards && Kept(kept, kinds)
    ensures WriteDoc(Single(prior, n, shards, kinds), kinds, n, kept) == Single(Outcome(kept), n, shards, kinds)
  {
    var s := Single(prior, n, shards, kinds);
    WriteKept(s, kinds, n, kept);
    assert WriteDoc(s, kinds, n, kept).text == Single(Outcome(kept), n, shards, kinds).text;
  }

  lemma Singles(slice: Slice, data: Option<Data>, kinds: map<Field, Kind>)
    requires AsRequested(slice, data, kinds)
    ensures forall m :: 0 <= m < |slice.text| ==>
              slice.text[m] == [] || (data.Some? && slice.text[m] == [data.value.text])
    ensures forall m, k :: 0 <= m < k < |slice.text| ==> slice.text[m] == [] || slice.text[k] == []
    ensures data.Some? ==> exists m :: 0 <= m < |slice.text| && slice.text[m] != []
    ensures data.None? ==> forall f :: f in kinds ==> slice.vec[f] == []
    ensures Full(data, kinds) && data.Some? ==> forall f :: f in kinds ==> slice.vec[f] == [data.value.vecs[f]]
  {
    var n: nat :| HeldAt(slice, data, kinds, n);
    if data.Some? { assert slice.text[n] != []; }
  }

  lemma IsSingle(slice: Slice, data: Option<Data>, n: nat, kinds: map<Field, Kind>)
    requires n < |slice.text| && slice.vec.Keys == kinds.Keys && Full(data, kinds)
    requires forall m :: 0 <= m < |slice.text| ==>
               slice.text[m] == if data.Some? && m == n then [data.value.text] else []
    requires forall f :: f in kinds ==> slice.vec[f] == if data.Some? then [data.value.vecs[f]] else []
    ensures HeldAt(slice, data, kinds, n)
  {
    assert slice.text == Single(data, n, |slice.text|, kinds).text;
    assert slice.vec == Single(data, n, |slice.text|, kinds).vec;
  }

  /** A document that only the latest group writes. */
  lemma OnlyLate(kinds: map<Field, Kind>, shards: nat, prior: Option<Data>, n: nat, late: WalDoc)
    requires n < shards && Late(late, kinds) && Full(prior, kinds)
    ensures var r := WriteDoc(Single(prior, n, shards, kinds), kinds, shards - 1, late);
            AsRequested(r, Outcome(late), kinds) <==>
            prior.None? || (n == shards - 1 && !late.actions[0].Insert? && Outcome(late).Some?)
  {
    var s := Single(prior, n, shards, kinds);
    var r := WriteDoc(s, kinds, shards - 1, late);
    WriteLate(s, kinds, shards - 1, late);
    if prior.None? || (n == shards - 1 && !late.actions[0].Insert? && Outcome(late).Some?) {
      IsSingle(r, Outcome(late), shards - 1, kinds);
    } else {
      assert s.text[n] == [prior.value.text];
      assert r.text[n] != [] && (n == shards - 1 && Outcome(late).Some? ==> |r.text[n]| == 2);
      assert n != shards - 1 && Outcome(late).Some? ==> r.text[shards - 1] != [];
      if AsRequested(r, Outcome(late), kinds) {
        Singles(r, Outcome(late), kinds);
        assert false;
      }
    }
  }

  // ------------------------------------------------------------- one document, two groups

  function KeptFirst(s: Slice, kinds: map<Field, Kind>, n: nat, kept: WalDoc, late: WalDoc): Slice
    requires s.vec.Keys == kinds.Keys && n < |s.text| && kept.actions != [] && late.actions != []
  {
    WriteDoc(WriteDoc(s, kinds, n, kept), kinds, |s.text| - 1, late)
  }

  function LateFirst(s: Slice, kinds: map<Field, Kind>, n: nat, kept: WalDoc, late: WalDoc): Slice
    requires s.vec.Keys == kinds.Keys && n < |s.text| && kept.actions != [] && late.actions != []
  {
    WriteDoc(WriteDoc(s, kinds, |s.text| - 1, late), kinds, n, kept)
  }

  /**
   Both groups write the document and it comes out right in either order: both remove it, or both set it
   to the same content in the latest shard without inserting, or the numbered shard is an older one that
   loses it, there are no vectors to lose, and setting it was asked for last.
   */
  ghost predicate Agree(kept: WalDoc, late: WalDoc, n: nat, shards: nat, kinds: map<Field, Kind>, wanted: Option<Data>)
    requires kept.actions != [] && late.actions != []
  {
    || (Outcome(kept).None? && Outcome(late).None?)
    || (Outcome(kept).Some? && Outcome(late) == Outcome(kept) && n == shards - 1 && !late.actions[0].Insert?)
    || (Outcome(kept).None? && Outcome(late).Some? && n != shards - 1 && kinds == map[] && wanted.Some?)
  }

  /** No shard but n holds copies. */
  ghost predicate OnlyIn(s: Slice, n: nat) {
    n < |s.text| && forall m :: 0 <= m < |s.text| && m != n ==> s.text[m] == []
  }

  /** What the two orders leave, when the latest group sets the document. */
  lemma BothSet(s: Slice, kinds: map<Field, Kind>, n: nat, kept: WalDoc, late: WalDoc)
    requires s.vec.Keys == kinds.Keys && OnlyIn(s, n) && Kept(kept, kinds) && Late(late, kinds) && Outcome(late).Some?
    ensures var a, b, l := KeptFirst(s, kinds, n, kept, late), LateFirst(s, kinds, n, kept, late), |s.text| - 1;
            && (forall m :: 0 <= m < |s.text| && m != n && m != l ==> a.text[m] == b.text[m] == [])
            && b.text[n] == (if Outcome(kept).Some? then [kept.data.text] else [])
            && (n != l ==> a.text[n] == b.text[n] && a.text[l] == b.text[l] == [late.data.text])
            && (n == l ==>
                  a.text[l] == if late.actions[0].Insert? then b.text[n] + [late.data.text] else [late.data.text])
            && (forall f :: f in kinds ==> b.vec[f] == if Outcome(kept).Some? then [kept.data.vecs[f]] else [])
            && (forall f :: f in kinds && (Outcome(kept).None? || !late.actions[0].Insert?) ==>
                  a.vec[f] == [late.data.vecs[f]])
  {
    var l := |s.text| - 1;
    WriteKept(s, kinds, n, kept);
    WriteLate(s, kinds, l, late);
    WriteLate(WriteDoc(s, kinds, n, kept), kinds, l, late);
    WriteKept(WriteDoc(s, kinds, l, late), kinds, n, kept);
  }

  /** The same, when the latest group removes it. */
  lemma LateRemoves(s: Slice, kinds: map<Field, Kind>, n: nat, kept: WalDoc, late: WalDoc)
    requires s.vec.Keys == kinds.Keys && OnlyIn(s, n) && Kept(kept, kinds) && Late(late, kinds) && Outcome(late).None?
    ensures var a, b := KeptFirst(s, kinds, n, kept, late), LateFirst(s, kinds, n, kept, late);
            && a.text == b.text == Single(Outcome(kept), n, |s.text|, kinds).text
            && (forall f :: f in kinds ==> a.vec[f] == [])
            && (forall f :: f in kinds ==> b.vec[f] == if Outcome(kept).Some? then [kept.data.vecs[f]] else [])
    ensures kinds != map[]
  {
    var l := |s.text| - 1;
    WriteKept(s, kinds, n, kept);
    WriteLate(s, kinds, l, late);
    WriteLate(WriteDoc(s, kinds, n, kept), kinds, l, late);
    WriteKept(WriteDoc(s, kinds, l, late), kinds, n, kept);
    assert late.actions[|late.actions| - 1] in late.actions;
    assert WriteDoc(s, kinds, n, kept).text == Single(Outcome(kept), n, |s.text|, kinds).text;
  }

  ghost predicate EitherWay(s: Slice, kinds: map<Field, Kind>, n: nat, kept: WalDoc, late: WalDoc, wanted: Option<Data>)
    requires s.vec.Keys == kinds.Keys && n < |s.text| && kept.actions != [] && late.actions != []
  {
    && AsRequested(KeptFirst(s, kinds, n, kept, late), wanted, kinds)
    && AsRequested(LateFirst(s, kinds, n, kept, late), wanted, kinds)
  }

  lemma AgreeingIsRight(s: Slice, kinds: map<Field, Kind>, prior: Option<Data>, n: nat, kept: WalDoc, late: WalDoc,
                        wanted: Option<Data>)
    requires n < |s.text| && s == Single(prior, n, |s.text|, kinds) && Full(prior, kinds)
    requires Kept(kept, kinds) && Late(late, kinds) && (wanted == Outcome(kept) || wanted == Outcome(late))
    requires Agree(kept, late, n, |s.text|, kinds, wanted)
    ensures EitherWay(s, kinds, n, kept, late, wanted)
  {
    var a, b := KeptFirst(s, kinds, n, kept, late), LateFirst(s, kinds, n, kept, late);
    if Outcome(late).None? {
      LateRemoves(s, kinds, n, kept, late);
      IsSingle(a, wanted, n, kinds);
      IsSingle(b, wanted, n, kinds);
    } else {
      BothSet(s, kinds, n, kept, late);
      IsSingle(a, wanted, |s.text| - 1, kinds);
      IsSingle(b, wanted, |s.text| - 1, kinds);
    }
  }

  lemma RightIsAgreeing(s: Slice, kinds: map<Field, Kind>, prior: Option<Data>, n: nat, kept: WalDoc, late: WalDoc,
                        wanted: Option<Data>)
    requires n < |s.text| && s == Single(prior, n, |s.text|, kinds) && Full(prior, kinds)
    requires Kept(kept, kinds) && Late(late, kinds) && (wanted == Outcome(kept) || wanted == Outcome(late))
    requires EitherWay(s, kinds, n, kept, late, wanted)
    ensures Agree(kept, late, n, |s.text|, kinds, wanted)
  {
    var a, b, l := KeptFirst(s, kinds, n, kept, late), LateFirst(s, kinds, n, kept, late), |s.text| - 1;
    Singles(a, wanted, kinds);
    Singles(b, wanted, kinds);
    if Outcome(late).None? {
      LateRemoves(s, kinds, n, kept, late);
      assert exists f :: f in kinds;
    } else {
      BothSet(s, kinds, n, kept, late);
      assert n == l ==> |a.text[l]| <= 1;
      if Outcome(kept).Some? {
        SameContent(kept.data, late.data, kinds);
      } else {
        assert kinds != map[] ==> exists f :: f in kinds;
      }
    }
  }

  lemma SameContent(a: Data, b: Data, kinds: map<Field, Kind>)
    requires a.vecs.Keys == b.vecs.Keys == kinds.Keys
    ensures a.text == b.text && (forall f :: f in kinds ==> a.vecs[f] == b.vecs[f]) ==> a == b
  {
    if forall f :: f in kinds ==> a.vecs[f] == b.vecs[f] {
      assert a.vecs == b.vecs;
    }
  }

  // ---------------------------------------------------------------------- orders of groups

  lemma {:induction false} WriteConcat(slice: Slice, kinds: map<Field, Kind>, w: MergeDocs, p: seq<ShardRef>,
                                       q: seq<ShardRef>, id: Id)
    requires slice.vec.Keys == kinds.Keys
    ensures WriteGroups(slice, kinds, w, p + q, id) == WriteGroups(WriteGroups(slice, kinds, w, p, id), kinds, w, q, id)
    decreases |q|
  {
    if q == [] {
      assert p + q == p;
    } else {
      var k := |q| - 1;
      assert p + q == (p + q[..k]) + [q[k]] && q == q[..k] + [q[k]];
      WriteConcat(slice, kinds, w, p, q[..k], id);
      WriteOneMore(slice, kinds, w, p + q[..k], q[k], id);
    }
  }

  /** Groups without the document leave it alone. */
  lemma {:induction false} PassBy(slice: Slice, kinds: map<Field, Kind>, w: MergeDocs, q: seq<ShardRef>, id: Id)
    requires slice.vec.Keys == kinds.Keys && forall g :: g in q ==> !Touches(w, g, id, |slice.text|)
    ensures WriteGroups(slice, kinds, w, q, id) == slice
    decreases |q|
  {
    if q != [] {
      PassBy(slice, kinds, w, q[..|q| - 1], id);
    }
  }

  lemma OneGroup(slice: Slice, kinds: map<Field, Kind>, w: MergeDocs, order: seq<ShardRef>, id: Id, g: ShardRef)
    requires slice.vec.Keys == kinds.Keys && NoDup(order) && g in order
    requires forall h :: h in order && h != g ==> !Touches(w, h, id, |slice.text|)
    ensures WriteGroups(slice, kinds, w, order, id) == WriteGroup(slice, kinds, w, g, id)
  {
    var i :| 0 <= i < |order| && order[i] == g;
    var p, q := order[..i], order[i + 1..];
    assert order == p + [g] + q;
    PassBy(slice, kinds, w, p, id);
    WriteOneMore(slice, kinds, w, p, g, id);
    WriteConcat(slice, kinds, w, p + [g], q, id);
    PassBy(WriteGroup(slice, kinds, w, g, id), kinds, w, q, id);
  }

  /** Only these two groups may write the document. */
  ghost predicate OnlyThese(w: MergeDocs, order: seq<ShardRef>, id: Id, shards: nat, g: ShardRef, h: ShardRef) {
    forall k :: k in order && k != g && k != h ==> !Touches(w, k, id, shards)
  }

  lemma TwoGroups(slice: Slice, kinds: map<Field, Kind>, w: MergeDocs, order: seq<ShardRef>, id: Id, g: ShardRef,
                  h: ShardRef, i: nat, j: nat)
    requires slice.vec.Keys == kinds.Keys && NoDup(order) && OnlyThese(w, order, id, |slice.text|, g, h)
    requires i < j < |order| && order[i] == g && order[j] == h
    ensures WriteGroups(slice, kinds, w, order, id) ==
            WriteGroup(WriteGroup(slice, kinds, w, g, id), kinds, w, h, id)
  {
    var p, q := order[..i + 1], order[i + 1..];
    assert order == p + q;
    assert p[i] == g && q[j - i - 1] == h;
    WriteConcat(slice, kinds, w, p, q, id);
    OneGroup(slice, kinds, w, p, id, g);
    OneGroup(WriteGroup(slice, kinds, w, g, id), kinds, w, q, id, h);
  }

  lemma {:induction false} SomeOrder(groups: set<ShardRef>) returns (order: seq<ShardRef>)
    ensures NoDup(order) && forall g :: g in order <==> g in groups
    decreases |groups|
  {
    order := [];
    if groups != {} {
      var g :| g in groups;
      order := SomeOrder(groups - {g});
      order := order + [g];
    }
  }

  /** Any two groups can come first. */
  lemma OrderWith(w: MergeDocs, g: ShardRef, h: ShardRef) returns (order: seq<ShardRef>)
    requires g in w && h in w && g != h
    ensures IsOrder(order, w) && |order| >= 2 && order[0] == g && order[1] == h
  {
    var rest := SomeOrder(w.Keys - {g, h});
    order := [g, h] + rest;
  }

  // ------------------------------------------------------------------------ every document

  function DocIn(w: MergeDocs, g: ShardRef, id: Id): Option<WalDoc> {
    if g in w && id in w[g] then Some(w[g][id]) else None
  }

  /**
   The documents that a merged write gets wrong in some order of its groups, where `docs` are the ones it
   finds. A document that only the latest group writes, and that is there already, is wrong unless it is
   in the latest shard, is not inserted first and is set last. One that both its groups write is wrong
   unless they agree.
   */
  ghost predicate Mishandled(w: MergeDocs, docs: map<Id, Data>, home: map<Id, nat>, shards: nat,
                             kinds: map<Field, Kind>, wanted: map<Id, Data>, id: Id)
  {
    var n := HomeOf(home, id);
    var kept, late := DocIn(w, Second(n), id), DocIn(w, Latest, id);
    && late.Some? && late.value.actions != []
    && if kept.None? || kept.value.actions == [] then
         id in docs && !(n == shards - 1 && !late.value.actions[0].Insert? && Outcome(late.value).Some?)
       else
         !Agree(kept.value, late.value, n, shards, kinds, Lookup(wanted, id))
  }

  /** What the batch may do: its entries fit the homes, and its groups are those merged from them. */
  ghost predicate Writable(w: MergeDocs, docs: map<Id, Data>, home: map<Id, nat>, shards: nat, kinds: map<Field, Kind>,
                           wanted: map<Id, Data>)
  {
    && shards > 0 && (forall id :: id in home ==> home[id] < shards)
    && (forall id :: id in docs ==> id in home && docs[id].vecs.Keys == kinds.Keys)
    && Tracks(w, home, kinds, docs, wanted)
  }

  /** The document, in this order of groups. */
  ghost predicate RightIn(w: MergeDocs, docs: map<Id, Data>, home: map<Id, nat>, shards: nat, kinds: map<Field, Kind>,
                          wanted: map<Id, Data>, order: seq<ShardRef>, id: Id)
  {
    AsRequested(WriteGroups(Single(Lookup(docs, id), HomeOf(home, id), shards, kinds), kinds, w, order, id),
                Lookup(wanted, id), kinds)
  }

  /** A document is in no group but those of the latest shard and of its home. */
  lemma GroupsOf(w: MergeDocs, docs: map<Id, Data>, home: map<Id, nat>, shards: nat, kinds: map<Field, Kind>,
                 wanted: map<Id, Data>, id: Id, g: ShardRef)
    requires Writable(w, docs, home, shards, kinds, wanted) && g in w && id in w[g]
    ensures g == Latest || (g == Second(HomeOf(home, id)) && id in home)
    ensures if g.Latest? then Late(w[g][id], kinds) else Kept(w[g][id], kinds)
    ensures Touches(w, g, id, shards)
  {
    assert Tracked(g, id, w[g][id], home, kinds);
  }

  lemma OneAsks(w: MergeDocs, docs: map<Id, Data>, home: map<Id, nat>, shards: nat, kinds: map<Field, Kind>,
                wanted: map<Id, Data>, id: Id)
    requires Writable(w, docs, home, shards, kinds, wanted)
    ensures var kept, late := DocIn(w, Second(HomeOf(home, id)), id), DocIn(w, Latest, id);
            && (kept.Some? ==> Kept(kept.value, kinds) && id in home) && (late.Some? ==> Late(late.value, kinds))
            && (kept.None? && late.None? ==> Lookup(wanted, id) == Lookup(docs, id))
            && (kept.Some? || late.Some? ==>
                  || (kept.Some? && Lookup(wanted, id) == Outcome(kept.value))
                  || (late.Some? && Lookup(wanted, id) == Outcome(late.value)))
  {
    var n := HomeOf(home, id);
    if Second(n) in w && id in w[Second(n)] { GroupsOf(w, docs, home, shards, kinds, wanted, id, Second(n)); }
    if Latest in w && id in w[Latest] { GroupsOf(w, docs, home, shards, kinds, wanted, id, Latest); }
    if InGroups(w, id) {
      var g :| g in w && id in w[g] && w[g][id].actions != [] && Outcome(w[g][id]) == Lookup(wanted, id);
      GroupsOf(w, docs, home, shards, kinds, wanted, id, g);
    }
  }

  lemma AbsentAnywhere(n: nat, m: nat, shards: nat, kinds: map<Field, Kind>)
    ensures Single(None, n, shards, kinds) == Single(None, m, shards, kinds)
  {
    assert Single(None, n, shards, kinds).text == Single(None, m, shards, kinds).text;
  }

  /** A new document that only the latest group writes. */
  lemma OnlyLateNew(kinds: map<Field, Kind>, shards: nat, n: nat, late: WalDoc)
    requires shards > 0 && Late(late, kinds)
    ensures WriteDoc(Single(None, n, shards, kinds), kinds, shards - 1, late) ==
            Single(Outcome(late), shards - 1, shards, kinds)
  {
    var s := Single(None, n, shards, kinds);
    WriteLate(s, kinds, shards - 1, late);
    IsSingle(WriteDoc(s, kinds, shards - 1, late), Outcome(late), shards - 1, kinds);
  }

  /** A document in at most one group, whatever the order. */
  lemma InOneGroup(w: MergeDocs, docs: map<Id, Data>, home: map<Id, nat>, shards: nat, kinds: map<Field, Kind>,
                   wanted: map<Id, Data>, order: seq<ShardRef>, id: Id)
    requires Writable(w, docs, home, shards, kinds, wanted) && IsOrder(order, w)
    requires DocIn(w, Second(HomeOf(home, id)), id).None? || DocIn(w, Latest, id).None?
    ensures var n, prior := HomeOf(home, id), Lookup(docs, id);
            var kept, late := DocIn(w, Second(n), id), DocIn(w, Latest, id);
            var s := Single(prior, n, shards, kinds);
            WriteGroups(s, kinds, w, order, id) ==
            if late.Some? && late.value.actions != [] then WriteDoc(s, kinds, shards - 1, late.value)
            else Single(Lookup(wanted, id), n, shards, kinds)
  {
    var n, s := HomeOf(home, id), Single(Lookup(docs, id), HomeOf(home, id), shards, kinds);
    forall g | g in order && Touches(w, g, id, shards) ensures g == Latest || g == Second(n) {
      GroupsOf(w, docs, home, shards, kinds, wanted, id, g);
    }
    OneAsks(w, docs, home, shards, kinds, wanted, id);
    if DocIn(w, Latest, id).Some? {
      OneGroup(s, kinds, w, order, id, Latest);
    } else if DocIn(w, Second(n), id).Some? {
      OneGroup(s, kinds, w, order, id, Second(n));
      OnlyKept(kinds, shards, Lookup(docs, id), n, w[Second(n)][id]);
    } else {
      PassBy(s, kinds, w, order, id);
    }
  }

  lemma TheseGroups(w: MergeDocs, docs: map<Id, Data>, home: map<Id, nat>, shards: nat, kinds: map<Field, Kind>,
                    wanted: map<Id, Data>, order: seq<ShardRef>, id: Id)
    requires Writable(w, docs, home, shards, kinds, wanted)
    ensures OnlyThese(w, order, id, shards, Latest, Second(HomeOf(home, id)))
    ensures OnlyThese(w, order, id, shards, Second(HomeOf(home, id)), Latest)
  {
    forall g | g in order && Touches(w, g, id, shards) ensures g == Latest || g == Second(HomeOf(home, id)) {
      GroupsOf(w, docs, home, shards, kinds, wanted, id, g);
    }
  }

  lemma BothWrite(w: MergeDocs, s: Slice, kinds: map<Field, Kind>, n: nat, id: Id)
    requires s.vec.Keys == kinds.Keys && Touches(w, Latest, id, |s.text|) && Touches(w, Second(n), id, |s.text|)
    ensures WriteGroup(WriteGroup(s, kinds, w, Latest, id), kinds, w, Second(n), id) ==
            LateFirst(s, kinds, n, w[Second(n)][id], w[Latest][id])
    ensures WriteGroup(WriteGroup(s, kinds, w, Second(n), id), kinds, w, Latest, id) ==
            KeptFirst(s, kinds, n, w[Second(n)][id], w[Latest][id])
  {
  }

  /** A document in both its groups, as the order has them. */
  lemma InTwoGroups(w: MergeDocs, docs: map<Id, Data>, home: map<Id, nat>, shards: nat, kinds: map<Field, Kind>,
                    wanted: map<Id, Data>, order: seq<ShardRef>, id: Id, i: nat, j: nat)
    requires Writable(w, docs, home, shards, kinds, wanted) && IsOrder(order, w)
    requires DocIn(w, Second(HomeOf(home, id)), id).Some? && DocIn(w, Latest, id).Some?
    requires i < |order| && j < |order| && order[i] == Latest && order[j] == Second(HomeOf(home, id))
    ensures var n := HomeOf(home, id);
            var kept, late, s := w[Second(n)][id], w[Latest][id], Single(Lookup(docs, id), n, shards, kinds);
            && n < shards && kept.actions != [] && late.actions != []
            && WriteGroups(s, kinds, w, order, id) ==
               if i < j then LateFirst(s, kinds, n, kept, late) else KeptFirst(s, kinds, n, kept, late)
  {
    var n := HomeOf(home, id);
    var s := Single(Lookup(docs, id), n, shards, kinds);
    TheseGroups(w, docs, home, shards, kinds, wanted, order, id);
    GroupsOf(w, docs, home, shards, kinds, wanted, id, Latest);
    GroupsOf(w, docs, home, shards, kinds, wanted, id, Second(n));
    BothWrite(w, s, kinds, n, id);
    if i < j {
      TwoGroups(s, kinds, w, order, id, Latest, Second(n), i, j);
    } else {
      TwoGroups(s, kinds, w, order, id, Second(n), Latest, j, i);
    }
  }

  lemma InOneGroupIff(w: MergeDocs, docs: map<Id, Data>, home: map<Id, nat>, shards: nat, kinds: map<Field, Kind>,
                      wanted: map<Id, Data>, order: seq<ShardRef>, id: Id)
    requires Writable(w, docs, home, shards, kinds, wanted) && IsOrder(order, w)
    requires DocIn(w, Second(HomeOf(home, id)), id).None? || DocIn(w, Latest, id).None?
    ensures RightIn(w, docs, home, shards, kinds, wanted, order, id) <==>
            !Mishandled(w, docs, home, shards, kinds, wanted, id)
  {
    var n := HomeOf(home, id);
    InOneGroup(w, docs, home, shards, kinds, wanted, order, id);
    OneAsks(w, docs, home, shards, kinds, wanted, id);
    if DocIn(w, Latest, id).Some? {
      OnlyLate(kinds, shards, Lookup(docs, id), n, w[Latest][id]);
    } else {
      assert HeldAt(Single(Lookup(wanted, id), n, shards, kinds), Lookup(wanted, id), kinds, n);
    }
  }

  lemma InTwoGroupsIff(w: MergeDocs, docs: map<Id, Data>, home: map<Id, nat>, shards: nat, kinds: map<Field, Kind>,
                       wanted: map<Id, Data>, id: Id)
    requires Writable(w, docs, home, shards, kinds, wanted)
    requires DocIn(w, Second(HomeOf(home, id)), id).Some? && DocIn(w, Latest, id).Some?
    ensures (forall order :: IsOrder(order, w) ==> RightIn(w, docs, home, shards, kinds, wanted, order, id)) <==>
            !Mishandled(w, docs, home, shards, kinds, wanted, id)
  {
    var n, prior := HomeOf(home, id), Lookup(docs, id);
    var kept, late, s := w[Second(n)][id], w[Latest][id], Single(prior, n, shards, kinds);
    OneAsks(w, docs, home, shards, kinds, wanted, id);
    if forall order :: IsOrder(order, w) ==> RightIn(w, docs, home, shards, kinds, wanted, order, id) {
      var order1 := OrderWith(w, Latest, Second(n));
      assert RightIn(w, docs, home, shards, kinds, wanted, order1, id);
      InTwoGroups(w, docs, home, shards, kinds, wanted, order1, id, 0, 1);
      var order2 := OrderWith(w, Second(n), Latest);
      assert RightIn(w, docs, home, shards, kinds, wanted, order2, id);
      InTwoGroups(w, docs, home, shards, kinds, wanted, order2, id, 1, 0);
      RightIsAgreeing(s, kinds, prior, n, kept, late, Lookup(wanted, id));
    }
    if !Mishandled(w, docs, home, shards, kinds, wanted, id) {
      AgreeingIsRight(s, kinds, prior, n, kept, late, Lookup(wanted, id));
      forall order | IsOrder(order, w) ensures RightIn(w, docs, home, shards, kinds, wanted, order, id) {
        assert Latest in order && Second(n) in order;
        var i :| 0 <= i < |order| && order[i] == Latest;
        var j :| 0 <= j < |order| && order[j] == Second(n);
        InTwoGroups(w, docs, home, shards, kinds, wanted, order, id, i, j);
      }
    }
  }

  lemma DocumentRightIff(w: MergeDocs, docs: map<Id, Data>, home: map<Id, nat>, shards: nat, kinds: map<Field, Kind>,
                         wanted: map<Id, Data>, id: Id)
    requires Writable(w, docs, home, shards, kinds, wanted)
    ensures (forall order :: IsOrder(order, w) ==> RightIn(w, docs, home, shards, kinds, wanted, order, id)) <==>
            !Mishandled(w, docs, home, shards, kinds, wanted, id)
  {
    if DocIn(w, Second(HomeOf(home, id)), id).Some? && DocIn(w, Latest, id).Some? {
      InTwoGroupsIff(w, docs, home, shards, kinds, wanted, id);
    } else {
      forall order | IsOrder(order, w)
        ensures RightIn(w, docs, home, shards, kinds, wanted, order, id) <==>
                !Mishandled(w, docs, home, shards, kinds, wanted, id)
      {
        InOneGroupIff(w, docs, home, shards, kinds, wanted, order, id);
      }
      var some := SomeOrder(w.Keys);
      assert IsOrder(some, w);
    }
  }

  // ------------------------------------------------------------------------- whole batches

  /** Every document comes out as requested when the groups are written in this order. */
  ghost predicate AllRight(stores: Stores, kinds: map<Field, Kind>, w: MergeDocs, order: seq<ShardRef>,
                           wanted: map<Id, Data>)
    requires stores.vec.Keys == kinds.Keys
  {
    forall id :: AsRequested(WriteGroups(At(stores, id), kinds, w, order, id), Lookup(wanted, id), kinds)
  }

  /** Whatever the order. */
  ghost predicate AlwaysRight(stores: Stores, kinds: map<Field, Kind>, w: MergeDocs, wanted: map<Id, Data>)
    requires stores.vec.Keys == kinds.Keys
  {
    forall order :: IsOrder(order, w) ==> AllRight(stores, kinds, w, order, wanted)
  }

  /** Homes that a batch may name: those of the documents it finds, and others from earlier. */
  ghost predicate Knows(home: map<Id, nat>, now: map<Id, nat>, shards: nat) {
    && (forall id :: id in now ==> id in home && home[id] == now[id])
    && (forall id :: id in home ==> home[id] < shards)
  }

  lemma SliceOf(stores: Stores, kinds: map<Field, Kind>, docs: map<Id, Data>, now: map<Id, nat>, home: map<Id, nat>,
                id: Id)
    requires Holds(stores, kinds, docs, now) && Knows(home, now, |stores.text|)
    ensures At(stores, id) == Single(Lookup(docs, id), HomeOf(home, id), |stores.text|, kinds)
  {
    if id !in docs {
      AbsentAnywhere(HomeOf(now, id), HomeOf(home, id), |stores.text|, kinds);
    }
  }

  lemma BatchIsWritable(entries: seq<Entry>, stores: Stores, kinds: map<Field, Kind>, docs: map<Id, Data>,
                        now: map<Id, nat>, home: map<Id, nat>)
    requires Holds(stores, kinds, docs, now) && Knows(home, now, |stores.text|)
    requires forall e :: e in entries ==> Logged(e, home, kinds)
    ensures GroupsOk(MergeAll(entries), |stores.text|)
    ensures Writable(MergeAll(entries), docs, home, |stores.text|, kinds, RequestAll(docs, entries))
  {
    MergedGroupsOk(entries, home, kinds, |stores.text|);
    MergeTracks(entries, home, kinds, docs);
  }

  /**
   For every batch whose entries were each logged when the document was absent or in its home: in every
   order of the groups the merged write leaves the stores holding exactly what applying the requested
   operations one at a time would, if and only if it mishandles no document.
   */
  lemma MergedWriteRightIff(entries: seq<Entry>, stores: Stores, kinds: map<Field, Kind>, docs: map<Id, Data>,
                            now: map<Id, nat>, home: map<Id, nat>)
    requires Holds(stores, kinds, docs, now) && Knows(home, now, |stores.text|)
    requires forall e :: e in entries ==> Logged(e, home, kinds)
    ensures var w, wanted := MergeAll(entries), RequestAll(docs, entries);
            AlwaysRight(stores, kinds, w, wanted) <==>
            (forall id :: !Mishandled(w, docs, home, |stores.text|, kinds, wanted, id))
  {
    var w, wanted, shards := MergeAll(entries), RequestAll(docs, entries), |stores.text|;
    BatchIsWritable(entries, stores, kinds, docs, now, home);
    if AlwaysRight(stores, kinds, w, wanted) {
      forall id ensures !Mishandled(w, docs, home, shards, kinds, wanted, id) {
        forall order | IsOrder(order, w) ensures RightIn(w, docs, home, shards, kinds, wanted, order, id) {
          AllRightIs(stores, kinds, docs, now, home, w, order, wanted);
        }
        DocumentRightIff(w, docs, home, shards, kinds, wanted, id);
      }
    }
    if forall id :: !Mishandled(w, docs, home, shards, kinds, wanted, id) {
      forall order | IsOrder(order, w) ensures AllRight(stores, kinds, w, order, wanted) {
        forall id ensures RightIn(w, docs, home, shards, kinds, wanted, order, id) {
          DocumentRightIff(w, docs, home, shards, kinds, wanted, id);
        }
        AllRightIs(stores, kinds, docs, now, home, w, order, wanted);
      }
    }
  }

  lemma AllRightIs(stores: Stores, kinds: map<Field, Kind>, docs: map<Id, Data>, now: map<Id, nat>,
                   home: map<Id, nat>, w: MergeDocs, order: seq<ShardRef>, wanted: map<Id, Data>)
    requires Holds(stores, kinds, docs, now) && Knows(home, now, |stores.text|)
    ensures AllRight(stores, kinds, w, order, wanted) <==>
            forall id :: RightIn(w, docs, home, |stores.text|, kinds, wanted, order, id)
  {
    forall id
      ensures AsRequested(WriteGroups(At(stores, id), kinds, w, order, id), Lookup(wanted, id), kinds) <==>
              RightIn(w, docs, home, |stores.text|, kinds, wanted, order, id)
    {
      SliceOf(stores, kinds, docs, now, home, id);
    }
  }

  // ----------------------------------------------------- entries that see what the batch finds

  /** Where the documents live after a batch: old ones stay, new ones are in the latest shard. */
  ghost function HomeAfter(docs: map<Id, Data>, home: map<Id, nat>, wanted: map<Id, Data>, shards: nat): map<Id, nat>
    requires shards > 0 && home.Keys == docs.Keys
  {
    map id | id in wanted :: if id in docs then home[id] else shards - 1
  }

  /** The stores after the groups of a batch were written in some order. */
  ghost predicate Wrote(a: Stores, b: Stores, kinds: map<Field, Kind>, w: MergeDocs, order: seq<ShardRef>)
    requires a.vec.Keys == kinds.Keys
  {
    && |a.text| == |b.text| && b.vec.Keys == kinds.Keys && IsOrder(order, w)
    && forall id :: At(b, id) == WriteGroups(At(a, id), kinds, w, order, id)
  }

  /** One document of such a batch, visible or new. */
  lemma DocumentHeld(entries: seq<Entry>, a: Stores, kinds: map<Field, Kind>, docs: map<Id, Data>, home: map<Id, nat>,
                     order: seq<ShardRef>, id: Id)
    requires Holds(a, kinds, docs, home) && IsOrder(order, MergeAll(entries))
    requires forall e :: e in entries ==> WellFormed(e, docs, home, kinds)
    ensures var wanted := RequestAll(docs, entries);
            && WriteGroups(At(a, id), kinds, MergeAll(entries), order, id) ==
               Single(Lookup(wanted, id), HomeOf(HomeAfter(docs, home, wanted, |a.text|), id), |a.text|, kinds)
            && Full(Lookup(wanted, id), kinds)
  {
    BatchIsWritable(entries, a, kinds, docs, home, home);
    VisibleOrNew(entries, docs, home, kinds, id);
    if id in docs {
      VisibleHeld(MergeAll(entries), docs, home, |a.text|, kinds, RequestAll(docs, entries), order, id);
    } else {
      NewHeld(MergeAll(entries), docs, home, |a.text|, kinds, RequestAll(docs, entries), order, id);
    }
  }

  lemma VisibleHeld(w: MergeDocs, docs: map<Id, Data>, home: map<Id, nat>, shards: nat, kinds: map<Field, Kind>,
                    wanted: map<Id, Data>, order: seq<ShardRef>, id: Id)
    requires Writable(w, docs, home, shards, kinds, wanted) && IsOrder(order, w) && home.Keys == docs.Keys
    requires id in docs && DocIn(w, Latest, id).None?
    ensures WriteGroups(Single(Lookup(docs, id), HomeOf(home, id), shards, kinds), kinds, w, order, id) ==
            Single(Lookup(wanted, id), HomeOf(HomeAfter(docs, home, wanted, shards), id), shards, kinds)
    ensures Full(Lookup(wanted, id), kinds)
  {
    InOneGroup(w, docs, home, shards, kinds, wanted, order, id);
    OneAsks(w, docs, home, shards, kinds, wanted, id);
    if Lookup(wanted, id).None? {
      AbsentAnywhere(HomeOf(home, id), 0, shards, kinds);
    }
  }

  lemma NewHeld(w: MergeDocs, docs: map<Id, Data>, home: map<Id, nat>, shards: nat, kinds: map<Field, Kind>,
                wanted: map<Id, Data>, order: seq<ShardRef>, id: Id)
    requires Writable(w, docs, home, shards, kinds, wanted) && IsOrder(order, w) && home.Keys == docs.Keys
    requires id !in docs && DocIn(w, Second(HomeOf(home, id)), id).None?
    ensures WriteGroups(Single(None, HomeOf(home, id), shards, kinds), kinds, w, order, id) ==
            Single(Lookup(wanted, id), HomeOf(HomeAfter(docs, home, wanted, shards), id), shards, kinds)
    ensures Full(Lookup(wanted, id), kinds)
  {
    InOneGroup(w, docs, home, shards, kinds, wanted, order, id);
    OneAsks(w, docs, home, shards, kinds, wanted, id);
    if DocIn(w, Latest, id).Some? {
      OnlyLateNew(kinds, shards, HomeOf(home, id), w[Latest][id]);
    }
    if Lookup(wanted, id).None? {
      AbsentAnywhere(shards - 1, 0, shards, kinds);
    }
  }

  /** What was logged against visible documents has each in one group. */
  lemma {:induction false} VisibleOrNew(entries: seq<Entry>, docs: map<Id, Data>, home: map<Id, nat>,
                                        kinds: map<Field, Kind>, id: Id)
    requires forall e :: e in entries ==> WellFormed(e, docs, home, kinds)
    ensures forall g :: g in MergeAll(entries) && id in MergeAll(entries)[g] ==> (g.Second? <==> id in docs)
    decreases |entries|
  {
    if entries != [] {
      var less, last := entries[..|entries| - 1], entries[|entries| - 1];
      VisibleOrNew(less, docs, home, kinds, id);
      assert WellFormed(last, docs, home, kinds);
      forall g | g in MergeAll(entries) && id in MergeAll(entries)[g] ensures g.Second? <==> id in docs {
        if !(g == last.shard && id == last.id) {
          assert g in MergeAll(less) && id in MergeAll(less)[g];
        }
      }
    }
  }

  /**
   For every batch whose entries were logged against the documents that it finds, writing the merged
   documents, in any order of the groups, leaves the text shards and the vector indexes holding exactly
   what applying the requested operations one at a time would.
   */
  lemma MergedWriteIsFaithful(entries: seq<Entry>, a: Stores, b: Stores, kinds: map<Field, Kind>, docs: map<Id, Data>,
                              home: map<Id, nat>, order: seq<ShardRef>)
    requires Holds(a, kinds, docs, home) && Wrote(a, b, kinds, MergeAll(entries), order)
    requires forall e :: e in entries ==> WellFormed(e, docs, home, kinds)
    ensures GroupsOk(MergeAll(entries), |a.text|)
    ensures Holds(b, kinds, RequestAll(docs, entries), HomeAfter(docs, home, RequestAll(docs, entries), |a.text|))
  {
    var wanted, shards := RequestAll(docs, entries), |a.text|;
    BatchIsWritable(entries, a, kinds, docs, home, home);
    var home' := HomeAfter(docs, home, wanted, shards);
    forall id
      ensures At(b, id) == Single(Lookup(wanted, id), HomeOf(home', id), shards, kinds)
      ensures Full(Lookup(wanted, id), kinds)
    {
      DocumentHeld(entries, a, kinds, docs, home, order, id);
    }
    assert home'.Keys == wanted.Keys;
    forall id | id in wanted ensures wanted[id].vecs.Keys == kinds.Keys { assert Full(Lookup(wanted, id), kinds); }
  }

  // --------------------------------------------------------- batches that see the same documents

  /**
   The documents that a later batch gets wrong if it was logged against the same documents as an earlier
   one: new ones that the earlier batch stored and the later one inserts again or leaves behind.
   */
  ghost predicate StoredTwice(w: MergeDocs, docs: map<Id, Data>, once: map<Id, Data>, id: Id) {
    && id !in docs && id in once && Latest in w && id in w[Latest] && w[Latest][id].actions != []
    && (w[Latest][id].actions[0].Insert? || Outcome(w[Latest][id]).None?)
  }

  lemma {:induction false} LastDecides(base: map<Id, Data>, base': map<Id, Data>, entries: seq<Entry>, id: Id)
    requires Lookup(base, id) == Lookup(base', id) || exists e :: e in entries && e.id == id
    ensures Lookup(RequestAll(base, entries), id) == Lookup(RequestAll(base', entries), id)
    decreases |entries|
  {
    if entries != [] {
      var less, last := entries[..|entries| - 1], entries[|entries| - 1];
      assert entries == less + [last];
      if last.id != id {
        LastDecides(base, base', less, id);
      }
    }
  }

  lemma {:induction false} Untouched(docs: map<Id, Data>, entries: seq<Entry>, id: Id)
    requires forall e :: e in entries ==> e.id != id
    ensures Lookup(RequestAll(docs, entries), id) == Lookup(docs, id)
    decreases |entries|
  {
    if entries != [] {
      Untouched(docs, entries[..|entries| - 1], id);
    }
  }

  lemma {:induction false} RequestConcat(docs: map<Id, Data>, a: seq<Entry>, b: seq<Entry>)
    ensures RequestAll(docs, a + b) == RequestAll(RequestAll(docs, a), b)
    decreases |b|
  {
    if b == [] {
      assert a + b == a;
    } else {
      assert (a + b)[..|a + b| - 1] == a + b[..|b| - 1];
      RequestConcat(docs, a, b[..|b| - 1]);
    }
  }

  /** The homes that entries logged before or after a first batch may name. */
  ghost function Homes(docs: map<Id, Data>, home: map<Id, nat>, once: map<Id, Data>, shards: nat): map<Id, nat>
    requires shards > 0 && home.Keys == docs.Keys
  {
    HomeAfter(docs, home, once, shards) + home
  }

  /** Entries logged against the documents before or after a first batch. */
  ghost predicate BeforeOrAfter(e: Entry, docs: map<Id, Data>, home: map<Id, nat>, once: map<Id, Data>, shards: nat,
                                kinds: map<Field, Kind>)
    requires shards > 0 && home.Keys == docs.Keys
  {
    WellFormed(e, docs, home, kinds) || WellFormed(e, once, HomeAfter(docs, home, once, shards), kinds)
  }

  lemma HomesFit(docs: map<Id, Data>, home: map<Id, nat>, once: map<Id, Data>, shards: nat, kinds: map<Field, Kind>)
    requires Housed(docs, home, shards, kinds)
    ensures Knows(Homes(docs, home, once, shards), HomeAfter(docs, home, once, shards), shards)
    ensures forall e :: BeforeOrAfter(e, docs, home, once, shards, kinds) ==>
              Logged(e, Homes(docs, home, once, shards), kinds)
  {
  }

  lemma StoredTwiceIs(second: seq<Entry>, docs: map<Id, Data>, home: map<Id, nat>, once: map<Id, Data>, shards: nat,
                      kinds: map<Field, Kind>, wanted: map<Id, Data>, id: Id)
    requires Housed(docs, home, shards, kinds)
    requires forall e :: e in second ==> WellFormed(e, docs, home, kinds)
    ensures Mishandled(MergeAll(second), once, Homes(docs, home, once, shards), shards, kinds, wanted, id) <==>
            StoredTwice(MergeAll(second), docs, once, id)
  {
    VisibleOrNew(second, docs, home, kinds, id);
  }

  /**
   Two batches logged against the same documents and written one after the other, as a long list of
   operations is: the second comes out right, in every order of its groups, if and only if it neither
   inserts again nor leaves behind a new document that the first one stored.
   */
  lemma TwoBatchesIff(first: seq<Entry>, second: seq<Entry>, a: Stores, b: Stores, kinds: map<Field, Kind>,
                      docs: map<Id, Data>, home: map<Id, nat>, order: seq<ShardRef>)
    requires Holds(a, kinds, docs, home) && Wrote(a, b, kinds, MergeAll(first), order)
    requires forall e :: e in first || e in second ==> WellFormed(e, docs, home, kinds)
    ensures var w := MergeAll(second);
            AlwaysRight(b, kinds, w, RequestAll(docs, first + second)) <==>
            (forall id :: !StoredTwice(w, docs, RequestAll(docs, first), id))
  {
    var once, shards := RequestAll(docs, first), |a.text|;
    var now, homes := HomeAfter(docs, home, once, shards), Homes(docs, home, once, shards);
    MergedWriteIsFaithful(first, a, b, kinds, docs, home, order);
    HomesFit(docs, home, once, shards, kinds);
    assert forall e :: e in second ==> BeforeOrAfter(e, docs, home, once, shards, kinds);
    MergedWriteRightIff(second, b, kinds, once, now, homes);
    RequestConcat(docs, first, second);
    forall id
      ensures Mishandled(MergeAll(second), once, homes, shards, kinds, RequestAll(once, second), id) <==>
              StoredTwice(MergeAll(second), docs, once, id)
    {
      StoredTwiceIs(second, docs, home, once, shards, kinds, RequestAll(once, second), id);
    }
  }

  /** A new document in two batches of one list of operations ends up with two copies, without any crash. */
  lemma InsertedByBoth(x: Id, d: Data, d': Data, shards: nat, kinds: map<Field, Kind>, o: seq<ShardRef>,
                       o': seq<ShardRef>)
    requires shards > 0 && d.vecs.Keys == d'.vecs.Keys == kinds.Keys
    requires IsOrder(o, MergeAll([Entry(Latest, x, Insert, d)]))
    requires IsOrder(o', MergeAll([Entry(Latest, x, Insert, d')]))
    ensures var e, e' := Entry(Latest, x, Insert, d), Entry(Latest, x, Insert, d');
            && WellFormed(e, map[], map[], kinds) && WellFormed(e', map[], map[], kinds)
            && var once := WriteGroups(Single(None, 0, shards, kinds), kinds, MergeAll([e]), o, x);
               var twice := WriteGroups(once, kinds, MergeAll([e']), o', x);
               && once == Single(Some(d), shards - 1, shards, kinds)
               && twice.text[shards - 1] == [d.text, d'.text]
               && forall f :: f in kinds ==>
                    twice.vec[f] == if kinds[f].Hnsw? then [d'.vecs[f]] else [d.vecs[f], d'.vecs[f]]
  {
    InsertOver(Single(None, 0, shards, kinds), kinds, x, d, o);
    OnlyLateNew(kinds, shards, 0, WalDoc([Insert], d));
    InsertOver(Single(Some(d), shards - 1, shards, kinds), kinds, x, d', o');
    AddedToOne(d, d', shards, kinds);
  }

  lemma AddedToOne(d: Data, d': Data, shards: nat, kinds: map<Field, Kind>)
    requires shards > 0 && d.vecs.Keys == d'.vecs.Keys == kinds.Keys
    ensures var one := Single(Some(d), shards - 1, shards, kinds);
            && one.text[shards - 1] + [d'.text] == [d.text, d'.text]
            && forall f :: f in kinds ==>
                 PutRow(kinds[f], one.vec[f], d'.vecs[f]) ==
                 if kinds[f].Hnsw? then [d'.vecs[f]] else [d.vecs[f], d'.vecs[f]]
  {
  }

  /** A batch that holds nothing but one insert. */
  lemma InsertOver(s: Slice, kinds: map<Field, Kind>, x: Id, d: Data, o: seq<ShardRef>)
    requires s.vec.Keys == kinds.Keys == d.vecs.Keys && s.text != []
    requires IsOrder(o, MergeAll([Entry(Latest, x, Insert, d)]))
    ensures var r := WriteGroups(s, kinds, MergeAll([Entry(Latest, x, Insert, d)]), o, x);
            && r == WriteDoc(s, kinds, |s.text| - 1, WalDoc([Insert], d))
            && r.text == s.text[|s.text| - 1 := s.text[|s.text| - 1] + [d.text]]
            && forall f :: f in kinds ==> r.vec[f] == PutRow(kinds[f], s.vec[f], d.vecs[f])
  {
    OneInsert(x, d);
    OneGroup(s, kinds, MergeAll([Entry(Latest, x, Insert, d)]), o, x, Latest);
    WriteLate(s, kinds, |s.text| - 1, WalDoc([Insert], d));
  }

  lemma OneInsert(x: Id, d: Data)
    ensures MergeAll([Entry(Latest, x, Insert, d)]) == map[Latest := map[x := WalDoc([Insert], d)]]
  {
    var e := Entry(Latest, x, Insert, d);
    assert [e][..0] == [];
    assert [] + [Insert] == [Insert];
  }
}
