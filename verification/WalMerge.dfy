/**
 Merging write-ahead-log entries by document before they are written. One batch may hold many
 actions on a document; the merged write looks only at the first and the last of them and at the
 data of the last. The claim is that text shards and vector indexes end up as if every requested
 operation had been applied on its own. It holds if the entries were logged against the documents
 that the batch finds; for entries logged earlier the exact condition is given.
 */
module WalMerge {
  import opened Wrappers
  import opened Sequences

  type Id = string
  type Field = string
  type Text = string
  type Vec = seq<real>

  datatype Action = Insert | Update | Delete | DeleteVecOnly

  /** The indexable content of a document; a deletion carries none. */
  datatype Data = Data(text: Text, vecs: map<Field, Vec>)

  /** The second shard an entry is meant for; -1 in the log asks for the latest one. */
  datatype ShardRef = Latest | Second(n: nat)

  datatype Entry = Entry(shard: ShardRef, id: Id, action: Action, data: Data)

  /** A document of a batch: its actions in order and the data of the last one. */
  datatype WalDoc = WalDoc(actions: seq<Action>, data: Data)

  type MergeDocs = map<ShardRef, map<Id, WalDoc>>

  // -------------------------------------------------------------------- merging

  function AddDocument(w: MergeDocs, e: Entry): MergeDocs {
    var shard := if e.shard in w then w[e.shard] else map[];
    var actions := if e.id in shard then shard[e.id].actions else [];
    w[e.shard := shard[e.id := WalDoc(actions + [e.action], e.data)]]
  }

  function MergeAll(entries: seq<Entry>): MergeDocs
    decreases |entries|
  {
    if entries == [] then map[]
    else AddDocument(MergeAll(entries[..|entries| - 1]), entries[|entries| - 1])
  }

  predicate IsOn(e: Entry, g: ShardRef, id: Id) {
    e.shard == g && e.id == id
  }

  /** Entry i is the last on the document. */
  ghost predicate LastOn(entries: seq<Entry>, i: nat, g: ShardRef, id: Id) {
    i < |entries| && IsOn(entries[i], g, id) && forall j :: i < j < |entries| ==> !IsOn(entries[j], g, id)
  }

  /** The actions on one document of one group, in the order they were logged. */
  function ActionsOn(entries: seq<Entry>, g: ShardRef, id: Id): seq<Action>
    decreases |entries|
  {
    if entries == [] then []
    else
      var last := entries[|entries| - 1];
      ActionsOn(entries[..|entries| - 1], g, id) + if IsOn(last, g, id) then [last.action] else []
  }

  /** Merging collects, per group and document, every action in order and the data of the last. */
  lemma {:induction false} MergedActions(entries: seq<Entry>, g: ShardRef, id: Id)
    ensures (g in MergeAll(entries) && id in MergeAll(entries)[g]) <==> exists e :: e in entries && IsOn(e, g, id)
    ensures g in MergeAll(entries) && id in MergeAll(entries)[g] ==>
              MergeAll(entries)[g][id].actions == ActionsOn(entries, g, id)
    ensures forall i: nat :: LastOn(entries, i, g, id) ==>
              g in MergeAll(entries) && id in MergeAll(entries)[g] && MergeAll(entries)[g][id].data == entries[i].data
    decreases |entries|
  {
    if entries != [] {
      var less, last := entries[..|entries| - 1], entries[|entries| - 1];
      MergedActions(less, g, id);
      assert entries == less + [last];
      if IsOn(last, g, id) {
        assert last in entries;
        if !(g in MergeAll(less) && id in MergeAll(less)[g]) { NoActionsOn(less, g, id); }
      } else {
        forall i: nat | LastOn(entries, i, g, id) ensures LastOn(less, i, g, id) {}
      }
    }
  }

  lemma {:induction false} NoActionsOn(entries: seq<Entry>, g: ShardRef, id: Id)
    requires forall e :: e in entries ==> !IsOn(e, g, id)
    ensures ActionsOn(entries, g, id) == []
    decreases |entries|
  {
    if entries != [] { NoActionsOn(entries[..|entries| - 1], g, id); }
  }

  // -------------------------------------------------------------------- writing

  datatype TextOp = NoText | InsertText | UpdateText | DeleteText

  datatype VecOp = NoVec | InsertVec | UpdateVec | DeleteVec

  /** The decision table over the first and the last action of a document. */
  function Decide(actions: seq<Action>): (TextOp, VecOp)
    requires actions != []
  {
    var last := actions[|actions| - 1];
    match actions[0]
    case Insert =>
      if |actions| == 1 then (InsertText, InsertVec)
      else (match last
            case Insert => (InsertText, InsertVec)
            case Update => (InsertText, InsertVec)
            case Delete => (NoText, NoVec)
            case DeleteVecOnly => (NoText, DeleteVec))
    case Update =>
      if |actions| == 1 then (UpdateText, UpdateVec)
      else (match last
            case Insert => (UpdateText, UpdateVec)
            case Update => (UpdateText, UpdateVec)
            case Delete => (DeleteText, DeleteVec)
            case DeleteVecOnly => (NoText, DeleteVec))
    case Delete =>
      if |actions| == 1 then (DeleteText, DeleteVec)
      else (match last
            case Insert => (UpdateText, UpdateVec)
            case Update => (UpdateText, UpdateVec)
            case Delete => (DeleteText, DeleteVec)
            case DeleteVecOnly => (NoText, DeleteVec))
    case DeleteVecOnly =>
      if |actions| == 1 then (NoText, DeleteVec)
      else (match last
            case Insert => (UpdateText, UpdateVec)
            case Update => (UpdateText, UpdateVec)
            case Delete => (DeleteText, DeleteVec)
            case DeleteVecOnly => (NoText, DeleteVec))
  }

  /** A text shard holds copies of documents: inserting does not look for an existing copy. */
  type TextShard = map<Id, seq<Text>>

  /** A vector index holds rows of vectors. */
  type VecIndex = map<Id, seq<Vec>>

  /** HNSW replaces the vector it has of an id; flat and IVFPQ indexes store another row beside it. */
  datatype Kind = Hnsw | Rows

  function Copies<T>(m: map<Id, seq<T>>, id: Id): seq<T> {
    if id in m then m[id] else []
  }

  function ApplyText(shard: TextShard, id: Id, op: TextOp, text: Text): TextShard {
    match op
    case NoText => shard
    case InsertText => shard[id := Copies(shard, id) + [text]]
    case UpdateText => shard[id := [text]]
    case DeleteText => shard - {id}
  }

  function PutRow(kind: Kind, rows: seq<Vec>, v: Vec): seq<Vec> {
    if kind.Hnsw? then [v] else rows + [v]
  }

  /** One action for a vector index. */
  datatype VecAction = VecAction(id: Id, field: Field, op: VecOp, vec: Vec)

  predicate Deletes(a: VecAction) {
    a.op.DeleteVec? || a.op.UpdateVec?
  }

  predicate Puts(a: VecAction) {
    a.op.InsertVec? || a.op.UpdateVec?
  }

  function Lookup<K, V>(m: map<K, V>, key: K): Option<V> {
    if key in m then Some(m[key]) else None
  }

  /** The copies of a document in its shard after the merged write. */
  function TextAfter(doc: WalDoc, before: seq<Text>): seq<Text>
    requires doc.actions != []
  {
    match Decide(doc.actions).0
    case NoText => before
    case InsertText => before + [doc.data.text]
    case UpdateText => [doc.data.text]
    case DeleteText => []
  }

  /** The rows of a document in one vector index after the merged write. */
  function VecAfter(doc: WalDoc, f: Field, kind: Kind, before: seq<Vec>): seq<Vec>
    requires doc.actions != []
  {
    match Decide(doc.actions).1
    case NoVec => before
    case DeleteVec => []
    case InsertVec => if f in doc.data.vecs then PutRow(kind, before, doc.data.vecs[f]) else before
    case UpdateVec => if f in doc.data.vecs then [doc.data.vecs[f]] else before
  }

  // ------------------------------------------------------------ vector actions

  /** The actions hold what the documents ask of each vector index, and nothing else. */
  ghost predicate Covers(actions: seq<VecAction>, docs: map<Id, WalDoc>, fields: set<Field>)
    requires forall id :: id in docs ==> docs[id].actions != []
  {
    && (forall a :: a in actions ==>
          && a.id in docs && a.op == Decide(docs[a.id].actions).1 && !a.op.NoVec?
          && (Puts(a) ==> a.field in docs[a.id].data.vecs && a.vec == docs[a.id].data.vecs[a.field]))
    && (forall id, f :: id in docs && f in docs[id].data.vecs && !Decide(docs[id].actions).1.NoVec? ==>
          Mentions(actions, id, f))
    && (forall id, f :: id in docs && f in fields && Decide(docs[id].actions).1.DeleteVec? ==> Mentions(actions, id, f))
  }

  predicate Mentions(actions: seq<VecAction>, id: Id, f: Field) {
    exists a :: a in actions && a.id == id && a.field == f
  }

  /** No id is put twice into a field. */
  ghost predicate PutsOnce(actions: seq<VecAction>) {
    forall i, j :: 0 <= i < j < |actions| && Puts(actions[i]) && Puts(actions[j]) ==>
      !(actions[i].id == actions[j].id && actions[i].field == actions[j].field)
  }

  /** The ids that a vector index is told to delete. */
  function DeleteIds(actions: seq<VecAction>, f: Field): set<Id> {
    set a | a in actions && a.field == f && Deletes(a) :: a.id
  }

  function PutAll(index: VecIndex, kind: Kind, actions: seq<VecAction>, f: Field): VecIndex
    decreases |actions|
  {
    if actions == [] then index
    else
      var a := actions[|actions| - 1];
      var rest := PutAll(index, kind, actions[..|actions| - 1], f);
      if a.field == f && Puts(a) then rest[a.id := PutRow(kind, Copies(rest, a.id), a.vec)] else rest
  }

  /** An index applies the deletions of a batch before its additions. */
  function FieldAfter(index: VecIndex, kind: Kind, actions: seq<VecAction>, f: Field): VecIndex {
    PutAll(index - DeleteIds(actions, f), kind, actions, f)
  }

  ghost predicate PutBy(actions: seq<VecAction>, id: Id, f: Field) {
    exists a :: a in actions && a.id == id && a.field == f && Puts(a)
  }

  lemma {:induction false} PutAllAt(index: VecIndex, kind: Kind, actions: seq<VecAction>, f: Field, id: Id, v: Vec)
    requires PutsOnce(actions)
    requires forall a :: a in actions && a.id == id && a.field == f && Puts(a) ==> a.vec == v
    ensures Copies(PutAll(index, kind, actions, f), id) ==
            if PutBy(actions, id, f) then PutRow(kind, Copies(index, id), v) else Copies(index, id)
    decreases |actions|
  {
    if actions != [] {
      var less, last := actions[..|actions| - 1], actions[|actions| - 1];
      assert actions == less + [last];
      PutAllAt(index, kind, less, f, id, v);
      if last.id == id && last.field == f && Puts(last) {
        assert !PutBy(less, id, f);
      }
    }
  }

  /** What a batch of vector actions leaves at one id of one index. */
  lemma FieldAfterAt(index: VecIndex, kind: Kind, actions: seq<VecAction>, docs: map<Id, WalDoc>, fields: set<Field>,
                     f: Field, id: Id)
    requires forall i :: i in docs ==> docs[i].actions != []
    requires Covers(actions, docs, fields) && PutsOnce(actions) && f in fields
    ensures Copies(FieldAfter(index, kind, actions, f), id) ==
            if id in docs then VecAfter(docs[id], f, kind, Copies(index, id)) else Copies(index, id)
  {
    var kept := index - DeleteIds(actions, f);
    if id in docs && f in docs[id].data.vecs {
      PutAllAt(kept, kind, actions, f, id, docs[id].data.vecs[f]);
    } else {
      PutAllAt(kept, kind, actions, f, id, []);
    }
    if id in docs {
      var op := Decide(docs[id].actions).1;
      if !op.NoVec? && (f in docs[id].data.vecs || op.DeleteVec?) {
        assert Mentions(actions, id, f);
      }
    }
  }

  /** The lists one vector index receives, applied deletions first. */
  method IndexBatch(index: VecIndex, kind: Kind, actions: seq<VecAction>, f: Field) returns (r: VecIndex)
    ensures r == FieldAfter(index, kind, actions, f)
  {
    var deleteIdList: set<Id> := {};
    for i := 0 to |actions|
      invariant deleteIdList == DeleteIds(actions[..i], f)
    {
      assert actions[..i + 1] == actions[..i] + [actions[i]];
      if actions[i].field == f && Deletes(actions[i]) {
        deleteIdList := deleteIdList + {actions[i].id};
      }
    }
    assert actions[..|actions|] == actions;
    r := index - deleteIdList;
    ghost var kept := r;
    for i := 0 to |actions|
      invariant r == PutAll(kept, kind, actions[..i], f)
    {
      assert actions[..i + 1][..|actions[..i + 1]| - 1] == actions[..i];
      if actions[i].field == f && Puts(actions[i]) {
        r := r[actions[i].id := PutRow(kind, Copies(r, actions[i].id), actions[i].vec)];
      }
    }
  }

  /** Sends every vector index its actions; the indexes are visited in any order. */
  method BatchVectors(vec: map<Field, VecIndex>, kinds: map<Field, Kind>, actions: seq<VecAction>)
    returns (r: map<Field, VecIndex>)
    requires vec.Keys == kinds.Keys
    ensures r.Keys == vec.Keys && forall f :: f in vec ==> r[f] == FieldAfter(vec[f], kinds[f], actions, f)
  {
    r := vec;
    var todo := vec.Keys;
    while todo != {}
      invariant todo <= vec.Keys == r.Keys
      invariant forall f :: f in vec ==>
                  r[f] == if f in todo then vec[f] else FieldAfter(vec[f], kinds[f], actions, f)
      decreases todo
    {
      var f :| f in todo;
      var index := IndexBatch(vec[f], kinds[f], actions, f);
      r := r[f := index];
      todo := todo - {f};
    }
  }

  /** The vector actions of one document: one per field it carries, and for a deletion one per vector index. */
  method VecActionsOf(id: Id, doc: WalDoc, fields: set<Field>) returns (actions: seq<VecAction>)
    requires doc.actions != []
    ensures Covers(actions, map[id := doc], fields) && PutsOnce(actions)
  {
    actions := [];
    var op := Decide(doc.actions).1;
    if op.NoVec? { return; }
    var todo := doc.data.vecs.Keys;
    while todo != {}
      invariant todo <= doc.data.vecs.Keys && PutsOnce(actions)
      invariant forall a :: a in actions ==> a.id == id && a.op == op && a.field !in todo &&
                                             a.field in doc.data.vecs && a.vec == doc.data.vecs[a.field]
      invariant forall f :: f in doc.data.vecs && f !in todo ==> Mentions(actions, id, f)
      decreases todo
    {
      var f :| f in todo;
      var a := VecAction(id, f, op, doc.data.vecs[f]);
      MentionsMore(actions, a);
      actions := actions + [a];
      todo := todo - {f};
    }
    if op.DeleteVec? {
      todo := fields;
      while todo != {}
        invariant todo <= fields
        invariant forall a :: a in actions ==> a.id == id && a.op == op
        invariant forall f :: f in doc.data.vecs ==> Mentions(actions, id, f)
        invariant forall f :: f in fields && f !in todo ==> Mentions(actions, id, f)
        decreases todo
      {
        var f :| f in todo;
        var a := VecAction(id, f, op, []);
        MentionsMore(actions, a);
        actions := actions + [a];
        todo := todo - {f};
      }
    }
  }

  lemma MentionsMore(actions: seq<VecAction>, a: VecAction)
    ensures Mentions(actions + [a], a.id, a.field)
    ensures forall id, f :: Mentions(actions, id, f) ==> Mentions(actions + [a], id, f)
  {
    assert a in actions + [a];
    forall id, f | Mentions(actions, id, f) ensures Mentions(actions + [a], id, f) {
      var b :| b in actions && b.id == id && b.field == f;
      assert b in actions + [a];
    }
  }

  lemma CoversMore(actions: seq<VecAction>, docs: map<Id, WalDoc>, more: seq<VecAction>, id: Id, doc: WalDoc,
                   fields: set<Field>)
    requires doc.actions != [] && forall i :: i in docs ==> docs[i].actions != []
    requires id !in docs && Covers(actions, docs, fields) && Covers(more, map[id := doc], fields)
    ensures Covers(actions + more, docs[id := doc], fields)
    ensures PutsOnce(actions) && PutsOnce(more) ==> PutsOnce(actions + more)
  {
    forall i, f | Mentions(actions, i, f) || Mentions(more, i, f) ensures Mentions(actions + more, i, f) {
      var a :| (a in actions || a in more) && a.id == i && a.field == f;
      assert a in actions + more;
    }
    assert forall i :: 0 <= i < |actions| ==> actions[i] in actions && actions[i].id != id;
    assert forall i :: 0 <= i < |more| ==> more[i] in more && more[i].id == id;
  }

  // ------------------------------------------------------------- writing a group

  /** Text shards and vector indexes of one index. */
  datatype Stores = Stores(text: seq<TextShard>, vec: map<Field, VecIndex>)

  /** What the stores hold of one document: its copies shard by shard and its rows index by index. */
  datatype Slice = Slice(text: seq<seq<Text>>, vec: map<Field, seq<Vec>>)

  function At(stores: Stores, id: Id): (slice: Slice)
    ensures |slice.text| == |stores.text| && slice.vec.Keys == stores.vec.Keys
  {
    Slice(seq(|stores.text|, n requires 0 <= n < |stores.text| => Copies(stores.text[n], id)),
          map f | f in stores.vec :: Copies(stores.vec[f], id))
  }

  /** The slice after the merged write of a document to shard t. */
  function WriteDoc(slice: Slice, kinds: map<Field, Kind>, t: nat, doc: WalDoc): (r: Slice)
    requires t < |slice.text| && doc.actions != [] && slice.vec.Keys == kinds.Keys
    ensures |r.text| == |slice.text| && r.vec.Keys == kinds.Keys
  {
    Slice(slice.text[t := TextAfter(doc, slice.text[t])],
          map f | f in slice.vec :: VecAfter(doc, f, kinds[f], slice.vec[f]))
  }

  lemma ApplyTextAt(shard: TextShard, id: Id, doc: WalDoc, other: Id)
    requires doc.actions != []
    ensures Copies(ApplyText(shard, id, Decide(doc.actions).0, doc.data.text), other) ==
            if other == id then TextAfter(doc, Copies(shard, id)) else Copies(shard, other)
  {
  }

  /** What the loop over the documents has put into the text batch. */
  ghost predicate TextDone(docs: map<Id, WalDoc>, done: set<Id>, shard: TextShard, shard': TextShard)
    requires forall id :: id in docs ==> docs[id].actions != []
  {
    forall id :: Copies(shard', id) ==
                 if id in done && id in docs then TextAfter(docs[id], Copies(shard, id)) else Copies(shard, id)
  }

  lemma TextOneMore(docs: map<Id, WalDoc>, done: set<Id>, shard: TextShard, shard': TextShard, id: Id)
    requires forall i :: i in docs ==> docs[i].actions != []
    requires TextDone(docs, done, shard, shard') && id in docs && id !in done
    ensures TextDone(docs, done + {id}, shard, ApplyText(shard', id, Decide(docs[id].actions).0, docs[id].data.text))
  {
    forall other { ApplyTextAt(shard', id, docs[id], other); }
  }

  /** The loop over the documents of a group, visited in any order: the text batch and the vector actions. */
  method BuildBatch(docs: map<Id, WalDoc>, fields: set<Field>, shard: TextShard)
    returns (shard': TextShard, vecActions: seq<VecAction>)
    requires forall id :: id in docs ==> docs[id].actions != []
    ensures TextDone(docs, docs.Keys, shard, shard') && Covers(vecActions, docs, fields) && PutsOnce(vecActions)
  {
    shard', vecActions := shard, [];
    var todo := docs.Keys;
    ghost var done: map<Id, WalDoc> := map[];
    while todo != {}
      invariant todo <= docs.Keys && done.Keys == docs.Keys - todo
      invariant forall id :: id in done ==> done[id] == docs[id]
      invariant TextDone(docs, done.Keys, shard, shard')
      invariant Covers(vecActions, done, fields) && PutsOnce(vecActions)
      decreases todo
    {
      var id :| id in todo;
      var doc := docs[id];
      TextOneMore(docs, done.Keys, shard, shard', id);
      shard' := ApplyText(shard', id, Decide(doc.actions).0, doc.data.text);
      var actions := VecActionsOf(id, doc, fields);
      CoversMore(vecActions, done, actions, id, doc, fields);
      vecActions := vecActions + actions;
      GrowKeys(done, id, doc);
      done := done[id := doc];
      todo := todo - {id};
    }
    SameDocs(done, docs);
  }

  lemma GrowKeys(done: map<Id, WalDoc>, id: Id, doc: WalDoc)
    ensures done[id := doc].Keys == done.Keys + {id}
  {
  }

  lemma SameDocs(a: map<Id, WalDoc>, b: map<Id, WalDoc>)
    requires a.Keys == b.Keys && forall id :: id in a ==> a[id] == b[id]
    ensures a == b
  {
  }

  /** Writes the documents of one group to shard t and then their vectors. */
  method WriteToShard(docs: map<Id, WalDoc>, kinds: map<Field, Kind>, t: nat, stores: Stores) returns (r: Stores)
    requires t < |stores.text| && stores.vec.Keys == kinds.Keys && forall id :: id in docs ==> docs[id].actions != []
    ensures |r.text| == |stores.text| && r.vec.Keys == kinds.Keys
    ensures forall id :: At(r, id) ==
                         if id in docs then WriteDoc(At(stores, id), kinds, t, docs[id]) else At(stores, id)
  {
    var shard', vecActions := BuildBatch(docs, kinds.Keys, stores.text[t]);
    var vec' := BatchVectors(stores.vec, kinds, vecActions);
    r := Stores(stores.text[t := shard'], vec');
    forall id ensures At(r, id) == if id in docs then WriteDoc(At(stores, id), kinds, t, docs[id]) else At(stores, id) {
      forall f | f in kinds
        ensures Copies(vec'[f], id) ==
                if id in docs then VecAfter(docs[id], f, kinds[f], Copies(stores.vec[f], id))
                else Copies(stores.vec[f], id)
      {
        FieldAfterAt(stores.vec[f], kinds[f], vecActions, docs, kinds.Keys, f, id);
      }
      WrittenSlice(docs, kinds, t, stores, r, id);
    }
  }

  lemma WrittenSlice(docs: map<Id, WalDoc>, kinds: map<Field, Kind>, t: nat, a: Stores, b: Stores, id: Id)
    requires t < |a.text| == |b.text| && a.vec.Keys == b.vec.Keys == kinds.Keys
    requires id in docs ==> docs[id].actions != []
    requires forall n :: 0 <= n < |a.text| ==>
               Copies(b.text[n], id) ==
               if n == t && id in docs then TextAfter(docs[id], Copies(a.text[n], id)) else Copies(a.text[n], id)
    requires forall f :: f in kinds ==>
               Copies(b.vec[f], id) ==
               if id in docs then VecAfter(docs[id], f, kinds[f], Copies(a.vec[f], id)) else Copies(a.vec[f], id)
    ensures At(b, id) == if id in docs then WriteDoc(At(a, id), kinds, t, docs[id]) else At(a, id)
  {
    var expected := if id in docs then WriteDoc(At(a, id), kinds, t, docs[id]) else At(a, id);
    assert At(b, id).text == expected.text;
    assert At(b, id).vec == expected.vec;
  }

  // ------------------------------------------------------------ writing a batch

  function Target(g: ShardRef, shards: nat): nat
    requires shards > 0
  {
    match g
    case Latest => shards - 1
    case Second(n) => n
  }

  /** Groups name existing shards, and every document has an action. */
  ghost predicate GroupsOk(w: MergeDocs, shards: nat) {
    && shards > 0
    && (forall g :: g in w && g.Second? ==> g.n < shards)
    && (forall g, id :: g in w && id in w[g] ==> w[g][id].actions != [])
  }

  /** The groups of a batch, one after another. */
  ghost predicate IsOrder(order: seq<ShardRef>, w: MergeDocs) {
    NoDup(order) && forall g :: g in order <==> g in w
  }

  /** The batch writes this document with this group. */
  predicate Touches(w: MergeDocs, g: ShardRef, id: Id, shards: nat) {
    g in w && id in w[g] && w[g][id].actions != [] && shards > 0 && Target(g, shards) < shards
  }

  function WriteGroup(slice: Slice, kinds: map<Field, Kind>, w: MergeDocs, g: ShardRef, id: Id): (r: Slice)
    requires slice.vec.Keys == kinds.Keys
    ensures |r.text| == |slice.text| && r.vec.Keys == kinds.Keys
  {
    if Touches(w, g, id, |slice.text|)
    then WriteDoc(slice, kinds, Target(g, |slice.text|), w[g][id])
    else slice
  }

  /** What the groups of a batch, written in this order, make of one document. */
  function WriteGroups(slice: Slice, kinds: map<Field, Kind>, w: MergeDocs, order: seq<ShardRef>, id: Id): (r: Slice)
    requires slice.vec.Keys == kinds.Keys
    ensures |r.text| == |slice.text| && r.vec.Keys == kinds.Keys
    decreases |order|
  {
    if order == [] then slice
    else
      WriteGroup(WriteGroups(slice, kinds, w, order[..|order| - 1], id), kinds, w, order[|order| - 1], id)
  }

  lemma WriteOneMore(slice: Slice, kinds: map<Field, Kind>, w: MergeDocs, order: seq<ShardRef>, g: ShardRef, id: Id)
    requires slice.vec.Keys == kinds.Keys
    ensures WriteGroups(slice, kinds, w, order + [g], id) ==
            WriteGroup(WriteGroups(slice, kinds, w, order, id), kinds, w, g, id)
  {
    assert (order + [g])[..|order + [g]| - 1] == order;
  }

  /** Writes every group of the batch, visited in any order. */
  method WriteTo(w: MergeDocs, kinds: map<Field, Kind>, stores: Stores) returns (r: Stores, ghost order: seq<ShardRef>)
    requires GroupsOk(w, |stores.text|) && stores.vec.Keys == kinds.Keys
    ensures |r.text| == |stores.text| && r.vec.Keys == kinds.Keys && IsOrder(order, w)
    ensures forall id :: At(r, id) == WriteGroups(At(stores, id), kinds, w, order, id)
  {
    r, order := stores, [];
    var todo := w.Keys;
    while todo != {}
      invariant |r.text| == |stores.text| && r.vec.Keys == kinds.Keys && todo <= w.Keys
      invariant NoDup(order) && forall g :: g in order <==> g in w && g !in todo
      invariant forall id :: At(r, id) == WriteGroups(At(stores, id), kinds, w, order, id)
      decreases todo
    {
      var g :| g in todo;
      ghost var before := r;
      r := WriteToShard(w[g], kinds, Target(g, |stores.text|), r);
      forall id ensures At(r, id) == WriteGroups(At(stores, id), kinds, w, order + [g], id) {
        WriteOneMore(At(stores, id), kinds, w, order, g, id);
      }
      order, todo := order + [g], todo - {g};
    }
  }

  // ---------------------------------------------- one-at-a-time reference semantics

  predicate Sets(action: Action) {
    action.Insert? || action.Update?
  }

  /** The requested operation: put the document, or remove it; delete_vec_only removes one not yet visible. */
  function Request(docs: map<Id, Data>, e: Entry): map<Id, Data> {
    if Sets(e.action) then docs[e.id := e.data] else docs - {e.id}
  }

  function RequestAll(docs: map<Id, Data>, entries: seq<Entry>): map<Id, Data>
    decreases |entries|
  {
    if entries == [] then docs
    else Request(RequestAll(docs, entries[..|entries| - 1]), entries[|entries| - 1])
  }

  /** The slice of a document, or of its absence: one copy in its shard and one row in every index, or nothing. */
  function Single(data: Option<Data>, n: nat, shards: nat, kinds: map<Field, Kind>): (slice: Slice)
    ensures |slice.text| == shards && slice.vec.Keys == kinds.Keys
  {
    Slice(seq(shards, m requires 0 <= m < shards => if data.Some? && m == n then [data.value.text] else []),
          map f | f in kinds :: if data.Some? && f in data.value.vecs then [data.value.vecs[f]] else [])
  }

  /** A document has a vector for every index. */
  ghost predicate Full(data: Option<Data>, kinds: map<Field, Kind>) {
    data.Some? ==> data.value.vecs.Keys == kinds.Keys
  }

  /** The slice holds the document once, wherever, or not at all if it should not. */
  ghost predicate AsRequested(slice: Slice, data: Option<Data>, kinds: map<Field, Kind>) {
    exists n: nat :: HeldAt(slice, data, kinds, n)
  }

  ghost predicate HeldAt(slice: Slice, data: Option<Data>, kinds: map<Field, Kind>, n: nat) {
    n < |slice.text| && slice == Single(data, n, |slice.text|, kinds)
  }

  /** Documents and the shards they live in. */
  ghost predicate Housed(docs: map<Id, Data>, home: map<Id, nat>, shards: nat, kinds: map<Field, Kind>) {
    && shards > 0 && home.Keys == docs.Keys
    && forall id :: id in docs ==> home[id] < shards && docs[id].vecs.Keys == kinds.Keys
  }

  function HomeOf(home: map<Id, nat>, id: Id): nat {
    if id in home then home[id] else 0
  }

  /** The stores hold exactly docs, each in its shard. */
  ghost predicate Holds(stores: Stores, kinds: map<Field, Kind>, docs: map<Id, Data>, home: map<Id, nat>) {
    && stores.vec.Keys == kinds.Keys && Housed(docs, home, |stores.text|, kinds)
    && forall id :: At(stores, id) == Single(Lookup(docs, id), HomeOf(home, id), |stores.text|, kinds)
  }

  // ------------------------------------------------------------ what can be logged

  predicate Marks(action: Action) {
    action.Update? || action.Delete?
  }

  /**
   The entries the write paths log while docs are visible: new ids go to the latest shard, visible ones to
   the shard that holds them, and inserted or updated documents carry every vector field.
   */
  ghost predicate WellFormed(e: Entry, docs: map<Id, Data>, home: map<Id, nat>, kinds: map<Field, Kind>) {
    && (Marks(e.action) <==> e.id in docs)
    && Logged(e, home, kinds)
  }

  /**
   The entries they log at any time at which a document was either not visible or in the shard that home
   says: what Logged leaves open is whether the document is visible now.
   */
  ghost predicate Logged(e: Entry, home: map<Id, nat>, kinds: map<Field, Kind>) {
    && (!Marks(e.action) ==> e.shard.Latest?)
    && (Marks(e.action) ==> e.id in home && e.shard == Second(home[e.id]))
    && (e.action.DeleteVecOnly? ==> kinds != map[])
    && e.data.vecs.Keys == if Sets(e.action) then kinds.Keys else {}
  }

  /** What a merged document asks for. */
  function Outcome(doc: WalDoc): Option<Data>
    requires doc.actions != []
  {
    if Sets(doc.actions[|doc.actions| - 1]) then Some(doc.data) else None
  }

  /** What merging has accumulated for one document in one group. */
  ghost predicate Tracked(g: ShardRef, id: Id, doc: WalDoc, home: map<Id, nat>, kinds: map<Field, Kind>) {
    && doc.actions != []
    && (forall a :: a in doc.actions ==> (Marks(a) <==> g.Second?) && (a.DeleteVecOnly? ==> kinds != map[]))
    && (g.Second? ==> id in home && g.n == home[id])
    && (Sets(doc.actions[|doc.actions| - 1]) ==> doc.data.vecs.Keys == kinds.Keys)
  }

  ghost predicate InGroups(w: MergeDocs, id: Id) {
    exists g :: g in w && id in w[g]
  }

  /** The batch asks for this of the document in one of its groups. */
  ghost predicate AskedBy(w: MergeDocs, id: Id, data: Option<Data>) {
    exists g :: g in w && id in w[g] && w[g][id].actions != [] && Outcome(w[g][id]) == data
  }

  /** The merged batch against the requested outcome, where docs were visible before. */
  ghost predicate Tracks(w: MergeDocs, home: map<Id, nat>, kinds: map<Field, Kind>, docs: map<Id, Data>,
                         wanted: map<Id, Data>)
  {
    && (forall g, id :: g in w && id in w[g] ==> Tracked(g, id, w[g][id], home, kinds))
    && (forall id ::
          if InGroups(w, id) then AskedBy(w, id, Lookup(wanted, id)) else Lookup(wanted, id) == Lookup(docs, id))
  }

  lemma TrackedOneMore(w: MergeDocs, home: map<Id, nat>, kinds: map<Field, Kind>, e: Entry, g: ShardRef, id: Id)
    requires forall h, i :: h in w && i in w[h] ==> Tracked(h, i, w[h][i], home, kinds)
    requires Logged(e, home, kinds) && g in AddDocument(w, e) && id in AddDocument(w, e)[g]
    ensures Tracked(g, id, AddDocument(w, e)[g][id], home, kinds)
  {
    if g == e.shard && id == e.id {
      if g in w && id in w[g] { assert Tracked(g, id, w[g][id], home, kinds); }
    } else {
      assert g in w && id in w[g] && AddDocument(w, e)[g][id] == w[g][id];
    }
  }

  /** The last entry on a document decides; the others are as before. */
  lemma AskedOneMore(w: MergeDocs, docs: map<Id, Data>, wanted: map<Id, Data>, e: Entry, id: Id)
    requires if InGroups(w, id) then AskedBy(w, id, Lookup(wanted, id)) else Lookup(wanted, id) == Lookup(docs, id)
    ensures var w', wanted' := AddDocument(w, e), Request(wanted, e);
            if InGroups(w', id) then AskedBy(w', id, Lookup(wanted', id)) else Lookup(wanted', id) == Lookup(docs, id)
  {
    var w', wanted' := AddDocument(w, e), Request(wanted, e);
    assert e.shard in w' && e.id in w'[e.shard];
    if id == e.id {
      assert Outcome(w'[e.shard][e.id]) == Lookup(wanted', id);
    } else {
      forall g ensures (g in w' && id in w'[g]) <==> (g in w && id in w[g]) {}
      if InGroups(w, id) {
        var g :| g in w && id in w[g] && w[g][id].actions != [] && Outcome(w[g][id]) == Lookup(wanted, id);
        assert w'[g][id] == w[g][id];
      }
    }
  }

  lemma {:induction false} MergeTracks(entries: seq<Entry>, home: map<Id, nat>, kinds: map<Field, Kind>,
                                       docs: map<Id, Data>)
    requires forall e :: e in entries ==> Logged(e, home, kinds)
    ensures Tracks(MergeAll(entries), home, kinds, docs, RequestAll(docs, entries))
    decreases |entries|
  {
    if entries != [] {
      var less, last := entries[..|entries| - 1], entries[|entries| - 1];
      MergeTracks(less, home, kinds, docs);
      var w, w' := MergeAll(less), MergeAll(entries);
      forall g, id | g in w' && id in w'[g] ensures Tracked(g, id, w'[g][id], home, kinds) {
        TrackedOneMore(w, home, kinds, last, g, id);
      }
      forall id
        ensures if InGroups(w', id) then AskedBy(w', id, Lookup(RequestAll(docs, entries), id))
                else Lookup(RequestAll(docs, entries), id) == Lookup(docs, id)
      {
        AskedOneMore(w, docs, RequestAll(docs, less), last, id);
      }
    }
  }

  lemma {:induction false} MergedGroupsAreInhabited(entries: seq<Entry>)
    ensures forall g :: g in MergeAll(entries) ==> exists id :: id in MergeAll(entries)[g]
    decreases |entries|
  {
    if entries != [] {
      var less, last := entries[..|entries| - 1], entries[|entries| - 1];
      MergedGroupsAreInhabited(less);
      forall g | g in MergeAll(entries) ensures exists id :: id in MergeAll(entries)[g] {
        if g == last.shard {
          assert last.id in MergeAll(entries)[g];
        } else {
          assert MergeAll(entries)[g] == MergeAll(less)[g];
        }
      }
    }
  }

  lemma MergedGroupsOk(entries: seq<Entry>, home: map<Id, nat>, kinds: map<Field, Kind>, shards: nat)
    requires forall e :: e in entries ==> Logged(e, home, kinds)
    requires shards > 0 && forall id :: id in home ==> home[id] < shards
    ensures GroupsOk(MergeAll(entries), shards)
  {
    var w := MergeAll(entries);
    MergeTracks(entries, home, kinds, map[]);
    MergedGroupsAreInhabited(entries);
    forall g | g in w && g.Second? ensures g.n < shards {
      var id :| id in w[g];
      assert Tracked(g, id, w[g][id], home, kinds);
    }
  }

  // -------------------------------------------------------------- the decision table

  /**
   The decision table for every sequence of actions and every state of the stores. The text comes out as
   the last action asks unless there were copies that an insert adds to or that a final delete_vec_only
   leaves behind. The vectors do unless there were rows and an insert is followed by a delete, or an
   index that does not replace gets another row.
   */
  lemma DecisionRightIff(doc: WalDoc, copies: seq<Text>, f: Field, kind: Kind, before: seq<Vec>)
    requires doc.actions != []
    ensures var first, last := doc.actions[0], doc.actions[|doc.actions| - 1];
            TextAfter(doc, copies) == (if Sets(last) then [doc.data.text] else []) <==>
              copies == [] || !(first.Insert? || last.DeleteVecOnly?)
    ensures var first, last := doc.actions[0], doc.actions[|doc.actions| - 1];
            VecAfter(doc, f, kind, before) ==
              (if !Sets(last) then [] else if f in doc.data.vecs then [doc.data.vecs[f]] else before) <==>
              before == [] || !first.Insert? || !(last.Delete? || (kind.Rows? && Sets(last) && f in doc.data.vecs))
  {
    assert copies + [doc.data.text] == [doc.data.text] ==> |copies| == 0;
    if f in doc.data.vecs {
      assert before + [doc.data.vecs[f]] == [doc.data.vecs[f]] ==> |before| == 0;
    }
  }
}
