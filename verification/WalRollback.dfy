/**
 Rolling back and consuming again. After a crash between a merged write and its commit, reopening
 rolls the batch back and the consumer writes it a second time, with what was logged behind it by
 then. The rollback write skips everything meant for the latest shard, which is where every inserted
 document goes, so it undoes nothing. The second write thus finds the documents that the first one
 left, while its entries were logged against those before it or, behind the batch, those after it.
 */
module WalRollback {
  import opened Wrappers
  import opened Sequences
  import opened WalMerge
  import opened WalFaithful
  import opened WalConsumer

  // ------------------------------------------------------------- the rollback write

  /** What the rollback write leaves of one shard: documents whose first action inserted them are deleted. */
  ghost predicate Undone(docs: map<Id, WalDoc>, shard: TextShard, shard': TextShard)
    requires forall id :: id in docs ==> docs[id].actions != []
  {
    forall id :: Copies(shard', id) == if id in docs && docs[id].actions[0].Insert? then [] else Copies(shard, id)
  }

  /** Rolls one group back; a group without a shard number is skipped. */
  method WriteToShardRollback(docs: map<Id, WalDoc>, g: ShardRef, shard: TextShard) returns (shard': TextShard)
    requires forall id :: id in docs ==> docs[id].actions != []
    ensures if g.Latest? then shard' == shard else Undone(docs, shard, shard')
  {
    shard' := shard;
    if g.Latest? { return; }
    var todo := docs.Keys;
    while todo != {}
      invariant todo <= docs.Keys
      invariant forall id :: Copies(shard', id) ==
                             if id in docs && id !in todo && docs[id].actions[0].Insert? then [] else Copies(shard, id)
      decreases todo
    {
      var id :| id in todo;
      if docs[id].actions[0].Insert? {
        shard' := shard' - {id};
      }
      todo := todo - {id};
    }
  }

  /** The groups of a batch that a rollback undoes. */
  ghost predicate Inserts(w: MergeDocs, g: ShardRef, id: Id) {
    g in w && id in w[g] && w[g][id].actions != [] && w[g][id].actions[0].Insert?
  }

  ghost predicate RolledBack(w: MergeDocs, groups: set<ShardRef>, a: Stores, b: Stores) {
    && |a.text| == |b.text| && a.vec == b.vec
    && forall n: nat, id | n < |a.text| ::
         Copies(b.text[n], id) ==
         if Second(n) in groups && Inserts(w, Second(n), id) then [] else Copies(a.text[n], id)
  }

  lemma RolledBackOneMore(w: MergeDocs, groups: set<ShardRef>, a: Stores, b: Stores, g: ShardRef, shard': TextShard)
    requires GroupsOk(w, |a.text|) && RolledBack(w, groups, a, b) && g in w && g !in groups
    requires var shard := b.text[Target(g, |a.text|)];
             if g.Latest? then shard' == shard else Undone(w[g], shard, shard')
    ensures RolledBack(w, groups + {g}, a, Stores(b.text[Target(g, |a.text|) := shard'], b.vec))
  {
  }

  /** Rolls every group of the batch back, visited in any order; vectors are left alone. */
  method WriteToRollback(w: MergeDocs, stores: Stores) returns (r: Stores)
    requires GroupsOk(w, |stores.text|)
    ensures RolledBack(w, w.Keys, stores, r)
  {
    r := stores;
    var todo := w.Keys;
    ghost var done: set<ShardRef> := {};
    while todo != {}
      invariant done !! todo && done + todo == w.Keys
      invariant RolledBack(w, done, stores, r)
      decreases todo
    {
      var g :| g in todo;
      var t := Target(g, |stores.text|);
      var shard' := WriteToShardRollback(w[g], g, r.text[t]);
      RolledBackOneMore(w, done, stores, r, g, shard');
      r := Stores(r.text[t := shard'], r.vec);
      done, todo := done + {g}, todo - {g};
    }
    assert done == w.Keys;
  }

  /** For every batch that the write paths can log, rolling back changes nothing. */
  lemma RollbackUndoesNothing(entries: seq<Entry>, home: map<Id, nat>, kinds: map<Field, Kind>, a: Stores, b: Stores,
                              id: Id)
    requires forall e :: e in entries ==> Logged(e, home, kinds)
    requires RolledBack(MergeAll(entries), MergeAll(entries).Keys, a, b)
    ensures At(a, id) == At(b, id)
  {
    var w := MergeAll(entries);
    MergeTracks(entries, home, kinds, map[]);
    forall n: nat | n < |a.text| ensures Copies(a.text[n], id) == Copies(b.text[n], id) {
      if Second(n) in w && id in w[Second(n)] {
        assert Tracked(Second(n), id, w[Second(n)][id], home, kinds);
        assert w[Second(n)][id].actions[0] in w[Second(n)][id].actions;
      }
    }
    assert At(a, id).text == At(b, id).text;
  }

  // ---------------------------------------------------------------------- consumed twice

  /** The batch `first` was written and rolled back. */
  ghost predicate WroteAndRolledBack(first: seq<Entry>, kinds: map<Field, Kind>, order: seq<ShardRef>, a: Stores,
                                     b: Stores, b': Stores)
    requires a.vec.Keys == kinds.Keys
  {
    && Wrote(a, b, kinds, MergeAll(first), order)
    && RolledBack(MergeAll(first), MergeAll(first).Keys, b, b')
  }

  lemma StillHeld(first: seq<Entry>, kinds: map<Field, Kind>, order: seq<ShardRef>, a: Stores, b: Stores, b': Stores,
                  docs: map<Id, Data>, home: map<Id, nat>)
    requires Holds(a, kinds, docs, home) && WroteAndRolledBack(first, kinds, order, a, b, b')
    requires forall e :: e in first ==> WellFormed(e, docs, home, kinds)
    ensures |b'.text| == |a.text| && b'.vec.Keys == kinds.Keys
    ensures Holds(b', kinds, RequestAll(docs, first), HomeAfter(docs, home, RequestAll(docs, first), |a.text|))
  {
    MergedWriteIsFaithful(first, a, b, kinds, docs, home, order);
    forall id ensures At(b, id) == At(b', id) {
      RollbackUndoesNothing(first, home, kinds, b, b', id);
    }
  }

  /** Applying a batch over what it left already asks for the same. */
  lemma RequestedTwice(docs: map<Id, Data>, first: seq<Entry>, more: seq<Entry>)
    ensures RequestAll(RequestAll(docs, first), first + more) == RequestAll(docs, first + more)
  {
    var once := RequestAll(docs, first);
    var a, b := RequestAll(once, first + more), RequestAll(docs, first + more);
    forall id ensures Lookup(a, id) == Lookup(b, id) {
      if e :| e in first && e.id == id {
        assert e in first + more;
      } else {
        Untouched(docs, first, id);
      }
      LastDecides(once, docs, first + more, id);
    }
    SameLookups(a, b);
  }

  lemma SameLookups(a: map<Id, Data>, b: map<Id, Data>)
    requires forall id :: Lookup(a, id) == Lookup(b, id)
    ensures a == b
  {
    forall id ensures id in a <==> id in b { assert Lookup(a, id) == Lookup(b, id); }
    assert a.Keys == b.Keys;
    forall id | id in a ensures a[id] == b[id] { assert Lookup(a, id) == Lookup(b, id); }
  }

  /**
   A batch is written, rolled back, and consumed again together with entries logged behind it, each of
   them against the documents before the first write or those after it. In every order of the groups
   the stores end up as requested if and only if the second write mishandles no document.
   */
  lemma ConsumedTwiceIff(first: seq<Entry>, more: seq<Entry>, a: Stores, b: Stores, b': Stores,
                         kinds: map<Field, Kind>, docs: map<Id, Data>, home: map<Id, nat>, order: seq<ShardRef>)
    requires Holds(a, kinds, docs, home) && WroteAndRolledBack(first, kinds, order, a, b, b')
    requires forall e :: e in first ==> WellFormed(e, docs, home, kinds)
    requires forall e :: e in more ==> BeforeOrAfter(e, docs, home, RequestAll(docs, first), |a.text|, kinds)
    ensures b'.vec.Keys == kinds.Keys
    ensures var w, once, wanted := MergeAll(first + more), RequestAll(docs, first), RequestAll(docs, first + more);
            AlwaysRight(b', kinds, w, wanted) <==>
            (forall id :: !Mishandled(w, once, Homes(docs, home, once, |a.text|), |a.text|, kinds, wanted, id))
  {
    var once, shards := RequestAll(docs, first), |a.text|;
    StillHeld(first, kinds, order, a, b, b', docs, home);
    HomesFit(docs, home, once, shards, kinds);
    forall e | e in first + more ensures Logged(e, Homes(docs, home, once, shards), kinds) {
      assert BeforeOrAfter(e, docs, home, once, shards, kinds);
    }
    MergedWriteRightIff(first + more, b', kinds, once, HomeAfter(docs, home, once, shards),
                        Homes(docs, home, once, shards));
    RequestedTwice(docs, first, more);
  }

  /** If nothing behind the batch saw what its first write left, new documents are what can go wrong. */
  lemma ConsumedAgainIff(first: seq<Entry>, more: seq<Entry>, a: Stores, b: Stores, b': Stores,
                         kinds: map<Field, Kind>, docs: map<Id, Data>, home: map<Id, nat>, order: seq<ShardRef>)
    requires Holds(a, kinds, docs, home) && WroteAndRolledBack(first, kinds, order, a, b, b')
    requires forall e :: e in first || e in more ==> WellFormed(e, docs, home, kinds)
    ensures b'.vec.Keys == kinds.Keys
    ensures var w := MergeAll(first + more);
            AlwaysRight(b', kinds, w, RequestAll(docs, first + more)) <==>
            (forall id :: !StoredTwice(w, docs, RequestAll(docs, first), id))
  {
    var once, shards, wanted := RequestAll(docs, first), |a.text|, RequestAll(docs, first + more);
    ConsumedTwiceIff(first, more, a, b, b', kinds, docs, home, order);
    assert forall e :: e in first + more ==> e in first || e in more;
    forall id
      ensures Mishandled(MergeAll(first + more), once, Homes(docs, home, once, shards), shards, kinds, wanted, id) <==>
              StoredTwice(MergeAll(first + more), docs, once, id)
    {
      StoredTwiceIs(first + more, docs, home, once, shards, kinds, wanted, id);
    }
  }

  // --------------------------------------------------------------------- failing runs

  function AllParsedOf(entries: seq<Entry>): (log: seq<Record>)
    ensures |log| == |entries| && forall i :: 0 <= i < |log| ==> log[i] == Parsed(entries[i])
  {
    seq(|entries|, i requires 0 <= i < |entries| => Parsed(entries[i]))
  }

  lemma {:induction false} AppendAll(trace: seq<Event>, s: State, entries: seq<Entry>) returns (trace': seq<Event>)
    requires Led(trace, s)
    ensures Led(trace', s.(log := s.log + AllParsedOf(entries)))
    decreases |entries|
  {
    if entries == [] {
      trace' := trace;
      assert s.log + AllParsedOf([]) == s.log;
    } else {
      var k := |entries| - 1;
      trace' := AppendAll(trace, s, entries[..k]);
      LedOneMore(trace', s.(log := s.log + AllParsedOf(entries[..k])), Append(Parsed(entries[k])));
      assert s.log + AllParsedOf(entries[..k]) + [Parsed(entries[k])] == s.log + AllParsedOf(entries);
      trace' := trace' + [Append(Parsed(entries[k]))];
    }
  }

  /** Nothing is committed and the log holds these entries. */
  ghost predicate Uncommitted(s: State, entries: seq<Entry>) {
    && s.writeMark.None? && s.first == 1 && s.log == AllParsedOf(entries)
    && 0 < |entries| <= MAX_BATCH_SIZE
  }

  lemma {:induction false} ReadAll(trace: seq<Event>, s: State, entries: seq<Entry>, n: nat)
    returns (trace': seq<Event>)
    requires Led(trace, s) && Uncommitted(s, entries) && s.consumer.Idle? && n <= |entries|
    ensures Led(trace', s.(consumer := Reading(1, n + 1, |entries|, entries[..n])))
    decreases n
  {
    if n == 0 {
      LedOneMore(trace, s, Begin);
      trace' := trace + [Begin];
      assert entries[..0] == [];
    } else {
      trace' := ReadAll(trace, s, entries, n - 1);
      var s' := s.(consumer := Reading(1, n, |entries|, entries[..n - 1]));
      LedOneMore(trace', s', ReadOne);
      trace' := trace' + [ReadOne];
      assert entries[..n - 1] + [entries[n - 1]] == entries[..n];
    }
  }

  /** Reads all entries and writes them. */
  lemma WriteAll(trace: seq<Event>, s: State, entries: seq<Entry>) returns (trace': seq<Event>)
    requires Led(trace, s) && Uncommitted(s, entries) && s.consumer.Idle?
    ensures Led(trace', s.(readMark := Some((1, |entries|)), effects := s.effects + entries,
                           consumer := Flushed(1, |entries|, |entries|, entries)))
  {
    var n := |entries|;
    trace' := ReadAll(trace, s, entries, n);
    assert entries[..n] == entries;
    LedOneMore(trace', s.(consumer := Reading(1, n + 1, n, entries)), Mark);
    trace' := trace' + [Mark];
    LedOneMore(trace', s.(readMark := Some((1, n)), consumer := Marked(1, n, n, entries)), Write);
    trace' := trace' + [Write];
  }

  /** Crashes after the write, while more is logged, and rolls back. */
  lemma CrashAndRollBack(trace: seq<Event>, s: State, first: seq<Entry>, more: seq<Entry>) returns (trace': seq<Event>)
    requires Led(trace, s) && Uncommitted(s, first) && s.readMark == Some((1, |first|))
    ensures Led(trace', s.(consumer := Idle, log := AllParsedOf(first + more)))
  {
    LedOneMore(trace, s, Crash);
    trace' := AppendAll(trace + [Crash], s.(consumer := Idle), more);
    assert AllParsedOf(first) + AllParsedOf(more) == AllParsedOf(first + more);
    LedOneMore(trace', s.(consumer := Idle, log := AllParsedOf(first + more)), Event.Rollback);
    trace' := trace' + [Event.Rollback];
  }

  /**
   The consumer does write any batch twice: it crashes between the write and the commit, entries are
   logged behind the batch, reopening rolls back, and the whole of it is read and written.
   */
  lemma CrashWritesAgain(first: seq<Entry>, more: seq<Entry>) returns (trace: seq<Event>)
    requires first != [] && |first| + |more| <= MAX_BATCH_SIZE
    ensures Exec(trace).Some?
    ensures var s := Exec(trace).value; s.effects == first + (first + more) && s.written == []
  {
    assert Led([], INIT);
    trace := AppendAll([], INIT, first);
    assert [] + AllParsedOf(first) == AllParsedOf(first) && [] + first == first;
    var s := INIT.(log := AllParsedOf(first));
    trace := WriteAll(trace, s, first);
    s := s.(readMark := Some((1, |first|)), effects := first,
            consumer := Flushed(1, |first|, |first|, first));
    trace := CrashAndRollBack(trace, s, first, more);
    s := s.(consumer := Idle, log := AllParsedOf(first + more));
    trace := WriteAll(trace, s, first + more);
    assert Exec(trace).Some?;
  }

  /** One insert into an empty index, consumed that way, leaves two copies and, but for HNSW, two rows. */
  lemma InsertConsumedTwice(x: Id, d: Data, shards: nat, kinds: map<Field, Kind>, o: seq<ShardRef>, o': seq<ShardRef>)
    requires shards > 0 && d.vecs.Keys == kinds.Keys
    requires IsOrder(o, MergeAll([Entry(Latest, x, Insert, d)])) && IsOrder(o', MergeAll([Entry(Latest, x, Insert, d)]))
    ensures var e := Entry(Latest, x, Insert, d);
            var once := WriteGroups(Single(None, 0, shards, kinds), kinds, MergeAll([e]), o, x);
            var twice := WriteGroups(once, kinds, MergeAll([e]), o', x);
            && WellFormed(e, map[], map[], kinds)
            && twice.text[shards - 1] == [d.text, d.text]
            && forall f :: f in kinds ==>
                 twice.vec[f] == if kinds[f].Hnsw? then [d.vecs[f]] else [d.vecs[f], d.vecs[f]]
  {
    InsertedByBoth(x, d, d, shards, kinds, o, o');
  }

  function Deletion(x: Id, n: nat): Entry {
    Entry(Second(n), x, Delete, Data("", map[]))
  }

  function Creation(x: Id, d: Data): Entry {
    Entry(Latest, x, Insert, d)
  }

  /** A document deleted from its shard and created again: one document in two groups. */
  function InBoth(x: Id, n: nat, d: Data): MergeDocs {
    map[Second(n) := map[x := WalDoc([Delete], Data("", map[]))], Latest := map[x := WalDoc([Insert], d)]]
  }

  /**
   A visible document is deleted; before that is committed the process crashes and the document is created
   again. Both entries are logged as the write paths do, the second against what the first write left.
   */
  lemma ReinsertIsLogged(x: Id, d: Data, d': Data, shards: nat, kinds: map<Field, Kind>)
    requires shards > 0 && d.vecs.Keys == d'.vecs.Keys == kinds.Keys
    ensures var n, docs, home := shards - 1, map[x := d], map[x := shards - 1];
            var once := RequestAll(docs, [Deletion(x, n)]);
            && Housed(docs, home, shards, kinds) && WellFormed(Deletion(x, n), docs, home, kinds)
            && WellFormed(Creation(x, d'), once, HomeAfter(docs, home, once, shards), kinds)
            && RequestAll(docs, [Deletion(x, n)] + [Creation(x, d')]) == map[x := d']
  {
    MergedClash(x, shards - 1, d, d');
    LoggedSo(x, shards - 1, d, d', shards, kinds);
  }

  /**
   The two entries are in different groups. With the latest shard's group first the requested document and
   its vectors are lost, though no new document was stored twice.
   */
  lemma ReinsertIsLost(x: Id, d: Data, d': Data, once: map<Id, Data>, shards: nat, kinds: map<Field, Kind>,
                       order: seq<ShardRef>)
    requires shards > 0 && d.vecs.Keys == d'.vecs.Keys == kinds.Keys && order == [Latest, Second(shards - 1)]
    ensures var n, w := shards - 1, MergeAll([Deletion(x, shards - 1)] + [Creation(x, d')]);
            && IsOrder(order, w) && !StoredTwice(w, map[x := d], once, x)
            && WriteGroups(Single(None, n, shards, kinds), kinds, w, order, x) == Single(None, n, shards, kinds)
  {
    MergedClash(x, shards - 1, d, d');
    DeletedLast(x, shards - 1, d', shards, kinds, order);
    OrderOfBoth(x, shards - 1, d', order);
  }

  lemma OrderOfBoth(x: Id, n: nat, d: Data, order: seq<ShardRef>)
    requires order == [Latest, Second(n)]
    ensures IsOrder(order, InBoth(x, n, d))
  {
  }

  lemma LoggedSo(x: Id, n: nat, d: Data, d': Data, shards: nat, kinds: map<Field, Kind>)
    requires n == shards - 1 && d.vecs.Keys == d'.vecs.Keys == kinds.Keys
    ensures var docs, home := map[x := d], map[x := n];
            && Housed(docs, home, shards, kinds) && WellFormed(Deletion(x, n), docs, home, kinds)
            && WellFormed(Creation(x, d'), map[], HomeAfter(docs, home, map[], shards), kinds)
  {
  }

  lemma DeletedLast(x: Id, n: nat, d: Data, shards: nat, kinds: map<Field, Kind>, order: seq<ShardRef>)
    requires n == shards - 1 && d.vecs.Keys == kinds.Keys
    requires |order| == 2 && order[0] == Latest && order[1] == Second(n)
    ensures WriteGroups(Single(None, n, shards, kinds), kinds, InBoth(x, n, d), order, x) ==
            Single(None, n, shards, kinds)
  {
    var w := InBoth(x, n, d);
    assert Kept(w[Second(n)][x], kinds) && Outcome(w[Second(n)][x]).None?;
    assert Late(w[Latest][x], kinds) && Outcome(w[Latest][x]).Some?;
    DeleteWins(w, x, n, shards, kinds, order);
  }

  lemma DeleteWins(w: MergeDocs, x: Id, n: nat, shards: nat, kinds: map<Field, Kind>, order: seq<ShardRef>)
    requires n == shards - 1 && |order| == 2 && order[0] == Latest && order[1] == Second(n)
    requires Second(n) in w && x in w[Second(n)] && Kept(w[Second(n)][x], kinds) && Outcome(w[Second(n)][x]).None?
    requires Latest in w && x in w[Latest] && Late(w[Latest][x], kinds) && Outcome(w[Latest][x]).Some?
    ensures WriteGroups(Single(None, n, shards, kinds), kinds, w, order, x) == Single(None, n, shards, kinds)
  {
    var s := Single(None, n, shards, kinds);
    BothWrite(w, s, kinds, n, x);
    TwoGroups(s, kinds, w, order, x, Latest, Second(n), 0, 1);
    LostByDelete(n, w[Second(n)][x], w[Latest][x], shards, kinds);
  }

  lemma LostByDelete(n: nat, deleted: WalDoc, inserted: WalDoc, shards: nat, kinds: map<Field, Kind>)
    requires n == shards - 1 && Kept(deleted, kinds) && Late(inserted, kinds)
    requires Outcome(deleted).None? && Outcome(inserted).Some?
    ensures LateFirst(Single(None, n, shards, kinds), kinds, n, deleted, inserted) == Single(None, n, shards, kinds)
  {
    var s := Single(None, n, shards, kinds);
    BothSet(s, kinds, n, deleted, inserted);
    IsSingle(LateFirst(s, kinds, n, deleted, inserted), None, n, kinds);
  }

  lemma MergedClash(x: Id, n: nat, d: Data, d': Data)
    ensures MergeAll([Deletion(x, n)] + [Creation(x, d')]) == InBoth(x, n, d')
    ensures RequestAll(map[x := d], [Deletion(x, n)]) == map[]
    ensures RequestAll(map[x := d], [Deletion(x, n)] + [Creation(x, d')]) == map[x := d']
  {
    var e, e' := Deletion(x, n), Creation(x, d');
    assert ([e] + [e'])[..1] == [e] && [e][..0] == [];
    assert [] + [Delete] == [Delete] && [] + [Insert] == [Insert];
    var w := map[Second(n) := map[x := WalDoc([Delete], e.data)]];
    assert MergeAll([e]) == AddDocument(map[], e) == w;
    assert MergeAll([e] + [e']) == AddDocument(w, e') == w[Latest := map[x := WalDoc([Insert], d')]];
  }
}
