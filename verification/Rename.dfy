/** Renaming a collection (store.rs, db.rs). */
module Renames {
  // A renamed collection's documents are indexed again under the new name, and every entry that
  // no active document accounts for goes.
  import opened Common
  import opened FullText

  /** An active row of the documents table with its text. */
  datatype ActiveDoc = ActiveDoc(collection: string, path: string, id: int, text: string)

  function Filepath(d: ActiveDoc): string {
    d.collection + "/" + d.path
  }

  function Renamed(docs: seq<ActiveDoc>, old_: string, new_: string): seq<ActiveDoc> {
    seq(|docs|, i requires 0 <= i < |docs| =>
      if docs[i].collection == old_ then docs[i].(collection := new_) else docs[i])
  }

  function EntryOf(d: ActiveDoc): Entry {
    Entry(Filepath(d), d.id, d.text)
  }

  /** A document is indexed under `collection/path` with its id and its whole text. */
  lemma EntryIs(d: ActiveDoc)
    ensures EntryOf(d).path == d.collection + "/" + d.path && EntryOf(d).id == d.id && EntryOf(d).text == d.text
  {
  }

  function Live(docs: seq<ActiveDoc>): set<string> {
    set d | d in docs :: Filepath(d)
  }

  function RowsOf(docs: seq<ActiveDoc>, collection: string): seq<ActiveDoc> {
    Keep(docs, (d: ActiveDoc) => d.collection == collection)
  }

  /** The entries left: at a live path that is not being written again. */
  predicate Stays(docs: seq<ActiveDoc>, rows: seq<ActiveDoc>, e: Entry) {
    e.path in Live(docs) && e.path !in Live(rows)
  }

  function EntriesOf(rows: seq<ActiveDoc>): seq<Entry> {
    seq(|rows|, i requires 0 <= i < |rows| => EntryOf(rows[i]))
  }

  /** An entry no active document accounts for, outside the collection being renamed. */
  predicate Stale(docs: seq<ActiveDoc>, old_: string, e: Entry) {
    e.path !in Live(docs) && !(old_ + "/" <= e.path)
  }

  /** An entry counts as stale when no active document has its path and it is not below the old name. */
  lemma StaleIs(docs: seq<ActiveDoc>, old_: string, e: Entry)
    ensures Stale(docs, old_, e) <==>
              && (forall d | d in docs :: d.collection + "/" + d.path != e.path)
              && !(old_ + "/" <= e.path)
  {
  }

  /** What the index holds after a rename; `docs` are the rows after it. */
  function Reindexed(committed: seq<Entry>, docs: seq<ActiveDoc>, rows: seq<ActiveDoc>): seq<Entry> {
    Keep(committed, (e: Entry) => Stays(docs, rows, e)) + EntriesOf(rows)
  }

  /** Collection names have no slash, ids are a primary key and (collection, path) is unique. */
  ghost predicate ValidRows(docs: seq<ActiveDoc>) {
    && (forall d | d in docs :: '/' !in d.collection)
    && (forall i, j | 0 <= i < j < |docs| ::
          docs[i].id != docs[j].id && (docs[i].collection != docs[j].collection || docs[i].path != docs[j].path))
  }

  /** So no two rows share an indexed path. */
  lemma FilepathIsInjective(a: ActiveDoc, b: ActiveDoc)
    requires '/' !in a.collection && '/' !in b.collection && Filepath(a) == Filepath(b)
    ensures a.collection == b.collection && a.path == b.path
  {
    FirstSlash(a, b);
    FirstSlash(b, a);
    assert a.collection == Filepath(a)[..|a.collection|] && b.collection == Filepath(b)[..|b.collection|];
    assert a.path == Filepath(a)[|a.collection| + 1..] && b.path == Filepath(b)[|b.collection| + 1..];
  }

  lemma FirstSlash(a: ActiveDoc, b: ActiveDoc)
    requires '/' !in b.collection && Filepath(a) == Filepath(b)
    ensures |b.collection| <= |a.collection|
  {
    assert Filepath(a)[|a.collection|] == '/';
    assert forall i | 0 <= i < |b.collection| :: Filepath(b)[i] == b.collection[i];
  }

  // ── The deletes ────────────────────────────────────────────────────────────

  ghost predicate IdsByPath(entries: seq<Entry>) {
    forall a, b | a in entries && b in entries && a.id == b.id :: a.path == b.path
  }

  /** After deleting `gone`, with nothing else staged, the index is the rest of the snapshot. */
  ghost predicate Cleared(t: Tokenizer, f: Fts, committed: seq<Entry>, gone: seq<string>) {
    && Linked(t, f) && f.committed == committed && f.staged == []
    && Work(t, f) == Keep(committed, (e: Entry) => e.path !in gone)
  }

  lemma OneMoreDelete(t: Tokenizer, f: Fts, committed: seq<Entry>, gone: seq<string>, path: string)
    requires Cleared(t, f, committed, gone) && IdsByPath(committed) && t(path) != []
    ensures Cleared(t, Deleted(t, f, path), committed, gone + [path])
  {
    KeepMembers(committed, (e: Entry) => e.path !in gone);
    forall e | e in Work(t, f) && e.id in IdsAt(f, path)
      ensures e.path == path
    {
      var a :| a in committed && a.path == path && a.id == e.id;
    }
    assert Isolated(t, f, path);
    DeleteIsExact(t, f, path);
    DeleteKeepsLinked(t, f, path);
    KeepTwice(committed, (e: Entry) => e.path !in gone, (e: Entry) => e.path != path,
              (e: Entry) => e.path !in gone + [path]);
  }

  // ── The result ─────────────────────────────────────────────────────────────

  ghost predicate OnceEach(entries: seq<Entry>, path: string) {
    exists i :: 0 <= i < |entries| && entries[i].path == path
      && forall j | 0 <= j < |entries| && j != i :: entries[j].path != path
  }

  /** Entries at the path of an active row carry that row's id. */
  ghost predicate Aligned(entries: seq<Entry>, docs: seq<ActiveDoc>) {
    forall e, d | e in entries && d in docs && e.path == Filepath(d) :: e.id == d.id
  }

  /** After a rename no entry lies outside the active paths, every renamed document has exactly
      one entry, with its own id and text, and the entries of all other documents are as they
      were. */
  lemma RenameIsClean(committed: seq<Entry>, docs: seq<ActiveDoc>, rows: seq<ActiveDoc>)
    requires ValidRows(docs) && forall d | d in rows :: d in docs
    requires NoDuplicates(rows)
    ensures var after := Reindexed(committed, docs, rows);
            && (forall e | e in after :: e.path in Live(docs))
            && (forall d | d in rows :: OnceEach(after, Filepath(d)) && EntryOf(d) in after)
            && (forall e: Entry | e.path in Live(docs) && e.path !in Live(rows) :: e in after <==> e in committed)
  {
    var kept := Keep(committed, (e: Entry) => Stays(docs, rows, e));
    var after := Reindexed(committed, docs, rows);
    KeepMembers(committed, (e: Entry) => Stays(docs, rows, e));
    EntriesMembers(rows);
    assert forall e :: e in after <==> e in kept || e in EntriesOf(rows);
    forall d | d in rows
      ensures OnceEach(after, Filepath(d)) && EntryOf(d) in after
    {
      RowOnce(docs, rows, kept, d);
      assert EntryOf(d) in EntriesOf(rows);
    }
  }

  lemma EntriesMembers(rows: seq<ActiveDoc>)
    ensures forall e :: e in EntriesOf(rows) <==> exists d :: d in rows && e == EntryOf(d)
  {
    forall d | d in rows
      ensures EntryOf(d) in EntriesOf(rows)
    {
      var i :| 0 <= i < |rows| && rows[i] == d;
      assert EntriesOf(rows)[i] == EntryOf(d);
    }
  }

  lemma RowOnce(docs: seq<ActiveDoc>, rows: seq<ActiveDoc>, kept: seq<Entry>, d: ActiveDoc)
    requires ValidRows(docs) && d in rows && (forall d | d in rows :: d in docs)
    requires NoDuplicates(rows)
    requires forall e | e in kept :: Stays(docs, rows, e)
    ensures OnceEach(kept + EntriesOf(rows), Filepath(d))
  {
    var all := kept + EntriesOf(rows);
    var i :| 0 <= i < |rows| && rows[i] == d;
    assert all[|kept| + i].path == Filepath(d);
    forall j | 0 <= j < |all| && j != |kept| + i
      ensures all[j].path != Filepath(d)
    {
      if j < |kept| {
        assert all[j] in kept;
      } else {
        var other := rows[j - |kept|];
        assert other in rows && other != d;
        RowsDiffer(docs, other, d);
      }
    }
  }

  lemma RowsDiffer(docs: seq<ActiveDoc>, a: ActiveDoc, b: ActiveDoc)
    requires ValidRows(docs) && a in docs && b in docs && a != b
    ensures Filepath(a) != Filepath(b) && a.id != b.id
  {
    var i :| 0 <= i < |docs| && docs[i] == a;
    var j :| 0 <= j < |docs| && docs[j] == b;
    assert i < j || j < i;
    if Filepath(a) == Filepath(b) {
      FilepathIsInjective(a, b);
    }
  }

  /** The index stays in step with the documents, ids still naming one path each. */
  lemma RenameKeepsAlignment(committed: seq<Entry>, docs: seq<ActiveDoc>, rows: seq<ActiveDoc>)
    requires ValidRows(docs) && forall d | d in rows :: d in docs
    requires forall e, d | e in committed && d in docs && d !in rows && e.path == Filepath(d) :: e.id == d.id
    ensures Aligned(Reindexed(committed, docs, rows), docs)
    ensures IdsByPath(Reindexed(committed, docs, rows))
  {
    var after := Reindexed(committed, docs, rows);
    KeepMembers(committed, (e: Entry) => Stays(docs, rows, e));
    EntriesMembers(rows);
    forall e | e in after
      ensures exists d :: d in docs && e.path == Filepath(d) && e.id == d.id
    {
      if e in EntriesOf(rows) {
        var d :| d in rows && e == EntryOf(d);
        assert d in docs;
      } else {
        var d :| d in docs && Filepath(d) == e.path;
        assert d !in rows;
      }
    }
    forall e, d | e in after && d in docs && e.path == Filepath(d)
      ensures e.id == d.id
    {
      var own :| own in docs && e.path == Filepath(own) && e.id == own.id;
      if own != d {
        RowsDiffer(docs, own, d);
      }
    }
    forall a, b | a in after && b in after && a.id == b.id
      ensures a.path == b.path
    {
      var da :| da in docs && a.path == Filepath(da) && a.id == da.id;
      var db :| db in docs && b.path == Filepath(db) && b.id == db.id;
      if da != db {
        RowsDiffer(docs, da, db);
      }
    }
  }

  lemma RenamedIsValid(docs: seq<ActiveDoc>, old_: string, new_: string)
    requires ValidRows(docs) && '/' !in new_ && forall d | d in docs :: d.collection != new_
    ensures ValidRows(Renamed(docs, old_, new_))
  {
    var docs' := Renamed(docs, old_, new_);
    assert forall i | 0 <= i < |docs| :: docs[i] in docs;
    forall d | d in docs'
      ensures '/' !in d.collection
    {
      var i :| 0 <= i < |docs'| && docs'[i] == d;
    }
    forall i, j | 0 <= i < j < |docs'|
      ensures docs'[i].id != docs'[j].id && (docs'[i].collection != docs'[j].collection || docs'[i].path != docs'[j].path)
    {
      assert docs[i].id != docs[j].id;
    }
  }

  /** Renaming to an unused name keeps the rows valid, and the rows read back under that name
      are exactly the renamed ones, each once. */
  lemma RenamedRows(docs: seq<ActiveDoc>, old_: string, new_: string)
    requires ValidRows(docs) && '/' !in new_ && forall d | d in docs :: d.collection != new_
    ensures var docs' := Renamed(docs, old_, new_);
            var rows := RowsOf(docs', new_);
            && ValidRows(docs') && (forall d | d in rows :: d in docs')
            && NoDuplicates(rows)
            && (forall d | d in docs && d.collection == old_ :: d.(collection := new_) in rows)
            && (forall d | d in docs' && d !in rows :: d in docs && d.collection != old_)
  {
    var docs' := Renamed(docs, old_, new_);
    RenamedIsValid(docs, old_, new_);
    assert NoDuplicates(docs');
    KeepMembers(docs', (d: ActiveDoc) => d.collection == new_);
    KeepDistinct(docs', (d: ActiveDoc) => d.collection == new_);
    forall d | d in docs && d.collection == old_
      ensures d.(collection := new_) in docs'
    {
      var i :| 0 <= i < |docs| && docs[i] == d;
      assert docs'[i] == d.(collection := new_);
    }
    forall d | d in docs' && d !in RowsOf(docs', new_)
      ensures d in docs && d.collection != old_
    {
      var i :| 0 <= i < |docs'| && docs'[i] == d;
    }
  }

  /** Renaming a collection to an unused name, in an index whose entries carry the ids of the
      documents they are for: nothing is left at a path without an active document, every
      document of the collection has exactly one entry under its new name, all other entries
      are untouched, and the index is in step again. */
  lemma RenameIsSound(committed: seq<Entry>, docs: seq<ActiveDoc>, old_: string, new_: string)
    requires ValidRows(docs) && '/' !in new_ && forall d | d in docs :: d.collection != new_
    requires Aligned(committed, docs)
    ensures var docs' := Renamed(docs, old_, new_);
            var after := Reindexed(committed, docs', RowsOf(docs', new_));
            && (forall e | e in after :: e.path in Live(docs'))
            && (forall d | d in docs && d.collection == old_ ::
                  OnceEach(after, Filepath(d.(collection := new_))) && EntryOf(d.(collection := new_)) in after)
            && (forall d, e: Entry | d in docs && d.collection != old_ && e.path == Filepath(d) :: e in after <==> e in committed)
            && Aligned(after, docs') && IdsByPath(after)
  {
    var docs' := Renamed(docs, old_, new_);
    var rows := RowsOf(docs', new_);
    RenamedRows(docs, old_, new_);
    RenameIsClean(committed, docs', rows);
    RenameKeepsAlignment(committed, docs', rows);
    forall d | d in docs && d.collection != old_
      ensures Filepath(d) in Live(docs') && Filepath(d) !in Live(rows)
    {
      var i :| 0 <= i < |docs| && docs[i] == d;
      assert docs'[i] == d;
      KeepMembers(docs', (d: ActiveDoc) => d.collection == new_);
      forall r | r in rows
        ensures Filepath(r) != Filepath(d)
      {
        RowsDiffer(docs', r, d);
      }
    }
  }

  // ── The call ───────────────────────────────────────────────────────────────

  /** `taken`: the new name is a collection or occurs in the documents table. */
  method RenameCollection(fts: FtsIndex, docs: seq<ActiveDoc>, taken: bool, old_: string, new_: string)
    returns (ok: bool, docs': seq<ActiveDoc>, staleRemoved: nat)
    requires Linked(fts.tokens, fts.Current()) && fts.staged == [] && fts.ops == []
    requires IdsByPath(fts.committed)
    requires forall e | e in fts.committed :: fts.tokens(e.path) != []
    requires forall d | d in docs && d.collection == old_ :: fts.tokens(Filepath(d.(collection := new_))) != []
    requires !taken ==> forall d | d in docs :: d.collection != new_
    modifies fts
    ensures ok == !taken
    ensures taken ==> docs' == docs && fts.Current() == old(fts.Current())
    ensures ok ==> docs' == Renamed(docs, old_, new_)
                   && Linked(fts.tokens, fts.Current())
                   && fts.staged == []
                   && fts.committed == Reindexed(old(fts.committed), docs', RowsOf(docs', new_))
                   && staleRemoved == |Keep(old(fts.committed), (e: Entry) => Stale(docs', old_, e))|
  {
    if taken {
      return false, docs, 0;
    }
    ok, docs' := true, Renamed(docs, old_, new_);
    var rows := RowsOf(docs', new_);
    var t, committed := fts.tokens, fts.committed;
    RowsHaveTokens(t, docs, old_, new_);
    var deletes;
    deletes, staleRemoved := ListDeletes(committed, docs', rows, old_);
    DeleteEach(fts, committed, deletes);
    DeletesAreExact(committed, docs', rows, deletes);
    InsertEach(fts, rows);
    fts.Commit();
  }

  /** The paths to clear: those about to be written, and every indexed one that is not live. */
  method ListDeletes(committed: seq<Entry>, docs: seq<ActiveDoc>, rows: seq<ActiveDoc>, old_: string)
    returns (deletes: seq<string>, staleRemoved: nat)
    ensures forall p :: p in deletes <==> p in EntryPaths(rows) || exists e :: e in committed && e.path == p && p !in Live(docs)
    ensures staleRemoved == |Keep(committed, (e: Entry) => Stale(docs, old_, e))|
  {
    deletes, staleRemoved := EntryPaths(rows), 0;
    for i := 0 to |committed|
      invariant forall p :: p in deletes <==>
                              p in EntryPaths(rows) || exists e :: e in committed[..i] && e.path == p && p !in Live(docs)
      invariant staleRemoved == |Keep(committed[..i], (e: Entry) => Stale(docs, old_, e))|
    {
      assert committed[..i + 1] == committed[..i] + [committed[i]];
      KeepLast(committed[..i], committed[i], (e: Entry) => Stale(docs, old_, e));
      if committed[i].path !in Live(docs) {
        if !(old_ + "/" <= committed[i].path) {
          staleRemoved := staleRemoved + 1;
        }
        deletes := deletes + [committed[i].path];
      }
    }
    assert committed[..|committed|] == committed;
  }

  function EntryPaths(rows: seq<ActiveDoc>): seq<string> {
    seq(|rows|, i requires 0 <= i < |rows| => Filepath(rows[i]))
  }

  lemma RowsHaveTokens(t: Tokenizer, docs: seq<ActiveDoc>, old_: string, new_: string)
    requires forall d | d in docs :: d.collection != new_
    requires forall d | d in docs && d.collection == old_ :: t(Filepath(d.(collection := new_))) != []
    ensures var rows := RowsOf(Renamed(docs, old_, new_), new_);
            forall p | p in EntryPaths(rows) :: t(p) != []
  {
    var docs' := Renamed(docs, old_, new_);
    KeepMembers(docs', (d: ActiveDoc) => d.collection == new_);
    forall p | p in EntryPaths(RowsOf(docs', new_))
      ensures t(p) != []
    {
      var i :| 0 <= i < |RowsOf(docs', new_)| && p == Filepath(RowsOf(docs', new_)[i]);
      var d := RowsOf(docs', new_)[i];
      assert d in RowsOf(docs', new_);
      var j :| 0 <= j < |docs'| && docs'[j] == d;
      assert docs[j] in docs;
    }
  }

  lemma DeletesAreExact(committed: seq<Entry>, docs: seq<ActiveDoc>, rows: seq<ActiveDoc>, deletes: seq<string>)
    requires forall p :: p in deletes <==>
                           p in EntryPaths(rows) || exists e :: e in committed && e.path == p && p !in Live(docs)
    ensures Keep(committed, (e: Entry) => e.path !in deletes) == Keep(committed, (e: Entry) => Stays(docs, rows, e))
  {
    forall p
      ensures p in EntryPaths(rows) <==> p in Live(rows)
    {
      if p in Live(rows) {
        var d :| d in rows && p == Filepath(d);
        var i :| 0 <= i < |rows| && rows[i] == d;
        assert EntryPaths(rows)[i] == p;
      }
    }
    KeepAgree(committed, (e: Entry) => e.path !in deletes, (e: Entry) => Stays(docs, rows, e));
  }

  lemma NothingCleared(t: Tokenizer, f: Fts, committed: seq<Entry>)
    requires Linked(t, f) && f.staged == [] && f.ops == [] && f.committed == committed
    ensures Cleared(t, f, committed, [])
  {
    KeepAll(committed, (e: Entry) => e.path !in []);
  }

  method DeleteEach(fts: FtsIndex, committed: seq<Entry>, deletes: seq<string>)
    requires Linked(fts.tokens, fts.Current()) && fts.staged == [] && fts.ops == [] && fts.committed == committed
    requires IdsByPath(committed)
    requires forall i | 0 <= i < |deletes| :: fts.tokens(deletes[i]) != []
    modifies fts
    ensures Cleared(fts.tokens, fts.Current(), committed, deletes)
  {
    NothingCleared(fts.tokens, fts.Current(), committed);
    assert deletes[..0] == [];
    for i := 0 to |deletes|
      invariant Cleared(fts.tokens, fts.Current(), committed, deletes[..i])
    {
      assert deletes[..i + 1] == deletes[..i] + [deletes[i]];
      DeleteOne(fts, committed, deletes[..i], deletes[i]);
    }
    assert deletes[..|deletes|] == deletes;
  }

  method DeleteOne(fts: FtsIndex, committed: seq<Entry>, ghost gone: seq<string>, path: string)
    requires Cleared(fts.tokens, fts.Current(), committed, gone)
    requires IdsByPath(committed) && fts.tokens(path) != []
    modifies fts
    ensures Cleared(fts.tokens, fts.Current(), committed, gone + [path])
  {
    OneMoreDelete(fts.tokens, fts.Current(), committed, gone, path);
    fts.DeleteByFilepath(path);
  }

  method InsertEach(fts: FtsIndex, rows: seq<ActiveDoc>)
    requires Linked(fts.tokens, fts.Current())
    modifies fts
    ensures Linked(fts.tokens, fts.Current())
    ensures Work(fts.tokens, fts.Current()) == old(Work(fts.tokens, fts.Current())) + EntriesOf(rows)
  {
    for i := 0 to |rows|
      invariant Linked(fts.tokens, fts.Current())
      invariant Work(fts.tokens, fts.Current()) == old(Work(fts.tokens, fts.Current())) + EntriesOf(rows[..i])
    {
      InsertAppends(fts.tokens, fts.Current(), EntryOf(rows[i]));
      assert EntriesOf(rows[..i + 1]) == EntriesOf(rows[..i]) + [EntryOf(rows[i])];
      fts.InsertDocument(EntryOf(rows[i]));
    }
    assert rows[..|rows|] == rows;
  }
}
