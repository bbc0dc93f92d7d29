/** The full-text index writer (fts.rs). */
module FullText {
  // Deletes are built from a token phrase and document ids and applied in order to a committed
  // snapshot. Tantivy is a list of entries, plus the operations buffered since the last commit.
  import opened Common

  datatype Token = Token(position: int, term: string)

  /** What the analyzer makes of a path. */
  type Tokenizer = string -> seq<Token>

  datatype Entry = Entry(path: string, id: int, text: string)

  datatype Staged = Staged(path: string, id: int)

  datatype Op =
    | Add(entry: Entry)
    | DeleteMatching(phrase: seq<Token>, ids: set<int>)
    | DeleteAll

  /** `committed` is what a search sees; `ops` wait for the commit; `staged` lists the entries
      added since then. */
  datatype Fts = Fts(committed: seq<Entry>, ops: seq<Op>, staged: seq<Staged>, writing: bool, legacy: bool)

  // ── Buffered operations ────────────────────────────────────────────────────

  predicate ShiftedIn(t: Token, tokens: seq<Token>, shift: int) {
    Token(t.position + shift, t.term) in tokens
  }

  predicate MatchesAt(phrase: seq<Token>, tokens: seq<Token>, shift: int) {
    forall t {:trigger ShiftedIn(t, tokens, shift)} | t in phrase :: ShiftedIn(t, tokens, shift)
  }

  /** A single token matches anywhere; several match when they stand at the same distances. */
  predicate Matches(phrase: seq<Token>, tokens: seq<Token>) {
    if phrase == [] then false
    else if |phrase| == 1 then exists t :: t in tokens && t.term == phrase[0].term
    else exists t :: t in tokens && MatchesAt(phrase, tokens, t.position - phrase[0].position)
  }

  lemma OwnPathMatches(tokens: seq<Token>)
    requires tokens != []
    ensures Matches(tokens, tokens)
  {
    var shift := tokens[0].position - tokens[0].position;
    forall t | t in tokens
      ensures ShiftedIn(t, tokens, shift)
    {
      assert Token(t.position + shift, t.term) == t;
    }
    assert tokens[0] in tokens && MatchesAt(tokens, tokens, shift);
  }

  /** The tokens of the phrase stand in the text at their distances. */
  ghost predicate ContainsPhrase(tokens: seq<Token>, phrase: seq<Token>) {
    phrase != [] && exists shift :: ContainsAt(tokens, phrase, shift)
  }

  ghost predicate ContainsAt(tokens: seq<Token>, phrase: seq<Token>, shift: int) {
    forall i | 0 <= i < |phrase| :: Token(phrase[i].position + shift, phrase[i].term) in tokens
  }

  lemma MatchesIsContains(phrase: seq<Token>, tokens: seq<Token>)
    ensures Matches(phrase, tokens) <==> ContainsPhrase(tokens, phrase)
  {
    if Matches(phrase, tokens) {
      if |phrase| == 1 {
        var t :| t in tokens && t.term == phrase[0].term;
        assert Token(phrase[0].position + (t.position - phrase[0].position), phrase[0].term) == t;
        assert ContainsAt(tokens, phrase, t.position - phrase[0].position);
      } else {
        var t :| t in tokens && MatchesAt(phrase, tokens, t.position - phrase[0].position);
        forall i | 0 <= i < |phrase|
          ensures Token(phrase[i].position + (t.position - phrase[0].position), phrase[i].term) in tokens
        {
          assert ShiftedIn(phrase[i], tokens, t.position - phrase[0].position);
        }
        assert ContainsAt(tokens, phrase, t.position - phrase[0].position);
      }
    }
    if phrase != [] {
      if shift :| ContainsAt(tokens, phrase, shift) {
        ContainedMatches(phrase, tokens, shift);
      }
    }
  }

  lemma ContainedMatches(phrase: seq<Token>, tokens: seq<Token>, shift: int)
    requires phrase != [] && ContainsAt(tokens, phrase, shift)
    ensures Matches(phrase, tokens)
  {
    var first := Token(phrase[0].position + shift, phrase[0].term);
    assert first in tokens && first.position - phrase[0].position == shift;
    ContainedMatchesAt(phrase, tokens, shift);
    assert MatchesAt(phrase, tokens, first.position - phrase[0].position);
  }

  lemma ContainedMatchesAt(phrase: seq<Token>, tokens: seq<Token>, shift: int)
    requires ContainsAt(tokens, phrase, shift)
    ensures MatchesAt(phrase, tokens, shift)
  {
    forall t | t in phrase
      ensures ShiftedIn(t, tokens, shift)
    {
      var i :| 0 <= i < |phrase| && phrase[i] == t;
      assert Token(phrase[i].position + shift, phrase[i].term) in tokens;
    }
  }

  predicate Hit(t: Tokenizer, phrase: seq<Token>, ids: set<int>, e: Entry) {
    Matches(phrase, t(e.path)) && e.id in ids
  }

  function ApplyOp(t: Tokenizer, op: Op, entries: seq<Entry>): seq<Entry> {
    match op
    case Add(entry) => entries + [entry]
    case DeleteMatching(phrase, ids) => Keep(entries, (e: Entry) => !Hit(t, phrase, ids, e))
    case DeleteAll => []
  }

  function Apply(t: Tokenizer, ops: seq<Op>, entries: seq<Entry>): seq<Entry> {
    if ops == [] then entries else ApplyOp(t, ops[|ops| - 1], Apply(t, ops[..|ops| - 1], entries))
  }

  /** What a commit now would make searchable. */
  function Work(t: Tokenizer, f: Fts): seq<Entry> {
    Apply(t, f.ops, f.committed)
  }

  lemma ApplyMore(t: Tokenizer, ops: seq<Op>, op: Op, entries: seq<Entry>)
    ensures Apply(t, ops + [op], entries) == ApplyOp(t, op, Apply(t, ops, entries))
  {
    assert (ops + [op])[..|ops|] == ops;
  }

  // ── The writer's calls ─────────────────────────────────────────────────────

  function IdsAt(f: Fts, path: string): set<int> {
    (set e | e in f.committed && e.path == path :: e.id) + (set s | s in f.staged && s.path == path :: s.id)
  }

  function Deleted(t: Tokenizer, f: Fts, path: string): Fts {
    if t(path) == [] then f
    else
      var ids := IdsAt(f, path);
      var g := f.(staged := Keep(f.staged, (s: Staged) => s.path != path));
      if ids == {} then g else g.(ops := f.ops + [DeleteMatching(t(path), ids)], writing := true)
  }

  function Inserted(f: Fts, e: Entry): Fts {
    f.(ops := f.ops + [Add(e)], staged := f.staged + [Staged(e.path, e.id)], writing := true)
  }

  function Committed(t: Tokenizer, f: Fts): Fts {
    if !f.writing then f else f.(committed := Work(t, f), ops := [], staged := [])
  }

  function InsertedAll(f: Fts, docs: seq<Entry>): Fts {
    if docs == [] then f else Inserted(InsertedAll(f, docs[..|docs| - 1]), docs[|docs| - 1])
  }

  /** An index of the old schema is replaced by an empty one first. */
  function Recreated(f: Fts): Fts {
    if f.legacy then Fts([], [], [], false, false) else f
  }

  predicate AllRead(docs: seq<Option<Entry>>) {
    forall d | d in docs :: d.Some?
  }

  function Read(docs: seq<Option<Entry>>): seq<Entry>
    requires AllRead(docs)
  {
    seq(|docs|, i requires 0 <= i < |docs| => assert docs[i] in docs; docs[i].value)
  }

  /** A document that cannot be read rolls everything buffered back. */
  function Rebuilt(t: Tokenizer, f: Fts, docs: seq<Option<Entry>>): Fts {
    var r := Recreated(f);
    if AllRead(docs) then
      Committed(t, InsertedAll(r.(ops := r.ops + [DeleteAll], staged := [], writing := true), Read(docs)))
    else r.(ops := [], staged := [], writing := true)
  }

  // ── Deletes are exact ──────────────────────────────────────────────────────

  /** Everything not committed is listed as staged, and nothing waits without a writer. */
  ghost predicate Linked(t: Tokenizer, f: Fts) {
    && (forall e | e in Work(t, f) :: e in f.committed || Staged(e.path, e.id) in f.staged)
    && (!f.writing ==> f.ops == [] && f.staged == [])
  }

  function Without(entries: seq<Entry>, path: string): seq<Entry> {
    Keep(entries, (e: Entry) => e.path != path)
  }

  /** Nothing at another path is both hit by the path's phrase and carries one of its ids. */
  ghost predicate Isolated(t: Tokenizer, f: Fts, path: string) {
    forall e | e in Work(t, f) && e.path != path :: !Hit(t, t(path), IdsAt(f, path), e)
  }

  /** A delete removes exactly the entries stored under the path if and only if no other path
      that contains it as a phrase shares an id with it; a path without tokens is never
      removed. */
  lemma DeleteIsExact(t: Tokenizer, f: Fts, path: string)
    requires Linked(t, f)
    ensures Work(t, Deleted(t, f, path)) == Without(Work(t, f), path) <==>
              if t(path) == [] then forall e | e in Work(t, f) :: e.path != path else Isolated(t, f, path)
  {
    var ids := IdsAt(f, path);
    if t(path) == [] {
      KeepAgree(Work(t, f), (e: Entry) => true, (e: Entry) => e.path != path);
      KeepAll(Work(t, f), (e: Entry) => true);
    } else {
      DeleteWork(t, f, path);
      forall e | e in Work(t, f) && e.path == path
        ensures Hit(t, t(path), ids, e)
      {
        OwnPathMatches(t(path));
        EntryHasId(t, f, e);
      }
      KeepAgree(Work(t, f), (e: Entry) => !Hit(t, t(path), ids, e), (e: Entry) => e.path != path);
    }
  }

  lemma EntryHasId(t: Tokenizer, f: Fts, e: Entry)
    requires Linked(t, f) && e in Work(t, f)
    ensures e.id in IdsAt(f, e.path)
  {
    if e !in f.committed {
      assert Staged(e.path, e.id) in f.staged;
    }
  }

  lemma DeleteWork(t: Tokenizer, f: Fts, path: string)
    requires t(path) != []
    ensures Work(t, Deleted(t, f, path)) == Keep(Work(t, f), (e: Entry) => !Hit(t, t(path), IdsAt(f, path), e))
  {
    var ids := IdsAt(f, path);
    if ids == {} {
      KeepAll(Work(t, f), (e: Entry) => !Hit(t, t(path), ids, e));
    } else {
      ApplyMore(t, f.ops, DeleteMatching(t(path), ids), f.committed);
    }
  }

  /** A delete takes, of everything there would be after a commit, the entries whose path contains the
      given one's tokens as a phrase and whose id was added or committed under it. */
  lemma DeleteTakes(t: Tokenizer, f: Fts, path: string, e: Entry)
    ensures e in Work(t, Deleted(t, f, path)) <==>
              && e in Work(t, f)
              && !(ContainsPhrase(t(e.path), t(path))
                   && ((exists c :: c in f.committed && c.path == path && c.id == e.id) || Staged(path, e.id) in f.staged))
  {
    MatchesIsContains(t(path), t(e.path));
    if t(path) != [] {
      DeleteWork(t, f, path);
      KeepMembers(Work(t, f), (e: Entry) => !Hit(t, t(path), IdsAt(f, path), e));
      if Staged(path, e.id) in f.staged {
        assert Staged(path, e.id).path == path && Staged(path, e.id).id == e.id;
      }
      if s :| s in f.staged && s.path == path && s.id == e.id {
        assert s == Staged(path, e.id);
      }
    }
  }

  lemma DeleteKeepsLinked(t: Tokenizer, f: Fts, path: string)
    requires Linked(t, f)
    ensures Linked(t, Deleted(t, f, path))
  {
    if t(path) != [] {
      var g := Deleted(t, f, path);
      DeleteWork(t, f, path);
      KeepMembers(Work(t, f), (e: Entry) => !Hit(t, t(path), IdsAt(f, path), e));
      KeepMembers(f.staged, (s: Staged) => s.path != path);
      forall e | e in Work(t, g)
        ensures e in g.committed || Staged(e.path, e.id) in g.staged
      {
        if e.path == path {
          OwnPathMatches(t(path));
          EntryHasId(t, f, e);
          assert false;
        }
      }
    }
  }

  lemma InsertAppends(t: Tokenizer, f: Fts, e: Entry)
    requires Linked(t, f)
    ensures Work(t, Inserted(f, e)) == Work(t, f) + [e]
    ensures Linked(t, Inserted(f, e))
  {
    ApplyMore(t, f.ops, Add(e), f.committed);
  }

  lemma {:induction false} InsertAllAppends(t: Tokenizer, f: Fts, docs: seq<Entry>)
    requires Linked(t, f)
    ensures Linked(t, InsertedAll(f, docs)) && Work(t, InsertedAll(f, docs)) == Work(t, f) + docs
  {
    if docs == [] {
      assert Work(t, f) + docs == Work(t, f);
    } else {
      var init, last := docs[..|docs| - 1], docs[|docs| - 1];
      InsertAllAppends(t, f, init);
      InsertAppends(t, InsertedAll(f, init), last);
      assert docs == init + [last];
      assert Work(t, f) + docs == (Work(t, f) + init) + [last];
    }
  }

  lemma {:induction false} InsertedKeeps(f: Fts, docs: seq<Entry>)
    requires f.writing
    ensures InsertedAll(f, docs).committed == f.committed && InsertedAll(f, docs).legacy == f.legacy
    ensures InsertedAll(f, docs).writing
  {
    if docs != [] {
      InsertedKeeps(f, docs[..|docs| - 1]);
    }
  }

  lemma CommitIsWork(t: Tokenizer, f: Fts)
    requires Linked(t, f)
    ensures var g := Committed(t, f);
            Linked(t, g) && g.committed == Work(t, f) && Work(t, g) == Work(t, f) && g.ops == [] && g.staged == []
  {
  }

  lemma RebuildResult(t: Tokenizer, f: Fts, docs: seq<Option<Entry>>)
    requires Linked(t, f)
    ensures var g := Rebuilt(t, f, docs);
            && Linked(t, g) && g.ops == [] && g.staged == [] && !g.legacy
            && g.committed == if AllRead(docs) then Read(docs) else if f.legacy then [] else f.committed
  {
    var r := Recreated(f);
    if AllRead(docs) {
      var cleared := r.(ops := r.ops + [DeleteAll], staged := [], writing := true);
      ApplyMore(t, r.ops, DeleteAll, r.committed);
      InsertAllAppends(t, cleared, Read(docs));
      InsertedKeeps(cleared, Read(docs));
      CommitIsWork(t, InsertedAll(cleared, Read(docs)));
    }
  }

  // ── Refinement over runs ───────────────────────────────────────────────────

  datatype Call =
    | AddDocument(entry: Entry)
    | InsertDocument(entry: Entry)
    | DeleteByFilepath(path: string)
    | CommitCall
    | RebuildCall(docs: seq<Option<Entry>>)

  ghost function Do(t: Tokenizer, f: Fts, call: Call): Fts {
    match call
    case AddDocument(e) => Inserted(Deleted(t, f, e.path), e)
    case InsertDocument(e) => Inserted(f, e)
    case DeleteByFilepath(path) => Deleted(t, f, path)
    case CommitCall => Committed(t, f)
    case RebuildCall(docs) => Rebuilt(t, f, docs)
  }

  ghost function Run(t: Tokenizer, f: Fts, calls: seq<Call>): Fts {
    if calls == [] then f else Do(t, Run(t, f, calls[..|calls| - 1]), calls[|calls| - 1])
  }

  /** The plain store the writer stands for: deletes take exactly one path. */
  datatype Plain = Plain(committed: seq<Entry>, work: seq<Entry>, legacy: bool)

  ghost function PlainDo(p: Plain, call: Call): Plain {
    match call
    case AddDocument(e) => p.(work := Without(p.work, e.path) + [e])
    case InsertDocument(e) => p.(work := p.work + [e])
    case DeleteByFilepath(path) => p.(work := Without(p.work, path))
    case CommitCall => p.(committed := p.work)
    case RebuildCall(docs) =>
      var entries := if AllRead(docs) then Read(docs) else if p.legacy then [] else p.committed;
      Plain(entries, entries, false)
  }

  ghost function PlainRun(p: Plain, calls: seq<Call>): Plain {
    if calls == [] then p else PlainDo(PlainRun(p, calls[..|calls| - 1]), calls[|calls| - 1])
  }

  ghost function Abstract(t: Tokenizer, f: Fts): Plain {
    Plain(f.committed, Work(t, f), f.legacy)
  }

  /** Every id stands for one path. */
  type Owner = int -> string

  ghost predicate Owned(owner: Owner, f: Fts) {
    && (forall e | e in f.committed :: owner(e.id) == e.path)
    && (forall s | s in f.staged :: owner(s.id) == s.path)
  }

  ghost predicate Disciplined(t: Tokenizer, owner: Owner, call: Call) {
    match call
    case AddDocument(e) => owner(e.id) == e.path && t(e.path) != []
    case InsertDocument(e) => owner(e.id) == e.path
    case DeleteByFilepath(path) => t(path) != []
    case CommitCall => true
    case RebuildCall(docs) => forall d | d in docs && d.Some? :: owner(d.value.id) == d.value.path
  }

  lemma WorkIsOwned(t: Tokenizer, owner: Owner, f: Fts)
    requires Linked(t, f) && Owned(owner, f)
    ensures forall e | e in Work(t, f) :: owner(e.id) == e.path
  {
    forall e | e in Work(t, f)
      ensures owner(e.id) == e.path
    {
      if e !in f.committed {
        assert Staged(e.path, e.id) in f.staged;
      }
    }
  }

  lemma OwnedDelete(t: Tokenizer, owner: Owner, f: Fts, path: string)
    requires Linked(t, f) && Owned(owner, f) && t(path) != []
    ensures var g := Deleted(t, f, path);
            && Linked(t, g) && Owned(owner, g) && g.committed == f.committed && g.legacy == f.legacy
            && Work(t, g) == Without(Work(t, f), path)
  {
    WorkIsOwned(t, owner, f);
    assert forall id | id in IdsAt(f, path) :: owner(id) == path;
    assert Isolated(t, f, path);
    DeleteIsExact(t, f, path);
    DeleteKeepsLinked(t, f, path);
    KeepMembers(f.staged, (s: Staged) => s.path != path);
  }

  lemma AddRefines(t: Tokenizer, owner: Owner, f: Fts, e: Entry)
    requires Linked(t, f) && Owned(owner, f) && Disciplined(t, owner, AddDocument(e))
    ensures var g := Inserted(Deleted(t, f, e.path), e);
            Linked(t, g) && Owned(owner, g) && Abstract(t, g) == PlainDo(Abstract(t, f), AddDocument(e))
  {
    OwnedDelete(t, owner, f, e.path);
    InsertAppends(t, Deleted(t, f, e.path), e);
  }

  lemma CommitRefines(t: Tokenizer, owner: Owner, f: Fts)
    requires Linked(t, f) && Owned(owner, f)
    ensures var g := Committed(t, f);
            Linked(t, g) && Owned(owner, g) && Abstract(t, g) == PlainDo(Abstract(t, f), CommitCall)
  {
    WorkIsOwned(t, owner, f);
    CommitIsWork(t, f);
  }

  lemma RebuildRefines(t: Tokenizer, owner: Owner, f: Fts, docs: seq<Option<Entry>>)
    requires Linked(t, f) && Owned(owner, f) && Disciplined(t, owner, RebuildCall(docs))
    ensures var g := Rebuilt(t, f, docs);
            Linked(t, g) && Owned(owner, g) && Abstract(t, g) == PlainDo(Abstract(t, f), RebuildCall(docs))
  {
    RebuildResult(t, f, docs);
    if AllRead(docs) {
      ReadIsOwned(owner, docs);
    }
  }

  lemma ReadIsOwned(owner: Owner, docs: seq<Option<Entry>>)
    requires AllRead(docs)
    requires forall d | d in docs && d.Some? :: owner(d.value.id) == d.value.path
    ensures forall e | e in Read(docs) :: owner(e.id) == e.path
  {
    forall e | e in Read(docs)
      ensures owner(e.id) == e.path
    {
      var i :| 0 <= i < |docs| && e == Read(docs)[i];
      assert docs[i] in docs;
    }
  }

  lemma StepRefines(t: Tokenizer, owner: Owner, f: Fts, call: Call)
    requires Linked(t, f) && Owned(owner, f) && Disciplined(t, owner, call)
    ensures var g := Do(t, f, call);
            Linked(t, g) && Owned(owner, g) && Abstract(t, g) == PlainDo(Abstract(t, f), call)
  {
    match call
    case AddDocument(e) => AddRefines(t, owner, f, e);
    case InsertDocument(e) => InsertAppends(t, f, e);
    case DeleteByFilepath(path) => OwnedDelete(t, owner, f, path);
    case CommitCall => CommitRefines(t, owner, f);
    case RebuildCall(docs) => RebuildRefines(t, owner, f, docs);
  }

  /** Over any run of adds, inserts, deletes, commits and rebuilds that succeed or fail, the
      index holds what the plain store holds, committed and buffered. */
  lemma {:induction false} RunRefines(t: Tokenizer, owner: Owner, f: Fts, calls: seq<Call>)
    requires Linked(t, f) && Owned(owner, f)
    requires forall c | c in calls :: Disciplined(t, owner, c)
    ensures var g := Run(t, f, calls);
            Linked(t, g) && Owned(owner, g) && Abstract(t, g) == PlainRun(Abstract(t, f), calls)
  {
    if calls != [] {
      var init, last := calls[..|calls| - 1], calls[|calls| - 1];
      assert last in calls;
      RunRefines(t, owner, f, init);
      StepRefines(t, owner, Run(t, f, init), last);
    }
  }

  // ── The index ──────────────────────────────────────────────────────────────

  class FtsIndex {
    const tokens: Tokenizer
    var committed: seq<Entry>
    var ops: seq<Op>
    var staged: seq<Staged>
    var writing: bool
    var legacy: bool

    function Current(): Fts
      reads this
    {
      Fts(committed, ops, staged, writing, legacy)
    }

    constructor OpenOrCreate(tokens: Tokenizer, existing: seq<Entry>, legacy: bool)
      ensures this.tokens == tokens
      ensures Current() == Fts(existing, [], [], false, legacy)
      ensures Linked(tokens, Current())
    {
      this.tokens := tokens;
      committed, ops, staged, writing := existing, [], [], false;
      this.legacy := legacy;
    }

    /** The ids of the committed entries that the phrase matches and whose stored path is
        exactly `path`. */
    method CommittedDocIdsAt(path: string) returns (ids: set<int>)
      requires tokens(path) != []
      ensures ids == set e | e in committed && e.path == path :: e.id
    {
      ids := {};
      OwnPathMatches(tokens(path));
      for i := 0 to |committed|
        invariant ids == set e | e in committed[..i] && e.path == path :: e.id
      {
        if Matches(tokens(path), tokens(committed[i].path)) && committed[i].path == path {
          ids := ids + {committed[i].id};
        }
      }
      assert committed[..|committed|] == committed;
    }

    /** Splits the staged list: what stays, and the ids staged at `path`. */
    method SplitStaged(path: string) returns (kept: seq<Staged>, ids: set<int>)
      ensures kept == Keep(staged, (s: Staged) => s.path != path)
      ensures ids == set s | s in staged && s.path == path :: s.id
    {
      kept, ids := [], {};
      for i := 0 to |staged|
        invariant kept == Keep(staged[..i], (s: Staged) => s.path != path)
        invariant ids == set s | s in staged[..i] && s.path == path :: s.id
      {
        assert staged[..i + 1] == staged[..i] + [staged[i]];
        KeepLast(staged[..i], staged[i], (s: Staged) => s.path != path);
        if staged[i].path == path {
          ids := ids + {staged[i].id};
        } else {
          kept := kept + [staged[i]];
        }
      }
      assert staged[..|staged|] == staged;
    }

    method DeleteByFilepath(path: string)
      modifies this
      ensures Current() == Deleted(tokens, old(Current()), path)
    {
      if tokens(path) == [] {
        return;
      }
      var ids := CommittedDocIdsAt(path);
      var kept, stagedIds := SplitStaged(path);
      ids := ids + stagedIds;
      staged := kept;
      if ids == {} {
        return;
      }
      ops := ops + [DeleteMatching(tokens(path), ids)];
      writing := true;
    }

    method InsertDocument(e: Entry)
      modifies this
      ensures Current() == Inserted(old(Current()), e)
    {
      ops := ops + [Add(e)];
      staged := staged + [Staged(e.path, e.id)];
      writing := true;
    }

    /** Tantivy applies the buffered operations in order. */
    method Merged() returns (merged: seq<Entry>)
      ensures merged == Work(tokens, Current())
    {
      merged := committed;
      for i := 0 to |ops|
        invariant merged == Apply(tokens, ops[..i], committed)
      {
        ApplyMore(tokens, ops[..i], ops[i], committed);
        assert ops[..i + 1] == ops[..i] + [ops[i]];
        merged := ApplyOp(tokens, ops[i], merged);
      }
      assert ops[..|ops|] == ops;
    }

    method Commit()
      modifies this
      ensures Current() == Committed(tokens, old(Current()))
    {
      if !writing {
        return;
      }
      var merged := Merged();
      committed, ops, staged := merged, [], [];
    }

    /** Replaces the whole index, or rolls everything back at the first document that cannot be
        read. */
    method Rebuild(docs: seq<Option<Entry>>) returns (ok: bool)
      modifies this
      ensures ok <==> AllRead(docs)
      ensures Current() == Rebuilt(tokens, old(Current()), docs)
    {
      if legacy {
        committed, ops, staged, writing, legacy := [], [], [], false, false;
      }
      ghost var cleared := Current().(ops := ops + [DeleteAll], staged := [], writing := true);
      ops := ops + [DeleteAll];
      staged, writing := [], true;
      for i := 0 to |docs|
        invariant AllRead(docs[..i]) && Current() == InsertedAll(cleared, Read(docs[..i]))
      {
        if docs[i].None? {
          ops := [];
          staged := [];
          InsertedKeeps(cleared, Read(docs[..i]));
          assert docs[i] in docs;
          return false;
        }
        assert Read(docs[..i + 1]) == Read(docs[..i]) + [docs[i].value];
        assert (Read(docs[..i]) + [docs[i].value])[..i] == Read(docs[..i]);
        InsertDocument(docs[i].value);
      }
      assert docs[..|docs|] == docs;
      ok := true;
      Commit();
    }
  }
}
