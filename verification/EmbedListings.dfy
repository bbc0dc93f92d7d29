/** Runs over collections. */
module EmbedListings {
  // `rqmd embed` lists every active document of one collection, or of each in turn, by path
  // (list_documents in db.rs). Which pending hashes no such run ever settles.
  import opened Common
  import opened EmbedState
  import opened EmbedRuns

  // ── Listing a collection ───────────────────────────────────────────────────

  function ActiveIn(s: State, collection: string): set<DocKey> {
    set k | k in s.docs && s.docs[k].active && k.collection == collection
  }

  predicate PathLess(a: DocKey, b: DocKey) {
    StrLess(a.path, b.path)
  }

  /** All active documents of the collection, `ORDER BY path`. */
  ghost predicate IsListing(s: State, collection: string, docs: seq<DocKey>) {
    StrictlySorted(PathLess, docs) && Elements(docs) == ActiveIn(s, collection)
  }

  lemma PathOrder(s: State, collection: string)
    ensures StrictTotalOn(PathLess, ActiveIn(s, collection))
  {
    var all := ActiveIn(s, collection);
    forall a | a in all ensures !PathLess(a, a) { StrLessIrreflexive(a.path); }
    forall a, b | a in all && b in all
      ensures a == b || PathLess(a, b) || PathLess(b, a)
    {
      StrLessTotal(a.path, b.path);
    }
    forall a, b, c | a in all && b in all && c in all && PathLess(a, b) && PathLess(b, c)
      ensures PathLess(a, c)
    {
      StrLessTransitive(a.path, b.path, c.path);
    }
  }

  lemma ListingIsUnique(s: State, collection: string, a: seq<DocKey>, b: seq<DocKey>)
    requires IsListing(s, collection, a) && IsListing(s, collection, b)
    ensures a == b
  {
    PathOrder(s, collection);
    SortedUnique(PathLess, ActiveIn(s, collection), a, b);
  }

  lemma SortedIsListing(s: State, collection: string, docs: seq<DocKey>)
    requires NoDuplicates(docs) && Elements(docs) == ActiveIn(s, collection)
    ensures IsListing(s, collection, SortBy(PathLess, docs))
  {
    PathOrder(s, collection);
    SortByIsStrict(PathLess, docs);
    SortByMembers(PathLess, docs);
    forall k
      ensures k in Elements(SortBy(PathLess, docs)) <==> k in Elements(docs)
    {
    }
  }

  /** `list_documents` for one collection. */
  method ListDocuments(s: State, collection: string) returns (docs: seq<DocKey>)
    ensures IsListing(s, collection, docs)
  {
    docs := [];
    var left := ActiveIn(s, collection);
    while left != {}
      invariant NoDuplicates(docs) && Elements(docs) !! left && Elements(docs) + left == ActiveIn(s, collection)
      decreases |left|
    {
      var k :| k in left;
      OneMoreDocument(docs, k);
      docs := docs + [k];
      left := left - {k};
    }
    SortedIsListing(s, collection, docs);
    docs := SortBy(PathLess, docs);
  }

  lemma OneMoreDocument(docs: seq<DocKey>, k: DocKey)
    requires NoDuplicates(docs) && k !in Elements(docs)
    ensures NoDuplicates(docs + [k]) && Elements(docs + [k]) == Elements(docs) + {k}
  {
    assert forall i | 0 <= i < |docs| :: docs[i] in Elements(docs);
  }

  lemma {:induction false} ListingExists(s: State, collection: string, some: set<DocKey>) returns (docs: seq<DocKey>)
    ensures NoDuplicates(docs) && Elements(docs) == some
  {
    if some == {} {
      docs := [];
    } else {
      var k :| k in some;
      docs := ListingExists(s, collection, some - {k});
      OneMoreDocument(docs, k);
      docs := docs + [k];
    }
  }

  lemma SomeListing(s: State, collection: string)
    ensures exists docs :: IsListing(s, collection, docs)
  {
    var docs := ListingExists(s, collection, ActiveIn(s, collection));
    SortedIsListing(s, collection, docs);
  }

  ghost function Listing(s: State, collection: string): (docs: seq<DocKey>)
    ensures IsListing(s, collection, docs) && AllIn(docs, s)
  {
    SomeListing(s, collection);
    var docs :| IsListing(s, collection, docs);
    assert forall k | k in docs :: k in Elements(docs);
    docs
  }

  ghost function Listings(s: State, collections: seq<string>): (cols: seq<seq<DocKey>>)
    ensures AllListed(cols, s)
  {
    seq(|collections|, i requires 0 <= i < |collections| => Listing(s, collections[i]))
  }

  lemma ListingUnchanged(s: State, s': State, collection: string)
    requires SameDocs(s, s')
    ensures Listing(s', collection) == Listing(s, collection)
  {
    assert ActiveIn(s', collection) == ActiveIn(s, collection);
    ListingIsUnique(s, collection, Listing(s, collection), Listing(s', collection));
  }

  lemma ListingsUnchanged(s: State, s': State, collections: seq<string>)
    requires SameDocs(s, s')
    ensures Listings(s', collections) == Listings(s, collections)
  {
    forall i | 0 <= i < |collections|
      ensures Listing(s', collections[i]) == Listing(s, collections[i])
    {
      ListingUnchanged(s, s', collections[i]);
    }
  }

  lemma ListingsAreActive(s: State, collections: seq<string>)
    ensures AllActive(Listings(s, collections), s)
  {
    forall c, k | 0 <= c < |collections| && k in Listings(s, collections)[c]
      ensures k in s.docs && s.docs[k].active
    {
      assert k in Elements(Listing(s, collections[c]));
    }
  }

  /** `embed_collections`: each collection is listed when its turn comes. */
  method EmbedCollections(s: State, excluded: set<DocKey>, sizes: Sizes, e: Expected, collections: seq<string>,
                          outcome: DocKey -> Outcome)
    returns (p: Progress)
    ensures p == EmbedRun(s, excluded, sizes, e, Listings(s, collections), outcome)
  {
    p := Progress(s, 0, Continue);
    var seen: set<string> := {};
    ghost var cols := Listings(s, collections);
    ListingsAreActive(s, collections);
    assert cols[0..] == cols;
    for c := 0 to |collections|
      invariant p.flow.Continue? && SameDocs(s, p.now) && AllActive(cols[c..], p.now) && AllListed(cols[c..], p.now)
      invariant RunFrom(p, excluded, sizes, e, cols[c..], outcome, seen) == EmbedRun(s, excluded, sizes, e, cols, outcome)
    {
      var docs := ListDocuments(p.now, collections[c]);
      ListingUnchanged(s, p.now, collections[c]);
      ListingIsUnique(p.now, collections[c], docs, Listing(p.now, collections[c]));
      ghost var before := p.now;
      p, seen := EmbedCollection(p, excluded, sizes, e, docs, outcome, seen, cols[c..]);
      SameDocsTwice(s, before, p.now);
      assert cols[c..][1..] == cols[c + 1..];
      if !p.flow.Continue? {
        return;
      }
    }
  }

  // ── The first document by path ─────────────────────────────────────────────

  /** No live document with the hash comes before `k` in its collection. */
  ghost predicate FirstByPath(s: State, excluded: set<DocKey>, h: string, k: DocKey) {
    && k in s.docs && Live(s, excluded, k) && s.docs[k].hash == h
    && forall other | other in s.docs && Live(s, excluded, other) && s.docs[other].hash == h && other.collection == k.collection ::
         !PathLess(other, k)
  }

  lemma {:induction false} FirstIsEarliest(s: State, excluded: set<DocKey>, listed: seq<DocKey>, h: string) returns (i: nat)
    requires AllIn(listed, s) && First(s, excluded, listed, h).Some?
    ensures i < |listed| && listed[i] == First(s, excluded, listed, h).value
    ensures forall j | 0 <= j < i :: !(Live(s, excluded, listed[j]) && s.docs[listed[j]].hash == h)
  {
    if Live(s, excluded, listed[0]) && s.docs[listed[0]].hash == h {
      i := 0;
    } else {
      var rest := FirstIsEarliest(s, excluded, listed[1..], h);
      i := rest + 1;
      assert forall j | 0 < j < i :: listed[j] == listed[1..][j - 1];
    }
  }

  /** What a listing has first for a hash is its first live document by path. */
  lemma ListedFirst(s: State, excluded: set<DocKey>, collection: string, h: string)
    ensures var r := First(s, excluded, Listing(s, collection), h);
            && (r.Some? ==> FirstByPath(s, excluded, h, r.value) && r.value.collection == collection)
            && (r.None? ==> forall k | k in s.docs && Live(s, excluded, k) && s.docs[k].hash == h :: k.collection != collection)
  {
    var docs := Listing(s, collection);
    var r := First(s, excluded, docs, h);
    FirstIsLive(s, excluded, docs, h);
    forall k | Live(s, excluded, k) && k.collection == collection
      ensures k in docs
    {
      assert k in Elements(docs);
    }
    if r.Some? {
      assert r.value in Elements(docs);
      var i := FirstIsEarliest(s, excluded, docs, h);
      forall other | other in s.docs && Live(s, excluded, other) && s.docs[other].hash == h && other.collection == collection
        ensures !PathLess(other, r.value)
      {
        var j :| 0 <= j < |docs| && docs[j] == other;
        NotBefore(docs, i, j);
      }
    }
  }

  lemma NotBefore(docs: seq<DocKey>, i: nat, j: nat)
    requires i <= j < |docs| && StrictlySorted(PathLess, docs)
    ensures !PathLess(docs[j], docs[i])
  {
    StrLessIrreflexive(docs[i].path);
    if i < j && PathLess(docs[j], docs[i]) {
      assert PathLess(docs[i], docs[j]);
      StrLessTransitive(docs[i].path, docs[j].path, docs[i].path);
    }
  }

  lemma FirstByPathIsOne(s: State, excluded: set<DocKey>, h: string, a: DocKey, b: DocKey)
    requires FirstByPath(s, excluded, h, a) && FirstByPath(s, excluded, h, b) && a.collection == b.collection
    ensures a == b
  {
    StrLessTotal(a.path, b.path);
  }

  /** Whatever collections are chosen, what a run has first for a hash is first in its collection. */
  lemma {:induction false} RunFirst(s: State, excluded: set<DocKey>, collections: seq<string>, h: string)
    ensures AllIn(Concat(Listings(s, collections)), s)
    ensures var r := First(s, excluded, Concat(Listings(s, collections)), h);
            r.Some? ==> FirstByPath(s, excluded, h, r.value)
    decreases |collections|
  {
    var cols := Listings(s, collections);
    ConcatIsListed(cols, s);
    if collections != [] {
      RunFirst(s, excluded, collections[1..], h);
      assert cols[1..] == Listings(s, collections[1..]);
      ListedFirst(s, excluded, collections[0], h);
      FirstOfBoth(s, excluded, cols[0], Concat(cols[1..]), h);
    }
  }

  lemma {:induction false} FirstOfBoth(s: State, excluded: set<DocKey>, a: seq<DocKey>, b: seq<DocKey>, h: string)
    requires AllIn(a, s) && AllIn(b, s)
    ensures AllIn(a + b, s)
    ensures First(s, excluded, a + b, h) ==
              if First(s, excluded, a, h).Some? then First(s, excluded, a, h) else First(s, excluded, b, h)
  {
    if a == [] {
      assert a + b == b;
    } else {
      assert (a + b)[1..] == a[1..] + b && (a + b)[0] == a[0];
      FirstOfBoth(s, excluded, a[1..], b, h);
    }
  }

  // ── Any number of runs ─────────────────────────────────────────────────────

  /** A run over some collections: one that is named, or all of them in the table's order. */
  datatype Choice = Choice(collections: seq<string>, outcome: DocKey -> Outcome)

  /** The tables after one run after the other, each listing what it finds. */
  ghost function AfterChoices(s: State, excluded: set<DocKey>, sizes: Sizes, e: Expected, choices: seq<Choice>): State
    decreases |choices|
  {
    if choices == [] then s
    else
      var s' := EmbedRun(s, excluded, sizes, e, Listings(s, choices[0].collections), choices[0].outcome).now;
      AfterChoices(s', excluded, sizes, e, choices[1..])
  }

  ghost function RunsOf(s: State, choices: seq<Choice>): seq<Run> {
    seq(|choices|, i requires 0 <= i < |choices| => Run(Listings(s, choices[i].collections), choices[i].outcome))
  }

  lemma RunsOfUnchanged(s: State, s': State, choices: seq<Choice>)
    requires SameDocs(s, s')
    ensures RunsOf(s', choices) == RunsOf(s, choices)
  {
    forall i | 0 <= i < |choices|
      ensures Listings(s', choices[i].collections) == Listings(s, choices[i].collections)
    {
      ListingsUnchanged(s, s', choices[i].collections);
    }
  }

  /** Embedding changes no listing, so the runs can be listed beforehand. */
  lemma {:induction false} ChoicesAreRuns(s: State, excluded: set<DocKey>, sizes: Sizes, e: Expected, choices: seq<Choice>)
    requires PlainGroups(e)
    ensures Runnable(s, RunsOf(s, choices))
    ensures AfterChoices(s, excluded, sizes, e, choices) == AfterRuns(s, excluded, sizes, e, RunsOf(s, choices))
    decreases |choices|
  {
    if choices != [] {
      var runs, rest := RunsOf(s, choices), choices[1..];
      var s' := EmbedRun(s, excluded, sizes, e, runs[0].cols, runs[0].outcome).now;
      RunPending(s, excluded, sizes, e, runs[0].cols, runs[0].outcome);
      RunsOfUnchanged(s, s', rest);
      assert runs[1..] == RunsOf(s, rest);
      ChoicesAreRuns(s', excluded, sizes, e, rest);
    }
  }

  /** No sequence of runs takes the hash off the pending set. */
  ghost predicate Forever(s: State, excluded: set<DocKey>, sizes: Sizes, e: Expected, h: string) {
    forall choices: seq<Choice> :: h in Pending(AfterChoices(s, excluded, sizes, e, choices), excluded, sizes, e)
  }

  /** No collection's first live document with the hash settles it. */
  ghost predicate NoFirstSettles(s: State, excluded: set<DocKey>, e: Expected, h: string) {
    forall k | FirstByPath(s, excluded, h, k) :: !Settles(s, excluded, e, k)
  }

  lemma NoFirstStays(s: State, excluded: set<DocKey>, sizes: Sizes, e: Expected, choices: seq<Choice>, h: string)
    requires PlainGroups(e) && h in Pending(s, excluded, sizes, e) && NoFirstSettles(s, excluded, e, h)
    ensures h in Pending(AfterChoices(s, excluded, sizes, e, choices), excluded, sizes, e)
  {
    var runs := RunsOf(s, choices);
    ChoicesAreRuns(s, excluded, sizes, e, choices);
    forall i | 0 <= i < |runs|
      ensures Unsettled(s, excluded, e, runs[i].cols, h)
    {
      RunFirst(s, excluded, choices[i].collections, h);
    }
    RunsPending(s, excluded, sizes, e, runs, h);
  }

  lemma OneListing(s: State, excluded: set<DocKey>, e: Expected, h: string, k: DocKey)
    requires FirstByPath(s, excluded, h, k)
    ensures AllListed([Listing(s, k.collection)], s)
    ensures Unsettled(s, excluded, e, [Listing(s, k.collection)], h) <==> !Settles(s, excluded, e, k)
  {
    var docs := Listing(s, k.collection);
    ListedFirst(s, excluded, k.collection, h);
    FirstByPathIsOne(s, excluded, h, First(s, excluded, docs, h).value, k);
    assert [docs][0] == docs && [docs][1..] == [];
    assert Concat([docs]) == docs + [] == docs;
  }

  lemma FirstRunSettles(s: State, excluded: set<DocKey>, sizes: Sizes, e: Expected, h: string, k: DocKey)
    returns (choices: seq<Choice>)
    requires PlainGroups(e) && FirstByPath(s, excluded, h, k) && Settles(s, excluded, e, k)
    ensures h !in Pending(AfterChoices(s, excluded, sizes, e, choices), excluded, sizes, e)
  {
    var outcome: DocKey -> Outcome := _ => Embeds;
    choices := [Choice([k.collection], outcome)];
    var runs := RunsOf(s, choices);
    ChoicesAreRuns(s, excluded, sizes, e, choices);
    assert Listings(s, [k.collection]) == [Listing(s, k.collection)];
    assert runs[0] == Run([Listing(s, k.collection)], outcome);
    OneListing(s, excluded, e, h, k);
    assert Smooth(outcome) && AllSmooth(runs);
    RunsPending(s, excluded, sizes, e, runs, h);
  }

  lemma NoFirstSettlesIff(s: State, excluded: set<DocKey>, sizes: Sizes, e: Expected, h: string)
    requires h in CountedHashes(s, excluded, sizes)
    ensures NoFirstSettles(s, excluded, e, h) <==>
              && e.groups != []
              && (forall k | k in s.docs && Live(s, excluded, k) && s.docs[k].hash == h :: InSomeGroup(e, k.path))
              && (forall k | FirstByPath(s, excluded, h, k) :: OnlyExtension(k.path))
  {
    var one :| one in s.docs && Counts(s, excluded, sizes, one) && s.docs[one].hash == h;
    assert Live(s, excluded, one) && HasLive(s, excluded, h);
    ListedFirst(s, excluded, one.collection, h);
  }

  /** A pending hash stays pending through every sequence of runs over collections, whatever fails
      in them, if and only if there are groups, each of its live documents is in one, and in every
      collection the first of them by path is named nothing but an extension. */
  lemma NeverSettledIff(s: State, excluded: set<DocKey>, sizes: Sizes, e: Expected, h: string)
    requires PlainGroups(e) && h in Pending(s, excluded, sizes, e)
    ensures Forever(s, excluded, sizes, e, h) <==>
              && e.groups != []
              && (forall k | k in s.docs && Live(s, excluded, k) && s.docs[k].hash == h :: InSomeGroup(e, k.path))
              && (forall k | FirstByPath(s, excluded, h, k) :: OnlyExtension(k.path))
  {
    NoFirstSettlesIff(s, excluded, sizes, e, h);
    if NoFirstSettles(s, excluded, e, h) {
      forall choices: seq<Choice>
        ensures h in Pending(AfterChoices(s, excluded, sizes, e, choices), excluded, sizes, e)
      {
        NoFirstStays(s, excluded, sizes, e, choices, h);
      }
    } else {
      var k :| FirstByPath(s, excluded, h, k) && Settles(s, excluded, e, k);
      var choices := FirstRunSettles(s, excluded, sizes, e, h, k);
    }
  }

  // ── Two names for one text ─────────────────────────────────────────────────

  /** The same text as `.py` and as `foo.py`. */
  function TwoNames(): State {
    State(map[DocKey("c", ".py") := Doc("h", None, true), DocKey("c", "foo.py") := Doc("h", None, true)], {})
  }

  lemma NamedIsInGroup(g: Group, stem: string, extension: string)
    requires extension in g.extensions
    ensures InGroup(g, stem + "." + extension)
  {
    var path, suffix := stem + "." + extension, "." + extension;
    assert path == stem + suffix;
    assert path[|path| - |suffix|..] == suffix;
    assert GlobMatches(path, extension);
  }

  lemma FooIsPython()
    ensures InSomeGroup(PythonOnly(), "foo.py") && !OnlyExtension("foo.py")
  {
    var name := "foo.py";
    NamedIsInGroup(PythonOnly().groups[0], "foo", "py");
    assert "foo" + "." + "py" == name;
    LastIndexFinds(name, '/');
    LastIndexFinds(name, '.');
    assert FileName(name) == name && name[3] == '.';
    NotInTail(name, LastIndexOf(name, '.').value + 1, 3);
  }

  lemma TwoNamesArePending(sizes: Sizes)
    requires sizes("h") > 0
    ensures Pending(TwoNames(), {}, sizes, PythonOnly()) == {"h"} == CountedHashes(TwoNames(), {}, sizes)
  {
    var k := DocKey("c", ".py");
    assert Counts(TwoNames(), {}, sizes, k);
    assert CountedHashes(TwoNames(), {}, sizes) == {"h"};
    assert forall fp :: !HasVector(TwoNames(), "h", fp);
  }

  lemma DotPyComesFirst()
    ensures forall k | FirstByPath(TwoNames(), {}, "h", k) :: k.path == ".py"
  {
    assert StrLess(".py", "foo.py");
    assert PathLess(DocKey("c", ".py"), DocKey("c", "foo.py"));
    assert Live(TwoNames(), {}, DocKey("c", ".py"));
  }

  lemma TwoPaths()
    ensures forall k | k in TwoNames().docs :: k.path == ".py" || k.path == "foo.py"
  {
  }

  lemma NoneSettlesFirst(s: State, excluded: set<DocKey>, e: Expected, h: string, a: string, b: string)
    requires e.groups != [] && InSomeGroup(e, a) && InSomeGroup(e, b)
    requires forall k | k in s.docs :: k.path == a || k.path == b
    requires forall k | FirstByPath(s, excluded, h, k) :: OnlyExtension(k.path)
    ensures NoFirstSettles(s, excluded, e, h)
  {
    forall k | FirstByPath(s, excluded, h, k)
      ensures !Settles(s, excluded, e, k)
    {
      assert HasLive(s, excluded, h);
    }
  }

  lemma TwoNamesAreUnsettled()
    ensures NoFirstSettles(TwoNames(), {}, PythonOnly(), "h")
  {
    TwoPaths();
    FooIsPython();
    DotPyIsBare();
    DotPyComesFirst();
    NoneSettlesFirst(TwoNames(), {}, PythonOnly(), "h", ".py", "foo.py");
  }

  /** `foo.py` would settle the hash, but every run takes `.py`, so it stays pending. */
  lemma TwoNamesStayPending(sizes: Sizes, choices: seq<Choice>)
    requires sizes("h") > 0
    ensures PlainGroups(PythonOnly()) && Settles(TwoNames(), {}, PythonOnly(), DocKey("c", "foo.py"))
    ensures Pending(TwoNames(), {}, sizes, PythonOnly()) == {"h"}
    ensures Pending(AfterChoices(TwoNames(), {}, sizes, PythonOnly(), choices), {}, sizes, PythonOnly()) == {"h"}
  {
    PythonIsPlain();
    FooIsPython();
    TwoNamesArePending(sizes);
    TwoNamesAreUnsettled();
    OnlyHashStaysChosen(TwoNames(), {}, sizes, PythonOnly(), choices, "h");
  }

  lemma OnlyHashStaysChosen(s: State, excluded: set<DocKey>, sizes: Sizes, e: Expected, choices: seq<Choice>, h: string)
    requires PlainGroups(e) && NoFirstSettles(s, excluded, e, h)
    requires Pending(s, excluded, sizes, e) == {h} == CountedHashes(s, excluded, sizes)
    ensures Pending(AfterChoices(s, excluded, sizes, e, choices), excluded, sizes, e) == {h}
  {
    var after := AfterChoices(s, excluded, sizes, e, choices);
    NoFirstStays(s, excluded, sizes, e, choices, h);
    ChoicesAreRuns(s, excluded, sizes, e, choices);
    HashesStay(s, excluded, sizes, e, RunsOf(s, choices));
    CountsUnchanged(s, excluded, sizes, after.docs, after.vectors);
  }
}
