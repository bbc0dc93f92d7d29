/** Whole runs of `rqmd embed`. */
module EmbedRuns {
  // Which documents a run takes on, how it ends, what it leaves pending, and what repeating it
  // can and cannot settle (commands/index.rs).
  import opened Common
  import opened EmbedState

  /** What meets a document when its turn comes: a signal or the deadline, or else how its
      embedding goes. */
  datatype Outcome = Embeds | Fails | Stops

  datatype Flow = Continue | Aborted | Stopped

  /** The tables, the failures in a row, and whether the run goes on. */
  datatype Progress = Progress(now: State, failures: nat, flow: Flow)

  const MAX_CONSECUTIVE_EMBED_FAILURES: nat := 5

  /** One turn of the loop. An empty text needs no donor; a failure leaves the tables alone, and
      the fifth in a row ends the run. */
  function Attempt(p: Progress, sizes: Sizes, e: Expected, k: DocKey, outcome: Outcome): (p': Progress)
    requires k in p.now.docs
    ensures p'.now.docs.Keys == p.now.docs.Keys
  {
    var hash := p.now.docs[k].hash;
    if outcome.Stops? then p.(flow := Stopped)
    else if sizes(hash) == 0 then p.(now := p.now.(docs := ClearDonor(p.now.docs, hash)))
    else if outcome.Embeds? then p.(now := Embed(p.now, e, hash, k.path), failures := 0)
    else
      p.(failures := p.failures + 1,
         flow := if p.failures + 1 >= MAX_CONSECUTIVE_EMBED_FAILURES then Aborted else Continue)
  }

  function AttemptAll(p: Progress, sizes: Sizes, e: Expected, todo: seq<DocKey>, outcome: DocKey -> Outcome): (p': Progress)
    requires AllIn(todo, p.now)
    ensures p'.now.docs.Keys == p.now.docs.Keys
    decreases |todo|
  {
    if todo == [] || !p.flow.Continue? then p
    else AttemptAll(Attempt(p, sizes, e, todo[0], outcome(todo[0])), sizes, e, todo[1..], outcome)
  }

  function HashesOf(s: State, ks: seq<DocKey>): set<string>
    requires AllIn(ks, s)
  {
    set k | k in ks :: s.docs[k].hash
  }

  /** What a run over the listed documents is asked to embed. */
  predicate Wanted(s: State, excluded: set<DocKey>, e: Expected, k: DocKey) {
    Live(s, excluded, k) && NeedsEmbed(s, excluded, e, s.docs[k].hash)
  }

  /** The first listed document of each hash that needs embedding and was not taken before. */
  function Select(s: State, excluded: set<DocKey>, e: Expected, listed: seq<DocKey>, seen: set<string>): (todo: seq<DocKey>)
    requires AllIn(listed, s)
    ensures AllIn(todo, s)
  {
    if listed == [] then []
    else
      var k, rest := listed[0], listed[1..];
      if Wanted(s, excluded, e, k) && s.docs[k].hash !in seen
      then [k] + Select(s, excluded, e, rest, seen + {s.docs[k].hash})
      else Select(s, excluded, e, rest, seen)
  }

  /** The collections from the first on, until the run ends. */
  function RunFrom(p: Progress, excluded: set<DocKey>, sizes: Sizes, e: Expected, cols: seq<seq<DocKey>>,
                   outcome: DocKey -> Outcome, seen: set<string>): (p': Progress)
    requires AllListed(cols, p.now)
    ensures p'.now.docs.Keys == p.now.docs.Keys
    decreases |cols|
  {
    if cols == [] || !p.flow.Continue? then p
    else
      var todo := Select(p.now, excluded, e, cols[0], seen);
      var p' := AttemptAll(p, sizes, e, todo, outcome);
      ListedLater(cols, p.now, p'.now);
      RunFrom(p', excluded, sizes, e, cols[1..], outcome, seen + HashesOf(p.now, todo))
  }

  predicate AllListed(cols: seq<seq<DocKey>>, s: State) {
    forall c | 0 <= c < |cols| :: AllIn(cols[c], s)
  }

  lemma ListedLater(cols: seq<seq<DocKey>>, s: State, s': State)
    requires cols != [] && AllListed(cols, s) && s'.docs.Keys == s.docs.Keys
    ensures AllListed(cols[1..], s')
  {
    forall c | 0 <= c < |cols| - 1
      ensures AllIn(cols[1..][c], s')
    {
      assert AllIn(cols[c + 1], s);
    }
  }

  /** One embed run. */
  function EmbedRun(s: State, excluded: set<DocKey>, sizes: Sizes, e: Expected, cols: seq<seq<DocKey>>,
                    outcome: DocKey -> Outcome): (p: Progress)
    requires AllListed(cols, s)
  {
    RunFrom(Progress(s, 0, Continue), excluded, sizes, e, cols, outcome, {})
  }

  /** An empty text takes no vector and needs no donor any more; nothing else changes. */
  lemma EmptyTextIsSkipped(p: Progress, sizes: Sizes, e: Expected, k: DocKey, outcome: Outcome)
    requires k in p.now.docs && sizes(p.now.docs[k].hash) == 0 && !outcome.Stops?
    ensures var p' := Attempt(p, sizes, e, k, outcome);
            && p' == p.(now := p'.now) && p'.now.vectors == p.now.vectors
            && forall d | d in p.now.docs ::
                 && p'.now.docs[d].hash == p.now.docs[d].hash && p'.now.docs[d].active == p.now.docs[d].active
                 && p'.now.docs[d].prevHash == if p.now.docs[d].hash == p.now.docs[k].hash then None else p.now.docs[d].prevHash
  {
  }

  // ── The loops ──────────────────────────────────────────────────────────────

  method SelectTodo(s: State, excluded: set<DocKey>, e: Expected, listed: seq<DocKey>, seen: set<string>)
    returns (todo: seq<DocKey>, seen': set<string>)
    requires AllIn(listed, s) && forall k | k in listed :: s.docs[k].active
    ensures todo == Select(s, excluded, e, listed, seen) && seen' == seen + HashesOf(s, todo)
  {
    todo, seen' := [], seen;
    for i := 0 to |listed|
      invariant AllIn(todo, s) && seen' == seen + HashesOf(s, todo)
      invariant todo + Select(s, excluded, e, listed[i..], seen') == Select(s, excluded, e, listed, seen)
    {
      var k := listed[i];
      SelectStep(s, excluded, e, listed, i, seen', todo);
      if k !in excluded && s.docs[k].hash !in seen' && NeedsEmbed(s, excluded, e, s.docs[k].hash) {
        HashesGrow(s, todo, k);
        seen' := seen' + {s.docs[k].hash};
        todo := todo + [k];
      }
    }
  }

  lemma SelectStep(s: State, excluded: set<DocKey>, e: Expected, listed: seq<DocKey>, i: nat, seen: set<string>, todo: seq<DocKey>)
    requires AllIn(listed, s) && i < |listed|
    ensures AllIn(listed[i..], s) && AllIn(listed[i + 1..], s)
    ensures var k := listed[i];
            todo + Select(s, excluded, e, listed[i..], seen) ==
              if Wanted(s, excluded, e, k) && s.docs[k].hash !in seen
              then todo + [k] + Select(s, excluded, e, listed[i + 1..], seen + {s.docs[k].hash})
              else todo + Select(s, excluded, e, listed[i + 1..], seen)
  {
    assert listed[i..][1..] == listed[i + 1..];
  }

  lemma HashesGrow(s: State, ks: seq<DocKey>, k: DocKey)
    requires AllIn(ks, s) && k in s.docs
    ensures AllIn(ks + [k], s) && HashesOf(s, ks + [k]) == HashesOf(s, ks) + {s.docs[k].hash}
  {
    assert forall x :: x in ks + [k] <==> x in ks || x == k;
  }

  /** `embed_docs`. */
  method EmbedDocs(start: Progress, sizes: Sizes, e: Expected, todo: seq<DocKey>, outcome: DocKey -> Outcome)
    returns (p: Progress)
    requires AllIn(todo, start.now) && start.flow.Continue?
    ensures p == AttemptAll(start, sizes, e, todo, outcome)
  {
    p := start;
    for i := 0 to |todo|
      invariant p.flow.Continue? && p.now.docs.Keys == start.now.docs.Keys
      invariant AttemptAll(p, sizes, e, todo[i..], outcome) == AttemptAll(start, sizes, e, todo, outcome)
    {
      assert todo[i..][1..] == todo[i + 1..];
      p := Attempt(p, sizes, e, todo[i], outcome(todo[i]));
      if !p.flow.Continue? {
        return;
      }
    }
  }

  predicate AllActive(cols: seq<seq<DocKey>>, s: State) {
    forall c, k | 0 <= c < |cols| && k in cols[c] :: k in s.docs && s.docs[k].active
  }

  lemma ActiveIsListed(cols: seq<seq<DocKey>>, s: State)
    requires AllActive(cols, s)
    ensures AllListed(cols, s)
  {
  }

  /** The first of the collections still to come. */
  method EmbedCollection(p: Progress, excluded: set<DocKey>, sizes: Sizes, e: Expected, listed: seq<DocKey>,
                         outcome: DocKey -> Outcome, seen: set<string>, ghost cols: seq<seq<DocKey>>)
    returns (p': Progress, seen': set<string>)
    requires cols != [] && listed == cols[0] && p.flow.Continue? && AllActive(cols, p.now) && AllListed(cols, p.now)
    ensures SameDocs(p.now, p'.now) && AllActive(cols[1..], p'.now) && AllListed(cols[1..], p'.now)
    ensures RunFrom(p', excluded, sizes, e, cols[1..], outcome, seen') == RunFrom(p, excluded, sizes, e, cols, outcome, seen)
  {
    var todo;
    todo, seen' := SelectTodo(p.now, excluded, e, listed, seen);
    p' := EmbedDocs(p, sizes, e, todo, outcome);
    AttemptAllKeepsDocs(p, sizes, e, todo, outcome);
    ActiveLater(cols, p.now, p'.now);
    ActiveIsListed(cols[1..], p'.now);
  }

  lemma ActiveLater(cols: seq<seq<DocKey>>, s: State, s': State)
    requires cols != [] && AllActive(cols, s) && SameDocs(s, s')
    ensures AllActive(cols[1..], s')
  {
    forall c, k | 0 <= c < |cols| - 1 && k in cols[1..][c]
      ensures k in s'.docs && s'.docs[k].active
    {
      assert k in cols[c + 1];
    }
  }

  // ── What a run leaves alone ────────────────────────────────────────────────

  /** Same documents, hashes and activity: what embedding never changes. */
  ghost predicate SameDocs(s: State, s': State) {
    && s'.docs.Keys == s.docs.Keys
    && (forall k | k in s.docs :: s'.docs[k].hash == s.docs[k].hash && s'.docs[k].active == s.docs[k].active)
  }

  ghost predicate SameVectors(s: State, s': State, hash: string) {
    forall v: Vector | v.hash == hash :: v in s'.vectors <==> v in s.vectors
  }

  lemma SameDocsTwice(a: State, b: State, c: State)
    requires SameDocs(a, b) && SameDocs(b, c)
    ensures SameDocs(a, c)
  {
  }

  lemma AttemptKeepsOthers(p: Progress, sizes: Sizes, e: Expected, k: DocKey, outcome: Outcome)
    requires k in p.now.docs
    ensures var now := Attempt(p, sizes, e, k, outcome).now;
            SameDocs(p.now, now) && forall h | h != p.now.docs[k].hash :: SameVectors(p.now, now, h)
  {
  }

  lemma {:induction false} AttemptAllKeepsDocs(p: Progress, sizes: Sizes, e: Expected, todo: seq<DocKey>, outcome: DocKey -> Outcome)
    requires AllIn(todo, p.now)
    ensures SameDocs(p.now, AttemptAll(p, sizes, e, todo, outcome).now)
    decreases |todo|
  {
    if todo != [] && p.flow.Continue? {
      var p' := Attempt(p, sizes, e, todo[0], outcome(todo[0]));
      AttemptKeepsOthers(p, sizes, e, todo[0], outcome(todo[0]));
      AttemptAllKeepsDocs(p', sizes, e, todo[1..], outcome);
      SameDocsTwice(p.now, p'.now, AttemptAll(p', sizes, e, todo[1..], outcome).now);
    }
  }

  lemma {:induction false} AttemptAllKeepsOthers(p: Progress, sizes: Sizes, e: Expected, todo: seq<DocKey>,
                                                 outcome: DocKey -> Outcome, h: string)
    requires AllIn(todo, p.now) && h !in HashesOf(p.now, todo)
    ensures SameVectors(p.now, AttemptAll(p, sizes, e, todo, outcome).now, h)
    decreases |todo|
  {
    if todo != [] && p.flow.Continue? {
      var p' := Attempt(p, sizes, e, todo[0], outcome(todo[0]));
      AttemptKeepsOthers(p, sizes, e, todo[0], outcome(todo[0]));
      HashesTail(p.now, p'.now, todo);
      assert p.now.docs[todo[0]].hash in HashesOf(p.now, todo);
      AttemptAllKeepsOthers(p', sizes, e, todo[1..], outcome, h);
    }
  }

  lemma HashesTail(s: State, s': State, todo: seq<DocKey>)
    requires todo != [] && AllIn(todo, s) && SameDocs(s, s')
    ensures AllIn(todo[1..], s') && HashesOf(s', todo[1..]) <= HashesOf(s, todo)
  {
  }

  // ── One list ───────────────────────────────────────────────────────────────

  function Concat(cols: seq<seq<DocKey>>): seq<DocKey> {
    if cols == [] then [] else cols[0] + Concat(cols[1..])
  }

  lemma {:induction false} ConcatIsListed(cols: seq<seq<DocKey>>, s: State)
    requires AllListed(cols, s)
    ensures AllIn(Concat(cols), s)
  {
    if cols != [] {
      ListedLater(cols, s, s);
      ConcatIsListed(cols[1..], s);
      assert AllIn(cols[0], s);
    }
  }

  lemma {:induction false} SelectConcat(s: State, excluded: set<DocKey>, e: Expected, a: seq<DocKey>, b: seq<DocKey>, seen: set<string>)
    requires AllIn(a, s) && AllIn(b, s)
    ensures AllIn(a + b, s)
    ensures var first := Select(s, excluded, e, a, seen);
            Select(s, excluded, e, a + b, seen) == first + Select(s, excluded, e, b, seen + HashesOf(s, first))
  {
    if a == [] {
      assert a + b == b && seen + HashesOf(s, []) == seen;
    } else {
      var k, rest := a[0], a[1..];
      assert (a + b)[1..] == rest + b;
      if Wanted(s, excluded, e, k) && s.docs[k].hash !in seen {
        var seen' := seen + {s.docs[k].hash};
        SelectConcat(s, excluded, e, rest, b, seen');
        var later := Select(s, excluded, e, rest, seen');
        HashesOfHead(s, k, later);
        assert seen' + HashesOf(s, later) == seen + HashesOf(s, [k] + later);
      } else {
        SelectConcat(s, excluded, e, rest, b, seen);
      }
    }
  }

  lemma HashesOfHead(s: State, k: DocKey, later: seq<DocKey>)
    requires k in s.docs && AllIn(later, s)
    ensures AllIn([k] + later, s) && HashesOf(s, [k] + later) == {s.docs[k].hash} + HashesOf(s, later)
  {
    assert forall x :: x in [k] + later <==> x == k || x in later;
  }

  lemma {:induction false} AttemptAllConcat(p: Progress, sizes: Sizes, e: Expected, a: seq<DocKey>, b: seq<DocKey>, outcome: DocKey -> Outcome)
    requires AllIn(a, p.now) && AllIn(b, p.now)
    ensures AllIn(a + b, p.now)
    ensures AttemptAll(p, sizes, e, a + b, outcome) == AttemptAll(AttemptAll(p, sizes, e, a, outcome), sizes, e, b, outcome)
    decreases |a|
  {
    if a == [] {
      assert a + b == b;
    } else if p.flow.Continue? {
      assert (a + b)[1..] == a[1..] + b && (a + b)[0] == a[0];
      AttemptAllConcat(Attempt(p, sizes, e, a[0], outcome(a[0])), sizes, e, a[1..], b, outcome);
    }
  }

  /** The check against the state reached so far selects what the first state would. */
  lemma {:induction false} SelectionIsOriginal(s: State, now: State, excluded: set<DocKey>, e: Expected, listed: seq<DocKey>, seen: set<string>)
    requires AllIn(listed, s) && SameDocs(s, now) && forall h | h !in seen :: SameVectors(s, now, h)
    ensures AllIn(listed, now) && Select(now, excluded, e, listed, seen) == Select(s, excluded, e, listed, seen)
  {
    if listed != [] {
      var k, rest := listed[0], listed[1..];
      var hash := s.docs[k].hash;
      SelectionIsOriginal(s, now, excluded, e, rest, seen);
      if hash !in seen {
        assert SameVectors(s, now, hash);
        OthersKeepTheirState(s, now, excluded, e, hash);
        SelectionIsOriginal(s, now, excluded, e, rest, seen + {hash});
      }
    }
  }

  /** Going through the collections one by one, checking each hash when its collection comes up,
      takes on the same documents as going through one list that is checked beforehand. */
  lemma {:induction false} RunIsOneList(p: Progress, excluded: set<DocKey>, sizes: Sizes, e: Expected, cols: seq<seq<DocKey>>,
                                        outcome: DocKey -> Outcome, seen: set<string>)
    requires AllListed(cols, p.now)
    ensures AllIn(Concat(cols), p.now)
    ensures RunFrom(p, excluded, sizes, e, cols, outcome, seen)
         == AttemptAll(p, sizes, e, Select(p.now, excluded, e, Concat(cols), seen), outcome)
    decreases |cols|
  {
    ConcatIsListed(cols, p.now);
    if cols != [] && p.flow.Continue? {
      var todo := Select(p.now, excluded, e, cols[0], seen);
      var p' := AttemptAll(p, sizes, e, todo, outcome);
      var seen' := seen + HashesOf(p.now, todo);
      ListedLater(cols, p.now, p'.now);
      RunIsOneList(p', excluded, sizes, e, cols[1..], outcome, seen');
      OneCollectionFirst(p, excluded, sizes, e, cols[0], Concat(cols[1..]), outcome, seen);
    }
  }

  lemma OneCollectionFirst(p: Progress, excluded: set<DocKey>, sizes: Sizes, e: Expected, first: seq<DocKey>, later: seq<DocKey>,
                           outcome: DocKey -> Outcome, seen: set<string>)
    requires AllIn(first, p.now) && AllIn(later, p.now)
    ensures AllIn(first + later, p.now)
    ensures var todo := Select(p.now, excluded, e, first, seen);
            var p' := AttemptAll(p, sizes, e, todo, outcome);
            AttemptAll(p, sizes, e, Select(p.now, excluded, e, first + later, seen), outcome)
            == AttemptAll(p', sizes, e, Select(p'.now, excluded, e, later, seen + HashesOf(p.now, todo)), outcome)
  {
    var todo := Select(p.now, excluded, e, first, seen);
    var p' := AttemptAll(p, sizes, e, todo, outcome);
    var seen' := seen + HashesOf(p.now, todo);
    AttemptAllKeepsDocs(p, sizes, e, todo, outcome);
    forall h | h !in seen'
      ensures SameVectors(p.now, p'.now, h)
    {
      AttemptAllKeepsOthers(p, sizes, e, todo, outcome, h);
    }
    SelectionIsOriginal(p.now, p'.now, excluded, e, later, seen');
    SelectConcat(p.now, excluded, e, first, later, seen);
    AttemptAllConcat(p, sizes, e, todo, Select(p.now, excluded, e, later, seen'), outcome);
  }

  // ── Which documents are taken on ───────────────────────────────────────────

  /** The first listed live document with the hash. */
  function First(s: State, excluded: set<DocKey>, listed: seq<DocKey>, hash: string): Option<DocKey>
    requires AllIn(listed, s)
  {
    if listed == [] then None
    else if Live(s, excluded, listed[0]) && s.docs[listed[0]].hash == hash then Some(listed[0])
    else First(s, excluded, listed[1..], hash)
  }

  predicate DistinctHashes(s: State, ks: seq<DocKey>)
    requires AllIn(ks, s)
  {
    forall i, j | 0 <= i < j < |ks| :: s.docs[ks[i]].hash != s.docs[ks[j]].hash
  }

  /** A document is taken on if and only if its hash needs embedding and it is the first listed
      live document with it. */
  lemma {:induction false} SelectIff(s: State, excluded: set<DocKey>, e: Expected, listed: seq<DocKey>, seen: set<string>, k: DocKey)
    requires AllIn(listed, s) && k in s.docs
    ensures k in Select(s, excluded, e, listed, seen) <==>
              && First(s, excluded, listed, s.docs[k].hash) == Some(k)
              && s.docs[k].hash !in seen && NeedsEmbed(s, excluded, e, s.docs[k].hash)
  {
    if listed != [] {
      var first, rest := listed[0], listed[1..];
      if Wanted(s, excluded, e, first) && s.docs[first].hash !in seen {
        SelectIff(s, excluded, e, rest, seen + {s.docs[first].hash}, k);
      } else {
        SelectIff(s, excluded, e, rest, seen, k);
      }
    }
  }

  lemma {:induction false} FirstIsLive(s: State, excluded: set<DocKey>, listed: seq<DocKey>, hash: string)
    requires AllIn(listed, s)
    ensures var r := First(s, excluded, listed, hash);
            && (r.Some? ==> r.value in listed && Live(s, excluded, r.value) && s.docs[r.value].hash == hash)
            && (r.None? ==> forall k | k in listed && Live(s, excluded, k) :: s.docs[k].hash != hash)
  {
    if listed != [] {
      FirstIsLive(s, excluded, listed[1..], hash);
    }
  }

  lemma {:induction false} SelectIsDistinct(s: State, excluded: set<DocKey>, e: Expected, listed: seq<DocKey>, seen: set<string>)
    requires AllIn(listed, s)
    ensures var todo := Select(s, excluded, e, listed, seen);
            && DistinctHashes(s, todo) && HashesOf(s, todo) !! seen
            && (forall k | k in todo :: Wanted(s, excluded, e, k))
  {
    if listed != [] {
      var k, rest := listed[0], listed[1..];
      if Wanted(s, excluded, e, k) && s.docs[k].hash !in seen {
        var seen' := seen + {s.docs[k].hash};
        var later := Select(s, excluded, e, rest, seen');
        SelectIsDistinct(s, excluded, e, rest, seen');
        HashesOfHead(s, k, later);
        DistinctHead(s, k, later);
      } else {
        SelectIsDistinct(s, excluded, e, rest, seen);
      }
    }
  }

  lemma DistinctHead(s: State, k: DocKey, later: seq<DocKey>)
    requires k in s.docs && AllIn(later, s)
    requires DistinctHashes(s, later) && s.docs[k].hash !in HashesOf(s, later)
    ensures AllIn([k] + later, s) && DistinctHashes(s, [k] + later)
  {
    var all := [k] + later;
    forall i, j | 0 <= i < j < |all|
      ensures s.docs[all[i]].hash != s.docs[all[j]].hash
    {
      assert all[j] == later[j - 1];
      assert i > 0 ==> all[i] == later[i - 1];
    }
  }

  // ── What a run leaves pending ──────────────────────────────────────────────

  /** The documents that were embedded, in order. */
  function Embedded(p: Progress, sizes: Sizes, e: Expected, todo: seq<DocKey>, outcome: DocKey -> Outcome): (done: seq<DocKey>)
    requires AllIn(todo, p.now)
    ensures forall k | k in done :: k in todo
    decreases |todo|
  {
    if todo == [] || !p.flow.Continue? then []
    else
      var k := todo[0];
      (if outcome(k).Embeds? && sizes(p.now.docs[k].hash) > 0 then [k] else [])
      + Embedded(Attempt(p, sizes, e, k, outcome(k)), sizes, e, todo[1..], outcome)
  }

  /** The hashes settled by embedding these documents. */
  function SettledBy(s: State, excluded: set<DocKey>, e: Expected, ks: seq<DocKey>): set<string>
    requires AllIn(ks, s)
  {
    set k | k in ks && Settles(s, excluded, e, k) :: s.docs[k].hash
  }

  lemma EmptyChangesNothing(s: State, excluded: set<DocKey>, sizes: Sizes, e: Expected, hash: string)
    ensures Pending(s.(docs := ClearDonor(s.docs, hash)), excluded, sizes, e) == Pending(s, excluded, sizes, e)
  {
    var s' := s.(docs := ClearDonor(s.docs, hash));
    CountsUnchanged(s, excluded, sizes, s'.docs, s'.vectors);
    forall h
      ensures NeedsEmbed(s', excluded, e, h) <==> NeedsEmbed(s, excluded, e, h)
    {
      OthersKeepTheirState(s, s', excluded, e, h);
    }
  }

  /** One turn takes the hash off the pending set when the document is embedded and settles it. */
  lemma AttemptPending(p: Progress, excluded: set<DocKey>, sizes: Sizes, e: Expected, k: DocKey, outcome: Outcome)
    requires PlainGroups(e) && Wanted(p.now, excluded, e, k)
    ensures var hash := p.now.docs[k].hash;
            var gone := if outcome.Embeds? && sizes(hash) > 0 && Settles(p.now, excluded, e, k) then {hash} else {};
            Pending(Attempt(p, sizes, e, k, outcome).now, excluded, sizes, e) == Pending(p.now, excluded, sizes, e) - gone
  {
    var hash := p.now.docs[k].hash;
    if sizes(hash) == 0 {
      EmptyChangesNothing(p.now, excluded, sizes, e, hash);
    } else if outcome.Embeds? {
      assert Counts(p.now, excluded, sizes, k) && hash in CountedHashes(p.now, excluded, sizes);
      EmbedLowersPending(p.now, excluded, sizes, e, k);
    }
  }

  lemma SettlesUnchanged(s: State, s': State, excluded: set<DocKey>, e: Expected, ks: seq<DocKey>)
    requires AllIn(ks, s) && SameDocs(s, s')
    ensures AllIn(ks, s') && SettledBy(s', excluded, e, ks) == SettledBy(s, excluded, e, ks)
  {
    forall k | k in ks
      ensures Settles(s', excluded, e, k) <==> Settles(s, excluded, e, k)
    {
      FlagsUnchanged(s, s', excluded, e, s.docs[k].hash);
    }
  }

  lemma StillWanted(s: State, s': State, excluded: set<DocKey>, e: Expected, k: DocKey)
    requires Wanted(s, excluded, e, k) && SameDocs(s, s') && SameVectors(s, s', s.docs[k].hash)
    ensures Wanted(s', excluded, e, k)
  {
    OthersKeepTheirState(s, s', excluded, e, s.docs[k].hash);
  }

  lemma WantedLater(s: State, s': State, excluded: set<DocKey>, e: Expected, todo: seq<DocKey>)
    requires todo != [] && AllIn(todo, s) && DistinctHashes(s, todo) && SameDocs(s, s')
    requires forall h | h != s.docs[todo[0]].hash :: SameVectors(s, s', h)
    requires forall k | k in todo :: Wanted(s, excluded, e, k)
    ensures AllIn(todo[1..], s') && DistinctHashes(s', todo[1..])
    ensures forall k | k in todo[1..] :: Wanted(s', excluded, e, k)
  {
    forall k | k in todo[1..]
      ensures Wanted(s', excluded, e, k)
    {
      var j :| 0 <= j < |todo| - 1 && todo[1..][j] == k;
      assert todo[j + 1] == k && s.docs[todo[0]].hash != s.docs[todo[j + 1]].hash;
      StillWanted(s, s', excluded, e, k);
    }
    forall i, j | 0 <= i < j < |todo| - 1
      ensures s'.docs[todo[1..][i]].hash != s'.docs[todo[1..][j]].hash
    {
      assert todo[1..][i] == todo[i + 1] && todo[1..][j] == todo[j + 1];
    }
  }

  lemma SettledHead(s: State, excluded: set<DocKey>, e: Expected, k: DocKey, embedded: bool, later: seq<DocKey>)
    requires k in s.docs && AllIn(later, s)
    ensures var ks := (if embedded then [k] else []) + later;
            && AllIn(ks, s)
            && SettledBy(s, excluded, e, ks) ==
                 (if embedded && Settles(s, excluded, e, k) then {s.docs[k].hash} else {}) + SettledBy(s, excluded, e, later)
  {
    var ks := (if embedded then [k] else []) + later;
    assert forall x :: x in ks <==> (embedded && x == k) || x in later;
  }

  lemma {:induction false} AttemptAllPending(p: Progress, excluded: set<DocKey>, sizes: Sizes, e: Expected, todo: seq<DocKey>,
                                             outcome: DocKey -> Outcome)
    requires PlainGroups(e) && AllIn(todo, p.now) && DistinctHashes(p.now, todo)
    requires forall k | k in todo :: Wanted(p.now, excluded, e, k)
    ensures AllIn(Embedded(p, sizes, e, todo, outcome), p.now)
    ensures Pending(AttemptAll(p, sizes, e, todo, outcome).now, excluded, sizes, e) ==
              Pending(p.now, excluded, sizes, e) - SettledBy(p.now, excluded, e, Embedded(p, sizes, e, todo, outcome))
    decreases |todo|
  {
    if todo != [] && p.flow.Continue? {
      var k, rest := todo[0], todo[1..];
      var p' := Attempt(p, sizes, e, k, outcome(k));
      AttemptKeepsOthers(p, sizes, e, k, outcome(k));
      AttemptPending(p, excluded, sizes, e, k, outcome(k));
      WantedLater(p.now, p'.now, excluded, e, todo);
      AttemptAllPending(p', excluded, sizes, e, rest, outcome);
      var later := Embedded(p', sizes, e, rest, outcome);
      SettlesUnchanged(p.now, p'.now, excluded, e, later);
      SettledHead(p.now, excluded, e, k, outcome(k).Embeds? && sizes(p.now.docs[k].hash) > 0, later);
    }
  }

  /** The documents a run takes on, and those of them it embeds. */
  function Todo(s: State, excluded: set<DocKey>, e: Expected, cols: seq<seq<DocKey>>): (todo: seq<DocKey>)
    requires AllListed(cols, s)
    ensures AllIn(todo, s)
  {
    ConcatIsListed(cols, s);
    Select(s, excluded, e, Concat(cols), {})
  }

  function RunEmbeds(s: State, excluded: set<DocKey>, sizes: Sizes, e: Expected, cols: seq<seq<DocKey>>,
                     outcome: DocKey -> Outcome): (done: seq<DocKey>)
    requires AllListed(cols, s)
    ensures AllIn(done, s)
  {
    Embedded(Progress(s, 0, Continue), sizes, e, Todo(s, excluded, e, cols), outcome)
  }

  /** However a run ends, what it takes off the pending set is exactly the hashes settled by the
      documents it embedded. */
  lemma RunPending(s: State, excluded: set<DocKey>, sizes: Sizes, e: Expected, cols: seq<seq<DocKey>>, outcome: DocKey -> Outcome)
    requires PlainGroups(e) && AllListed(cols, s)
    ensures SameDocs(s, EmbedRun(s, excluded, sizes, e, cols, outcome).now)
    ensures Pending(EmbedRun(s, excluded, sizes, e, cols, outcome).now, excluded, sizes, e) ==
              Pending(s, excluded, sizes, e) - SettledBy(s, excluded, e, RunEmbeds(s, excluded, sizes, e, cols, outcome))
  {
    var start := Progress(s, 0, Continue);
    RunIsOneList(start, excluded, sizes, e, cols, outcome, {});
    ConcatIsListed(cols, s);
    SelectIsDistinct(s, excluded, e, Concat(cols), {});
    AttemptAllPending(start, excluded, sizes, e, Todo(s, excluded, e, cols), outcome);
    AttemptAllKeepsDocs(start, sizes, e, Todo(s, excluded, e, cols), outcome);
  }

  /** In a whole run the failures in a row count across collections. */
  lemma RunAbortsIff(s: State, excluded: set<DocKey>, sizes: Sizes, e: Expected, cols: seq<seq<DocKey>>, outcome: DocKey -> Outcome)
    requires AllListed(cols, s)
    ensures EmbedRun(s, excluded, sizes, e, cols, outcome).flow.Aborted? <==>
              HasStreak(s, sizes, Todo(s, excluded, e, cols), outcome, 0)
  {
    RunIsOneList(Progress(s, 0, Continue), excluded, sizes, e, cols, outcome, {});
    AbortsIff(Progress(s, 0, Continue), sizes, e, Todo(s, excluded, e, cols), outcome);
  }

  ghost predicate Smooth(outcome: DocKey -> Outcome) {
    forall k :: outcome(k).Embeds?
  }

  /** How many of the documents fail. */
  function Failing(s: State, sizes: Sizes, todo: seq<DocKey>, outcome: DocKey -> Outcome): nat
    requires AllIn(todo, s)
  {
    if todo == [] then 0
    else (if outcome(todo[0]).Fails? && sizes(s.docs[todo[0]].hash) > 0 then 1 else 0) + Failing(s, sizes, todo[1..], outcome)
  }

  lemma {:induction false} FailingUnchanged(s: State, s': State, sizes: Sizes, todo: seq<DocKey>, outcome: DocKey -> Outcome)
    requires AllIn(todo, s) && SameDocs(s, s')
    ensures AllIn(todo, s') && Failing(s', sizes, todo, outcome) == Failing(s, sizes, todo, outcome)
  {
    if todo != [] {
      FailingUnchanged(s, s', sizes, todo[1..], outcome);
    }
  }

  /** Documents that fail cost only themselves while there are fewer than five of them. */
  lemma {:induction false} FewFailuresAreSkipped(p: Progress, sizes: Sizes, e: Expected, todo: seq<DocKey>, outcome: DocKey -> Outcome)
    requires AllIn(todo, p.now) && p.flow.Continue? && forall k :: !outcome(k).Stops?
    requires p.failures + Failing(p.now, sizes, todo, outcome) < MAX_CONSECUTIVE_EMBED_FAILURES
    ensures AttemptAll(p, sizes, e, todo, outcome).flow.Continue?
    ensures forall k | k in todo ::
              k in Embedded(p, sizes, e, todo, outcome) <==> outcome(k).Embeds? && sizes(p.now.docs[k].hash) > 0
    decreases |todo|
  {
    if todo != [] {
      var k, rest := todo[0], todo[1..];
      var p' := Attempt(p, sizes, e, k, outcome(k));
      AttemptKeepsOthers(p, sizes, e, k, outcome(k));
      FailingUnchanged(p.now, p'.now, sizes, rest, outcome);
      FewFailuresAreSkipped(p', sizes, e, rest, outcome);
      EmbeddedIff(p, sizes, e, todo, outcome);
    }
  }

  /** Failures in a row end the run at the fifth, with the tables as they were. */
  lemma {:induction false} FifthFailureAborts(p: Progress, sizes: Sizes, e: Expected, todo: seq<DocKey>, outcome: DocKey -> Outcome)
    requires AllIn(todo, p.now) && p.flow.Continue? && p.failures < MAX_CONSECUTIVE_EMBED_FAILURES
    requires forall k | k in todo :: outcome(k).Fails? && sizes(p.now.docs[k].hash) > 0
    ensures AttemptAll(p, sizes, e, todo, outcome) ==
              if p.failures + |todo| < MAX_CONSECUTIVE_EMBED_FAILURES then p.(failures := p.failures + |todo|)
              else Progress(p.now, MAX_CONSECUTIVE_EMBED_FAILURES, Aborted)
    decreases |todo|
  {
    if todo != [] {
      var p' := Attempt(p, sizes, e, todo[0], outcome(todo[0]));
      if p'.flow.Continue? {
        FifthFailureAborts(p', sizes, e, todo[1..], outcome);
      }
    }
  }

  /** Whether the attempt counts towards a row of failures, and whether it ends one. */
  predicate IsFailure(s: State, sizes: Sizes, k: DocKey, outcome: Outcome)
    requires k in s.docs
  {
    outcome.Fails? && sizes(s.docs[k].hash) > 0
  }

  predicate IsSuccess(s: State, sizes: Sizes, k: DocKey, outcome: Outcome)
    requires k in s.docs
  {
    outcome.Embeds? && sizes(s.docs[k].hash) > 0
  }

  /** The documents from `a` to `b` bring the failures in a row to five: no signal came before,
      none of them succeeds, and five fail, counting the `before` failures a list begins with. */
  ghost predicate Streak(s: State, sizes: Sizes, todo: seq<DocKey>, outcome: DocKey -> Outcome, before: nat, a: nat, b: nat)
    requires AllIn(todo, s)
  {
    && a <= b <= |todo|
    && (forall i | 0 <= i < b :: !outcome(todo[i]).Stops?)
    && (forall i | a <= i < b :: !IsSuccess(s, sizes, todo[i], outcome(todo[i])))
    && Failing(s, sizes, todo[a..b], outcome) + (if a == 0 then before else 0) >= 5
  }

  ghost predicate HasStreak(s: State, sizes: Sizes, todo: seq<DocKey>, outcome: DocKey -> Outcome, before: nat)
    requires AllIn(todo, s)
  {
    exists a: nat, b: nat :: Streak(s, sizes, todo, outcome, before, a, b)
  }

  lemma StreakUnchanged(s: State, s': State, sizes: Sizes, todo: seq<DocKey>, outcome: DocKey -> Outcome, before: nat, a: nat, b: nat)
    requires AllIn(todo, s) && SameDocs(s, s')
    ensures AllIn(todo, s')
    ensures Streak(s, sizes, todo, outcome, before, a, b) ==> Streak(s', sizes, todo, outcome, before, a, b)
  {
    if a <= b <= |todo| {
      FailingUnchanged(s, s', sizes, todo[a..b], outcome);
    }
  }

  /** A streak of a list goes on in the rest of it. */
  lemma StreakOfRest(s: State, sizes: Sizes, todo: seq<DocKey>, outcome: DocKey -> Outcome, before: nat, next: nat, a: nat, b: nat)
    requires todo != [] && AllIn(todo, s) && 0 < b && Streak(s, sizes, todo, outcome, before, a, b)
    requires a == 0 ==> next == before + if IsFailure(s, sizes, todo[0], outcome(todo[0])) then 1 else 0
    ensures Streak(s, sizes, todo[1..], outcome, next, if a == 0 then 0 else a - 1, b - 1)
  {
    var rest := todo[1..];
    forall i | 0 <= i < b - 1 ensures rest[i] == todo[i + 1] {}
    if a == 0 {
      assert todo[0..b][1..] == rest[0..b - 1];
    } else {
      assert todo[a..b] == rest[a - 1..b - 1];
    }
  }

  /** And one of the rest is one of the list, from its first document on when that one fails or
      has no text. */
  lemma StreakOfList(s: State, sizes: Sizes, todo: seq<DocKey>, outcome: DocKey -> Outcome, before: nat, next: nat, a: nat, b: nat)
    requires todo != [] && AllIn(todo, s) && !outcome(todo[0]).Stops?
    requires Streak(s, sizes, todo[1..], outcome, next, a, b)
    requires next == if IsSuccess(s, sizes, todo[0], outcome(todo[0])) then 0
                     else before + if IsFailure(s, sizes, todo[0], outcome(todo[0])) then 1 else 0
    ensures HasStreak(s, sizes, todo, outcome, before)
  {
    var rest := todo[1..];
    forall i | 0 <= i < b ensures rest[i] == todo[i + 1] {}
    if a == 0 && !IsSuccess(s, sizes, todo[0], outcome(todo[0])) {
      assert todo[0..b + 1][1..] == rest[0..b];
      FromTheFirst(s, sizes, todo, outcome, before, b + 1);
    } else {
      assert todo[a + 1..b + 1] == rest[a..b];
      FromLater(s, sizes, todo, outcome, before, a + 1, b + 1);
    }
  }

  lemma FromTheFirst(s: State, sizes: Sizes, todo: seq<DocKey>, outcome: DocKey -> Outcome, before: nat, b: nat)
    requires AllIn(todo, s) && 0 < b <= |todo| && !IsSuccess(s, sizes, todo[0], outcome(todo[0])) && !outcome(todo[0]).Stops?
    requires forall i | 0 < i < b :: !outcome(todo[i]).Stops? && !IsSuccess(s, sizes, todo[i], outcome(todo[i]))
    requires Failing(s, sizes, todo[0..b], outcome) + before >= MAX_CONSECUTIVE_EMBED_FAILURES
    ensures HasStreak(s, sizes, todo, outcome, before)
  {
    assert Streak(s, sizes, todo, outcome, before, 0, b);
  }

  lemma FromLater(s: State, sizes: Sizes, todo: seq<DocKey>, outcome: DocKey -> Outcome, before: nat, a: nat, b: nat)
    requires AllIn(todo, s) && 0 < a <= b <= |todo| && !outcome(todo[0]).Stops?
    requires forall i | 0 < i < b :: !outcome(todo[i]).Stops?
    requires forall i | a <= i < b :: !IsSuccess(s, sizes, todo[i], outcome(todo[i]))
    requires Failing(s, sizes, todo[a..b], outcome) >= MAX_CONSECUTIVE_EMBED_FAILURES
    ensures HasStreak(s, sizes, todo, outcome, before)
  {
    assert Streak(s, sizes, todo, outcome, before, a, b);
  }

  /** The failures in a row after a turn that the run survives. */
  function NextFailures(p: Progress, sizes: Sizes, k: DocKey, outcome: Outcome): nat
    requires k in p.now.docs
  {
    if IsSuccess(p.now, sizes, k, outcome) then 0
    else p.failures + if IsFailure(p.now, sizes, k, outcome) then 1 else 0
  }

  /** The streaks after one turn are those of the rest. */
  lemma StreaksOfRest(p: Progress, sizes: Sizes, e: Expected, todo: seq<DocKey>, outcome: DocKey -> Outcome)
    requires AllIn(todo, p.now) && todo != [] && !outcome(todo[0]).Stops? && p.failures < MAX_CONSECUTIVE_EMBED_FAILURES
    ensures AllIn(todo[1..], Attempt(p, sizes, e, todo[0], outcome(todo[0])).now)
    ensures var p' := Attempt(p, sizes, e, todo[0], outcome(todo[0]));
            HasStreak(p.now, sizes, todo, outcome, p.failures) <==>
              HasStreak(p'.now, sizes, todo[1..], outcome, NextFailures(p, sizes, todo[0], outcome(todo[0])))
  {
    var next := NextFailures(p, sizes, todo[0], outcome(todo[0]));
    var p' := Attempt(p, sizes, e, todo[0], outcome(todo[0]));
    AttemptKeepsOthers(p, sizes, e, todo[0], outcome(todo[0]));
    if HasStreak(p.now, sizes, todo, outcome, p.failures) {
      HasStreakInRest(p.now, p'.now, sizes, todo, outcome, p.failures, next);
    }
    if a: nat, b: nat :| Streak(p'.now, sizes, todo[1..], outcome, next, a, b) {
      StreakUnchanged(p'.now, p.now, sizes, todo[1..], outcome, next, a, b);
      StreakOfList(p.now, sizes, todo, outcome, p.failures, next, a, b);
    }
  }

  lemma HasStreakInRest(s: State, s': State, sizes: Sizes, todo: seq<DocKey>, outcome: DocKey -> Outcome, before: nat, next: nat)
    requires todo != [] && AllIn(todo, s) && SameDocs(s, s') && before < MAX_CONSECUTIVE_EMBED_FAILURES
    requires HasStreak(s, sizes, todo, outcome, before)
    requires next == if IsSuccess(s, sizes, todo[0], outcome(todo[0])) then 0
                     else before + if IsFailure(s, sizes, todo[0], outcome(todo[0])) then 1 else 0
    ensures AllIn(todo[1..], s') && HasStreak(s', sizes, todo[1..], outcome, next)
  {
    var a: nat, b: nat :| Streak(s, sizes, todo, outcome, before, a, b);
    NotEmpty(s, sizes, todo, outcome, before, a, b);
    StreakOfRest(s, sizes, todo, outcome, before, next, a, b);
    StreakUnchanged(s, s', sizes, todo[1..], outcome, next, if a == 0 then 0 else a - 1, b - 1);
  }

  lemma NotEmpty(s: State, sizes: Sizes, todo: seq<DocKey>, outcome: DocKey -> Outcome, before: nat, a: nat, b: nat)
    requires AllIn(todo, s) && Streak(s, sizes, todo, outcome, before, a, b) && before < MAX_CONSECUTIVE_EMBED_FAILURES
    ensures 0 < b
  {
  }

  /** A run aborts if and only if five attempts fail with no success between them, before any
      signal and before the deadline. */
  lemma {:induction false} AbortsIff(p: Progress, sizes: Sizes, e: Expected, todo: seq<DocKey>, outcome: DocKey -> Outcome)
    requires AllIn(todo, p.now) && p.flow.Continue? && p.failures < MAX_CONSECUTIVE_EMBED_FAILURES
    ensures AttemptAll(p, sizes, e, todo, outcome).flow.Aborted? <==> HasStreak(p.now, sizes, todo, outcome, p.failures)
    decreases |todo|
  {
    if todo == [] {
      NoStreak(p.now, sizes, outcome, p.failures);
    } else if outcome(todo[0]).Stops? {
      StopsFirst(p.now, sizes, todo, outcome, p.failures);
    } else {
      var k := todo[0];
      var p' := Attempt(p, sizes, e, k, outcome(k));
      if p'.flow.Continue? {
        StreaksOfRest(p, sizes, e, todo, outcome);
        AbortsIff(p', sizes, e, todo[1..], outcome);
      } else {
        assert todo[0..1] == [k] && todo[0..1][1..] == [];
        FromTheFirst(p.now, sizes, todo, outcome, p.failures, 1);
      }
    }
  }

  lemma NoStreak(s: State, sizes: Sizes, outcome: DocKey -> Outcome, before: nat)
    requires before < MAX_CONSECUTIVE_EMBED_FAILURES
    ensures !HasStreak(s, sizes, [], outcome, before)
  {
    if a: nat, b: nat :| Streak(s, sizes, [], outcome, before, a, b) {
      NotEmpty(s, sizes, [], outcome, before, a, b);
    }
  }

  lemma StopsFirst(s: State, sizes: Sizes, todo: seq<DocKey>, outcome: DocKey -> Outcome, before: nat)
    requires AllIn(todo, s) && todo != [] && outcome(todo[0]).Stops? && before < MAX_CONSECUTIVE_EMBED_FAILURES
    ensures !HasStreak(s, sizes, todo, outcome, before)
  {
    if a: nat, b: nat :| Streak(s, sizes, todo, outcome, before, a, b) {
      NotEmpty(s, sizes, todo, outcome, before, a, b);
    }
  }

  /** A run that goes on to the end embeds exactly the documents that have text and do not fail. */
  lemma {:induction false} CompleteRunEmbeds(p: Progress, sizes: Sizes, e: Expected, todo: seq<DocKey>, outcome: DocKey -> Outcome)
    requires AllIn(todo, p.now) && p.flow.Continue? && AttemptAll(p, sizes, e, todo, outcome).flow.Continue?
    ensures forall k | k in todo ::
              k in Embedded(p, sizes, e, todo, outcome) <==> IsSuccess(p.now, sizes, k, outcome(k))
    decreases |todo|
  {
    if todo != [] {
      var k := todo[0];
      var p' := Attempt(p, sizes, e, k, outcome(k));
      AttemptKeepsOthers(p, sizes, e, k, outcome(k));
      EmbeddedIff(p, sizes, e, todo, outcome);
      if p'.flow.Continue? {
        CompleteRunEmbeds(p', sizes, e, todo[1..], outcome);
      }
    }
  }

  lemma {:induction false} EmbeddedIff(p: Progress, sizes: Sizes, e: Expected, todo: seq<DocKey>, outcome: DocKey -> Outcome)
    requires AllIn(todo, p.now)
    ensures forall k | k in Embedded(p, sizes, e, todo, outcome) :: outcome(k).Embeds? && sizes(p.now.docs[k].hash) > 0
    decreases |todo|
  {
    if todo != [] && p.flow.Continue? {
      var p' := Attempt(p, sizes, e, todo[0], outcome(todo[0]));
      AttemptKeepsOthers(p, sizes, e, todo[0], outcome(todo[0]));
      EmbeddedIff(p', sizes, e, todo[1..], outcome);
    }
  }

  /** A run in which nothing fails leaves a hash pending if and only if it was, and the first
      listed live document with it, if there is one, does not settle it. */
  lemma SmoothRunPending(s: State, excluded: set<DocKey>, sizes: Sizes, e: Expected, cols: seq<seq<DocKey>>,
                         outcome: DocKey -> Outcome, h: string)
    requires PlainGroups(e) && AllListed(cols, s) && Smooth(outcome) && AllIn(Concat(cols), s)
    ensures h in Pending(EmbedRun(s, excluded, sizes, e, cols, outcome).now, excluded, sizes, e) <==>
              && h in Pending(s, excluded, sizes, e)
              && var first := First(s, excluded, Concat(cols), h);
              first.Some? ==> first.value in s.docs && !Settles(s, excluded, e, first.value)
  {
    var listed, todo, done := Concat(cols), Todo(s, excluded, e, cols), RunEmbeds(s, excluded, sizes, e, cols, outcome);
    RunPending(s, excluded, sizes, e, cols, outcome);
    if h in Pending(s, excluded, sizes, e) {
      NoneFails(s, sizes, todo, outcome);
      FewFailuresAreSkipped(Progress(s, 0, Continue), sizes, e, todo, outcome);
      FirstIsLive(s, excluded, listed, h);
      forall k | k in s.docs && s.docs[k].hash == h
        ensures k in done <==> First(s, excluded, listed, h) == Some(k)
      {
        SelectIff(s, excluded, e, listed, {}, k);
      }
    }
  }

  lemma {:induction false} NoneFails(s: State, sizes: Sizes, todo: seq<DocKey>, outcome: DocKey -> Outcome)
    requires AllIn(todo, s) && Smooth(outcome)
    ensures Failing(s, sizes, todo, outcome) == 0
  {
    if todo != [] {
      NoneFails(s, sizes, todo[1..], outcome);
    }
  }

  /** A run over every live document in which nothing fails leaves nothing pending but the hashes
      whose first document does not settle them. */
  lemma FullRunLeaves(s: State, excluded: set<DocKey>, sizes: Sizes, e: Expected, cols: seq<seq<DocKey>>, outcome: DocKey -> Outcome)
    requires PlainGroups(e) && AllListed(cols, s) && Smooth(outcome) && AllIn(Concat(cols), s)
    requires forall k | Live(s, excluded, k) :: k in Concat(cols)
    ensures var p := EmbedRun(s, excluded, sizes, e, cols, outcome);
            Pending(p.now, excluded, sizes, e) == {} <==>
              forall h | h in Pending(s, excluded, sizes, e) ::
                var first := First(s, excluded, Concat(cols), h);
                first.Some? && first.value in s.docs && Settles(s, excluded, e, first.value)
  {
    var after := Pending(EmbedRun(s, excluded, sizes, e, cols, outcome).now, excluded, sizes, e);
    forall h
      ensures h in after <==>
                && h in Pending(s, excluded, sizes, e)
                && var first := First(s, excluded, Concat(cols), h);
                !(first.Some? && first.value in s.docs && Settles(s, excluded, e, first.value))
    {
      SmoothRunPending(s, excluded, sizes, e, cols, outcome, h);
      if h in Pending(s, excluded, sizes, e) {
        FirstExists(s, excluded, sizes, Concat(cols), h);
      }
    }
  }

  lemma FirstExists(s: State, excluded: set<DocKey>, sizes: Sizes, listed: seq<DocKey>, h: string)
    requires AllIn(listed, s) && h in CountedHashes(s, excluded, sizes)
    requires forall k | Live(s, excluded, k) :: k in listed
    ensures First(s, excluded, listed, h).Some? && First(s, excluded, listed, h).value in s.docs
  {
    FirstIsLive(s, excluded, listed, h);
    var k :| k in s.docs && Counts(s, excluded, sizes, k) && s.docs[k].hash == h;
    assert Live(s, excluded, k) && k in listed;
  }

  // ── Any number of runs ─────────────────────────────────────────────────────

  datatype Run = Run(cols: seq<seq<DocKey>>, outcome: DocKey -> Outcome)

  ghost predicate Runnable(s: State, runs: seq<Run>) {
    forall i | 0 <= i < |runs| :: AllListed(runs[i].cols, s)
  }

  lemma RunnableLater(s: State, s': State, runs: seq<Run>)
    requires runs != [] && Runnable(s, runs) && SameDocs(s, s')
    ensures Runnable(s', runs[1..])
  {
    forall i | 0 <= i < |runs| - 1
      ensures AllListed(runs[1..][i].cols, s')
    {
      ListedSame(runs[i + 1].cols, s, s');
    }
  }

  lemma ListedSame(cols: seq<seq<DocKey>>, s: State, s': State)
    requires AllListed(cols, s) && SameDocs(s, s')
    ensures AllListed(cols, s')
  {
    forall c | 0 <= c < |cols|
      ensures AllIn(cols[c], s')
    {
      assert AllIn(cols[c], s);
    }
  }

  /** The tables after one run after the other. */
  ghost function AfterRuns(s: State, excluded: set<DocKey>, sizes: Sizes, e: Expected, runs: seq<Run>): State
    requires PlainGroups(e) && Runnable(s, runs)
    decreases |runs|
  {
    if runs == [] then s
    else
      var s' := EmbedRun(s, excluded, sizes, e, runs[0].cols, runs[0].outcome).now;
      RunPending(s, excluded, sizes, e, runs[0].cols, runs[0].outcome);
      RunnableLater(s, s', runs);
      AfterRuns(s', excluded, sizes, e, runs[1..])
  }

  /** The first document the listing has for the hash, if any, does not settle it. */
  predicate Unsettled(s: State, excluded: set<DocKey>, e: Expected, cols: seq<seq<DocKey>>, h: string)
    requires AllListed(cols, s)
  {
    ConcatIsListed(cols, s);
    var first := First(s, excluded, Concat(cols), h);
    first.Some? && first.value in s.docs ==> !Settles(s, excluded, e, first.value)
  }

  lemma {:induction false} FirstUnchanged(s: State, s': State, excluded: set<DocKey>, listed: seq<DocKey>, h: string)
    requires AllIn(listed, s) && SameDocs(s, s')
    ensures AllIn(listed, s') && First(s', excluded, listed, h) == First(s, excluded, listed, h)
  {
    if listed != [] {
      FirstUnchanged(s, s', excluded, listed[1..], h);
    }
  }

  lemma UnsettledUnchanged(s: State, s': State, excluded: set<DocKey>, e: Expected, cols: seq<seq<DocKey>>, h: string)
    requires AllListed(cols, s) && AllListed(cols, s') && SameDocs(s, s')
    ensures Unsettled(s', excluded, e, cols, h) <==> Unsettled(s, excluded, e, cols, h)
  {
    ConcatIsListed(cols, s);
    FirstUnchanged(s, s', excluded, Concat(cols), h);
    var first := First(s, excluded, Concat(cols), h);
    if first.Some? && first.value in s.docs {
      FlagsUnchanged(s, s', excluded, e, s.docs[first.value].hash);
    }
  }

  lemma UnsettledRun(s: State, excluded: set<DocKey>, sizes: Sizes, e: Expected, cols: seq<seq<DocKey>>, outcome: DocKey -> Outcome, h: string)
    requires PlainGroups(e) && AllListed(cols, s)
    ensures Unsettled(s, excluded, e, cols, h) && h in Pending(s, excluded, sizes, e) ==>
              h in Pending(EmbedRun(s, excluded, sizes, e, cols, outcome).now, excluded, sizes, e)
    ensures Smooth(outcome) && !Unsettled(s, excluded, e, cols, h) ==>
              h !in Pending(EmbedRun(s, excluded, sizes, e, cols, outcome).now, excluded, sizes, e)
    ensures h !in Pending(s, excluded, sizes, e) ==>
              h !in Pending(EmbedRun(s, excluded, sizes, e, cols, outcome).now, excluded, sizes, e)
  {
    RunPending(s, excluded, sizes, e, cols, outcome);
    ConcatIsListed(cols, s);
    if Smooth(outcome) {
      SmoothRunPending(s, excluded, sizes, e, cols, outcome, h);
    }
    forall k | k in RunEmbeds(s, excluded, sizes, e, cols, outcome) && s.docs[k].hash == h
      ensures First(s, excluded, Concat(cols), h) == Some(k)
    {
      SelectIff(s, excluded, e, Concat(cols), {}, k);
    }
  }

  /** Nothing fails in any of the runs. */
  ghost predicate AllSmooth(runs: seq<Run>) {
    forall i | 0 <= i < |runs| :: Smooth(runs[i].outcome)
  }

  /** No run lists first, for the hash, a document that settles it. */
  ghost predicate AllUnsettled(s: State, excluded: set<DocKey>, e: Expected, runs: seq<Run>, h: string)
    requires Runnable(s, runs)
  {
    forall i | 0 <= i < |runs| :: Unsettled(s, excluded, e, runs[i].cols, h)
  }

  lemma UnsettledLater(s: State, s': State, excluded: set<DocKey>, e: Expected, runs: seq<Run>, h: string)
    requires runs != [] && Runnable(s, runs) && SameDocs(s, s')
    ensures Runnable(s', runs[1..])
    ensures AllUnsettled(s, excluded, e, runs, h) <==>
              Unsettled(s, excluded, e, runs[0].cols, h) && AllUnsettled(s', excluded, e, runs[1..], h)
  {
    RunnableLater(s, s', runs);
    forall i | 0 <= i < |runs| - 1
      ensures runs[1..][i] == runs[i + 1] && AllListed(runs[1..][i].cols, s')
      ensures Unsettled(s', excluded, e, runs[1..][i].cols, h) <==> Unsettled(s, excluded, e, runs[i + 1].cols, h)
    {
      UnsettledUnchanged(s, s', excluded, e, runs[i + 1].cols, h);
    }
    if Unsettled(s, excluded, e, runs[0].cols, h) && AllUnsettled(s', excluded, e, runs[1..], h) {
      forall i | 0 <= i < |runs|
        ensures Unsettled(s, excluded, e, runs[i].cols, h)
      {
        if i > 0 {
          assert Unsettled(s', excluded, e, runs[1..][i - 1].cols, h);
        }
      }
    }
  }

  /** Any number of runs, whatever fails in them, leave a pending hash pending as long as the
      first document each of them lists for it does not settle it. When nothing fails, that
      is the only way it stays pending. */
  lemma {:induction false} RunsPending(s: State, excluded: set<DocKey>, sizes: Sizes, e: Expected, runs: seq<Run>, h: string)
    requires PlainGroups(e) && Runnable(s, runs)
    ensures var stays := h in Pending(AfterRuns(s, excluded, sizes, e, runs), excluded, sizes, e);
            && (h in Pending(s, excluded, sizes, e) && AllUnsettled(s, excluded, e, runs, h) ==> stays)
            && (AllSmooth(runs) && stays ==> AllUnsettled(s, excluded, e, runs, h))
            && (stays ==> h in Pending(s, excluded, sizes, e))
    decreases |runs|
  {
    if runs != [] {
      var s' := EmbedRun(s, excluded, sizes, e, runs[0].cols, runs[0].outcome).now;
      RunPending(s, excluded, sizes, e, runs[0].cols, runs[0].outcome);
      UnsettledLater(s, s', excluded, e, runs, h);
      UnsettledRun(s, excluded, sizes, e, runs[0].cols, runs[0].outcome, h);
      RunsPending(s', excluded, sizes, e, runs[1..], h);
      assert AllSmooth(runs) ==> Smooth(runs[0].outcome) && AllSmooth(runs[1..]);
    }
  }

  /** No live document with the hash settles it. */
  ghost predicate NoneSettles(s: State, excluded: set<DocKey>, e: Expected, h: string) {
    forall k | k in s.docs && Live(s, excluded, k) && s.docs[k].hash == h :: !Settles(s, excluded, e, k)
  }

  lemma UnsettledStays(s: State, excluded: set<DocKey>, sizes: Sizes, e: Expected, runs: seq<Run>, h: string)
    requires PlainGroups(e) && Runnable(s, runs) && h in Pending(s, excluded, sizes, e) && NoneSettles(s, excluded, e, h)
    ensures h in Pending(AfterRuns(s, excluded, sizes, e, runs), excluded, sizes, e)
  {
    forall i | 0 <= i < |runs|
      ensures Unsettled(s, excluded, e, runs[i].cols, h)
    {
      ConcatIsListed(runs[i].cols, s);
      FirstIsLive(s, excluded, Concat(runs[i].cols), h);
    }
    RunsPending(s, excluded, sizes, e, runs, h);
  }

  lemma NoneSettlesIff(s: State, excluded: set<DocKey>, sizes: Sizes, e: Expected, h: string)
    requires h in CountedHashes(s, excluded, sizes)
    ensures NoneSettles(s, excluded, e, h) <==>
              && e.groups != []
              && forall k | k in s.docs && Live(s, excluded, k) && s.docs[k].hash == h ::
                   OnlyExtension(k.path) && InSomeGroup(e, k.path)
  {
    var one :| one in s.docs && Counts(s, excluded, sizes, one) && s.docs[one].hash == h;
    assert Live(s, excluded, one) && HasLive(s, excluded, h);
  }

  /** One live document, named `.py`, in a store whose only language is Python's. */
  function DotPy(): State {
    State(map[DocKey("c", ".py") := Doc("h", None, true)], {})
  }

  function PythonOnly(): Expected {
    Expected("base", [Group({"py"}, "ast")])
  }

  lemma BareExtension(g: Group, extension: string)
    requires extension in g.extensions && PlainExtension(extension)
    ensures OnlyExtension("." + extension) && InGroup(g, "." + extension)
  {
    var name := "." + extension;
    LastIndexFinds(name, '/');
    assert name[1..] == extension;
    LastIndexIs(name, '.', 0);
    assert GlobMatches(name, extension);
  }

  lemma DotPyIsBare()
    ensures OnlyExtension(".py") && InSomeGroup(PythonOnly(), ".py")
  {
    BareExtension(PythonOnly().groups[0], "py");
    assert "." + "py" == ".py";
  }

  lemma PythonIsPlain()
    ensures PlainGroups(PythonOnly())
  {
  }

  lemma DotPyIsPending(sizes: Sizes)
    requires sizes("h") > 0
    ensures Pending(DotPy(), {}, sizes, PythonOnly()) == {"h"} == CountedHashes(DotPy(), {}, sizes)
  {
    var k := DocKey("c", ".py");
    assert Counts(DotPy(), {}, sizes, k);
    assert CountedHashes(DotPy(), {}, sizes) == {"h"};
    assert forall fp :: !HasVector(DotPy(), "h", fp);
  }

  lemma {:induction false} HashesStay(s: State, excluded: set<DocKey>, sizes: Sizes, e: Expected, runs: seq<Run>)
    requires PlainGroups(e) && Runnable(s, runs)
    ensures SameDocs(s, AfterRuns(s, excluded, sizes, e, runs))
    decreases |runs|
  {
    if runs != [] {
      var s' := EmbedRun(s, excluded, sizes, e, runs[0].cols, runs[0].outcome).now;
      RunPending(s, excluded, sizes, e, runs[0].cols, runs[0].outcome);
      RunnableLater(s, s', runs);
      HashesStay(s', excluded, sizes, e, runs[1..]);
      SameDocsTwice(s, s', AfterRuns(s', excluded, sizes, e, runs[1..]));
    }
  }

  lemma OnlyHashStays(s: State, excluded: set<DocKey>, sizes: Sizes, e: Expected, runs: seq<Run>, h: string)
    requires PlainGroups(e) && Runnable(s, runs) && NoneSettles(s, excluded, e, h)
    requires Pending(s, excluded, sizes, e) == {h} == CountedHashes(s, excluded, sizes)
    ensures Pending(AfterRuns(s, excluded, sizes, e, runs), excluded, sizes, e) == {h}
  {
    var after := AfterRuns(s, excluded, sizes, e, runs);
    UnsettledStays(s, excluded, sizes, e, runs, h);
    HashesStay(s, excluded, sizes, e, runs);
    CountsUnchanged(s, excluded, sizes, after.docs, after.vectors);
  }

  lemma DotPyIsUnsettled(sizes: Sizes)
    requires sizes("h") > 0
    ensures NoneSettles(DotPy(), {}, PythonOnly(), "h")
  {
    DotPyIsBare();
    DotPyIsPending(sizes);
    NoneSettlesIff(DotPy(), {}, sizes, PythonOnly(), "h");
  }

  /** Its hash is pending, and after any runs, of any listings, it still is. */
  lemma DotPyStaysPending(sizes: Sizes, runs: seq<Run>)
    requires sizes("h") > 0 && Runnable(DotPy(), runs)
    ensures PlainGroups(PythonOnly()) && Pending(DotPy(), {}, sizes, PythonOnly()) == {"h"}
    ensures Pending(AfterRuns(DotPy(), {}, sizes, PythonOnly(), runs), {}, sizes, PythonOnly()) == {"h"}
  {
    PythonIsPlain();
    DotPyIsPending(sizes);
    DotPyIsUnsettled(sizes);
    OnlyHashStays(DotPy(), {}, sizes, PythonOnly(), runs, "h");
  }
}
