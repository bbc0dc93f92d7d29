/** Vectors kept for a text that an edit replaced. */
module Donors {
  // The `prev_hash` marker, the two sweeps, and what no run of edits and sweeps takes away (db.rs,
  // store.rs).
  import opened Common
  import opened EmbedState

  // ── The steps ──────────────────────────────────────────────────────────────

  /** The CASE of `upsert_document`: which donor the row names after an edit. */
  function DonorAfter(s: State, sizes: Sizes, d: Doc, hash: string): Option<string> {
    if d.hash == hash then d.prevHash
    else if HasAnyVector(s, hash) || sizes(hash) == 0 then None
    else if HasAnyVector(s, d.hash) then Some(d.hash)
    else d.prevHash
  }

  function Upsert(s: State, sizes: Sizes, k: DocKey, hash: string): State {
    var donor := if k in s.docs then DonorAfter(s, sizes, s.docs[k], hash) else None;
    s.(docs := s.docs[k := Doc(hash, donor, true)])
  }

  predicate Missing(k: DocKey, d: Doc, collection: string, current: set<string>) {
    d.active && k.collection == collection && k.path !in current
  }

  /** `deactivate_missing_documents`. */
  function Deactivate(s: State, collection: string, current: set<string>): State {
    s.(docs := map k | k in s.docs ::
      if Missing(k, s.docs[k], collection, current) then s.docs[k].(active := false) else s.docs[k])
  }

  predicate Used(s: State, excluded: set<DocKey>, hash: string) {
    exists k :: k in s.docs && Live(s, excluded, k) && s.docs[k].hash == hash
  }

  /** `hash` is the donor of a live document whose own text has no vectors yet. */
  predicate NamedDonor(s: State, excluded: set<DocKey>, hash: string) {
    exists k :: k in s.docs && Live(s, excluded, k) && s.docs[k].prevHash == Some(hash) && !HasAnyVector(s, s.docs[k].hash)
  }

  function VectorHashes(s: State): set<string> {
    set v | v in s.vectors :: v.hash
  }

  function Orphaned(s: State): set<string> {
    set h | h in VectorHashes(s) && !Used(s, {}, h) && !NamedDonor(s, {}, h)
  }

  /** Hashes whose every active document is excluded. */
  function ExcludedOnly(s: State, excluded: set<DocKey>): set<string> {
    set h | h in VectorHashes(s) && Used(s, {}, h) && !Used(s, excluded, h) && !NamedDonor(s, excluded, h)
  }

  function WithoutVectorsOf(s: State, hashes: set<string>): State {
    s.(vectors := set v | v in s.vectors && v.hash !in hashes)
  }

  function Sweep(s: State): State {
    WithoutVectorsOf(s, Orphaned(s))
  }

  function SweepExcluded(s: State, excluded: set<DocKey>): State {
    WithoutVectorsOf(s, ExcludedOnly(s, excluded))
  }

  datatype Step =
    | Edit(key: DocKey, hash: string)
    | EmbedHash(hash: string, path: string)
    | SkipEmpty(hash: string)
    | Prune(collection: string, current: set<string>)
    | SweepOrphans
    | SweepExcludedOnly(excluded: set<DocKey>)

  predicate Allowed(sizes: Sizes, step: Step) {
    && (step.EmbedHash? ==> sizes(step.hash) > 0)
    && (step.SkipEmpty? ==> sizes(step.hash) == 0)
  }

  function Next(s: State, sizes: Sizes, e: Expected, step: Step): State {
    match step
    case Edit(key, hash) => Upsert(s, sizes, key, hash)
    case EmbedHash(hash, path) => Embed(s, e, hash, path)
    case SkipEmpty(hash) => s.(docs := ClearDonor(s.docs, hash))
    case Prune(collection, current) => Deactivate(s, collection, current)
    case SweepOrphans => Sweep(s)
    case SweepExcludedOnly(excluded) => SweepExcluded(s, excluded)
  }

  /** The state after the first `n` steps. */
  function After(s: State, sizes: Sizes, e: Expected, steps: seq<Step>, n: nat): State
    requires n <= |steps|
  {
    if n == 0 then s else Next(After(s, sizes, e, steps, n - 1), sizes, e, steps[n - 1])
  }

  // ── Donors survive ─────────────────────────────────────────────────────────

  /** The document is active, has a text, and the text has no vectors yet. */
  predicate StillWaiting(s: State, sizes: Sizes, k: DocKey) {
    k in s.docs && s.docs[k].active && sizes(s.docs[k].hash) > 0 && !HasAnyVector(s, s.docs[k].hash)
  }

  predicate Keeps(s: State, k: DocKey, donor: string) {
    k in s.docs && s.docs[k].prevHash == Some(donor) && HasAnyVector(s, donor)
  }

  /** Replacing a text that has vectors by one that has none records the donor. */
  lemma EditRecordsDonor(s: State, sizes: Sizes, k: DocKey, hash: string)
    requires k in s.docs && s.docs[k].hash != hash && HasAnyVector(s, s.docs[k].hash)
    ensures var s' := Upsert(s, sizes, k, hash);
            if StillWaiting(s', sizes, k) then Keeps(s', k, s.docs[k].hash) else s'.docs[k].prevHash == None
  {
    var s' := Upsert(s, sizes, k, hash);
    assert HasAnyVector(s', hash) <==> HasAnyVector(s, hash);
    assert HasAnyVector(s', s.docs[k].hash);
  }

  lemma EmbedKeepsHash(s: State, e: Expected, hash: string, path: string, other: string)
    requires HasAnyVector(s, other) || other == hash
    ensures HasAnyVector(Embed(s, e, hash, path), other)
  {
    var s' := Embed(s, e, hash, path);
    if other == hash {
      assert Vector(hash, FingerprintFor(e, path)) in s'.vectors;
    } else {
      var v :| v in s.vectors && v.hash == other;
      assert v in s'.vectors;
    }
  }

  lemma SweepKeepsOthers(s: State, hashes: set<string>, hash: string)
    ensures HasAnyVector(WithoutVectorsOf(s, hashes), hash) <==> HasAnyVector(s, hash) && hash !in hashes
  {
    var s' := WithoutVectorsOf(s, hashes);
    if hash !in hashes {
      if v :| v in s.vectors && v.hash == hash {
        assert v in s'.vectors;
      }
    }
  }

  lemma SweepKeepsDonor(s: State, excluded: set<DocKey>, k: DocKey, donor: string)
    requires Keeps(s, k, donor) && Live(s, excluded, k) && !HasAnyVector(s, s.docs[k].hash)
    ensures donor !in Orphaned(s) && donor !in ExcludedOnly(s, excluded)
  {
    assert Live(s, {}, k);
    assert NamedDonor(s, {}, donor);
    assert NamedDonor(s, excluded, donor);
  }

  lemma StepKeepsDonor(s: State, sizes: Sizes, e: Expected, step: Step, k: DocKey, donor: string)
    requires Allowed(sizes, step) && Keeps(s, k, donor) && StillWaiting(s, sizes, k)
    requires step.SweepExcludedOnly? ==> k !in step.excluded
    ensures var s' := Next(s, sizes, e, step);
            StillWaiting(s', sizes, k) ==> Keeps(s', k, donor)
  {
    var s' := Next(s, sizes, e, step);
    match step
    case Edit(key, hash) =>
      forall h
        ensures HasAnyVector(s', h) <==> HasAnyVector(s, h)
      {
      }
    case EmbedHash(hash, path) =>
      EmbedKeepsHash(s, e, hash, path, donor);
      if s.docs[k].hash == hash {
        EmbedKeepsHash(s, e, hash, path, hash);
      }
    case SkipEmpty(hash) =>
      assert HasAnyVector(s', donor);
    case Prune(collection, current) =>
      assert HasAnyVector(s', donor);
    case SweepOrphans =>
      SweepKeepsDonor(s, {}, k, donor);
      SweepKeepsOthers(s, Orphaned(s), donor);
    case SweepExcludedOnly(excluded) =>
      SweepKeepsDonor(s, excluded, k, donor);
      SweepKeepsOthers(s, ExcludedOnly(s, excluded), donor);
  }

  ghost predicate RunAllowed(sizes: Sizes, steps: seq<Step>, k: DocKey) {
    forall i | 0 <= i < |steps| ::
      Allowed(sizes, steps[i]) && (steps[i].SweepExcludedOnly? ==> k !in steps[i].excluded)
  }

  /** Once a donor is recorded it keeps its vectors through any run of edits (of the document
      itself too), embeds, prunes and sweeps, for as long as the document stays active with a
      non-empty text that has no vectors. */
  lemma {:induction false} DonorSurvives(s: State, sizes: Sizes, e: Expected, steps: seq<Step>, n: nat, k: DocKey, donor: string)
    requires n <= |steps| && RunAllowed(sizes, steps, k) && Keeps(s, k, donor)
    requires forall i | 0 <= i <= n :: StillWaiting(After(s, sizes, e, steps, i), sizes, k)
    ensures Keeps(After(s, sizes, e, steps, n), k, donor)
  {
    if n > 0 {
      DonorSurvives(s, sizes, e, steps, n - 1, k, donor);
      assert StillWaiting(After(s, sizes, e, steps, n - 1), sizes, k);
      assert StillWaiting(After(s, sizes, e, steps, n), sizes, k);
      StepKeepsDonor(After(s, sizes, e, steps, n - 1), sizes, e, steps[n - 1], k, donor);
    }
  }

  /** From the embedded text through its replacement to any later moment: the vectors of the
      replaced text are there as long as the document waits for its own. */
  lemma {:induction false} EditedTextDonates(s: State, sizes: Sizes, e: Expected, hash: string, steps: seq<Step>, n: nat, k: DocKey)
    requires k in s.docs && s.docs[k].hash != hash && HasAnyVector(s, s.docs[k].hash)
    requires n <= |steps| && RunAllowed(sizes, steps, k)
    requires forall i | 0 <= i <= n :: StillWaiting(After(Upsert(s, sizes, k, hash), sizes, e, steps, i), sizes, k)
    ensures Keeps(After(Upsert(s, sizes, k, hash), sizes, e, steps, n), k, s.docs[k].hash)
  {
    var edited := Upsert(s, sizes, k, hash);
    assert After(edited, sizes, e, steps, 0) == edited;
    assert StillWaiting(After(edited, sizes, e, steps, 0), sizes, k);
    EditRecordsDonor(s, sizes, k, hash);
    DonorSurvives(edited, sizes, e, steps, n, k, s.docs[k].hash);
  }

  // ── Prunes ─────────────────────────────────────────────────────────────────

  /** What a prune is to do: every document keeps its text and donor, and stays active if and only
      if it is of another collection or its path is current. */
  ghost predicate Pruned(s: State, s': State, collection: string, current: set<string>) {
    && s'.vectors == s.vectors && s'.docs.Keys == s.docs.Keys
    && forall k | k in s.docs ::
         && s'.docs[k].hash == s.docs[k].hash && s'.docs[k].prevHash == s.docs[k].prevHash
         && (s'.docs[k].active <==> s.docs[k].active && (k.collection != collection || k.path in current))
  }

  lemma PruneIsExact(s: State, sizes: Sizes, e: Expected, collection: string, current: set<string>)
    ensures Pruned(s, Next(s, sizes, e, Prune(collection, current)), collection, current)
  {
  }

  /** What an edit is to do: the document has the text and is active, all others are as before. */
  lemma EditIsExact(s: State, sizes: Sizes, e: Expected, key: DocKey, hash: string)
    ensures var s' := Next(s, sizes, e, Edit(key, hash));
            && s'.vectors == s.vectors && s'.docs.Keys == s.docs.Keys + {key}
            && s'.docs[key].hash == hash && s'.docs[key].active
            && (forall k | k in s.docs && k != key :: s'.docs[k] == s.docs[k])
            && (key !in s.docs ==> s'.docs[key].prevHash == None)
            && (key in s.docs && s.docs[key].hash == hash ==> s'.docs[key].prevHash == s.docs[key].prevHash)
  {
  }

  /** Skipping an empty text takes the donors of its documents and nothing else. */
  lemma SkipIsExact(s: State, sizes: Sizes, e: Expected, hash: string)
    ensures var s' := Next(s, sizes, e, SkipEmpty(hash));
            && s'.vectors == s.vectors && s'.docs.Keys == s.docs.Keys
            && forall k | k in s.docs ::
                 s'.docs[k] == if s.docs[k].hash == hash then s.docs[k].(prevHash := None) else s.docs[k]
  {
  }

  /** After a prune and a sweep the vectors of a hash are left if and only if they were there and some
      document that the prune spared uses the hash, or names it while its own text has none. */
  lemma PrunedVectorsGo(s: State, sizes: Sizes, e: Expected, collection: string, current: set<string>, h: string)
    ensures var s' := Next(Next(s, sizes, e, Prune(collection, current)), sizes, e, SweepOrphans);
            HasAnyVector(s', h) <==>
              && HasAnyVector(s, h)
              && exists k :: k in s.docs && s.docs[k].active && (k.collection != collection || k.path in current)
                   && (s.docs[k].hash == h || (s.docs[k].prevHash == Some(h) && !HasAnyVector(s, s.docs[k].hash)))
  {
    var pruned := Next(s, sizes, e, Prune(collection, current));
    PruneIsExact(s, sizes, e, collection, current);
    SweepKeepsOthers(pruned, Orphaned(pruned), h);
    if v :| v in pruned.vectors && v.hash == h {
      assert h in VectorHashes(pruned);
    }
    forall k | k in s.docs
      ensures Live(pruned, {}, k) <==> s.docs[k].active && (k.collection != collection || k.path in current)
    {
    }
  }

  // ── Sweeps ─────────────────────────────────────────────────────────────────

  /** No sweep touches a hash that a document it respects uses, and a sweep leaves nothing for
      a second one. */
  lemma SweepIsExact(s: State)
    ensures forall k | k in s.docs && s.docs[k].active ::
              HasAnyVector(Sweep(s), s.docs[k].hash) <==> HasAnyVector(s, s.docs[k].hash)
    ensures Orphaned(Sweep(s)) == {}
    ensures Sweep(s).vectors == s.vectors <==> Orphaned(s) == {}
  {
    var s' := Sweep(s);
    forall k | k in s.docs && s.docs[k].active
      ensures HasAnyVector(s', s.docs[k].hash) <==> HasAnyVector(s, s.docs[k].hash)
    {
      assert Live(s, {}, k) && Used(s, {}, s.docs[k].hash);
      SweepKeepsOthers(s, Orphaned(s), s.docs[k].hash);
    }
    forall h | h in VectorHashes(s')
      ensures h !in Orphaned(s')
    {
      SweptStaysUnused(s, h);
    }
    if h :| h in Orphaned(s) {
      var v :| v in s.vectors && v.hash == h;
      assert v !in s'.vectors;
    }
  }

  lemma SweptStaysUnused(s: State, h: string)
    requires h in VectorHashes(Sweep(s))
    ensures h !in Orphaned(Sweep(s))
  {
    var s' := Sweep(s);
    assert h in VectorHashes(s) && h !in Orphaned(s);
    if k :| k in s.docs && Live(s, {}, k) && s.docs[k].hash == h {
      assert Live(s', {}, k) && Used(s', {}, h);
    } else {
      var k :| k in s.docs && Live(s, {}, k) && s.docs[k].prevHash == Some(h) && !HasAnyVector(s, s.docs[k].hash);
      SweepKeepsOthers(s, Orphaned(s), s.docs[k].hash);
      assert Live(s', {}, k) && NamedDonor(s', {}, h);
    }
  }

  lemma ExcludedSweepIsExact(s: State, excluded: set<DocKey>)
    ensures forall k | Live(s, excluded, k) ::
              HasAnyVector(SweepExcluded(s, excluded), s.docs[k].hash) <==> HasAnyVector(s, s.docs[k].hash)
    ensures forall k | k in s.docs && s.docs[k].active && k in excluded && HasAnyVector(SweepExcluded(s, excluded), s.docs[k].hash) ::
              Used(s, excluded, s.docs[k].hash) || NamedDonor(s, excluded, s.docs[k].hash)
  {
    var s' := SweepExcluded(s, excluded);
    forall k | k in s.docs && s.docs[k].active
      ensures HasAnyVector(s', s.docs[k].hash) <==> HasAnyVector(s, s.docs[k].hash) && s.docs[k].hash !in ExcludedOnly(s, excluded)
      ensures Live(s, excluded, k) ==> s.docs[k].hash !in ExcludedOnly(s, excluded)
      ensures HasAnyVector(s', s.docs[k].hash) ==> Used(s, excluded, s.docs[k].hash) || NamedDonor(s, excluded, s.docs[k].hash)
    {
      SweepKeepsOthers(s, ExcludedOnly(s, excluded), s.docs[k].hash);
      assert Live(s, {}, k) && Used(s, {}, s.docs[k].hash);
      if Live(s, excluded, k) {
        assert Used(s, excluded, s.docs[k].hash);
      }
    }
  }

  /** The sweep of excluded documents takes the vectors of a hash if and only if some active document
      uses it, every one that does is excluded, and none that is not excluded names it while its own
      text has none. */
  lemma ExcludedVectorsGo(s: State, sizes: Sizes, e: Expected, excluded: set<DocKey>, h: string)
    ensures var s' := Next(s, sizes, e, SweepExcludedOnly(excluded));
            && s'.docs == s.docs && s'.vectors <= s.vectors
            && (HasAnyVector(s, h) && !HasAnyVector(s', h) <==>
                  && HasAnyVector(s, h)
                  && (exists k :: k in s.docs && s.docs[k].active && s.docs[k].hash == h)
                  && (forall k | k in s.docs && s.docs[k].active && s.docs[k].hash == h :: k in excluded)
                  && (forall k | k in s.docs && s.docs[k].active && k !in excluded && s.docs[k].prevHash == Some(h) ::
                        HasAnyVector(s, s.docs[k].hash)))
  {
    SweepKeepsOthers(s, ExcludedOnly(s, excluded), h);
    if v :| v in s.vectors && v.hash == h {
      assert h in VectorHashes(s);
    }
    forall k | k in s.docs
      ensures Live(s, excluded, k) <==> s.docs[k].active && k !in excluded
      ensures Live(s, {}, k) <==> s.docs[k].active
    {
    }
  }

  // ── Markers mean waiting ───────────────────────────────────────────────────

  /** A document names a donor only while its own text has no vectors. */
  ghost predicate MarkersWait(s: State) {
    forall k | k in s.docs && s.docs[k].prevHash.Some? :: !HasAnyVector(s, s.docs[k].hash)
  }

  lemma StepKeepsMarkers(s: State, sizes: Sizes, e: Expected, step: Step)
    requires MarkersWait(s)
    ensures MarkersWait(Next(s, sizes, e, step))
  {
    var s' := Next(s, sizes, e, step);
    forall k | k in s'.docs && s'.docs[k].prevHash.Some?
      ensures !HasAnyVector(s', s'.docs[k].hash)
    {
      if step.EmbedHash? {
        assert s'.docs[k].hash != step.hash;
        assert s'.vectors == (set v | v in s.vectors && v.hash != step.hash) + {Vector(step.hash, FingerprintFor(e, step.path))};
      } else {
        assert s'.vectors <= s.vectors;
      }
    }
  }

  /** So in every state a run reaches, a hash is swept exactly when no active document uses or
      names it. */
  lemma {:induction false} OrphansInRuns(s: State, sizes: Sizes, e: Expected, steps: seq<Step>, n: nat)
    requires n <= |steps| && MarkersWait(s)
    ensures MarkersWait(After(s, sizes, e, steps, n))
    ensures var now := After(s, sizes, e, steps, n);
            forall h :: h in Orphaned(now) <==>
                          h in VectorHashes(now)
                          && forall k | k in now.docs && now.docs[k].active :: now.docs[k].hash != h && now.docs[k].prevHash != Some(h)
  {
    if n > 0 {
      OrphansInRuns(s, sizes, e, steps, n - 1);
      StepKeepsMarkers(After(s, sizes, e, steps, n - 1), sizes, e, steps[n - 1]);
    }
    OrphansByMarkers(After(s, sizes, e, steps, n));
  }

  lemma OrphansByMarkers(s: State)
    requires MarkersWait(s)
    ensures forall h :: h in Orphaned(s) <==>
                          h in VectorHashes(s)
                          && forall k | k in s.docs && s.docs[k].active :: s.docs[k].hash != h && s.docs[k].prevHash != Some(h)
  {
    forall k | k in s.docs && s.docs[k].active
      ensures Live(s, {}, k)
    {
    }
  }

  // ── The tables ─────────────────────────────────────────────────────────────

  const BIND_CHUNK: nat := 500

  /** The documents and content_vectors tables. */
  class Database {
    var docs: map<DocKey, Doc>
    var vectors: set<Vector>

    function Current(): State
      reads this
    {
      State(docs, vectors)
    }

    constructor ()
      ensures docs == map[] && vectors == {}
      ensures MarkersWait(Current())
    {
      docs, vectors := map[], {};
    }

    method UpsertDocument(sizes: Sizes, k: DocKey, hash: string)
      modifies this`docs
      ensures Current() == Upsert(old(Current()), sizes, k, hash)
      ensures old(MarkersWait(Current())) ==> MarkersWait(Current())
    {
      StepKeepsMarkersIf(Current(), sizes, Edit(k, hash));
      if k !in docs {
        docs := docs[k := Doc(hash, None, true)];
        return;
      }
      var d := docs[k];
      var donor := d.prevHash;
      if d.hash != hash {
        var there := HasAnyVector(Current(), hash);
        if there || sizes(hash) == 0 {
          donor := None;
        } else {
          var had := HasAnyVector(Current(), d.hash);
          if had {
            donor := Some(d.hash);
          }
        }
      }
      docs := docs[k := Doc(hash, donor, true)];
    }

    /** Returns the paths it deactivated, and updates them a bounded number at a time. */
    method DeactivateMissing(collection: string, current: set<string>, existing: seq<string>) returns (missing: seq<string>)
      requires forall p :: p in existing <==> DocKey(collection, p) in docs && docs[DocKey(collection, p)].active
      modifies this`docs
      ensures Current() == Deactivate(old(Current()), collection, current)
      ensures Pruned(old(Current()), Current(), collection, current)
      ensures forall p :: p in missing <==> p in existing && p !in current
    {
      missing := [];
      for i := 0 to |existing|
        invariant forall p :: p in missing <==> p in existing[..i] && p !in current
      {
        if existing[i] !in current {
          missing := missing + [existing[i]];
        }
      }
      ghost var was := docs;
      var from := 0;
      while from < |missing|
        invariant 0 <= from <= |missing|
        invariant docs == DeactivatePaths(was, collection, missing[..from])
      {
        var to := if from + BIND_CHUNK < |missing| then from + BIND_CHUNK else |missing|;
        DeactivateInChunks(was, collection, missing[..from], missing[from..to]);
        assert missing[..to] == missing[..from] + missing[from..to];
        docs := DeactivatePaths(docs, collection, missing[from..to]);
        from := to;
      }
      assert missing[..|missing|] == missing;
      MissingAreDeactivated(Current().(docs := was), collection, current, missing);
    }

    method ReclaimVectorsOf(hashes: seq<string>)
      modifies this`vectors
      ensures Current() == WithoutVectorsOf(old(Current()), Elements(hashes))
    {
      ghost var was := vectors;
      for i := 0 to |hashes|
        invariant vectors == set v | v in was && v.hash !in hashes[..i]
      {
        vectors := set v | v in vectors && v.hash != hashes[i];
        assert hashes[..i + 1] == hashes[..i] + [hashes[i]];
      }
      assert hashes[..|hashes|] == hashes;
    }

    /** `listed` is what the orphan query returns, in any order. */
    method ReclaimOrphaned(listed: seq<string>)
      requires Elements(listed) == Orphaned(Current())
      modifies this`vectors
      ensures Current() == Sweep(old(Current())) && Orphaned(Current()) == {}
      ensures old(MarkersWait(Current())) ==> MarkersWait(Current())
    {
      SweepIsExact(Current());
      StepKeepsMarkersIf(Current(), (h: string) => 0, SweepOrphans);
      ReclaimVectorsOf(listed);
    }

    method ReclaimExcluded(excluded: set<DocKey>, listed: seq<string>)
      requires Elements(listed) == ExcludedOnly(Current(), excluded)
      modifies this`vectors
      ensures Current() == SweepExcluded(old(Current()), excluded)
      ensures old(MarkersWait(Current())) ==> MarkersWait(Current())
    {
      StepKeepsMarkersIf(Current(), (h: string) => 0, SweepExcludedOnly(excluded));
      ReclaimVectorsOf(listed);
    }

    /** The checkpoint of one embedded hash: old rows out, marker cleared, new rows in. */
    method CommitEmbedded(e: Expected, hash: string, path: string)
      modifies this
      ensures Current() == Embed(old(Current()), e, hash, path)
      ensures old(MarkersWait(Current())) ==> MarkersWait(Current())
    {
      StepKeepsEmbedMarkersIf(Current(), e, hash, path);
      vectors := set v | v in vectors && v.hash != hash;
      docs := ClearDonor(docs, hash);
      vectors := vectors + {Vector(hash, FingerprintFor(e, path))};
    }
  }

  lemma StepKeepsMarkersIf(s: State, sizes: Sizes, step: Step)
    requires !step.EmbedHash?
    ensures MarkersWait(s) ==> MarkersWait(Next(s, sizes, Expected("", []), step))
  {
    if MarkersWait(s) {
      StepKeepsMarkers(s, sizes, Expected("", []), step);
    }
  }

  lemma StepKeepsEmbedMarkersIf(s: State, e: Expected, hash: string, path: string)
    ensures MarkersWait(s) ==> MarkersWait(Embed(s, e, hash, path))
  {
    if MarkersWait(s) {
      StepKeepsMarkers(s, (h: string) => 0, e, EmbedHash(hash, path));
    }
  }

  /** `UPDATE documents SET active = 0 WHERE collection = ? AND path IN (...)`. */
  function DeactivatePaths(docs: map<DocKey, Doc>, collection: string, paths: seq<string>): map<DocKey, Doc> {
    map k | k in docs :: if k.collection == collection && k.path in paths then docs[k].(active := false) else docs[k]
  }

  lemma DeactivateInChunks(docs: map<DocKey, Doc>, collection: string, first: seq<string>, second: seq<string>)
    ensures DeactivatePaths(DeactivatePaths(docs, collection, first), collection, second)
         == DeactivatePaths(docs, collection, first + second)
  {
  }

  lemma MissingAreDeactivated(s: State, collection: string, current: set<string>, missing: seq<string>)
    requires forall p :: p in missing <==>
                           DocKey(collection, p) in s.docs && s.docs[DocKey(collection, p)].active && p !in current
    ensures DeactivatePaths(s.docs, collection, missing) == Deactivate(s, collection, current).docs
  {
    forall k | k in s.docs
      ensures (k.collection == collection && k.path in missing) <==> Missing(k, s.docs[k], collection, current)
    {
      assert k == DocKey(k.collection, k.path);
    }
  }
}
