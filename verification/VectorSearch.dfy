/** Vector search (store.rs). */
module VectorSearch {
  // The search that widens its candidate pool, without recency weighting: the early stop and the
  // cut to the best sections per file.
  import opened Common

  /** An entry of the index, most similar first in the one list that `search` cuts. */
  datatype Hit = Hit(vid: nat, similarity: real)

  /** What a vid resolves to: a document in scope and the offset of its chunk. */
  datatype Found = Found(filepath: string, pos: nat)

  /** `None` for a vid with no row, out of scope, or excluded from embedding. */
  type Resolver = nat -> Option<Found>

  /** One section chosen for a result. */
  datatype Pick = Pick(filepath: string, rank: nat, score: real, pos: nat)

  const USIZE_MAX: nat := 0xFFFF_FFFF_FFFF_FFFF

  function Min(a: nat, b: nat): nat {
    if a < b then a else b
  }

  function SaturatingMul(a: nat, b: nat): nat {
    Min(a * b, USIZE_MAX)
  }

  function AtLeastOne(k: nat): nat {
    if k == 0 then 1 else k
  }

  // ── Specification: picks of a list of hits ─────────────────────────────────

  /** `(similarity, offset)` of a file's hits. */
  type Match = (real, nat)

  /** The hits that resolve to one file, in order. */
  function FileHits(hits: seq<Hit>, resolve: Resolver, filepath: string): seq<Match> {
    if hits == [] then []
    else
      FileHits(hits[..|hits| - 1], resolve, filepath) + OneHit(hits[|hits| - 1], resolve, filepath)
  }

  function OneHit(h: Hit, resolve: Resolver, filepath: string): seq<Match> {
    match resolve(h.vid)
    case None => []
    case Some(found) => if found.filepath == filepath then [(h.similarity, found.pos)] else []
  }

  /** The first match at each offset, at most `perFile` of them, numbered from 0. */
  function Sections(matches: seq<Match>, filepath: string, perFile: nat): seq<Pick> {
    if matches == [] then []
    else
      var before := Sections(matches[..|matches| - 1], filepath, perFile);
      var (similarity, pos) := matches[|matches| - 1];
      if |before| >= perFile || pos in Offsets(matches[..|matches| - 1]) then before
      else before + [Pick(filepath, |before|, similarity, pos)]
  }

  function Offsets(matches: seq<Match>): set<nat> {
    set m | m in matches :: m.1
  }

  function PicksOf(hits: seq<Hit>, resolve: Resolver, filepath: string, perFile: nat): seq<Pick> {
    Sections(FileHits(hits, resolve, filepath), filepath, perFile)
  }

  function Files(hits: seq<Hit>, resolve: Resolver): set<string> {
    set i | 0 <= i < |hits| && resolve(hits[i].vid).Some? :: resolve(hits[i].vid).value.filepath
  }

  ghost predicate IsPick(hits: seq<Hit>, resolve: Resolver, perFile: nat, p: Pick) {
    p in PicksOf(hits, resolve, p.filepath, perFile)
  }

  /** `score_desc_then_path`, then the order within the file. */
  predicate PickLess(a: Pick, b: Pick) {
    a.score > b.score || (a.score == b.score &&
      (StrLess(a.filepath, b.filepath) || (a.filepath == b.filepath && a.rank < b.rank)))
  }

  /** `best` is the first `limit` of the picks of `hits`, in rank order. */
  ghost predicate IsRanking(hits: seq<Hit>, resolve: Resolver, perFile: nat, limit: nat, best: seq<Pick>) {
    && |best| <= limit
    && (forall i, j | 0 <= i < j < |best| :: PickLess(best[i], best[j]))
    && (forall i | 0 <= i < |best| :: IsPick(hits, resolve, perFile, best[i]))
    && (forall p | IsPick(hits, resolve, perFile, p) && p !in best ::
          |best| == limit && forall i | 0 <= i < |best| :: PickLess(best[i], p))
  }

  /** Distinct similarities, highest first. */
  ghost predicate Descending(hits: seq<Hit>) {
    forall i, j | 0 <= i < j < |hits| :: hits[i].similarity > hits[j].similarity
  }

  // ── Facts about picks ──────────────────────────────────────────────────────

  lemma {:induction false} FileHitsOfPrefix(hits: seq<Hit>, k: nat, resolve: Resolver, filepath: string)
    requires k <= |hits|
    ensures FileHits(hits[..k], resolve, filepath) <= FileHits(hits, resolve, filepath)
    decreases |hits|
  {
    if k < |hits| {
      var init := hits[..|hits| - 1];
      assert init[..k] == hits[..k];
      FileHitsOfPrefix(init, k, resolve, filepath);
    } else {
      assert hits[..k] == hits;
    }
  }

  lemma {:induction false} SectionsOfPrefix(matches: seq<Match>, k: nat, filepath: string, perFile: nat)
    requires k <= |matches|
    ensures Sections(matches[..k], filepath, perFile) <= Sections(matches, filepath, perFile)
    decreases |matches|
  {
    if k < |matches| {
      var init := matches[..|matches| - 1];
      assert init[..k] == matches[..k];
      SectionsOfPrefix(init, k, filepath, perFile);
    } else {
      assert matches[..k] == matches;
    }
  }

  /** Every match of a file comes from a hit, in order of rank. */
  lemma {:induction false} FileHitSource(hits: seq<Hit>, resolve: Resolver, filepath: string, m: nat) returns (i: nat)
    requires m < |FileHits(hits, resolve, filepath)|
    ensures i < |hits| && resolve(hits[i].vid).Some? && resolve(hits[i].vid).value.filepath == filepath
    ensures FileHits(hits, resolve, filepath)[m] == (hits[i].similarity, resolve(hits[i].vid).value.pos)
    ensures |FileHits(hits[..i], resolve, filepath)| == m
  {
    var init := hits[..|hits| - 1];
    if m < |FileHits(init, resolve, filepath)| {
      i := FileHitSource(init, resolve, filepath, m);
      assert init[..i] == hits[..i];
    } else {
      i := |hits| - 1;
    }
  }

  lemma {:induction false} FileHitOf(hits: seq<Hit>, resolve: Resolver, i: nat)
    requires i < |hits| && resolve(hits[i].vid).Some?
    ensures FileHits(hits, resolve, resolve(hits[i].vid).value.filepath) != []
  {
    FileHitsOfPrefix(hits, i + 1, resolve, resolve(hits[i].vid).value.filepath);
    assert hits[..i + 1][..i] == hits[..i];
  }

  lemma {:induction false} SectionAt(matches: seq<Match>, filepath: string, perFile: nat, r: nat) returns (m: nat)
    requires r < |Sections(matches, filepath, perFile)|
    ensures m < |matches| && var p := Sections(matches, filepath, perFile)[r];
            p == Pick(filepath, r, matches[m].0, matches[m].1)
    ensures |Sections(matches[..m + 1], filepath, perFile)| == r + 1
  {
    var init := matches[..|matches| - 1];
    if r < |Sections(init, filepath, perFile)| {
      m := SectionAt(init, filepath, perFile, r);
      assert init[..m + 1] == matches[..m + 1];
    } else {
      m := |matches| - 1;
      assert matches[..m + 1] == matches;
    }
  }

  lemma {:induction false} FirstSection(matches: seq<Match>, filepath: string, perFile: nat)
    requires matches != [] && perFile > 0
    ensures Sections(matches, filepath, perFile) != []
  {
    SectionsOfPrefix(matches, 1, filepath, perFile);
    assert matches[..1][..0] == [];
  }

  /** A pick is determined by its file and its rank there. */
  lemma PickIdentity(hits: seq<Hit>, resolve: Resolver, perFile: nat, p: Pick, q: Pick)
    requires IsPick(hits, resolve, perFile, p) && IsPick(hits, resolve, perFile, q)
    requires p.filepath == q.filepath && p.rank == q.rank
    ensures p == q
  {
    var picks := PicksOf(hits, resolve, p.filepath, perFile);
    var i :| 0 <= i < |picks| && picks[i] == p;
    var j :| 0 <= j < |picks| && picks[j] == q;
    var _ := SectionAt(FileHits(hits, resolve, p.filepath), p.filepath, perFile, i);
    var _ := SectionAt(FileHits(hits, resolve, p.filepath), p.filepath, perFile, j);
  }

  lemma PickLessIsTotal(hits: seq<Hit>, resolve: Resolver, perFile: nat, picks: set<Pick>)
    requires forall p | p in picks :: IsPick(hits, resolve, perFile, p)
    ensures StrictTotalOn(PickLess, picks)
  {
    forall a | a in picks
      ensures !PickLess(a, a)
    {
      StrLessIrreflexive(a.filepath);
    }
    forall a, b | a in picks && b in picks
      ensures a == b || PickLess(a, b) || PickLess(b, a)
    {
      StrLessTotal(a.filepath, b.filepath);
      if a.filepath == b.filepath && a.rank == b.rank {
        PickIdentity(hits, resolve, perFile, a, b);
      }
    }
    forall a, b, c | a in picks && b in picks && c in picks && PickLess(a, b) && PickLess(b, c)
      ensures PickLess(a, c)
    {
      if StrLess(a.filepath, b.filepath) && StrLess(b.filepath, c.filepath) {
        StrLessTransitive(a.filepath, b.filepath, c.filepath);
      }
    }
  }

  // ── Widening refines exhaustive search ─────────────────────────────────────

  lemma CountsGrow(hits: seq<Hit>, resolve: Resolver, filepath: string, j: nat, i: nat)
    requires i <= |hits| && j <= |hits|
    ensures j <= i ==> |FileHits(hits[..j], resolve, filepath)| <= |FileHits(hits[..i], resolve, filepath)|
  {
    if j <= i {
      FileHitsOfPrefix(hits[..i], j, resolve, filepath);
      assert hits[..i][..j] == hits[..j];
    }
  }

  /** A section complete after `m + 1` matches is the same section of any longer prefix. */
  lemma SectionStays(matches: seq<Match>, filepath: string, perFile: nat, r: nat, m: nat, n: nat)
    requires m < n <= |matches| && |Sections(matches[..m + 1], filepath, perFile)| == r + 1
    requires r < |Sections(matches, filepath, perFile)|
    ensures r < |Sections(matches[..n], filepath, perFile)|
    ensures Sections(matches[..n], filepath, perFile)[r] == Sections(matches, filepath, perFile)[r]
  {
    SectionsOfPrefix(matches[..n], m + 1, filepath, perFile);
    assert matches[..n][..m + 1] == matches[..m + 1];
    SectionsOfPrefix(matches, n, filepath, perFile);
  }

  lemma PickSource(hits: seq<Hit>, resolve: Resolver, perFile: nat, p: Pick) returns (r: nat, m: nat, i: nat)
    requires IsPick(hits, resolve, perFile, p)
    ensures i < |hits| && p.score == hits[i].similarity
    ensures m < |FileHits(hits, resolve, p.filepath)|
    ensures |FileHits(hits[..i], resolve, p.filepath)| == m && m < |FileHits(hits[..i + 1], resolve, p.filepath)|
    ensures r < |PicksOf(hits, resolve, p.filepath, perFile)| && PicksOf(hits, resolve, p.filepath, perFile)[r] == p
    ensures |Sections(FileHits(hits, resolve, p.filepath)[..m + 1], p.filepath, perFile)| == r + 1
  {
    var matches := FileHits(hits, resolve, p.filepath);
    var picks := PicksOf(hits, resolve, p.filepath, perFile);
    r :| 0 <= r < |picks| && picks[r] == p;
    m := SectionAt(matches, p.filepath, perFile, r);
    i := FileHitSource(hits, resolve, p.filepath, m);
    assert hits[..i + 1][..i] == hits[..i];
  }

  lemma UnseenSource(hits: seq<Hit>, k: nat, resolve: Resolver, perFile: nat, p: Pick) returns (i: nat)
    requires k <= |hits|
    requires IsPick(hits, resolve, perFile, p) && !IsPick(hits[..k], resolve, perFile, p)
    ensures k <= i < |hits| && p.score == hits[i].similarity
  {
    var r, m;
    r, m, i := PickSource(hits, resolve, perFile, p);
    var matches := FileHits(hits, resolve, p.filepath);
    var n := |FileHits(hits[..k], resolve, p.filepath)|;
    FileHitsOfPrefix(hits, k, resolve, p.filepath);
    assert FileHits(hits[..k], resolve, p.filepath) == matches[..n];
    CountsGrow(hits, resolve, p.filepath, i + 1, k);
    if m < n {
      SectionStays(matches, p.filepath, perFile, r, m, n);
    }
  }

  lemma SeenSource(hits: seq<Hit>, k: nat, resolve: Resolver, perFile: nat, q: Pick) returns (i: nat)
    requires k <= |hits| && IsPick(hits[..k], resolve, perFile, q)
    ensures i < k && q.score == hits[i].similarity
  {
    var r, m;
    r, m, i := PickSource(hits[..k], resolve, perFile, q);
  }

  /** A pick of all hits is a pick of the first `k`, or less similar than each of those. */
  lemma UnseenPicksAreWorse(hits: seq<Hit>, k: nat, resolve: Resolver, perFile: nat, p: Pick, q: Pick)
    requires Descending(hits) && k <= |hits|
    requires IsPick(hits, resolve, perFile, p) && !IsPick(hits[..k], resolve, perFile, p)
    requires IsPick(hits[..k], resolve, perFile, q)
    ensures q.score > p.score
  {
    var i := UnseenSource(hits, k, resolve, perFile, p);
    var j := SeenSource(hits, k, resolve, perFile, q);
  }

  ghost predicate HasFile(best: seq<Pick>, f: string) {
    exists i :: 0 <= i < |best| && best[i].filepath == f
  }

  lemma {:induction false} FewFiles(best: seq<Pick>, files: set<string>)
    requires forall f | f in files :: HasFile(best, f)
    ensures |files| <= |best|
  {
    if best == [] {
      assert forall f | f in files :: HasFile(best, f);
      assert files == {};
    } else {
      var last := best[|best| - 1].filepath;
      forall f | f in files - {last}
        ensures HasFile(best[..|best| - 1], f)
      {
        var i :| 0 <= i < |best| && best[i].filepath == f;
        assert best[..|best| - 1][i].filepath == f;
      }
      FewFiles(best[..|best| - 1], files - {last});
    }
  }

  /** Stopping early loses nothing: once the hits seen cover `limit` files, or everything has
      been seen, their best `limit` sections are the best of the whole index. */
  lemma WideningIsExhaustive(hits: seq<Hit>, k: nat, resolve: Resolver, perFile: nat, limit: nat, best: seq<Pick>)
    requires Descending(hits) && k <= |hits| && perFile > 0
    requires |Files(hits[..k], resolve)| >= limit || k == |hits|
    requires IsRanking(hits[..k], resolve, perFile, limit, best)
    ensures IsRanking(hits, resolve, perFile, limit, best)
  {
    if k == |hits| {
      assert hits[..k] == hits;
      return;
    }
    forall p | IsPick(hits[..k], resolve, perFile, p)
      ensures IsPick(hits, resolve, perFile, p)
    {
      FileHitsOfPrefix(hits, k, resolve, p.filepath);
      var seen := FileHits(hits[..k], resolve, p.filepath);
      assert seen == FileHits(hits, resolve, p.filepath)[..|seen|];
      SectionsOfPrefix(FileHits(hits, resolve, p.filepath), |seen|, p.filepath, perFile);
    }
    forall p | IsPick(hits, resolve, perFile, p) && p !in best
      ensures |best| == limit && forall i | 0 <= i < |best| :: PickLess(best[i], p)
    {
      if !IsPick(hits[..k], resolve, perFile, p) {
        forall i | 0 <= i < |best|
          ensures best[i].score > p.score
        {
          UnseenPicksAreWorse(hits, k, resolve, perFile, p, best[i]);
        }
        if |best| < limit {
          EveryFileHasItsBest(hits[..k], resolve, perFile, limit, best);
          FewFiles(best, Files(hits[..k], resolve));
        }
      }
    }
  }

  lemma EveryFileHasItsBest(hits: seq<Hit>, resolve: Resolver, perFile: nat, limit: nat, best: seq<Pick>)
    requires perFile > 0 && IsRanking(hits, resolve, perFile, limit, best) && |best| < limit
    ensures forall f | f in Files(hits, resolve) :: HasFile(best, f)
  {
    forall f | f in Files(hits, resolve)
      ensures HasFile(best, f)
    {
      var i :| 0 <= i < |hits| && resolve(hits[i].vid).Some? && resolve(hits[i].vid).value.filepath == f;
      FileHitOf(hits, resolve, i);
      FirstSection(FileHits(hits, resolve, f), f, perFile);
      var p := PicksOf(hits, resolve, f, perFile)[0];
      var _ := SectionAt(FileHits(hits, resolve, f), f, perFile, 0);
      assert IsPick(hits, resolve, perFile, p);
    }
  }

  /** The best `limit` picks and their order are fully determined. */
  lemma RankingIsUnique(hits: seq<Hit>, resolve: Resolver, perFile: nat, limit: nat, a: seq<Pick>, b: seq<Pick>)
    requires IsRanking(hits, resolve, perFile, limit, a) && IsRanking(hits, resolve, perFile, limit, b)
    ensures a == b
  {
    var all := Elements(a) + Elements(b);
    PickLessIsTotal(hits, resolve, perFile, all);
    RankingCovers(hits, resolve, perFile, limit, a, b, all);
    RankingCovers(hits, resolve, perFile, limit, b, a, all);
    SortedUnique(PickLess, all, a, b);
  }

  lemma RankingCovers(hits: seq<Hit>, resolve: Resolver, perFile: nat, limit: nat, a: seq<Pick>, b: seq<Pick>, all: set<Pick>)
    requires IsRanking(hits, resolve, perFile, limit, a) && IsRanking(hits, resolve, perFile, limit, b)
    requires StrictTotalOn(PickLess, all) && Elements(a) <= all && Elements(b) <= all
    ensures Elements(a) <= Elements(b)
  {
    if p :| p in a && p !in b {
      assert p in Elements(a);
      assert |b| == limit;
      forall q | q in b
        ensures q in a
      {
        assert q in Elements(b) && PickLess(q, p);
        assert q !in a ==> PickLess(p, q);
        assert !(PickLess(p, q) && PickLess(q, p)) by {
          assert !PickLess(p, p);
        }
      }
      assert Elements(b) < Elements(a);
      SortedSize(PickLess, all, a);
      SortedSize(PickLess, all, b);
      StrictSubsetIsSmaller(Elements(b), Elements(a));
    }
  }

  lemma StrictSubsetIsSmaller<T>(a: set<T>, b: set<T>)
    requires a < b
    ensures |a| < |b|
  {
    var x :| x in b && x !in a;
    SubsetIsNotLarger(a, b - {x});
  }

  lemma {:induction false} SubsetIsNotLarger<T>(a: set<T>, b: set<T>)
    requires a <= b
    ensures |a| <= |b|
  {
    if a != {} {
      var x :| x in a;
      SubsetIsNotLarger(a - {x}, b - {x});
    }
  }

  lemma {:induction false} SortedSize<T(!new)>(less: (T, T) -> bool, all: set<T>, s: seq<T>)
    requires StrictTotalOn(less, all) && Elements(s) <= all && StrictlySorted(less, s)
    ensures |Elements(s)| == |s|
  {
    if s == [] {
      assert Elements(s) == {};
    } else {
      assert s == [s[0]] + s[1..];
      assert Elements(s) == {s[0]} + Elements(s[1..]);
      SortedSize(less, all, s[1..]);
      TailMembers(less, all, s, s[0]);
      assert s[0] !in Elements(s[1..]);
    }
  }

  // ── The search itself ──────────────────────────────────────────────────────

  /** Similarity descending, then offset. */
  predicate MatchLess(a: Match, b: Match) {
    a.0 > b.0 || (a.0 == b.0 && a.1 < b.1)
  }

  function MatchesOf(byDoc: map<string, seq<Match>>, f: string): seq<Match> {
    if f in byDoc then byDoc[f] else []
  }

  ghost predicate Gathered(hits: seq<Hit>, resolve: Resolver, byDoc: map<string, seq<Match>>) {
    && byDoc.Keys == Files(hits, resolve)
    && forall f :: FileHits(hits, resolve, f) == MatchesOf(byDoc, f)
  }

  lemma FileHitsSnoc(hits: seq<Hit>, i: nat, resolve: Resolver, f: string)
    requires i < |hits|
    ensures FileHits(hits[..i + 1], resolve, f) == FileHits(hits[..i], resolve, f) + OneHit(hits[i], resolve, f)
  {
    assert hits[..i + 1][..i] == hits[..i];
  }

  /** One row of the map's update, or none when the vid resolves to nothing. */
  lemma GatherOne(hits: seq<Hit>, i: nat, resolve: Resolver, byDoc: map<string, seq<Match>>, byDoc': map<string, seq<Match>>)
    requires i < |hits| && Gathered(hits[..i], resolve, byDoc)
    requires match resolve(hits[i].vid)
             case None => byDoc' == byDoc
             case Some(found) =>
               byDoc' == byDoc[found.filepath := MatchesOf(byDoc, found.filepath) + [(hits[i].similarity, found.pos)]]
    ensures Gathered(hits[..i + 1], resolve, byDoc')
  {
    FilesSnoc(hits, i, resolve);
    assert byDoc'.Keys == Files(hits[..i + 1], resolve);
    forall f
      ensures FileHits(hits[..i + 1], resolve, f) == MatchesOf(byDoc', f)
    {
      FileHitsSnoc(hits, i, resolve, f);
      assert FileHits(hits[..i], resolve, f) == MatchesOf(byDoc, f);
      MatchesGrow(hits[i], resolve, byDoc, byDoc', f);
    }
  }

  lemma MatchesGrow(h: Hit, resolve: Resolver, byDoc: map<string, seq<Match>>, byDoc': map<string, seq<Match>>, f: string)
    requires match resolve(h.vid)
             case None => byDoc' == byDoc
             case Some(found) =>
               byDoc' == byDoc[found.filepath := MatchesOf(byDoc, found.filepath) + [(h.similarity, found.pos)]]
    ensures MatchesOf(byDoc', f) == MatchesOf(byDoc, f) + OneHit(h, resolve, f)
  {
  }

  lemma FilesSnoc(hits: seq<Hit>, i: nat, resolve: Resolver)
    requires i < |hits|
    ensures Files(hits[..i + 1], resolve) == Files(hits[..i], resolve) +
              (if resolve(hits[i].vid).Some? then {resolve(hits[i].vid).value.filepath} else {})
  {
    var init := hits[..i + 1];
    forall f
      ensures f in Files(init, resolve) <==>
              f in Files(hits[..i], resolve) || (resolve(hits[i].vid).Some? && f == resolve(hits[i].vid).value.filepath)
    {
      if f in Files(hits[..i], resolve) {
        var j :| 0 <= j < i && resolve(hits[..i][j].vid).Some? && resolve(hits[..i][j].vid).value.filepath == f;
        assert init[j] == hits[..i][j];
      }
      if f in Files(init, resolve) {
        var j :| 0 <= j < i + 1 && resolve(init[j].vid).Some? && resolve(init[j].vid).value.filepath == f;
        assert j < i ==> init[j] == hits[..i][j];
      }
      assert init[i] == hits[i];
    }
  }

  /** The hits of one pass by file, as the search's map collects them. */
  method Gather(hits: seq<Hit>, resolve: Resolver) returns (byDoc: map<string, seq<Match>>)
    ensures Gathered(hits, resolve, byDoc)
  {
    byDoc := map[];
    for i := 0 to |hits|
      invariant Gathered(hits[..i], resolve, byDoc)
    {
      ghost var before := byDoc;
      var found := resolve(hits[i].vid);
      if found.Some? {
        var f := found.value.filepath;
        byDoc := byDoc[f := MatchesOf(byDoc, f) + [(hits[i].similarity, found.value.pos)]];
      }
      GatherOne(hits, i, resolve, before, byDoc);
    }
    assert hits[..|hits|] == hits;
  }

  method TakeSections(matches: seq<Match>, filepath: string, perFile: nat) returns (picks: seq<Pick>)
    ensures picks == Sections(matches, filepath, perFile)
  {
    picks := [];
    var seen := {};
    for i := 0 to |matches|
      invariant picks == Sections(matches[..i], filepath, perFile) && seen == Offsets(matches[..i])
    {
      assert matches[..i + 1][..i] == matches[..i];
      var (similarity, pos) := matches[i];
      if |picks| < perFile && pos !in seen {
        picks := picks + [Pick(filepath, |picks|, similarity, pos)];
      }
      seen := seen + {pos};
    }
    assert matches[..|matches|] == matches;
  }

  lemma FileHitsAreSorted(hits: seq<Hit>, resolve: Resolver, filepath: string)
    requires Descending(hits)
    ensures Sorted(MatchLess, FileHits(hits, resolve, filepath))
  {
    var matches := FileHits(hits, resolve, filepath);
    forall a, b | 0 <= a < b < |matches|
      ensures !MatchLess(matches[b], matches[a])
    {
      var i := FileHitSource(hits, resolve, filepath, a);
      var j := FileHitSource(hits, resolve, filepath, b);
      CountsGrow(hits, resolve, filepath, j, i);
    }
  }

  ghost predicate Collected(hits: seq<Hit>, resolve: Resolver, perFile: nat, files: set<string>, picks: seq<Pick>) {
    && NoDuplicates(picks)
    && forall p :: p in picks <==> IsPick(hits, resolve, perFile, p) && p.filepath in files
  }

  lemma CollectOne(hits: seq<Hit>, resolve: Resolver, perFile: nat, files: set<string>, picks: seq<Pick>, f: string)
    requires Collected(hits, resolve, perFile, files, picks) && f !in files
    ensures Collected(hits, resolve, perFile, files + {f}, picks + PicksOf(hits, resolve, f, perFile))
  {
    var sections := PicksOf(hits, resolve, f, perFile);
    SectionsAreOfFile(FileHits(hits, resolve, f), f, perFile);
    var all := picks + sections;
    forall i, j | 0 <= i < j < |all|
      ensures all[i] != all[j]
    {
      if i < |picks| <= j {
        assert all[i] in picks && all[j] in sections;
      }
    }
    assert forall p :: p in all <==> p in picks || p in sections;
  }

  /** The sections of every file found, one file after another in whatever order the map
      yields them. */
  method CollectPicks(hits: seq<Hit>, byDoc: map<string, seq<Match>>, resolve: Resolver, perFile: nat)
    returns (picks: seq<Pick>)
    requires Descending(hits) && Gathered(hits, resolve, byDoc)
    ensures NoDuplicates(picks) && forall p :: p in picks <==> IsPick(hits, resolve, perFile, p)
  {
    picks := [];
    var left := byDoc.Keys;
    while left != {}
      invariant left <= byDoc.Keys && Collected(hits, resolve, perFile, byDoc.Keys - left, picks)
      decreases |left|
    {
      var f :| f in left;
      CollectOne(hits, resolve, perFile, byDoc.Keys - left, picks, f);
      var sections := FileSections(hits, byDoc, resolve, perFile, f);
      picks := picks + sections;
      assert byDoc.Keys - left + {f} == byDoc.Keys - (left - {f});
      left := left - {f};
    }
    PickedFilesAreFound(hits, resolve, perFile);
  }

  /** One file's best sections: its matches sorted, then cut. */
  method FileSections(hits: seq<Hit>, byDoc: map<string, seq<Match>>, resolve: Resolver, perFile: nat, f: string)
    returns (sections: seq<Pick>)
    requires Descending(hits) && Gathered(hits, resolve, byDoc) && f in byDoc
    ensures sections == PicksOf(hits, resolve, f, perFile)
  {
    assert FileHits(hits, resolve, f) == MatchesOf(byDoc, f);
    FileHitsAreSorted(hits, resolve, f);
    SortByFixesSorted(MatchLess, byDoc[f]);
    sections := TakeSections(SortBy(MatchLess, byDoc[f]), f, perFile);
  }

  lemma PickedFilesAreFound(hits: seq<Hit>, resolve: Resolver, perFile: nat)
    ensures forall p | IsPick(hits, resolve, perFile, p) :: p.filepath in Files(hits, resolve)
  {
    forall p | IsPick(hits, resolve, perFile, p)
      ensures p.filepath in Files(hits, resolve)
    {
      var r, m, i := PickSource(hits, resolve, perFile, p);
      var _ := FileHitSource(hits, resolve, p.filepath, m);
    }
  }

  lemma SectionsAreOfFile(matches: seq<Match>, filepath: string, perFile: nat)
    ensures forall p | p in Sections(matches, filepath, perFile) :: p.filepath == filepath
    ensures NoDuplicates(Sections(matches, filepath, perFile))
  {
    var picks := Sections(matches, filepath, perFile);
    forall r | 0 <= r < |picks|
      ensures picks[r].filepath == filepath && picks[r].rank == r
    {
      var _ := SectionAt(matches, filepath, perFile, r);
    }
  }

  /** `rank_picks`. */
  method RankPicks(picks: seq<Pick>, limit: nat) returns (best: seq<Pick>)
    ensures best == SortBy(PickLess, picks)[..Min(limit, |picks|)]
  {
    var sorted := SortBy(PickLess, picks);
    best := sorted[..Min(limit, |sorted|)];
  }

  lemma CutIsRanking(hits: seq<Hit>, resolve: Resolver, perFile: nat, limit: nat, sorted: seq<Pick>)
    requires StrictlySorted(PickLess, sorted) && forall p :: p in sorted <==> IsPick(hits, resolve, perFile, p)
    ensures IsRanking(hits, resolve, perFile, limit, sorted[..Min(limit, |sorted|)])
  {
    var n := Min(limit, |sorted|);
    CutKeepsTheLeast(PickLess, sorted, n);
    forall i | 0 <= i < n
      ensures IsPick(hits, resolve, perFile, sorted[..n][i])
    {
      assert sorted[i] in sorted;
    }
    assert n == |sorted| ==> sorted[..n] == sorted;
  }

  lemma TruncatedSortIsRanking(hits: seq<Hit>, resolve: Resolver, perFile: nat, limit: nat, picks: seq<Pick>)
    requires NoDuplicates(picks) && forall p :: p in picks <==> IsPick(hits, resolve, perFile, p)
    ensures IsRanking(hits, resolve, perFile, limit, SortBy(PickLess, picks)[..Min(limit, |picks|)])
  {
    PickLessIsTotal(hits, resolve, perFile, Elements(picks));
    SortByIsStrict(PickLess, picks);
    SortByMembers(PickLess, picks);
    CutIsRanking(hits, resolve, perFile, limit, SortBy(PickLess, picks));
  }

  /** The number of hits to look at and what they hold: doubled from four per result wanted
      until `limit` files are covered or the index is exhausted. */
  method Widen(hits: seq<Hit>, resolve: Resolver, limit: nat) returns (k: nat, byDoc: map<string, seq<Match>>)
    requires |hits| <= USIZE_MAX
    ensures k <= |hits| && Gathered(hits[..k], resolve, byDoc)
    ensures |Files(hits[..k], resolve)| >= limit || k == |hits|
  {
    k := AtLeastOne(SaturatingMul(limit, 4));
    byDoc := Gather(hits[..Min(k, |hits|)], resolve);
    while |byDoc| < limit && k < |hits|
      invariant 1 <= k && Gathered(hits[..Min(k, |hits|)], resolve, byDoc)
      decreases |hits| - k
    {
      k := Min(SaturatingMul(k, 2), |hits|);
      byDoc := Gather(hits[..Min(k, |hits|)], resolve);
    }
    k := Min(k, |hits|);
    assert |byDoc.Keys| == |byDoc|;
  }

  const MAX_PER_FILE: nat := 5

  /** Sections per file, at least one and at most five (`clamp_per_file`). */
  function ClampPerFile(requested: nat): (perFile: nat)
    ensures 1 <= requested <= 5 ==> perFile == requested
    ensures requested == 0 ==> perFile == 1
    ensures requested > 5 ==> perFile == 5
  {
    Min(AtLeastOne(requested), MAX_PER_FILE)
  }

  /** The best sections of the whole index, found without looking at all of it. */
  method SearchVecMulti(hits: seq<Hit>, resolve: Resolver, limit: nat, requested: nat) returns (best: seq<Pick>)
    requires Descending(hits) && |hits| <= USIZE_MAX
    ensures IsRanking(hits, resolve, ClampPerFile(requested), limit, best)
  {
    var perFile := ClampPerFile(requested);
    var k, byDoc := Widen(hits, resolve, limit);
    var picks := CollectPicks(hits[..k], byDoc, resolve, perFile);
    best := RankPicks(picks, limit);
    TruncatedSortIsRanking(hits[..k], resolve, perFile, limit, picks);
    WideningIsExhaustive(hits, k, resolve, perFile, limit, best);
  }

  // ── The hybrid query's vector leg ──────────────────────────────────────────

  datatype Ranked = Ranked(filepath: string, score: real)

  /** The hits that resolve to a document in scope, with its path (`vec_hits_to_ranked`). */
  function InScope(hits: seq<Hit>, resolve: Resolver): seq<Ranked> {
    if hits == [] then []
    else
      var h := hits[|hits| - 1];
      InScope(hits[..|hits| - 1], resolve) +
      (match resolve(h.vid)
       case None => []
       case Some(found) => [Ranked(found.filepath, h.similarity)])
  }

  lemma {:induction false} InScopeOfPrefix(hits: seq<Hit>, k: nat, resolve: Resolver)
    requires k <= |hits|
    ensures InScope(hits[..k], resolve) <= InScope(hits, resolve)
    decreases |hits|
  {
    if k < |hits| {
      var init := hits[..|hits| - 1];
      assert init[..k] == hits[..k];
      InScopeOfPrefix(init, k, resolve);
    } else {
      assert hits[..k] == hits;
    }
  }

  method VecHitsToRanked(hits: seq<Hit>, resolve: Resolver) returns (results: seq<Ranked>)
    ensures results == InScope(hits, resolve)
  {
    results := [];
    for i := 0 to |hits|
      invariant results == InScope(hits[..i], resolve)
    {
      assert hits[..i + 1][..i] == hits[..i];
      var found := resolve(hits[i].vid);
      if found.Some? {
        results := results + [Ranked(found.value.filepath, hits[i].similarity)];
      }
    }
    assert hits[..|hits|] == hits;
  }

  /** `results` starts the exhaustive in-scope list, and stops short of it only after
      `fetchSize` entries. */
  predicate EnoughInScope(results: seq<Ranked>, hits: seq<Hit>, resolve: Resolver, fetchSize: nat) {
    results <= InScope(hits, resolve) && (|results| >= fetchSize || results == InScope(hits, resolve))
  }

  /** Widening by scope instead of by file. */
  method SearchVecScoped(hits: seq<Hit>, resolve: Resolver, fetchSize: nat) returns (results: seq<Ranked>)
    requires |hits| <= USIZE_MAX && fetchSize <= USIZE_MAX
    ensures EnoughInScope(results, hits, resolve, fetchSize)
    ensures results <= InScope(hits, resolve) && (|results| >= fetchSize || results == InScope(hits, resolve))
  {
    var k := fetchSize;
    results := VecHitsToRanked(hits[..Min(k, |hits|)], resolve);
    while |results| < fetchSize && k < |hits|
      invariant results == InScope(hits[..Min(k, |hits|)], resolve)
      invariant fetchSize == 0 || 0 < k
      decreases |hits| - k
    {
      k := Min(SaturatingMul(k, 2), |hits|);
      results := VecHitsToRanked(hits[..Min(k, |hits|)], resolve);
    }
    InScopeOfPrefix(hits, Min(k, |hits|), resolve);
    assert hits[..|hits|] == hits;
  }

  // ── Building results ───────────────────────────────────────────────────────

  function Occurrences(docs: seq<nat>, d: nat): nat {
    multiset(docs)[d]
  }

  method CountPicks(picks: seq<nat>) returns (left: map<nat, nat>)
    ensures forall d :: (if d in left then left[d] else 0) == Occurrences(picks, d)
  {
    left := map[];
    for i := 0 to |picks|
      invariant forall d :: (if d in left then left[d] else 0) == Occurrences(picks[..i], d)
    {
      assert picks[..i + 1] == picks[..i] + [picks[i]];
      left := left[picks[i] := (if picks[i] in left then left[picks[i]] else 0) + 1];
    }
    assert picks[..|picks|] == picks;
  }

  /** `picks_to_results`: `picks[i]` is the document of the i-th pick. Every result gets its
      own document's body, moved into the last result that uses it and copied before that, so
      no body is asked for after it was moved. */
  method PicksToResults<D>(docs: seq<D>, picks: seq<nat>) returns (results: seq<D>)
    requires forall i | 0 <= i < |picks| :: picks[i] < |docs|
    ensures |results| == |picks| && forall i | 0 <= i < |picks| :: results[i] == docs[picks[i]]
  {
    var left := CountPicks(picks);
    assert picks == picks[0..];
    var slots := seq(|docs|, i requires 0 <= i < |docs| => Some(docs[i]));
    results := [];
    for i := 0 to |picks|
      invariant |results| == i && forall j | 0 <= j < i :: results[j] == docs[picks[j]]
      invariant SlotsOk(docs, picks[i..], left, slots)
    {
      var body;
      left, slots, body := TakeBody(docs, picks, i, left, slots);
      results := results + [body];
    }
  }

  /** The body of the i-th pick's document, moved out of its slot when no later pick uses it. */
  method TakeBody<D>(docs: seq<D>, picks: seq<nat>, i: nat, left: map<nat, nat>, slots: seq<Option<D>>)
    returns (left': map<nat, nat>, slots': seq<Option<D>>, body: D)
    requires i < |picks| && picks[i] < |docs| && SlotsOk(docs, picks[i..], left, slots)
    ensures body == docs[picks[i]] && SlotsOk(docs, picks[i + 1..], left', slots')
  {
    var d := picks[i];
    TakeSlot(docs, picks, i, left, slots);
    left' := left[d := left[d] - 1];
    body := slots[d].value;
    slots' := if left'[d] == 0 then slots[d := None] else slots;
  }

  /** Every document still to be used is in its slot, and `left` says how often it is. */
  ghost predicate SlotsOk<D>(docs: seq<D>, picks: seq<nat>, left: map<nat, nat>, slots: seq<Option<D>>) {
    && |slots| == |docs|
    && (forall d :: (if d in left then left[d] else 0) == Occurrences(picks, d))
    && forall d | 0 <= d < |docs| && Occurrences(picks, d) > 0 :: slots[d] == Some(docs[d])
  }

  lemma TakeSlot<D>(docs: seq<D>, picks: seq<nat>, i: nat, left: map<nat, nat>, slots: seq<Option<D>>)
    requires i < |picks| && picks[i] < |docs| && SlotsOk(docs, picks[i..], left, slots)
    ensures var d := picks[i];
            && d in left && left[d] > 0 && slots[d] == Some(docs[d])
            && var left' := left[d := left[d] - 1];
               SlotsOk(docs, picks[i + 1..], left', if left'[d] == 0 then slots[d := None] else slots)
  {
    assert picks[i..] == [picks[i]] + picks[i + 1..];
  }
}
