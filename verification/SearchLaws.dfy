/** What a ranking holds. */
module SearchLaws {
  // Which sections the vector search returns, said of the hits themselves: how many of a file, at
  // which offsets, and what is passed over (search_vec_multi_with in store.rs).
  import opened Common
  import opened VectorSearch

  /** Hit `i` is the most similar one at its offset of the file. */
  predicate Leads(hits: seq<Hit>, resolve: Resolver, f: string, i: nat) {
    && i < |hits| && resolve(hits[i].vid).Some? && resolve(hits[i].vid).value.filepath == f
    && forall j | 0 <= j < i :: resolve(hits[j].vid) != resolve(hits[i].vid)
  }

  /** The leading hits of the file before hit `n`. */
  function Leaders(hits: seq<Hit>, resolve: Resolver, f: string, n: nat): set<nat> {
    set i: nat | i < n && Leads(hits, resolve, f, i)
  }

  // ── Sections are the leading hits ──────────────────────────────────────────

  lemma {:induction false} OffsetsAre(hits: seq<Hit>, resolve: Resolver, f: string, pos: nat)
    ensures pos in Offsets(FileHits(hits, resolve, f)) <==>
              exists j :: 0 <= j < |hits| && resolve(hits[j].vid) == Some(Found(f, pos))
  {
    if hits != [] {
      var n := |hits| - 1;
      var init := hits[..n];
      OffsetsAre(init, resolve, f, pos);
      OffsetsOfBoth(FileHits(init, resolve, f), OneHit(hits[n], resolve, f), pos);
      if j :| 0 <= j < |init| && resolve(init[j].vid) == Some(Found(f, pos)) {
        assert hits[j] == init[j];
      }
      if j :| 0 <= j < |hits| && resolve(hits[j].vid) == Some(Found(f, pos)) {
        assert j < n ==> hits[j] == init[j];
      }
    }
  }

  lemma OffsetsOfBoth(a: seq<Match>, b: seq<Match>, pos: nat)
    ensures pos in Offsets(a + b) <==> pos in Offsets(a) || pos in Offsets(b)
  {
    assert forall m :: m in a + b <==> m in a || m in b;
  }

  lemma LeadsInPrefix(hits: seq<Hit>, resolve: Resolver, f: string, n: nat, i: nat)
    requires i < n <= |hits|
    ensures Leads(hits[..n], resolve, f, i) <==> Leads(hits, resolve, f, i)
  {
    assert forall j | 0 <= j < n :: hits[..n][j] == hits[j];
  }

  lemma LeadersInPrefix(hits: seq<Hit>, resolve: Resolver, f: string, n: nat)
    requires n <= |hits|
    ensures Leaders(hits[..n], resolve, f, n) == Leaders(hits, resolve, f, n)
  {
    forall i: nat | i < n
      ensures Leads(hits[..n], resolve, f, i) <==> Leads(hits, resolve, f, i)
    {
      LeadsInPrefix(hits, resolve, f, n, i);
    }
  }

  lemma LeadersGrow(hits: seq<Hit>, resolve: Resolver, f: string, n: nat)
    ensures Leaders(hits, resolve, f, n + 1) == Leaders(hits, resolve, f, n) + (if Leads(hits, resolve, f, n) then {n} else {})
    ensures |Leaders(hits, resolve, f, n + 1)| == |Leaders(hits, resolve, f, n)| + (if Leads(hits, resolve, f, n) then 1 else 0)
  {
    assert n !in Leaders(hits, resolve, f, n);
  }

  /** The last hit leads exactly when it is of the file and at a new offset. */
  lemma LastLeads(hits: seq<Hit>, resolve: Resolver, f: string)
    requires hits != []
    ensures var n := |hits| - 1;
            Leads(hits, resolve, f, n) <==>
              && resolve(hits[n].vid).Some? && resolve(hits[n].vid).value.filepath == f
              && resolve(hits[n].vid).value.pos !in Offsets(FileHits(hits[..n], resolve, f))
  {
    var n := |hits| - 1;
    if resolve(hits[n].vid).Some? && resolve(hits[n].vid).value.filepath == f {
      var pos := resolve(hits[n].vid).value.pos;
      OffsetsAre(hits[..n], resolve, f, pos);
      assert resolve(hits[n].vid) == Some(Found(f, pos));
    }
  }

  lemma PicksOfLast(hits: seq<Hit>, resolve: Resolver, f: string, perFile: nat)
    requires hits != []
    ensures var n := |hits| - 1;
            var before := PicksOf(hits[..n], resolve, f, perFile);
            PicksOf(hits, resolve, f, perFile) ==
              if Leads(hits, resolve, f, n) && |before| < perFile
              then before + [Pick(f, |before|, hits[n].similarity, resolve(hits[n].vid).value.pos)] else before
  {
    var n := |hits| - 1;
    LastLeads(hits, resolve, f);
    var matches, last := FileHits(hits[..n], resolve, f), OneHit(hits[n], resolve, f);
    if last == [] {
      assert matches + last == matches;
    } else {
      assert (matches + last)[..|matches|] == matches;
    }
  }

  lemma {:induction false} SectionCount(hits: seq<Hit>, resolve: Resolver, f: string, perFile: nat)
    ensures |PicksOf(hits, resolve, f, perFile)| == Min(|Leaders(hits, resolve, f, |hits|)|, perFile)
  {
    if hits == [] {
      assert Leaders(hits, resolve, f, 0) == {};
    } else {
      var n := |hits| - 1;
      SectionCount(hits[..n], resolve, f, perFile);
      PicksOfLast(hits, resolve, f, perFile);
      LeadersInPrefix(hits, resolve, f, n);
      LeadersGrow(hits, resolve, f, n);
    }
  }

  /** Pick `p` is leading hit `i` of its file, numbered by how many lead before it. */
  ghost predicate IsLeader(hits: seq<Hit>, resolve: Resolver, perFile: nat, p: Pick, i: nat) {
    && Leads(hits, resolve, p.filepath, i)
    && p.score == hits[i].similarity && p.pos == resolve(hits[i].vid).value.pos
    && p.rank == |Leaders(hits, resolve, p.filepath, i)| < perFile
  }

  lemma {:induction false} PickLeads(hits: seq<Hit>, resolve: Resolver, perFile: nat, p: Pick) returns (i: nat)
    requires IsPick(hits, resolve, perFile, p)
    ensures IsLeader(hits, resolve, perFile, p, i)
    decreases |hits|
  {
    var n := |hits| - 1;
    var init := hits[..n];
    PicksOfLast(hits, resolve, p.filepath, perFile);
    SectionCount(init, resolve, p.filepath, perFile);
    if IsPick(init, resolve, perFile, p) {
      i := PickLeads(init, resolve, perFile, p);
      LeaderOfPrefix(hits, resolve, perFile, p, n, i);
    } else {
      i := n;
      LeadersInPrefix(hits, resolve, p.filepath, n);
    }
  }

  lemma LeaderOfPrefix(hits: seq<Hit>, resolve: Resolver, perFile: nat, p: Pick, n: nat, i: nat)
    requires i < n <= |hits|
    ensures IsLeader(hits[..n], resolve, perFile, p, i) <==> IsLeader(hits, resolve, perFile, p, i)
  {
    LeadsInPrefix(hits, resolve, p.filepath, n, i);
    LeadersInPrefix(hits[..n], resolve, p.filepath, i);
    LeadersInPrefix(hits, resolve, p.filepath, i);
    assert hits[..n][..i] == hits[..i];
  }

  lemma {:induction false} LeaderIsPick(hits: seq<Hit>, resolve: Resolver, perFile: nat, p: Pick, i: nat)
    requires IsLeader(hits, resolve, perFile, p, i)
    ensures IsPick(hits, resolve, perFile, p)
    decreases |hits|
  {
    var n := |hits| - 1;
    PicksOfLast(hits, resolve, p.filepath, perFile);
    if i < n {
      LeaderOfPrefix(hits, resolve, perFile, p, n, i);
      LeaderIsPick(hits[..n], resolve, perFile, p, i);
    } else {
      SectionCount(hits[..n], resolve, p.filepath, perFile);
      LeadersInPrefix(hits, resolve, p.filepath, n);
    }
  }

  // ── The laws of a ranking ──────────────────────────────────────────────────

  lemma LeadersAscend(hits: seq<Hit>, resolve: Resolver, f: string, i: nat, j: nat)
    requires i < j && Leads(hits, resolve, f, i)
    ensures |Leaders(hits, resolve, f, i)| < |Leaders(hits, resolve, f, j)|
  {
    assert Leaders(hits, resolve, f, i) < Leaders(hits, resolve, f, j) by {
      assert i in Leaders(hits, resolve, f, j) && i !in Leaders(hits, resolve, f, i);
    }
    StrictSubsetIsSmaller(Leaders(hits, resolve, f, i), Leaders(hits, resolve, f, j));
  }

  /** Two picks of a file differ in offset and rank, and the more similar one has the lower rank. */
  lemma PicksOfOneFile(hits: seq<Hit>, resolve: Resolver, perFile: nat, p: Pick, q: Pick)
    requires Descending(hits) && IsPick(hits, resolve, perFile, p) && IsPick(hits, resolve, perFile, q)
    requires p != q && p.filepath == q.filepath
    ensures p.pos != q.pos && p.score != q.score && p.rank != q.rank && (p.rank < q.rank <==> p.score > q.score)
  {
    var i := PickLeads(hits, resolve, perFile, p);
    var j := PickLeads(hits, resolve, perFile, q);
    if i == j {
      SameLeader(hits, resolve, perFile, p, q, i);
    } else if i < j {
      LaterLeader(hits, resolve, perFile, p, q, i, j);
    } else {
      LaterLeader(hits, resolve, perFile, q, p, j, i);
    }
  }

  lemma SameLeader(hits: seq<Hit>, resolve: Resolver, perFile: nat, p: Pick, q: Pick, i: nat)
    requires IsLeader(hits, resolve, perFile, p, i) && IsLeader(hits, resolve, perFile, q, i)
    ensures p == q
  {
  }

  lemma LaterLeader(hits: seq<Hit>, resolve: Resolver, perFile: nat, p: Pick, q: Pick, i: nat, j: nat)
    requires Descending(hits) && i < j && p.filepath == q.filepath
    requires IsLeader(hits, resolve, perFile, p, i) && IsLeader(hits, resolve, perFile, q, j)
    ensures p.pos != q.pos && p.score > q.score && p.rank < q.rank
  {
    LeadersAscend(hits, resolve, p.filepath, i, j);
    assert resolve(hits[i].vid) == Some(Found(p.filepath, p.pos));
    assert resolve(hits[j].vid) == Some(Found(p.filepath, q.pos));
    assert resolve(hits[i].vid) != resolve(hits[j].vid);
  }

  /** The results of one file. */
  function OfFile(best: seq<Pick>, f: string): set<nat> {
    set i: nat | i < |best| && best[i].filepath == f
  }

  function Numbers(n: nat): (s: set<nat>)
    ensures |s| == n && forall i: nat :: i in s <==> i < n
  {
    if n == 0 then {} else Numbers(n - 1) + {n - 1}
  }

  function RanksOf(best: seq<Pick>, f: string): set<nat> {
    set i: nat | i in OfFile(best, f) :: best[i].rank
  }

  lemma {:induction false} RanksAreDistinct(best: seq<Pick>, some: set<nat>)
    requires forall i | i in some :: i < |best|
    requires forall i, j | i in some && j in some && i != j :: best[i].rank != best[j].rank
    ensures |set i: nat | i in some :: best[i].rank| == |some|
  {
    if some != {} {
      var x :| x in some;
      var rest := some - {x};
      RanksAreDistinct(best, rest);
      var ranks := set i: nat | i in rest :: best[i].rank;
      assert (set i: nat | i in some :: best[i].rank) == ranks + {best[x].rank};
      assert best[x].rank !in ranks;
    }
  }

  lemma RanksDiffer(hits: seq<Hit>, resolve: Resolver, perFile: nat, limit: nat, best: seq<Pick>, f: string)
    requires Descending(hits) && IsRanking(hits, resolve, perFile, limit, best)
    ensures forall i, j | i in OfFile(best, f) && j in OfFile(best, f) && i != j :: best[i].rank != best[j].rank
  {
    forall i, j | i in OfFile(best, f) && j in OfFile(best, f) && i != j
      ensures best[i].rank != best[j].rank
    {
      ResultsDiffer(hits, resolve, perFile, limit, best, i, j);
      PicksOfOneFile(hits, resolve, perFile, best[i], best[j]);
    }
  }

  /** No file has more results than were asked for. */
  lemma AtMostPerFile(hits: seq<Hit>, resolve: Resolver, perFile: nat, limit: nat, best: seq<Pick>, f: string)
    requires Descending(hits) && IsRanking(hits, resolve, perFile, limit, best)
    ensures |OfFile(best, f)| <= perFile
  {
    RanksDiffer(hits, resolve, perFile, limit, best, f);
    RanksAreDistinct(best, OfFile(best, f));
    forall r | r in RanksOf(best, f)
      ensures r in Numbers(perFile)
    {
      var i: nat :| i in OfFile(best, f) && best[i].rank == r;
      var _ := PickLeads(hits, resolve, perFile, best[i]);
    }
    SubsetIsNotLarger(RanksOf(best, f), Numbers(perFile));
  }

  lemma ResultsDiffer(hits: seq<Hit>, resolve: Resolver, perFile: nat, limit: nat, best: seq<Pick>, i: nat, j: nat)
    requires IsRanking(hits, resolve, perFile, limit, best) && i < |best| && j < |best| && i != j
    ensures best[i] != best[j]
  {
    StrLessIrreflexive(best[i].filepath);
    assert i < j ==> PickLess(best[i], best[j]);
    assert j < i ==> PickLess(best[j], best[i]);
  }

  /** Results come most similar first, each at an offset of its file that no other result of the file
      has, with the similarity of the hit that leads there. */
  lemma ResultsAreLeaders(hits: seq<Hit>, resolve: Resolver, perFile: nat, limit: nat, best: seq<Pick>)
    requires Descending(hits) && IsRanking(hits, resolve, perFile, limit, best)
    ensures forall i, j | 0 <= i < j < |best| :: best[i].score > best[j].score
    ensures forall i, j | 0 <= i < j < |best| && best[i].filepath == best[j].filepath ::
              best[i].pos != best[j].pos && best[i].rank < best[j].rank
    ensures forall p | p in best :: exists h: nat ::
              && Leads(hits, resolve, p.filepath, h) && hits[h].similarity == p.score
              && resolve(hits[h].vid).value.pos == p.pos && p.rank == |Leaders(hits, resolve, p.filepath, h)| < perFile
  {
    forall i, j | 0 <= i < j < |best|
      ensures best[i].score > best[j].score
      ensures best[i].filepath == best[j].filepath ==> best[i].pos != best[j].pos && best[i].rank < best[j].rank
    {
      ResultsDiffer(hits, resolve, perFile, limit, best, i, j);
      ScoresDiffer(hits, resolve, perFile, best[i], best[j]);
      if best[i].filepath == best[j].filepath {
        PicksOfOneFile(hits, resolve, perFile, best[i], best[j]);
      }
    }
    forall p | p in best
      ensures exists h: nat :: IsLeader(hits, resolve, perFile, p, h)
    {
      var h := PickLeads(hits, resolve, perFile, p);
    }
  }

  lemma ScoresDiffer(hits: seq<Hit>, resolve: Resolver, perFile: nat, p: Pick, q: Pick)
    requires Descending(hits) && IsPick(hits, resolve, perFile, p) && IsPick(hits, resolve, perFile, q) && PickLess(p, q)
    ensures p.score > q.score
  {
    var i := PickLeads(hits, resolve, perFile, p);
    var j := PickLeads(hits, resolve, perFile, q);
    StrLessIrreflexive(p.filepath);
    if i == j {
      SameLeader(hits, resolve, perFile, p, q, i);
    }
  }

  /** A leading hit that is not among the results is beaten: by `perFile` results of its own file,
      or by the whole of a full list. */
  lemma PassedOver(hits: seq<Hit>, resolve: Resolver, perFile: nat, limit: nat, best: seq<Pick>, f: string, h: nat)
    requires Descending(hits) && IsRanking(hits, resolve, perFile, limit, best)
    requires Leads(hits, resolve, f, h)
    requires forall p | p in best && p.filepath == f :: p.pos != resolve(hits[h].vid).value.pos
    ensures ((forall p | p in best && p.filepath == f :: p.score > hits[h].similarity) && |OfFile(best, f)| == perFile)
            || (|best| == limit && forall p | p in best :: p.score > hits[h].similarity)
  {
    var p := Pick(f, |Leaders(hits, resolve, f, h)|, hits[h].similarity, resolve(hits[h].vid).value.pos);
    if p.rank < perFile {
      LeaderIsPick(hits, resolve, perFile, p, h);
      forall q | q in best
        ensures q.score > p.score
      {
        var i :| 0 <= i < |best| && best[i] == q;
        assert PickLess(best[i], p);
        ScoresDiffer(hits, resolve, perFile, q, p);
      }
    } else {
      FullFile(hits, resolve, perFile, limit, best, f, h);
    }
  }

  lemma NoLeaders(hits: seq<Hit>, resolve: Resolver, f: string)
    ensures |Leaders(hits, resolve, f, 0)| == 0
  {
    assert Leaders(hits, resolve, f, 0) == {};
  }

  /** The hit that leads with `r` leaders before it. */
  lemma {:induction false} LeaderOfRank(hits: seq<Hit>, resolve: Resolver, f: string, n: nat, r: nat) returns (i: nat)
    requires r < |Leaders(hits, resolve, f, n)|
    ensures i < n && Leads(hits, resolve, f, i) && |Leaders(hits, resolve, f, i)| == r
    decreases n
  {
    NoLeaders(hits, resolve, f);
    if n > 0 {
      LeadersGrow(hits, resolve, f, n - 1);
      if r < |Leaders(hits, resolve, f, n - 1)| {
        i := LeaderOfRank(hits, resolve, f, n - 1, r);
      } else {
        i := n - 1;
      }
    }
  }

  /** A hit with `perFile` leaders before it is less similar than all results of its file; they number
      `perFile` unless the list is full of more similar ones. */
  lemma FullFile(hits: seq<Hit>, resolve: Resolver, perFile: nat, limit: nat, best: seq<Pick>, f: string, h: nat)
    requires Descending(hits) && IsRanking(hits, resolve, perFile, limit, best)
    requires Leads(hits, resolve, f, h) && |Leaders(hits, resolve, f, h)| >= perFile
    ensures ((forall p | p in best && p.filepath == f :: p.score > hits[h].similarity) && |OfFile(best, f)| == perFile)
            || (|best| == limit && forall p | p in best :: p.score > hits[h].similarity)
  {
    forall p | p in best && p.filepath == f
      ensures p.score > hits[h].similarity
    {
      var i := PickLeads(hits, resolve, perFile, p);
      if h < i {
        LeadersAscend(hits, resolve, f, h, i);
      }
    }
    if r: nat :| r < perFile && r !in RanksOf(best, f) {
      MissingRank(hits, resolve, perFile, limit, best, f, h, r);
    } else {
      AllRanks(hits, resolve, perFile, limit, best, f);
    }
  }

  lemma AllRanks(hits: seq<Hit>, resolve: Resolver, perFile: nat, limit: nat, best: seq<Pick>, f: string)
    requires Descending(hits) && IsRanking(hits, resolve, perFile, limit, best)
    requires forall r: nat | r < perFile :: r in RanksOf(best, f)
    ensures |OfFile(best, f)| == perFile
  {
    AtMostPerFile(hits, resolve, perFile, limit, best, f);
    SubsetIsNotLarger(Numbers(perFile), RanksOf(best, f));
    RanksDiffer(hits, resolve, perFile, limit, best, f);
    RanksAreDistinct(best, OfFile(best, f));
  }

  lemma MissingRank(hits: seq<Hit>, resolve: Resolver, perFile: nat, limit: nat, best: seq<Pick>, f: string, h: nat, r: nat)
    requires Descending(hits) && IsRanking(hits, resolve, perFile, limit, best)
    requires Leads(hits, resolve, f, h) && r < perFile <= |Leaders(hits, resolve, f, h)| && r !in RanksOf(best, f)
    ensures |best| == limit && forall p | p in best :: p.score > hits[h].similarity
  {
    var i := LeaderOfRank(hits, resolve, f, h, r);
    var p := Pick(f, r, hits[i].similarity, resolve(hits[i].vid).value.pos);
    LeaderIsPick(hits, resolve, perFile, p, i);
    forall b: nat | b < |best| && best[b].filepath == f
      ensures best[b].rank in RanksOf(best, f)
    {
      assert b in OfFile(best, f);
    }
    assert p !in best;
    forall q | q in best
      ensures q.score > hits[h].similarity
    {
      var b :| 0 <= b < |best| && best[b] == q;
      assert PickLess(best[b], p);
      ScoresDiffer(hits, resolve, perFile, q, p);
    }
  }

  /** Ranks of a file leave no gap: with a section come all more similar ones of its file. */
  lemma RanksHaveNoGap(hits: seq<Hit>, resolve: Resolver, perFile: nat, limit: nat, best: seq<Pick>, p: Pick, r: nat)
    requires Descending(hits) && IsRanking(hits, resolve, perFile, limit, best) && p in best && r < p.rank
    ensures exists q :: q in best && q.filepath == p.filepath && q.rank == r
  {
    var i := PickLeads(hits, resolve, perFile, p);
    var j := LeaderOfRank(hits, resolve, p.filepath, i, r);
    var q := Pick(p.filepath, r, hits[j].similarity, resolve(hits[j].vid).value.pos);
    LeaderIsPick(hits, resolve, perFile, q, j);
    var b :| 0 <= b < |best| && best[b] == p;
    assert !PickLess(best[b], q);
    assert q in best;
  }

  // ── The list in scope ──────────────────────────────────────────────────────

  /** The hits before `n` that resolve to something. */
  function Resolving(hits: seq<Hit>, resolve: Resolver, n: nat): nat
    requires n <= |hits|
  {
    if n == 0 then 0 else Resolving(hits, resolve, n - 1) + if resolve(hits[n - 1].vid).Some? then 1 else 0
  }

  lemma {:induction false} ResolvingInPrefix(hits: seq<Hit>, resolve: Resolver, k: nat, n: nat)
    requires n <= k <= |hits|
    ensures Resolving(hits[..k], resolve, n) == Resolving(hits, resolve, n)
  {
    if n > 0 {
      ResolvingInPrefix(hits, resolve, k, n - 1);
    }
  }

  /** The list in scope holds every hit that resolves, and no others, in order, each with the path it
      resolves to and its own similarity. */
  lemma {:induction false} InScopeHolds(hits: seq<Hit>, resolve: Resolver, i: nat)
    requires i <= |hits|
    ensures |InScope(hits, resolve)| == Resolving(hits, resolve, |hits|)
    ensures i < |hits| && resolve(hits[i].vid).Some? ==>
              var at := Resolving(hits, resolve, i);
              at < |InScope(hits, resolve)| && InScope(hits, resolve)[at] == Ranked(resolve(hits[i].vid).value.filepath, hits[i].similarity)
    decreases |hits|
  {
    if hits != [] {
      var n := |hits| - 1;
      var init := hits[..n];
      InScopeHolds(init, resolve, if i < n then i else n);
      ResolvingInPrefix(hits, resolve, n, n);
      if i < n {
        ResolvingInPrefix(hits, resolve, n, i);
      }
    }
  }
}
