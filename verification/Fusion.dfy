/** Reciprocal rank fusion (rrf.rs), over exact numbers instead of `f32`. */
module Fusion {
  import opened Common

  datatype Ranked = Ranked(filepath: string, title: string, score: real)

  /** One ranked list with its weight. */
  datatype Leg = Leg(list: seq<Ranked>, weight: real)

  /** The lists with their weights; a list without one weighs 1. */
  function Legs(lists: seq<seq<Ranked>>, weights: seq<real>): seq<Leg> {
    seq(|lists|, i requires 0 <= i < |lists| => Leg(lists[i], if i < |weights| then weights[i] else 1.0))
  }

  // ── Specification ──────────────────────────────────────────────────────────

  function Paths(list: seq<Ranked>): set<string> {
    set r | r in list :: r.filepath
  }

  /** The first row of each file. */
  function Dedupe(list: seq<Ranked>): seq<Ranked> {
    if list == [] then []
    else
      var before := Dedupe(list[..|list| - 1]);
      var last := list[|list| - 1];
      if last.filepath in Paths(list[..|list| - 1]) then before else before + [last]
  }

  function IndexOf(list: seq<Ranked>, path: string): Option<nat> {
    if list == [] then None
    else
      match IndexOf(list[..|list| - 1], path)
      case Some(i) => Some(i)
      case None => if list[|list| - 1].filepath == path then Some(|list| - 1) else None
  }

  /** Position of a file among the distinct files of a list, best first. */
  function RankIn(list: seq<Ranked>, path: string): Option<nat> {
    IndexOf(Dedupe(list), path)
  }

  function Contribution(rank: Option<nat>, weight: real): real {
    if rank.None? then 0.0 else weight / (61.0 + rank.value as real)
  }

  function BaseScore(legs: seq<Leg>, path: string): real {
    if legs == [] then 0.0
    else
      var last := legs[|legs| - 1];
      BaseScore(legs[..|legs| - 1], path) + Contribution(RankIn(last.list, path), last.weight)
  }

  function Better(a: Option<nat>, b: Option<nat>): Option<nat> {
    if a.None? then b else if b.None? || a.value <= b.value then a else b
  }

  function TopRank(legs: seq<Leg>, path: string): Option<nat> {
    if legs == [] then None
    else Better(TopRank(legs[..|legs| - 1], path), RankIn(legs[|legs| - 1].list, path))
  }

  function Bonus(rank: Option<nat>): real {
    if rank == Some(0) then 0.05 else if rank.Some? && rank.value <= 2 then 0.02 else 0.0
  }

  function FusedScore(legs: seq<Leg>, path: string): real {
    BaseScore(legs, path) + Bonus(TopRank(legs, path))
  }

  /** The row that represents a file: its first one in the first list that has it. */
  function FirstRow(legs: seq<Leg>, path: string): Option<Ranked> {
    if legs == [] then None
    else
      match FirstRow(legs[..|legs| - 1], path)
      case Some(row) => Some(row)
      case None =>
        var list := legs[|legs| - 1].list;
        match RankIn(list, path)
        case None => None
        case Some(i) => if i < |Dedupe(list)| then Some(Dedupe(list)[i]) else None
  }

  predicate Before(a: Ranked, b: Ranked) {
    a.score > b.score || (a.score == b.score && StrLess(a.filepath, b.filepath))
  }

  ghost predicate InSomeList(legs: seq<Leg>, path: string) {
    exists i :: 0 <= i < |legs| && path in Paths(legs[i].list)
  }

  /** Each file of any list once, with its fused score and its first row's title, in order. */
  ghost predicate IsFusion(legs: seq<Leg>, fused: seq<Ranked>) {
    && StrictlySorted(Before, fused)
    && (forall path :: InSomeList(legs, path) <==> exists r :: r in fused && r.filepath == path)
    && (forall r | r in fused ::
          r.score == FusedScore(legs, r.filepath)
          && FirstRow(legs, r.filepath).Some? && r == FirstRow(legs, r.filepath).value.(score := r.score))
  }

  // ── Deduplication ──────────────────────────────────────────────────────────

  lemma {:induction false} DedupeFacts(list: seq<Ranked>)
    ensures Paths(Dedupe(list)) == Paths(list)
    ensures forall i, j | 0 <= i < j < |Dedupe(list)| :: Dedupe(list)[i].filepath != Dedupe(list)[j].filepath
  {
    if list != [] {
      var init := list[..|list| - 1];
      DedupeFacts(init);
      assert list == init + [list[|list| - 1]];
      assert Paths(list) == Paths(init) + {list[|list| - 1].filepath};
      forall j | 0 <= j < |Dedupe(init)|
        ensures Dedupe(init)[j].filepath in Paths(init)
      {
        assert Dedupe(init)[j] in Dedupe(init);
      }
      if list[|list| - 1].filepath !in Paths(init) {
        assert Paths(Dedupe(init) + [list[|list| - 1]]) == Paths(Dedupe(init)) + {list[|list| - 1].filepath};
      }
    }
  }

  lemma {:induction false} IndexOfFinds(list: seq<Ranked>, path: string)
    ensures IndexOf(list, path).Some? <==> path in Paths(list)
    ensures IndexOf(list, path).Some? ==>
              IndexOf(list, path).value < |list| && list[IndexOf(list, path).value].filepath == path
  {
    if list != [] {
      IndexOfFinds(list[..|list| - 1], path);
      assert list == list[..|list| - 1] + [list[|list| - 1]];
    }
  }

  /** More rows of a file that the list already has change nothing. */
  lemma DedupeSnoc(list: seq<Ranked>, row: Ranked)
    ensures Dedupe(list + [row]) == if row.filepath in Paths(list) then Dedupe(list) else Dedupe(list) + [row]
  {
    assert (list + [row])[..|list|] == list;
  }

  lemma {:induction false} LaterRowsAreIgnored(before: seq<Ranked>, row: Ranked, after: seq<Ranked>)
    requires row.filepath in Paths(before)
    ensures Dedupe(before + [row] + after) == Dedupe(before + after)
  {
    if after == [] {
      DedupeSnoc(before, row);
      assert before + [row] + after == before + [row] && before + after == before;
    } else {
      var init, last := after[..|after| - 1], after[|after| - 1];
      LaterRowsAreIgnored(before, row, init);
      assert before + [row] + after == (before + [row] + init) + [last];
      assert before + after == (before + init) + [last];
      DedupeSnoc(before + [row] + init, last);
      DedupeSnoc(before + init, last);
      SamePaths(before, row, init);
    }
  }

  lemma SamePaths(before: seq<Ranked>, row: Ranked, after: seq<Ranked>)
    requires row.filepath in Paths(before)
    ensures Paths(before + [row] + after) == Paths(before + after)
  {
    assert forall r :: r in before + [row] + after <==> r in before + after || r == row;
    var r :| r in before && r.filepath == row.filepath;
    assert r in before + after;
  }

  /** Files split into more chunks than others gain nothing: a later row of a file that a list
      already has leaves every score as it was. */
  lemma LaterRowsKeepScores(legs: seq<Leg>, i: nat, before: seq<Ranked>, row: Ranked, after: seq<Ranked>, path: string)
    requires i < |legs| && legs[i].list == before + after && row.filepath in Paths(before)
    ensures var longer := legs[i := legs[i].(list := before + [row] + after)];
            FusedScore(longer, path) == FusedScore(legs, path)
  {
    LaterRowsAreIgnored(before, row, after);
    SameRanksSameScores(legs, legs[i := legs[i].(list := before + [row] + after)], path);
  }

  lemma {:induction false} SameRanksSameScores(a: seq<Leg>, b: seq<Leg>, path: string)
    requires |a| == |b|
    requires forall i | 0 <= i < |a| :: a[i].weight == b[i].weight && RankIn(a[i].list, path) == RankIn(b[i].list, path)
    ensures BaseScore(a, path) == BaseScore(b, path) && TopRank(a, path) == TopRank(b, path)
  {
    if a != [] {
      SameRanksSameScores(a[..|a| - 1], b[..|b| - 1], path);
    }
  }

  // ── Order of the lists ─────────────────────────────────────────────────────

  lemma BetterCommutes(a: Option<nat>, b: Option<nat>, c: Option<nat>)
    ensures Better(Better(a, b), c) == Better(Better(a, c), b)
  {
  }

  function Share(leg: Leg, path: string): real {
    Contribution(RankIn(leg.list, path), leg.weight)
  }

  lemma BaseScoreSnoc(legs: seq<Leg>, leg: Leg, path: string)
    ensures BaseScore(legs + [leg], path) == BaseScore(legs, path) + Share(leg, path)
    ensures TopRank(legs + [leg], path) == Better(TopRank(legs, path), RankIn(leg.list, path))
  {
    assert (legs + [leg])[..|legs|] == legs;
  }

  /** Without one occurrence of `leg`, a file's sum lacks its share and its best rank may be
      lower. */
  ghost predicate Removed(with: seq<Leg>, without: seq<Leg>, leg: Leg, path: string) {
    && BaseScore(with, path) == BaseScore(without, path) + Share(leg, path)
    && TopRank(with, path) == Better(TopRank(without, path), RankIn(leg.list, path))
  }

  lemma RemovedSnoc(with: seq<Leg>, without: seq<Leg>, leg: Leg, last: Leg, path: string)
    requires Removed(with, without, leg, path)
    ensures Removed(with + [last], without + [last], leg, path)
  {
    BaseScoreSnoc(with, last, path);
    BaseScoreSnoc(without, last, path);
    BetterCommutes(TopRank(without, path), RankIn(leg.list, path), RankIn(last.list, path));
  }

  lemma Regroup(before: seq<Leg>, leg: Leg, init: seq<Leg>, last: Leg)
    ensures before + [leg] + (init + [last]) == (before + [leg] + init) + [last]
    ensures before + (init + [last]) == (before + init) + [last]
  {
  }

  lemma {:induction false} LegRemoved(before: seq<Leg>, leg: Leg, after: seq<Leg>, path: string)
    ensures Removed(before + [leg] + after, before + after, leg, path)
  {
    if after == [] {
      BaseScoreSnoc(before, leg, path);
      assert before + [leg] + after == before + [leg] && before + after == before;
    } else {
      var init, last := after[..|after| - 1], after[|after| - 1];
      LegRemoved(before, leg, init, path);
      RemovedSnoc(before + [leg] + init, before + init, leg, last, path);
      assert after == init + [last];
      Regroup(before, leg, init, last);
    }
  }

  /** Permuting the lists together with their weights changes no score. */
  lemma {:induction false} OrderOfListsIsIrrelevant(a: seq<Leg>, b: seq<Leg>, path: string)
    requires multiset(a) == multiset(b)
    ensures BaseScore(a, path) == BaseScore(b, path) && TopRank(a, path) == TopRank(b, path)
    ensures FusedScore(a, path) == FusedScore(b, path)
  {
    if a == [] {
      assert |multiset(b)| == 0;
      assert b == [];
    } else {
      var init, last := a[..|a| - 1], a[|a| - 1];
      var before, after := Around(a, init, last, b);
      OrderOfListsIsIrrelevant(init, before + after, path);
      assert a == init + [last];
      BaseScoreSnoc(init, last, path);
      LegRemoved(before, last, after, path);
    }
  }

  lemma Around(a: seq<Leg>, init: seq<Leg>, last: Leg, b: seq<Leg>) returns (before: seq<Leg>, after: seq<Leg>)
    requires a == init + [last] && multiset(a) == multiset(b)
    ensures b == before + [last] + after && multiset(init) == multiset(before + after)
  {
    assert last in multiset(b);
    var i :| 0 <= i < |b| && b[i] == last;
    before, after := b[..i], b[i + 1..];
    assert b == before + [last] + after;
    CancelLast(init, last, before, after);
  }

  lemma CancelLast<T>(init: seq<T>, last: T, before: seq<T>, after: seq<T>)
    requires multiset(init + [last]) == multiset(before + [last] + after)
    ensures multiset(init) == multiset(before + after)
  {
    assert multiset(before + [last] + after) == multiset(before + after) + multiset{last};
    assert multiset(init + [last]) == multiset(init) + multiset{last};
    assert multiset(init) == (multiset(init) + multiset{last}) - multiset{last};
    assert multiset(before + after) == (multiset(before + after) + multiset{last}) - multiset{last};
  }

  /** The fused list is determined by the lists and weights. */
  lemma FusionIsUnique(legs: seq<Leg>, a: seq<Ranked>, b: seq<Ranked>)
    requires IsFusion(legs, a) && IsFusion(legs, b)
    ensures a == b
  {
    forall r
      ensures r in a <==> r in b
    {
      if r in a {
        assert InSomeList(legs, r.filepath);
      }
      if r in b {
        assert InSomeList(legs, r.filepath);
      }
    }
    assert forall r :: r in Elements(a) <==> r in Elements(b);
    BeforeIsTotal(Elements(a));
    SortedUnique(Before, Elements(a), a, b);
  }

  lemma BeforeIsTotal(rows: set<Ranked>)
    requires forall a, b | a in rows && b in rows && a.filepath == b.filepath :: a == b
    ensures StrictTotalOn(Before, rows)
  {
    forall a | a in rows
      ensures !Before(a, a)
    {
      StrLessIrreflexive(a.filepath);
    }
    forall a, b | a in rows && b in rows
      ensures a == b || Before(a, b) || Before(b, a)
    {
      StrLessTotal(a.filepath, b.filepath);
    }
    forall a, b, c | a in rows && b in rows && c in rows && Before(a, b) && Before(b, c)
      ensures Before(a, c)
    {
      if StrLess(a.filepath, b.filepath) && StrLess(b.filepath, c.filepath) {
        StrLessTransitive(a.filepath, b.filepath, c.filepath);
      }
    }
  }

  /** `list[j]` is the first row of its file in the list. */
  ghost predicate FirstInList(list: seq<Ranked>, j: nat) {
    j < |list| && forall k | 0 <= k < j :: list[k].filepath != list[j].filepath
  }

  lemma {:induction false} DedupedIsFirst(list: seq<Ranked>, path: string) returns (j: nat)
    requires RankIn(list, path).Some?
    ensures RankIn(list, path).value < |Dedupe(list)|
    ensures FirstInList(list, j) && list[j].filepath == path && Dedupe(list)[RankIn(list, path).value] == list[j]
  {
    var n := |list| - 1;
    RankOfLast(list, path);
    RankIsFound(list, path);
    if RankIn(list[..n], path).Some? {
      j := DedupedIsFirst(list[..n], path);
      assert forall k | 0 <= k < j :: list[k] == list[..n][k];
      DedupeSnoc(list[..n], list[n]);
      assert list == list[..n] + [list[n]];
    } else {
      j := n;
      RankIsFound(list[..n], path);
      LastIsFirst(list, n);
    }
  }

  lemma LastIsFirst(list: seq<Ranked>, n: nat)
    requires |list| == n + 1 && list[n].filepath !in Paths(list[..n])
    ensures FirstInList(list, n)
  {
    forall k | 0 <= k < n
      ensures list[k].filepath != list[n].filepath
    {
      assert list[k] == list[..n][k];
    }
  }

  /** A file is represented by its first row in the first list that has it. */
  lemma {:induction false} FirstRowIs(legs: seq<Leg>, path: string) returns (i: nat, j: nat)
    requires FirstRow(legs, path).Some?
    ensures i < |legs| && FirstInList(legs[i].list, j) && legs[i].list[j].filepath == path
    ensures FirstRow(legs, path).value == legs[i].list[j]
    ensures forall k, r | 0 <= k < i && r in legs[k].list :: r.filepath != path
    decreases |legs|
  {
    var n := |legs| - 1;
    var init := legs[..n];
    if FirstRow(init, path).Some? {
      i, j := FirstRowIs(init, path);
      assert forall k | 0 <= k <= i :: legs[k] == init[k];
    } else {
      i := n;
      j := DedupedIsFirst(legs[n].list, path);
      forall k, r | 0 <= k < n && r in legs[k].list
        ensures r.filepath != path
      {
        assert legs[k] == init[k];
        NoRowNoPath(init, path, k, r);
      }
    }
  }

  lemma {:induction false} NoRowNoPath(legs: seq<Leg>, path: string, k: nat, r: Ranked)
    requires FirstRow(legs, path).None? && k < |legs| && r in legs[k].list
    ensures r.filepath != path
    decreases |legs|
  {
    var n := |legs| - 1;
    RankIsFound(legs[n].list, path);
    if k < n {
      assert legs[..n][k] == legs[k];
      NoRowNoPath(legs[..n], path, k, r);
    }
  }

  // ── Ranks decide ───────────────────────────────────────────────────────────

  /** The list has a row of `a` before its first row of `b`. */
  ghost predicate Ahead(list: seq<Ranked>, a: string, b: string) {
    exists i :: 0 <= i < |list| && list[i].filepath == a && forall j | 0 <= j <= i :: list[j].filepath != b
  }

  lemma RankOfLast(list: seq<Ranked>, path: string)
    requires list != []
    ensures var init, last := list[..|list| - 1], list[|list| - 1];
            RankIn(list, path) ==
              if RankIn(init, path).Some? then RankIn(init, path)
              else if last.filepath == path then Some(|Dedupe(init)|) else None
  {
    var init, last := list[..|list| - 1], list[|list| - 1];
    RankIsFound(init, path);
    if last.filepath !in Paths(init) {
      assert (Dedupe(init) + [last])[..|Dedupe(init)|] == Dedupe(init);
    }
  }

  lemma RankIsFound(list: seq<Ranked>, path: string)
    ensures RankIn(list, path).Some? <==> path in Paths(list)
    ensures RankIn(list, path).Some? ==> RankIn(list, path).value < |Dedupe(list)|
  {
    DedupeFacts(list);
    IndexOfFinds(Dedupe(list), path);
  }

  lemma {:induction false} AheadIsLower(list: seq<Ranked>, a: string, b: string)
    requires Ahead(list, a, b)
    ensures RankIn(list, a).Some?
    ensures RankIn(list, b).Some? ==> RankIn(list, a).value < RankIn(list, b).value
  {
    var n := |list| - 1;
    var init := list[..n];
    var i :| 0 <= i < |list| && list[i].filepath == a && forall j | 0 <= j <= i :: list[j].filepath != b;
    RankOfLast(list, a);
    RankOfLast(list, b);
    if i < n {
      assert init[i].filepath == a && forall j | 0 <= j <= i :: init[j].filepath != b;
      assert Ahead(init, a, b);
      AheadIsLower(init, a, b);
      RankIsFound(init, a);
    } else {
      NotYet(init, b);
    }
  }

  lemma NotYet(list: seq<Ranked>, path: string)
    requires forall j | 0 <= j < |list| :: list[j].filepath != path
    ensures RankIn(list, path).None?
  {
    RankIsFound(list, path);
  }

  /** Where a list has `b`, it has `a` before it. */
  ghost predicate Leads(leg: Leg, a: string, b: string) {
    leg.weight > 0.0 && ((forall j | 0 <= j < |leg.list| :: leg.list[j].filepath != b) || Ahead(leg.list, a, b))
  }

  lemma ShareIsHigher(leg: Leg, a: string, b: string)
    requires Leads(leg, a, b)
    ensures Share(leg, a) >= Share(leg, b) >= 0.0
    ensures Ahead(leg.list, a, b) ==> Share(leg, a) > Share(leg, b)
    ensures RankIn(leg.list, b).Some? ==> RankIn(leg.list, a).Some? && RankIn(leg.list, a).value < RankIn(leg.list, b).value
  {
    if Ahead(leg.list, a, b) {
      AheadIsLower(leg.list, a, b);
    } else {
      NotYet(leg.list, b);
    }
    ShareFalls(leg.weight, RankIn(leg.list, a), RankIn(leg.list, b));
  }

  lemma ShareFalls(weight: real, a: Option<nat>, b: Option<nat>)
    requires weight > 0.0
    ensures Contribution(a, weight) >= 0.0 && (a.Some? ==> Contribution(a, weight) > 0.0)
    ensures a.Some? && b.Some? && a.value < b.value ==> Contribution(a, weight) > Contribution(b, weight)
  {
    if a.Some? {
      QuotientIsPositive(weight, 61.0 + a.value as real);
    }
    if a.Some? && b.Some? && a.value < b.value {
      QuotientFalls(weight, 61.0 + a.value as real, 61.0 + b.value as real);
    }
  }

  lemma QuotientIsPositive(w: real, x: real)
    requires w > 0.0 && x > 0.0
    ensures w / x > 0.0
  {
    assert w / x * x == w;
    if w / x <= 0.0 {
      ProductIsNotPositive(w / x, x);
    }
  }

  lemma ProductIsNotPositive(a: real, x: real)
    requires a <= 0.0 && x > 0.0
    ensures a * x <= 0.0
  {
  }

  lemma QuotientFalls(w: real, x: real, y: real)
    requires w > 0.0 && 0.0 < x < y
    ensures w / x > w / y
  {
    QuotientIsPositive(w, y);
    var q := w / y;
    assert q * y == w;
    assert q * x < q * y;
    assert w / x * x == w;
    if w / x <= q {
      ProductIsNotPositive(w / x - q, x);
    }
  }

  lemma {:induction false} SumIsHigher(legs: seq<Leg>, a: string, b: string)
    requires forall leg | leg in legs :: Leads(leg, a, b)
    ensures BaseScore(legs, a) >= BaseScore(legs, b)
    ensures (exists leg :: leg in legs && Ahead(leg.list, a, b)) ==> BaseScore(legs, a) > BaseScore(legs, b)
    ensures TopRank(legs, b).Some? ==> TopRank(legs, a).Some? && TopRank(legs, a).value < TopRank(legs, b).value
  {
    if legs != [] {
      var init, last := legs[..|legs| - 1], legs[|legs| - 1];
      assert legs == init + [last];
      SumIsHigher(init, a, b);
      ShareIsHigher(last, a, b);
    }
  }

  /** A file that every list which has the other ranks above it, in lists of positive weight, is
      fused above it. */
  lemma RankedAboveIsFusedAbove(legs: seq<Leg>, fused: seq<Ranked>, a: string, b: string, i: nat, j: nat)
    requires IsFusion(legs, fused) && i < |fused| && j < |fused| && fused[i].filepath == a && fused[j].filepath == b
    requires forall leg | leg in legs :: Leads(leg, a, b)
    requires exists leg :: leg in legs && Ahead(leg.list, a, b)
    ensures fused[i].score > fused[j].score && i < j
  {
    SumIsHigher(legs, a, b);
    assert fused[i].score == FusedScore(legs, a) && fused[j].score == FusedScore(legs, b);
    assert !Before(fused[j], fused[i]);
  }

  lemma {:induction false} DistinctIsDeduped(list: seq<Ranked>)
    requires forall i, j | 0 <= i < j < |list| :: list[i].filepath != list[j].filepath
    ensures Dedupe(list) == list
  {
    if list != [] {
      var init := list[..|list| - 1];
      DistinctIsDeduped(init);
      assert list == init + [list[|list| - 1]];
    }
  }

  /** In one list of distinct files the k-th file from the top, counted from 0, scores its weight
      over 61 + k, and 0.05 more in first place or 0.02 in second and third. */
  lemma OneListScores(list: seq<Ranked>, weight: real, k: nat)
    requires k < |list| && forall i, j | 0 <= i < j < |list| :: list[i].filepath != list[j].filepath
    ensures FusedScore([Leg(list, weight)], list[k].filepath)
         == weight / (61 + k) as real + if k == 0 then 0.05 else if k == 1 || k == 2 then 0.02 else 0.0
  {
    var path := list[k].filepath;
    DistinctIsDeduped(list);
    RankIsFound(list, path);
    IndexOfFinds(list, path);
    BaseScoreSnoc([], Leg(list, weight), path);
    assert [] + [Leg(list, weight)] == [Leg(list, weight)];
  }

  /** A list without a weight of its own weighs 1. */
  lemma MissingWeightIsOne(lists: seq<seq<Ranked>>, weights: seq<real>, i: nat)
    requires i < |lists|
    ensures |Legs(lists, weights)| == |lists| && Legs(lists, weights)[i].list == lists[i]
    ensures i < |weights| ==> Legs(lists, weights)[i].weight == weights[i]
    ensures i >= |weights| ==> Legs(lists, weights)[i].weight == 1.0
  {
  }

  // ── The map-based computation ──────────────────────────────────────────────

  datatype Entry = Entry(result: Ranked, score: real, top: nat)

  /** What the map must say of a file when `legs` are done and `rank` is its position, if
      reached, in the list being read. */
  ghost predicate EntryOk(legs: seq<Leg>, current: seq<Ranked>, weight: real, scores: map<string, Entry>, path: string) {
    var rank := IndexOf(current, path);
    var top := Better(TopRank(legs, path), rank);
    && (path in scores <==> top.Some?)
    && (path in scores ==>
          && scores[path].score == BaseScore(legs, path) + Contribution(rank, weight)
          && Some(scores[path].top) == top
          && Some(scores[path].result) == RowAfter(legs, current, path))
  }

  ghost function RowAfter(legs: seq<Leg>, current: seq<Ranked>, path: string): Option<Ranked> {
    match FirstRow(legs, path)
    case Some(row) => Some(row)
    case None =>
      match IndexOf(current, path)
      case None => None
      case Some(i) => if i < |current| then Some(current[i]) else None
  }

  ghost predicate TableOk(legs: seq<Leg>, current: seq<Ranked>, weight: real, scores: map<string, Entry>) {
    forall path :: EntryOk(legs, current, weight, scores, path)
  }

  lemma {:induction false} RowIffRank(legs: seq<Leg>, path: string)
    ensures FirstRow(legs, path).Some? <==> TopRank(legs, path).Some?
    ensures TopRank(legs, path).Some? <==> InSomeList(legs, path)
    ensures FirstRow(legs, path).Some? ==> FirstRow(legs, path).value.filepath == path
  {
    if legs != [] {
      var init := legs[..|legs| - 1];
      RowIffRank(init, path);
      var list := legs[|legs| - 1].list;
      DedupeFacts(list);
      IndexOfFinds(Dedupe(list), path);
      assert InSomeList(legs, path) <==> InSomeList(init, path) || path in Paths(list) by {
        if InSomeList(init, path) {
          var i :| 0 <= i < |init| && path in Paths(init[i].list);
          assert path in Paths(legs[i].list);
        }
        if path in Paths(list) {
          assert path in Paths(legs[|legs| - 1].list);
        }
        if InSomeList(legs, path) && path !in Paths(list) {
          var i :| 0 <= i < |legs| && path in Paths(legs[i].list);
          assert path in Paths(init[i].list);
        }
      }
    }
  }

  method DedupeByFilepath(list: seq<Ranked>) returns (deduped: seq<Ranked>)
    ensures deduped == Dedupe(list)
  {
    deduped := [];
    var seen := {};
    for i := 0 to |list|
      invariant deduped == Dedupe(list[..i]) && seen == Paths(list[..i])
    {
      assert list[..i + 1][..i] == list[..i];
      assert Paths(list[..i + 1]) == Paths(list[..i]) + {list[i].filepath};
      if list[i].filepath !in seen {
        deduped := deduped + [list[i]];
        seen := seen + {list[i].filepath};
      }
    }
    assert list[..|list|] == list;
  }

  /** One row of the inner loop. */
  method AddRow(scores: map<string, Entry>, row: Ranked, rank: nat, weight: real,
                ghost legs: seq<Leg>, ghost before: seq<Ranked>) returns (scores': map<string, Entry>)
    requires |before| == rank && row.filepath !in Paths(before)
    requires TableOk(legs, before, weight, scores)
    ensures TableOk(legs, before + [row], weight, scores')
  {
    var contribution := weight / (61.0 + rank as real);
    assert EntryOk(legs, before, weight, scores, row.filepath);
    if row.filepath in scores {
      var entry := scores[row.filepath];
      scores' := scores[row.filepath := entry.(score := entry.score + contribution,
                                               top := if rank < entry.top then rank else entry.top)];
    } else {
      scores' := scores[row.filepath := Entry(row, contribution, rank)];
    }
    assert (before + [row])[..rank] == before;
    forall path
      ensures EntryOk(legs, before + [row], weight, scores', path)
    {
      assert EntryOk(legs, before, weight, scores, path);
      IndexOfFinds(before, path);
      RowIffRank(legs, path);
      BaseScoreOfAbsent(legs, path);
    }
  }

  lemma {:induction false} BaseScoreOfAbsent(legs: seq<Leg>, path: string)
    ensures TopRank(legs, path).None? ==> BaseScore(legs, path) == 0.0
  {
    if legs != [] {
      BaseScoreOfAbsent(legs[..|legs| - 1], path);
    }
  }

  /** Everything a finished list adds is in the table for the lists including it. */
  lemma ListDone(legs: seq<Leg>, leg: Leg, scores: map<string, Entry>)
    requires TableOk(legs, Dedupe(leg.list), leg.weight, scores)
    ensures TableOk(legs + [leg], [], 0.0, scores)
  {
    assert (legs + [leg])[..|legs|] == legs;
    forall path
      ensures EntryOk(legs + [leg], [], 0.0, scores, path)
    {
      assert EntryOk(legs, Dedupe(leg.list), leg.weight, scores, path);
      RowIffRank(legs, path);
    }
  }

  lemma NextList(legs: seq<Leg>, weight: real, scores: map<string, Entry>)
    requires TableOk(legs, [], 0.0, scores)
    ensures TableOk(legs, [], weight, scores)
  {
    forall path
      ensures EntryOk(legs, [], weight, scores, path)
    {
      assert EntryOk(legs, [], 0.0, scores, path);
    }
  }

  method Accumulate(lists: seq<seq<Ranked>>, weights: seq<real>) returns (scores: map<string, Entry>)
    ensures TableOk(Legs(lists, weights), [], 0.0, scores)
  {
    ghost var legs := Legs(lists, weights);
    scores := map[];
    for i := 0 to |lists|
      invariant TableOk(legs[..i], [], 0.0, scores)
    {
      var weight := if i < |weights| then weights[i] else 1.0;
      var deduped := DedupeByFilepath(lists[i]);
      DedupeFacts(lists[i]);
      NextList(legs[..i], weight, scores);
      for rank := 0 to |deduped|
        invariant TableOk(legs[..i], deduped[..rank], weight, scores)
      {
        scores := AddRow(scores, deduped[rank], rank, weight, legs[..i], deduped[..rank]);
        assert deduped[..rank] + [deduped[rank]] == deduped[..rank + 1];
      }
      assert deduped[..|deduped|] == deduped;
      ListDone(legs[..i], legs[i], scores);
      assert legs[..i] + [legs[i]] == legs[..i + 1];
    }
    assert legs[..|lists|] == legs;
  }

  /** The entries with their bonus, one row per file, in the order the map yields them. */
  method Finish(scores: map<string, Entry>, ghost legs: seq<Leg>) returns (rows: seq<Ranked>)
    requires TableOk(legs, [], 0.0, scores)
    ensures NoDuplicates(rows)
    ensures forall r, r' | r in rows && r' in rows && r.filepath == r'.filepath :: r == r'
    ensures forall path :: InSomeList(legs, path) <==> exists r :: r in rows && r.filepath == path
    ensures forall r | r in rows ::
              r.score == FusedScore(legs, r.filepath)
              && FirstRow(legs, r.filepath).Some? && r == FirstRow(legs, r.filepath).value.(score := r.score)
  {
    rows := [];
    var left := scores.Keys;
    while left != {}
      invariant left <= scores.Keys && NoDuplicates(rows)
      invariant forall r | r in rows :: r.filepath in scores.Keys - left && r == FusedRow(scores[r.filepath])
      invariant forall path | path in scores.Keys - left :: FusedRow(scores[path]) in rows
      decreases |left|
    {
      var path :| path in left;
      left := left - {path};
      assert EntryOk(legs, [], 0.0, scores, path);
      RowIffRank(legs, path);
      rows := rows + [FusedRow(scores[path])];
    }
    forall path
      ensures InSomeList(legs, path) <==> exists r :: r in rows && r.filepath == path
      ensures path in scores ==> FusedRow(scores[path]).filepath == path
      ensures path in scores ==> FusedRow(scores[path]).score == FusedScore(legs, path)
      ensures path in scores ==> Some(scores[path].result) == FirstRow(legs, path)
    {
      assert EntryOk(legs, [], 0.0, scores, path);
      RowIffRank(legs, path);
      if path in scores {
        assert FusedRow(scores[path]) in rows;
      }
    }
  }

  function FusedRow(entry: Entry): Ranked {
    entry.result.(score := entry.score + Bonus(Some(entry.top)))
  }

  method ReciprocalRankFusion(lists: seq<seq<Ranked>>, weights: seq<real>) returns (fused: seq<Ranked>)
    ensures IsFusion(Legs(lists, weights), fused)
  {
    var scores := Accumulate(lists, weights);
    var rows := Finish(scores, Legs(lists, weights));
    fused := SortBy(Before, rows);
    BeforeIsTotal(Elements(rows));
    SortByIsStrict(Before, rows);
    SortByMembers(Before, rows);
  }
}
