/** nDCG (eval_metrics.rs) over exact numbers. */
module Metrics {
  // The discount is any positive one that falls with the rank, of which 1 / log2(rank + 1) is one.
  // The bound by the ideal order is a rearrangement argument by summation by parts.
  import opened Common

  /** The discount of each 0-based rank. */
  type Discount = nat -> real

  ghost predicate Falling(d: Discount) {
    forall i: nat, j: nat | i < j :: d(i) > d(j) > 0.0
  }

  type Grades<!T> = map<T, nat>

  function Grade<T>(grades: Grades<T>, doc: T): nat {
    if doc in grades then grades[doc] else 0
  }

  function Gains<T>(docs: seq<T>, grades: Grades<T>): seq<nat> {
    seq(|docs|, i requires 0 <= i < |docs| => Grade(grades, docs[i]))
  }

  function At(gains: seq<nat>, i: nat): real {
    if i < |gains| then gains[i] as real else 0.0
  }

  /** The discounted sum of the first `k` gains. */
  function Discounted(gains: seq<nat>, d: Discount, k: nat): real {
    if k == 0 then 0.0 else Discounted(gains, d, k - 1) + At(gains, k - 1) * d(k - 1)
  }

  function Total(gains: seq<nat>, k: nat): real {
    if k == 0 then 0.0 else Total(gains, k - 1) + At(gains, k - 1)
  }

  predicate Higher(a: nat, b: nat) {
    a > b
  }

  /** The grades of the judged documents `docs`, highest first. */
  function Ideal<T>(docs: seq<T>, grades: Grades<T>): seq<nat> {
    SortBy(Higher, Gains(docs, grades))
  }

  /** `docs` lists every judged document once. */
  ghost predicate Lists<T>(docs: seq<T>, grades: Grades<T>) {
    NoDuplicates(docs) && Elements(docs) == grades.Keys
  }

  /** `dcg_at_k` from the gains: the fold over the first `k` entries there are. */
  function Dcg(gains: seq<nat>, d: Discount, k: nat): real {
    Discounted(gains, d, if k <= |gains| then k else |gains|)
  }

  /** `ndcg_at_k`. */
  function Ndcg(gains: seq<nat>, ideal: seq<nat>, d: Discount, k: nat): real {
    var best := Dcg(ideal, d, k);
    if best <= 0.0 then 0.0 else Dcg(gains, d, k) / best
  }

  // ── Rearrangement ──────────────────────────────────────────────────────────

  /** Every prefix of `h` totals at least as much as that of `g`. */
  ghost predicate Dominates(h: seq<nat>, g: seq<nat>, k: nat) {
    forall j | 0 <= j <= k :: Total(g, j) <= Total(h, j)
  }

  /** One more rank, in numbers: `s` is the discounted lead and `l` the lead in total so far,
      `a` and `b` the last two discounts, `x` and `y` the two gains. */
  lemma AbelStep(s: real, l: real, a: real, b: real, x: real, y: real)
    requires s >= a * l && l >= 0.0 && a > b > 0.0 && l + x - y >= 0.0
    ensures s + x * b - y * b >= b * (l + x - y) >= 0.0
    ensures s + x * b - y * b == 0.0 ==> s == 0.0 && x == y
  {
    assert b * (l + x - y) == b * l + x * b - y * b;
    assert a * l - b * l == (a - b) * l;
    ProductSign(a - b, l);
    ProductSign(b, l + x - y);
    if s + x * b - y * b == 0.0 {
      assert (a - b) * l == 0.0 && b * (l + x - y) == 0.0;
      assert l == 0.0 && x == y;
    }
  }

  lemma ProductSign(a: real, x: real)
    requires a > 0.0 && x >= 0.0
    ensures a * x >= 0.0 && (a * x == 0.0 ==> x == 0.0)
  {
  }

  ghost function ScoreLead(h: seq<nat>, g: seq<nat>, d: Discount, k: nat): real {
    Discounted(h, d, k) - Discounted(g, d, k)
  }

  ghost function TotalLead(h: seq<nat>, g: seq<nat>, k: nat): real {
    Total(h, k) - Total(g, k)
  }

  lemma LeadsGrow(h: seq<nat>, g: seq<nat>, d: Discount, k: nat)
    ensures ScoreLead(h, g, d, k + 1) == ScoreLead(h, g, d, k) + At(h, k) * d(k) - At(g, k) * d(k)
    ensures TotalLead(h, g, k + 1) == TotalLead(h, g, k) + At(h, k) - At(g, k)
  {
  }

  /** The lead of `h` over `g`, discounted, is at least its lead in total at the last discount. */
  ghost predicate LeadKept(h: seq<nat>, g: seq<nat>, d: Discount, k: nat) {
    ScoreLead(h, g, d, k + 1) >= d(k) * TotalLead(h, g, k + 1)
  }

  ghost predicate SameGains(h: seq<nat>, g: seq<nat>, k: nat) {
    forall i | 0 <= i < k :: At(g, i) == At(h, i)
  }

  lemma LeadStep(h: seq<nat>, g: seq<nat>, d: Discount, k: nat)
    requires Falling(d) && LeadKept(h, g, d, k) && TotalLead(h, g, k + 1) >= 0.0 && TotalLead(h, g, k + 2) >= 0.0
    ensures LeadKept(h, g, d, k + 1) && ScoreLead(h, g, d, k + 2) >= 0.0
    ensures ScoreLead(h, g, d, k + 2) == 0.0 ==> ScoreLead(h, g, d, k + 1) == 0.0 && At(h, k + 1) == At(g, k + 1)
  {
    LeadsGrow(h, g, d, k + 1);
    var a, b := d(k), d(k + 1);
    assert a > b;
    assert b > d(k + 2) > 0.0;
    AbelStep(ScoreLead(h, g, d, k + 1), TotalLead(h, g, k + 1), a, b, At(h, k + 1), At(g, k + 1));
  }

  lemma LeadStart(h: seq<nat>, g: seq<nat>, d: Discount)
    requires Falling(d) && TotalLead(h, g, 1) >= 0.0
    ensures LeadKept(h, g, d, 0) && ScoreLead(h, g, d, 1) >= 0.0
    ensures ScoreLead(h, g, d, 1) == 0.0 ==> At(h, 0) == At(g, 0)
  {
    LeadsGrow(h, g, d, 0);
    var b := d(0);
    assert b > d(1) > 0.0;
    AbelStep(0.0, 0.0, b + 1.0, b, At(h, 0), At(g, 0));
  }

  /** With a falling discount a dominated order scores less, unless the gains are the same. */
  lemma {:induction false} DominatedScoresLess(h: seq<nat>, g: seq<nat>, d: Discount, k: nat)
    requires Falling(d) && Dominates(h, g, k + 1)
    ensures LeadKept(h, g, d, k) && ScoreLead(h, g, d, k + 1) >= 0.0
    ensures ScoreLead(h, g, d, k + 1) == 0.0 ==> SameGains(h, g, k + 1)
  {
    assert Total(g, k + 1) <= Total(h, k + 1) && Total(g, k) <= Total(h, k);
    if k == 0 {
      LeadStart(h, g, d);
    } else {
      DominatedScoresLess(h, g, d, k - 1);
      LeadStep(h, g, d, k - 1);
    }
  }

  // ── The ideal order dominates every ranking ────────────────────────────────

  function Sum(gains: seq<nat>): nat {
    if gains == [] then 0 else gains[0] + Sum(gains[1..])
  }

  lemma {:induction false} SumConcat(a: seq<nat>, b: seq<nat>)
    ensures Sum(a + b) == Sum(a) + Sum(b)
  {
    if a == [] {
      assert a + b == b;
    } else {
      SumConcat(a[1..], b);
      assert (a + b)[1..] == a[1..] + b;
    }
  }

  function Take(gains: seq<nat>, k: nat): seq<nat> {
    if k <= |gains| then gains[..k] else gains
  }

  lemma {:induction false} TotalIsSum(gains: seq<nat>, k: nat)
    ensures Total(gains, k) == Sum(Take(gains, k)) as real
  {
    if k > 0 {
      TotalIsSum(gains, k - 1);
      if k <= |gains| {
        assert gains[..k] == gains[..k - 1] + [gains[k - 1]];
        SumConcat(gains[..k - 1], [gains[k - 1]]);
        assert Sum([gains[k - 1]]) == gains[k - 1];
      } else {
        assert Take(gains, k - 1) == Take(gains, k);
      }
    }
  }

  ghost predicate Descending(h: seq<nat>) {
    forall i, j | 0 <= i < j < |h| :: h[i] >= h[j]
  }

  /** Shifting a window of a descending sequence to the right does not raise its sum. */
  lemma {:induction false} LaterWindowIsLower(h: seq<nat>, k: nat)
    requires Descending(h) && h != []
    ensures Sum(Take(h[1..], k)) <= Sum(Take(h, k))
    decreases k
  {
    if k > 0 && |h| > 1 {
      LaterWindowIsLower(h[1..], k - 1);
      assert Take(h, k)[1..] == Take(h[1..], k - 1);
      assert Take(h[1..], k)[1..] == Take(h[1..][1..], k - 1);
    } else {
      assert Take(h[1..], k) == [];
    }
  }

  lemma TailCounts(h: seq<nat>)
    requires h != []
    ensures multiset(h[1..]) == multiset(h) - multiset{h[0]}
  {
    assert h == [h[0]] + h[1..];
  }

  lemma HeadTaken(h: seq<nat>, m: seq<nat>, i: nat)
    requires h != [] && i < |m| && m[i] == h[0] && multiset(m) <= multiset(h)
    ensures var rest := m[..i] + m[i + 1..];
            && multiset(rest) <= multiset(h[1..])
            && Sum(m) == h[0] + Sum(rest)
  {
    WithoutOne(m, i);
    SumWithoutOne(m, i);
    TailCounts(h);
  }

  lemma HeadNotTaken(h: seq<nat>, m: seq<nat>)
    requires h != [] && h[0] !in m && multiset(m) <= multiset(h)
    ensures multiset(m) <= multiset(h[1..])
  {
    TailCounts(h);
    SubsetWithout(m, h, h[0]);
  }

  lemma TakeHead(h: seq<nat>, k: nat)
    requires h != [] && k > 0
    ensures Sum(Take(h, k)) == h[0] + Sum(Take(h[1..], k - 1))
  {
    assert Take(h, k)[1..] == Take(h[1..], k - 1);
  }

  /** The first `k` elements of a descending sequence have the largest sum of any `k`. */
  lemma {:induction false} TopIsLargest(h: seq<nat>, m: seq<nat>, k: nat)
    requires Descending(h) && multiset(m) <= multiset(h) && |m| <= k
    ensures Sum(m) <= Sum(Take(h, k))
    decreases |h|
  {
    if h == [] {
      assert |multiset(m)| == 0;
      assert m == [];
    } else if h[0] in m {
      var i :| 0 <= i < |m| && m[i] == h[0];
      HeadTaken(h, m, i);
      TopIsLargest(h[1..], m[..i] + m[i + 1..], k - 1);
      TakeHead(h, k);
    } else {
      HeadNotTaken(h, m);
      TopIsLargest(h[1..], m, k);
      LaterWindowIsLower(h, k);
    }
  }

  lemma SubsetWithout(m: seq<nat>, h: seq<nat>, x: nat)
    requires multiset(m) <= multiset(h) && x !in m
    ensures multiset(m) <= multiset(h) - multiset{x}
  {
    assert x !in multiset(m);
  }

  lemma WithoutOne<T>(m: seq<T>, i: nat)
    requires i < |m|
    ensures multiset(m[..i] + m[i + 1..]) == multiset(m) - multiset{m[i]}
  {
    assert m == m[..i] + [m[i]] + m[i + 1..];
    assert multiset(m) == multiset(m[..i]) + multiset{m[i]} + multiset(m[i + 1..]);
  }

  lemma {:induction false} SumWithoutOne(m: seq<nat>, i: nat)
    requires i < |m|
    ensures Sum(m) == m[i] + Sum(m[..i] + m[i + 1..])
  {
    assert m == m[..i] + ([m[i]] + m[i + 1..]);
    SumConcat(m[..i], [m[i]] + m[i + 1..]);
    SumConcat(m[..i], m[i + 1..]);
    assert ([m[i]] + m[i + 1..])[1..] == m[i + 1..];
  }

  /** The documents of a ranking that were judged. */
  function Judged<T>(ranked: seq<T>, grades: Grades<T>): seq<T> {
    if ranked == [] then []
    else (if ranked[0] in grades then [ranked[0]] else []) + Judged(ranked[1..], grades)
  }

  lemma GainsCons<T>(x: T, docs: seq<T>, grades: Grades<T>)
    ensures Gains([x] + docs, grades) == [Grade(grades, x)] + Gains(docs, grades)
    ensures Sum(Gains([x] + docs, grades)) == Grade(grades, x) + Sum(Gains(docs, grades))
  {
    assert Gains([x] + docs, grades)[1..] == Gains(docs, grades);
  }

  lemma {:induction false} JudgedFacts<T>(ranked: seq<T>, grades: Grades<T>)
    ensures |Judged(ranked, grades)| <= |ranked|
    ensures forall x | x in Judged(ranked, grades) :: x in ranked && x in grades
    ensures NoDuplicates(ranked) ==> NoDuplicates(Judged(ranked, grades))
  {
    if ranked != [] {
      JudgedFacts(ranked[1..], grades);
      assert ranked == [ranked[0]] + ranked[1..];
      assert NoDuplicates(ranked) ==> ranked[0] !in ranked[1..];
    }
  }

  lemma {:induction false} JudgedSum<T>(ranked: seq<T>, grades: Grades<T>)
    ensures Sum(Gains(Judged(ranked, grades), grades)) == Sum(Gains(ranked, grades))
  {
    if ranked == [] {
      assert Gains(ranked, grades) == [];
    } else {
      var rest := Judged(ranked[1..], grades);
      JudgedSum(ranked[1..], grades);
      assert ranked == [ranked[0]] + ranked[1..];
      GainsCons(ranked[0], ranked[1..], grades);
      GainsCons(ranked[0], rest, grades);
      assert [] + rest == rest;
    }
  }

  lemma RemoveDoc<T>(docs: seq<T>, i: nat, grades: Grades<T>)
    requires i < |docs|
    ensures var rest := docs[..i] + docs[i + 1..];
            && (forall y | y in docs && y != docs[i] :: y in rest)
            && multiset(Gains(rest, grades)) == multiset(Gains(docs, grades)) - multiset{Grade(grades, docs[i])}
  {
    var gains, rest := Gains(docs, grades), docs[..i] + docs[i + 1..];
    assert docs == docs[..i] + [docs[i]] + docs[i + 1..];
    WithoutOne(gains, i);
    assert gains[..i] + gains[i + 1..] == Gains(rest, grades);
  }

  /** Distinct documents out of `docs` have grades out of those of `docs`. */
  lemma {:induction false} GainsOfSome<T>(some: seq<T>, docs: seq<T>, grades: Grades<T>)
    requires NoDuplicates(some) && forall x | x in some :: x in docs
    ensures multiset(Gains(some, grades)) <= multiset(Gains(docs, grades))
  {
    if some == [] {
      assert Gains(some, grades) == [];
    } else {
      var x, others := some[0], some[1..];
      assert some == [x] + others && x in docs && x !in others;
      var i :| 0 <= i < |docs| && docs[i] == x;
      RemoveDoc(docs, i, grades);
      GainsOfSome(others, docs[..i] + docs[i + 1..], grades);
      GainsCons(x, others, grades);
      assert Gains(docs, grades)[i] == Grade(grades, x);
      PutBack(Gains(others, grades), Gains(docs, grades), Grade(grades, x));
    }
  }

  lemma PutBack(a: seq<nat>, b: seq<nat>, x: nat)
    requires x in b && multiset(a) <= multiset(b) - multiset{x}
    ensures multiset([x] + a) <= multiset(b)
  {
    assert multiset([x] + a) == multiset{x} + multiset(a);
  }

  lemma HigherIsOrder(s: set<nat>)
    ensures WeakOrderOn(Higher, s)
  {
  }

  lemma IdealDescends<T>(docs: seq<T>, grades: Grades<T>)
    ensures Descending(Ideal(docs, grades))
  {
    var gains := Gains(docs, grades);
    HigherIsOrder(Elements(gains));
    SortByIsSorted(Higher, Elements(gains), gains);
    var ideal := Ideal(docs, grades);
    forall i, j | 0 <= i < j < |ideal|
      ensures ideal[i] >= ideal[j]
    {
      assert !Higher(ideal[j], ideal[i]);
    }
  }

  lemma IdealDominates<T>(ranked: seq<T>, docs: seq<T>, grades: Grades<T>, k: nat)
    requires NoDuplicates(ranked) && Lists(docs, grades)
    ensures Dominates(Ideal(docs, grades), Gains(ranked, grades), k)
  {
    var ideal, gains := Ideal(docs, grades), Gains(ranked, grades);
    IdealDescends(docs, grades);
    forall j | 0 <= j <= k
      ensures Total(gains, j) <= Total(ideal, j)
    {
      TotalIsSum(gains, j);
      TotalIsSum(ideal, j);
      var top := if j <= |ranked| then ranked[..j] else ranked;
      assert Take(gains, j) == Gains(top, grades);
      JudgedFacts(top, grades);
      JudgedSum(top, grades);
      forall x | x in Judged(top, grades)
        ensures x in docs
      {
        assert x in Elements(docs);
      }
      GainsOfSome(Judged(top, grades), docs, grades);
      TopIsLargest(ideal, Gains(Judged(top, grades), grades), j);
    }
  }

  // ── nDCG ───────────────────────────────────────────────────────────────────

  lemma {:induction false} DiscountedIsNatural(gains: seq<nat>, d: Discount, k: nat)
    requires Falling(d)
    ensures Discounted(gains, d, k) >= 0.0
  {
    if k > 0 {
      DiscountedIsNatural(gains, d, k - 1);
      assert d(k - 1) > d(k) > 0.0;
      ProductSign(d(k - 1), At(gains, k - 1));
      assert At(gains, k - 1) * d(k - 1) == d(k - 1) * At(gains, k - 1);
    }
  }

  /** For any duplicate-free ranking, any grades and any cutoff, nDCG is between 0 and 1; with
      something to find it is 1 exactly when the ranking's gains are the ideal ones. */
  lemma NdcgIsNormalized<T>(ranked: seq<T>, docs: seq<T>, grades: Grades<T>, d: Discount, k: nat)
    requires Falling(d) && NoDuplicates(ranked) && Lists(docs, grades)
    ensures var (gains, ideal) := (Gains(ranked, grades), Ideal(docs, grades));
            && 0.0 <= Ndcg(gains, ideal, d, k) <= 1.0
            && (Dcg(ideal, d, k) > 0.0 ==>
                  (Ndcg(gains, ideal, d, k) == 1.0 <==> SameGains(ideal, gains, k)))
  {
    var gains, ideal := Gains(ranked, grades), Ideal(docs, grades);
    DcgIsDiscounted(gains, d, k);
    DcgIsDiscounted(ideal, d, k);
    if k > 0 {
      IdealDominates(ranked, docs, grades, k);
      DominatedScoresLess(ideal, gains, d, k - 1);
      if SameGains(ideal, gains, k) {
        SameGainsSameScore(ideal, gains, d, k);
      }
      if Discounted(ideal, d, k) > 0.0 {
        Ratio(Discounted(gains, d, k), Discounted(ideal, d, k));
      }
    }
  }

  lemma DcgIsDiscounted(gains: seq<nat>, d: Discount, k: nat)
    requires Falling(d)
    ensures Dcg(gains, d, k) == Discounted(gains, d, k) >= 0.0
  {
    DiscountedIsNatural(gains, d, k);
    NothingPastTheEnd(gains, d, if k <= |gains| then k else |gains|, k);
  }

  lemma Ratio(a: real, b: real)
    requires 0.0 <= a <= b && b > 0.0
    ensures 0.0 <= a / b <= 1.0 && (a / b == 1.0 <==> a == b)
  {
    assert a / b * b == a;
    if a / b > 1.0 {
      ProductSign(b, a / b - 1.0);
    }
  }

  lemma {:induction false} SameGainsSameScore(h: seq<nat>, g: seq<nat>, d: Discount, k: nat)
    requires SameGains(h, g, k)
    ensures Discounted(g, d, k) == Discounted(h, d, k)
  {
    if k > 0 {
      SameGainsSameScore(h, g, d, k - 1);
    }
  }

  lemma {:induction false} NothingPastTheEnd(gains: seq<nat>, d: Discount, n: nat, k: nat)
    requires n <= k && (n == k || n >= |gains|)
    ensures Discounted(gains, d, k) == Discounted(gains, d, n)
    decreases k
  {
    if n < k {
      NothingPastTheEnd(gains, d, n, k - 1);
    }
  }

  /** nDCG is the quotient of the two sums, and 0 when there is nothing to find. */
  lemma NdcgIsQuotient(gains: seq<nat>, ideal: seq<nat>, d: Discount, k: nat)
    ensures Dcg(ideal, d, k) > 0.0 ==> Ndcg(gains, ideal, d, k) * Dcg(ideal, d, k) == Dcg(gains, d, k)
    ensures Dcg(ideal, d, k) <= 0.0 ==> Ndcg(gains, ideal, d, k) == 0.0
  {
  }

  lemma {:induction false} DiscountedOfPrefix(gains: seq<nat>, gain: nat, d: Discount, k: nat)
    requires k <= |gains|
    ensures Discounted(gains + [gain], d, k) == Discounted(gains, d, k)
  {
    if k > 0 {
      DiscountedOfPrefix(gains, gain, d, k - 1);
    }
  }

  /** One more entry adds its gain times the discount of its rank, when the cutoff reaches it. */
  lemma DcgAdds(gains: seq<nat>, gain: nat, d: Discount, k: nat)
    ensures Dcg([], d, k) == 0.0
    ensures Dcg(gains + [gain], d, k) == Dcg(gains, d, k) + if k > |gains| then gain as real * d(|gains|) else 0.0
  {
    DiscountedOfPrefix(gains, gain, d, if k <= |gains| then k else |gains|);
  }

  /** A document without a grade gains nothing. */
  lemma GainsAre<T>(docs: seq<T>, grades: Grades<T>, i: nat)
    requires i < |docs|
    ensures |Gains(docs, grades)| == |docs|
    ensures Gains(docs, grades)[i] == if docs[i] in grades then grades[docs[i]] else 0
  {
  }
}
