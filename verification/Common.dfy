/** Shared building blocks: optional values; the byte-wise order on paths that Rust's `str::cmp`
    gives; strictly sorted sequences, which their elements determine; a stable sort specified by
    its result, as `sort_by` needs it; filtering, which keeps members, order and distinctness;
    and the removal of repeats from a sorted list, as `dedup_by_key` does it. Everything here is
    about sequences and orders in general and says nothing about the program by itself. */
module Common {

  datatype Option<+T> = None | Some(value: T)

  /** Strict lexicographic order on strings, as Rust's `str::cmp` gives it. */
  predicate StrLess(a: string, b: string) {
    if b == [] then false
    else if a == [] then true
    else if a[0] != b[0] then a[0] < b[0]
    else StrLess(a[1..], b[1..])
  }

  lemma {:induction false} StrLessIrreflexive(a: string)
    ensures !StrLess(a, a)
  {
    if a != [] {
      StrLessIrreflexive(a[1..]);
    }
  }

  lemma {:induction false} StrLessTotal(a: string, b: string)
    ensures a == b || StrLess(a, b) || StrLess(b, a)
  {
    if a != [] && b != [] && a[0] == b[0] {
      StrLessTotal(a[1..], b[1..]);
      assert a == [a[0]] + a[1..] && b == [b[0]] + b[1..];
    }
  }

  lemma {:induction false} StrLessTransitive(a: string, b: string, c: string)
    requires StrLess(a, b) && StrLess(b, c)
    ensures StrLess(a, c)
  {
    if a != [] && a[0] == b[0] == c[0] {
      StrLessTransitive(a[1..], b[1..], c[1..]);
    }
  }

  /** Whether `less` is a strict total order on the elements of `s`. */
  ghost predicate StrictTotalOn<T(!new)>(less: (T, T) -> bool, s: set<T>) {
    && (forall a | a in s :: !less(a, a))
    && (forall a, b | a in s && b in s :: a == b || less(a, b) || less(b, a))
    && (forall a, b, c | a in s && b in s && c in s && less(a, b) && less(b, c) :: less(a, c))
  }

  ghost predicate StrictlySorted<T(!new)>(less: (T, T) -> bool, s: seq<T>) {
    forall i, j | 0 <= i < j < |s| :: less(s[i], s[j])
  }

  function Elements<T>(s: seq<T>): set<T> {
    set x | x in s
  }

  /** Two strictly sorted sequences of the same elements are the same sequence. */
  lemma {:induction false} SortedUnique<T(!new)>(less: (T, T) -> bool, all: set<T>, a: seq<T>, b: seq<T>)
    requires StrictTotalOn(less, all) && Elements(a) == Elements(b) <= all
    requires StrictlySorted(less, a) && StrictlySorted(less, b)
    ensures a == b
  {
    assert a == [] <==> b == [] by {
      assert a != [] ==> a[0] in Elements(a);
      assert b != [] ==> b[0] in Elements(b);
    }
    if a != [] {
      assert a[0] in Elements(a) && a[0] in b;
      assert b[0] in Elements(b) && b[0] in a;
      HeadIsLeast(less, all, a, b[0]);
      HeadIsLeast(less, all, b, a[0]);
      assert a[0] == b[0];
      forall x
        ensures x in a[1..] <==> x in b[1..]
      {
        TailMembers(less, all, a, x);
        TailMembers(less, all, b, x);
        assert x in a <==> x in Elements(a);
        assert x in b <==> x in Elements(b);
      }
      assert forall x :: x in Elements(a[1..]) <==> x in Elements(b[1..]);
      assert Elements(a[1..]) <= Elements(a);
      SortedUnique(less, all, a[1..], b[1..]);
      assert a == [a[0]] + a[1..] && b == [b[0]] + b[1..];
    }
  }

  lemma HeadIsLeast<T(!new)>(less: (T, T) -> bool, all: set<T>, s: seq<T>, x: T)
    requires StrictTotalOn(less, all) && Elements(s) <= all && StrictlySorted(less, s) && x in s
    ensures x == s[0] || (less(s[0], x) && !less(x, s[0]))
  {
    var i :| 0 <= i < |s| && s[i] == x;
    assert x in Elements(s) && s[0] in Elements(s);
    var head := s[0];
    assert i > 0 ==> less(head, x);
    assert less(head, x) && less(x, head) ==> less(head, head);
  }

  lemma TailMembers<T(!new)>(less: (T, T) -> bool, all: set<T>, s: seq<T>, x: T)
    requires StrictTotalOn(less, all) && Elements(s) <= all && StrictlySorted(less, s) && s != []
    ensures x in s[1..] <==> x in s && x != s[0]
  {
    if x in s[1..] {
      var i :| 1 <= i < |s| && s[i] == x;
      assert less(s[0], s[i]) && s[0] in Elements(s);
    }
    if x in s && x != s[0] {
      var i :| 0 <= i < |s| && s[i] == x;
      assert s[1..][i - 1] == x;
    }
  }

  // ── Sorting ────────────────────────────────────────────────────────────────

  /** What `sort_by` needs of a comparison: elements it does not order count as equal. */
  ghost predicate WeakOrderOn<T(!new)>(less: (T, T) -> bool, s: set<T>) {
    && (forall a, b | a in s && b in s && less(a, b) :: !less(b, a))
    && (forall a, b, c | a in s && b in s && c in s && less(a, c) :: less(a, b) || less(b, c))
  }

  ghost predicate Sorted<T(!new)>(less: (T, T) -> bool, s: seq<T>) {
    forall i, j | 0 <= i < j < |s| :: !less(s[j], s[i])
  }

  function Insert<T>(less: (T, T) -> bool, x: T, s: seq<T>): (r: seq<T>)
    ensures multiset(r) == multiset(s)[x := multiset(s)[x] + 1] && |r| == |s| + 1
  {
    if s == [] || !less(s[0], x) then [x] + s
    else
      assert s == [s[0]] + s[1..];
      [s[0]] + Insert(less, x, s[1..])
  }

  function SortBy<T>(less: (T, T) -> bool, s: seq<T>): (r: seq<T>)
    ensures multiset(r) == multiset(s) && |r| == |s|
  {
    if s == [] then []
    else
      assert s == [s[0]] + s[1..];
      Insert(less, s[0], SortBy(less, s[1..]))
  }

  lemma {:induction false} InsertKeepsSorted<T(!new)>(less: (T, T) -> bool, all: set<T>, x: T, s: seq<T>)
    requires WeakOrderOn(less, all) && x in all && (forall y | y in s :: y in all) && Sorted(less, s)
    ensures Sorted(less, Insert(less, x, s))
  {
    if s != [] && less(s[0], x) {
      InsertKeepsSorted(less, all, x, s[1..]);
      var rest := Insert(less, x, s[1..]);
      forall j | 0 <= j < |rest|
        ensures !less(rest[j], s[0])
      {
        assert rest[j] in multiset(rest);
        assert rest[j] == x || rest[j] in s[1..];
      }
    } else if s != [] {
      forall j | 0 <= j < |s|
        ensures !less(s[j], x)
      {
        assert s[j] in s && s[0] in s;
      }
    }
  }

  lemma {:induction false} SortByIsSorted<T(!new)>(less: (T, T) -> bool, all: set<T>, s: seq<T>)
    requires WeakOrderOn(less, all) && forall y | y in s :: y in all
    ensures Sorted(less, SortBy(less, s))
  {
    if s != [] {
      SortByIsSorted(less, all, s[1..]);
      forall y | y in SortBy(less, s[1..])
        ensures y in all
      {
        assert y in multiset(SortBy(less, s[1..]));
        assert y in s[1..];
      }
      InsertKeepsSorted(less, all, s[0], SortBy(less, s[1..]));
    }
  }

  lemma SortByMembers<T>(less: (T, T) -> bool, s: seq<T>)
    ensures forall x :: x in SortBy(less, s) <==> x in s
  {
    forall x
      ensures x in SortBy(less, s) <==> x in s
    {
      assert x in multiset(SortBy(less, s)) <==> x in multiset(s);
    }
  }

  lemma {:induction false} SortByFixesSorted<T(!new)>(less: (T, T) -> bool, s: seq<T>)
    requires Sorted(less, s)
    ensures SortBy(less, s) == s
  {
    if s != [] {
      SortByFixesSorted(less, s[1..]);
    }
  }

  ghost predicate NoDuplicates<T>(s: seq<T>) {
    forall i, j | 0 <= i < j < |s| :: s[i] != s[j]
  }

  lemma {:induction false} DuplicatesByCount<T>(s: seq<T>)
    ensures NoDuplicates(s) <==> forall x :: multiset(s)[x] <= 1
  {
    if s != [] {
      assert s == [s[0]] + s[1..];
      DuplicatesByCount(s[1..]);
      if NoDuplicates(s) {
        assert NoDuplicates(s[1..]);
        assert s[0] !in s[1..];
      }
      if forall x :: multiset(s)[x] <= 1 {
        forall x
          ensures multiset(s[1..])[x] <= 1
        {
          assert multiset(s)[x] <= 1;
        }
        assert multiset(s)[s[0]] == multiset(s[1..])[s[0]] + 1;
        assert s[0] !in multiset(s[1..]);
        assert s[0] !in s[1..];
      }
    }
  }

  /** Sorting distinct elements by a strict total order leaves no ties. */
  lemma SortByIsStrict<T(!new)>(less: (T, T) -> bool, s: seq<T>)
    requires StrictTotalOn(less, Elements(s)) && NoDuplicates(s)
    ensures StrictlySorted(less, SortBy(less, s)) && NoDuplicates(SortBy(less, s))
  {
    var r := SortBy(less, s);
    SortByIsSorted(less, Elements(s), s);
    SortByMembers(less, s);
    DuplicatesByCount(s);
    DuplicatesByCount(r);
    forall i, j | 0 <= i < j < |r|
      ensures less(r[i], r[j])
    {
      assert r[i] in s && r[j] in s && r[i] in Elements(s) && r[j] in Elements(s);
    }
  }

  /** What a strictly sorted sequence keeps when cut comes before what it loses. */
  lemma CutKeepsTheLeast<T(!new)>(less: (T, T) -> bool, s: seq<T>, n: nat)
    requires StrictlySorted(less, s) && n <= |s|
    ensures forall x, i | x in s && x !in s[..n] && 0 <= i < n :: less(s[i], x)
  {
    forall x, i | x in s && x !in s[..n] && 0 <= i < n
      ensures less(s[i], x)
    {
      var j :| 0 <= j < |s| && s[j] == x;
      assert forall k | 0 <= k < n :: s[..n][k] == s[k];
      assert n <= j;
    }
  }

  // ── Filtering ──────────────────────────────────────────────────────────────

  function Keep<T>(entries: seq<T>, keep: T -> bool): seq<T> {
    if entries == [] then []
    else Keep(entries[..|entries| - 1], keep) + if keep(entries[|entries| - 1]) then [entries[|entries| - 1]] else []
  }

  ghost predicate KeptFrom<T(!new)>(kept: seq<T>, entries: seq<T>, keep: T -> bool) {
    forall e :: e in kept <==> e in entries && keep(e)
  }

  lemma {:induction false} KeepMembers<T(!new)>(entries: seq<T>, keep: T -> bool)
    ensures KeptFrom(Keep(entries, keep), entries, keep)
  {
    if entries != [] {
      KeepMembers(entries[..|entries| - 1], keep);
      assert entries == entries[..|entries| - 1] + [entries[|entries| - 1]];
    }
  }

  /** Two filters give the same list exactly when they agree on its members. */
  lemma KeepAgree<T(!new)>(entries: seq<T>, a: T -> bool, b: T -> bool)
    ensures Keep(entries, a) == Keep(entries, b) <==> forall e | e in entries :: a(e) == b(e)
  {
    KeepMembers(entries, a);
    KeepMembers(entries, b);
    if forall e | e in entries :: a(e) == b(e) {
      KeepSame(entries, a, b);
    }
  }

  lemma {:induction false} KeepSame<T>(entries: seq<T>, a: T -> bool, b: T -> bool)
    requires forall e | e in entries :: a(e) == b(e)
    ensures Keep(entries, a) == Keep(entries, b)
  {
    if entries != [] {
      KeepSame(entries[..|entries| - 1], a, b);
    }
  }

  lemma KeepLast<T>(init: seq<T>, last: T, keep: T -> bool)
    ensures Keep(init + [last], keep) == Keep(init, keep) + if keep(last) then [last] else []
  {
    assert (init + [last])[..|init|] == init;
  }

  lemma {:induction false} KeepTwice<T>(entries: seq<T>, a: T -> bool, b: T -> bool, both: T -> bool)
    requires forall e | e in entries :: both(e) == (a(e) && b(e))
    ensures Keep(Keep(entries, a), b) == Keep(entries, both)
  {
    if entries != [] {
      var init, last := entries[..|entries| - 1], entries[|entries| - 1];
      KeepTwice(init, a, b, both);
      assert entries == init + [last] && last in entries;
      KeepLast(init, last, a);
      KeepLast(init, last, both);
      if a(last) {
        KeepLast(Keep(init, a), last, b);
      } else {
        assert Keep(entries, a) == Keep(init, a);
      }
    }
  }

  lemma {:induction false} KeepAll<T>(entries: seq<T>, keep: T -> bool)
    requires forall e | e in entries :: keep(e)
    ensures Keep(entries, keep) == entries
  {
    if entries != [] {
      var init, last := entries[..|entries| - 1], entries[|entries| - 1];
      assert entries == init + [last] && last in entries;
      KeepAll(init, keep);
    }
  }

  lemma {:induction false} KeepDistinct<T(!new)>(entries: seq<T>, keep: T -> bool)
    requires NoDuplicates(entries)
    ensures NoDuplicates(Keep(entries, keep))
  {
    if entries != [] {
      var init, last := entries[..|entries| - 1], entries[|entries| - 1];
      KeepDistinct(init, keep);
      KeepMembers(init, keep);
      var kept := Keep(init, keep);
      assert forall i | 0 <= i < |kept| :: kept[i] in kept && kept[i] in init;
    }
  }

  lemma {:induction false} KeepSorted<T(!new)>(less: (T, T) -> bool, entries: seq<T>, keep: T -> bool)
    requires StrictlySorted(less, entries)
    ensures StrictlySorted(less, Keep(entries, keep))
  {
    if entries != [] {
      var init, last := entries[..|entries| - 1], entries[|entries| - 1];
      KeepSorted(less, init, keep);
      KeepMembers(init, keep);
      var kept := Keep(init, keep);
      forall i | 0 <= i < |kept|
        ensures less(kept[i], last)
      {
        assert kept[i] in kept && kept[i] in init;
        var j :| 0 <= j < |init| && init[j] == kept[i];
        assert less(entries[j], entries[|entries| - 1]);
      }
    }
  }

  // ── Dropping repeats ───────────────────────────────────────────────────────

  /** `dedup_by_key`: drops an element whose key is that of the last one kept. */
  function DedupBy<T, K(==)>(key: T -> K, s: seq<T>): (r: seq<T>)
    ensures s != [] ==> r != [] && key(r[|r| - 1]) == key(s[|s| - 1])
  {
    if s == [] then []
    else
      var before := DedupBy(key, s[..|s| - 1]);
      if before != [] && key(before[|before| - 1]) == key(s[|s| - 1]) then before else before + [s[|s| - 1]]
  }

  ghost predicate KeyIdentifies<T(!new), K>(key: T -> K, all: set<T>) {
    forall a, b | a in all && b in all && key(a) == key(b) :: a == b
  }

  /** Of a sorted list it keeps every element once. */
  lemma {:induction false} DedupIsStrict<T(!new), K>(less: (T, T) -> bool, key: T -> K, all: set<T>, s: seq<T>)
    requires StrictTotalOn(less, all) && KeyIdentifies(key, all) && Elements(s) <= all
    requires Sorted(less, s)
    ensures StrictlySorted(less, DedupBy(key, s)) && Elements(DedupBy(key, s)) == Elements(s)
  {
    if s != [] {
      var init, last := s[..|s| - 1], s[|s| - 1];
      assert s == init + [last] && Elements(s) == Elements(init) + {last};
      DedupIsStrict(less, key, all, init);
      var before := DedupBy(key, init);
      assert Elements(before + [last]) == Elements(before) + {last};
      if before != [] {
        var prev := before[|before| - 1];
        assert prev in Elements(before) && last in Elements(s);
        if key(prev) != key(last) {
          AppendLast(less, all, s, before);
        }
      }
    }
  }

  lemma AppendLast<T(!new)>(less: (T, T) -> bool, all: set<T>, s: seq<T>, before: seq<T>)
    requires StrictTotalOn(less, all) && Elements(s) <= all && s != [] && Sorted(less, s)
    requires StrictlySorted(less, before) && Elements(before) == Elements(s[..|s| - 1])
    requires before != [] && before[|before| - 1] != s[|s| - 1]
    ensures StrictlySorted(less, before + [s[|s| - 1]])
  {
    forall i | 0 <= i < |before|
      ensures less(before[i], s[|s| - 1])
    {
      BeforeLast(less, all, s, before, i);
    }
  }

  lemma BeforeLast<T(!new)>(less: (T, T) -> bool, all: set<T>, s: seq<T>, before: seq<T>, i: nat)
    requires StrictTotalOn(less, all) && Elements(s) <= all && s != [] && Sorted(less, s)
    requires StrictlySorted(less, before) && Elements(before) == Elements(s[..|s| - 1])
    requires before != [] && before[|before| - 1] != s[|s| - 1] && i < |before|
    ensures less(before[i], s[|s| - 1])
  {
    var prev, last := before[|before| - 1], s[|s| - 1];
    assert prev in Elements(before) && prev in s[..|s| - 1];
    var j :| 0 <= j < |s| - 1 && s[..|s| - 1][j] == prev;
    assert s[j] == prev && !less(last, prev);
    assert prev in Elements(s) && last in Elements(s);
    assert less(prev, last);
    assert before[i] in Elements(before) && before[i] in s[..|s| - 1] && before[i] in Elements(s);
    assert i < |before| - 1 ==> less(before[i], prev);
  }

  lemma {:induction false} DistinctCount<T>(s: seq<T>)
    requires NoDuplicates(s)
    ensures |s| == |Elements(s)|
  {
    if s != [] {
      var init, last := s[..|s| - 1], s[|s| - 1];
      DistinctCount(init);
      assert s == init + [last] && Elements(s) == Elements(init) + {last};
      assert last !in Elements(init);
    }
  }
}
