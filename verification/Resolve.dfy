/** Resolving `multi-get` patterns (resolve.rs). */
module Resolve {
  // The SQL clause for a plain entry (db.rs), the in-memory index that counts what it matched,
  // batching, and the report.
  import opened Common

  datatype Document = Document(id: int, collection: string, path: string)

  function Full(d: Document): string {
    d.collection + "/" + d.path
  }

  // ── ASCII case and LIKE ────────────────────────────────────────────────────

  function Fold(c: char): char {
    if 'A' <= c <= 'Z' then ((c as int) + 32) as char else c
  }

  function Lower(s: string): string {
    seq(|s|, i requires 0 <= i < |s| => Fold(s[i]))
  }

  /** SQLite's `LIKE ... ESCAPE '\'`. */
  predicate Like(pattern: string, s: string)
    decreases |pattern| + |s|
  {
    if pattern == [] then s == []
    else if pattern[0] == '%' then Like(pattern[1..], s) || (s != [] && Like(pattern, s[1..]))
    else if pattern[0] == '_' then s != [] && Like(pattern[1..], s[1..])
    else if pattern[0] == '\\' then
      |pattern| > 1 && s != [] && Fold(pattern[1]) == Fold(s[0]) && Like(pattern[2..], s[1..])
    else s != [] && Fold(pattern[0]) == Fold(s[0]) && Like(pattern[1..], s[1..])
  }

  /** `s.replace(c, "\" + c)`. */
  function Guard(s: string, c: char): string {
    if s == [] then [] else (if s[0] == c then ['\\', c] else [s[0]]) + Guard(s[1..], c)
  }

  /** `escape_like_pattern`: three passes, the backslash first. */
  function Escape(s: string): string {
    Guard(Guard(Guard(s, '\\'), '%'), '_')
  }

  lemma {:induction false} GuardConcat(a: string, b: string, c: char)
    ensures Guard(a + b, c) == Guard(a, c) + Guard(b, c)
  {
    if a == [] {
      assert a + b == b;
    } else {
      GuardConcat(a[1..], b, c);
      assert (a + b)[1..] == a[1..] + b && (a + b)[0] == a[0];
      Regroup(if a[0] == c then ['\\', c] else [a[0]], Guard(a[1..], c), Guard(b, c));
    }
  }

  lemma EscapeHead(s: string)
    requires s != []
    ensures Escape(s) == (if s[0] in ['\\', '%', '_'] then ['\\', s[0]] else [s[0]]) + Escape(s[1..])
  {
    var head := Guard([s[0]], '\\');
    var one := Guard(head, '%');
    assert s == [s[0]] + s[1..];
    GuardConcat([s[0]], s[1..], '\\');
    GuardConcat(head, Guard(s[1..], '\\'), '%');
    GuardConcat(one, Guard(Guard(s[1..], '\\'), '%'), '_');
    GuardHead(s[0]);
  }

  lemma GuardHead(x: char)
    ensures Guard(Guard(Guard([x], '\\'), '%'), '_') == if x in ['\\', '%', '_'] then ['\\', x] else [x]
  {
    assert Guard([x], '\\') == if x == '\\' then ['\\', x] else [x];
    GuardPair(x, '%');
    GuardPair(x, '_');
  }

  lemma GuardPair(x: char, c: char)
    requires c != '\\'
    ensures Guard([x], c) == if x == c then ['\\', x] else [x]
    ensures x != c ==> Guard(['\\', x], c) == ['\\', x]
  {
    assert ['\\', x][1..] == [x];
  }

  lemma LowerCons(a: string, b: string)
    requires a != [] && b != []
    ensures Lower(a) == Lower(b) <==> Fold(a[0]) == Fold(b[0]) && Lower(a[1..]) == Lower(b[1..])
  {
    assert Lower(a) == [Fold(a[0])] + Lower(a[1..]);
    assert Lower(b) == [Fold(b[0])] + Lower(b[1..]);
    assert Lower(a)[0] == Fold(a[0]) && Lower(a)[1..] == Lower(a[1..]);
    assert Lower(b)[0] == Fold(b[0]) && Lower(b)[1..] == Lower(b[1..]);
  }

  /** An escaped text matches exactly the texts equal to it up to ASCII case. */
  lemma {:induction false} EscapedIsLiteral(needle: string, s: string)
    ensures Like(Escape(needle), s) <==> Lower(needle) == Lower(s)
  {
    if needle == [] {
      assert Lower(needle) == [] && |Lower(s)| == |s|;
    } else {
      EscapeHead(needle);
      var rest := Escape(needle[1..]);
      if s == [] {
        assert |Lower(needle)| > |Lower(s)|;
      } else {
        EscapedIsLiteral(needle[1..], s[1..]);
        LowerCons(needle, s);
        if needle[0] in ['\\', '%', '_'] {
          assert Escape(needle)[2..] == rest;
        } else {
          assert Escape(needle)[1..] == rest;
        }
      }
    }
  }

  /** Some `/` of the text is followed by the needle and nothing else, up to ASCII case. */
  predicate SlashSuffix(s: string, needle: string) {
    exists i :: 0 <= i < |s| && s[i] == '/' && Lower(s[i + 1..]) == Lower(needle)
  }

  /** The `LIKE '%/' || needle` arm is the slash-anchored suffix test, whatever wildcards the
      needle contains. */
  lemma {:induction false} SuffixArm(needle: string, s: string)
    ensures Like("%/" + Escape(needle), s) <==> SlashSuffix(s, needle)
  {
    var tail := "/" + Escape(needle);
    assert ("%/" + Escape(needle))[1..] == tail;
    assert tail[1..] == Escape(needle);
    if s == [] {
      assert !Like(tail, s);
    } else {
      SuffixArm(needle, s[1..]);
      EscapedIsLiteral(needle, s[1..]);
      assert Fold('/') == Fold(s[0]) <==> s[0] == '/';
      assert Like(tail, s) <==> s[0] == '/' && Lower(s[1..]) == Lower(needle);
      SuffixStep(s, needle);
    }
  }

  lemma SuffixStep(s: string, needle: string)
    requires s != []
    ensures SlashSuffix(s, needle) <==> (s[0] == '/' && Lower(s[1..]) == Lower(needle)) || SlashSuffix(s[1..], needle)
  {
    if i :| 0 <= i < |s[1..]| && s[1..][i] == '/' && Lower(s[1..][i + 1..]) == Lower(needle) {
      assert s[i + 1] == '/' && s[i + 1 + 1..] == s[1..][i + 1..];
    }
    if i :| 1 <= i < |s| && s[i] == '/' && Lower(s[i + 1..]) == Lower(needle) {
      assert s[1..][i - 1] == '/' && s[1..][i - 1 + 1..] == s[i + 1..];
    }
  }

  /** The four arms of the SQL clause. */
  predicate ClauseMatches(needle: string, d: Document) {
    || d.path == needle
    || Full(d) == needle
    || Like("%/" + Escape(needle), d.path)
    || Like("%/" + Escape(needle), Full(d))
  }

  // ── The needle index ───────────────────────────────────────────────────────

  /** `exact`: paths and full paths as stored. `suffix`: the lower-cased text after each slash
      of either. Both give positions in the document list. */
  datatype NeedleIndex = NeedleIndex(exact: map<string, seq<int>>, suffix: map<string, seq<int>>)

  function At(m: map<string, seq<int>>, k: string): seq<int> {
    if k in m then m[k] else []
  }

  function Push(m: map<string, seq<int>>, k: string, i: int): map<string, seq<int>> {
    m[k := At(m, k) + [i]]
  }

  predicate IsKey(d: Document, k: string) {
    k == d.path || k == Full(d)
  }

  /** `k` follows a slash of the lower-cased `key`. */
  predicate AfterSlash(key: string, k: string) {
    exists at :: 0 <= at < |key| && Lower(key)[at] == '/' && Lower(key)[at + 1..] == k
  }

  predicate IsSuffixKey(d: Document, k: string) {
    AfterSlash(d.path, k) || AfterSlash(Full(d), k)
  }

  predicate KeyAt(docs: seq<Document>, n: nat, i: int, k: string)
    requires n <= |docs|
  {
    0 <= i < n && IsKey(docs[i], k)
  }

  predicate SuffixKeyAt(docs: seq<Document>, n: nat, i: int, k: string)
    requires n <= |docs|
  {
    0 <= i < n && IsSuffixKey(docs[i], k)
  }

  /** The index lists, under every text, exactly the documents among the first `n` it is a key
      or a suffix key of. */
  ghost predicate Indexes(ix: NeedleIndex, docs: seq<Document>, n: nat)
    requires n <= |docs|
  {
    && (forall k, i :: i in At(ix.exact, k) <==> KeyAt(docs, n, i, k))
    && (forall k, i :: i in At(ix.suffix, k) <==> SuffixKeyAt(docs, n, i, k))
  }

  lemma PushAdds(m: map<string, seq<int>>, key: string, i: int)
    ensures forall k, j :: j in At(Push(m, key, i), k) <==> j in At(m, k) || (k == key && j == i)
  {
  }

  /** Adds what follows each slash of one key. */
  method PushSuffixes(suffix: map<string, seq<int>>, key: string, i: int) returns (suffix': map<string, seq<int>>)
    ensures forall k, j :: j in At(suffix', k) <==> j in At(suffix, k) || (j == i && AfterSlash(key, k))
  {
    var lower := Lower(key);
    suffix' := suffix;
    for at := 0 to |lower|
      invariant forall k, j :: j in At(suffix', k) <==>
                                 j in At(suffix, k)
                                 || (j == i && exists b :: 0 <= b < at && lower[b] == '/' && lower[b + 1..] == k)
    {
      if lower[at] == '/' {
        PushAdds(suffix', lower[at + 1..], i);
        suffix' := Push(suffix', lower[at + 1..], i);
      }
    }
  }

  method BuildIndex(docs: seq<Document>) returns (ix: NeedleIndex)
    ensures Indexes(ix, docs, |docs|)
  {
    var exact: map<string, seq<int>>, suffix: map<string, seq<int>> := map[], map[];
    assert forall k :: At(exact, k) == [] && At(suffix, k) == [];
    for i := 0 to |docs|
      invariant Indexes(NeedleIndex(exact, suffix), docs, i)
    {
      exact, suffix := PushDocument(docs, i, exact, suffix);
    }
    ix := NeedleIndex(exact, suffix);
  }

  method PushDocument(docs: seq<Document>, i: nat, exact0: map<string, seq<int>>, suffix0: map<string, seq<int>>)
    returns (exact: map<string, seq<int>>, suffix: map<string, seq<int>>)
    requires i < |docs| && Indexes(NeedleIndex(exact0, suffix0), docs, i)
    ensures Indexes(NeedleIndex(exact, suffix), docs, i + 1)
  {
    var doc := docs[i];
    PushAdds(exact0, doc.path, i);
    exact := Push(exact0, doc.path, i);
    PushAdds(exact, Full(doc), i);
    exact := Push(exact, Full(doc), i);
    suffix := PushSuffixes(suffix0, doc.path, i);
    suffix := PushSuffixes(suffix, Full(doc), i);
  }

  lemma AfterSlashIsSuffix(key: string, needle: string)
    ensures AfterSlash(key, Lower(needle)) <==> SlashSuffix(key, needle)
  {
    forall at | 0 <= at < |key|
      ensures (Lower(key)[at] == '/' && Lower(key)[at + 1..] == Lower(needle))
         <==> (key[at] == '/' && Lower(key[at + 1..]) == Lower(needle))
    {
      assert Lower(key)[at + 1..] == Lower(key[at + 1..]);
    }
  }

  /** Looking a needle up in both maps finds exactly the documents the clause matches. */
  lemma LookupIsClause(ix: NeedleIndex, docs: seq<Document>, needle: string)
    requires Indexes(ix, docs, |docs|)
    ensures forall i :: i in At(ix.exact, needle) + At(ix.suffix, Lower(needle)) <==>
                          0 <= i < |docs| && ClauseMatches(needle, docs[i])
  {
    forall i
      ensures i in At(ix.exact, needle) + At(ix.suffix, Lower(needle)) <==> 0 <= i < |docs| && ClauseMatches(needle, docs[i])
    {
      var exact, suffix := At(ix.exact, needle), At(ix.suffix, Lower(needle));
      assert i in exact + suffix <==> i in exact || i in suffix;
      assert i in exact <==> KeyAt(docs, |docs|, i, needle);
      assert i in suffix <==> SuffixKeyAt(docs, |docs|, i, Lower(needle));
      if 0 <= i < |docs| {
        KeysAreClause(docs[i], needle);
      }
    }
  }

  lemma KeysAreClause(d: Document, needle: string)
    ensures IsKey(d, needle) || IsSuffixKey(d, Lower(needle)) <==> ClauseMatches(needle, d)
  {
    AfterSlashIsSuffix(d.path, needle);
    AfterSlashIsSuffix(Full(d), needle);
    SuffixArm(needle, d.path);
    SuffixArm(needle, Full(d));
  }

  function Matching(docs: seq<Document>, needle: string): set<nat> {
    set i: nat | i < |docs| && ClauseMatches(needle, docs[i])
  }

  method Count(ix: NeedleIndex, ghost docs: seq<Document>, needle: string) returns (n: nat)
    requires Indexes(ix, docs, |docs|)
    ensures n == |Matching(docs, needle)|
  {
    var hits := At(ix.exact, needle) + At(ix.suffix, Lower(needle));
    LookupIsClause(ix, docs, needle);
    var sorted := SortBy((a: int, b: int) => a < b, hits);
    var once := DedupBy((a: int) => a, sorted);
    n := |once|;
    CountedOnce(hits);
    assert Elements(hits) == Matching(docs, needle);
  }

  lemma CountedOnce(hits: seq<int>)
    ensures |DedupBy((a: int) => a, SortBy((a: int, b: int) => a < b, hits))| == |Elements(hits)|
  {
    var less := (a: int, b: int) => a < b;
    var sorted := SortBy(less, hits);
    SortByIsSorted(less, Elements(hits), hits);
    SortByMembers(less, hits);
    assert Elements(sorted) == Elements(hits);
    DedupIsStrict(less, (a: int) => a, Elements(hits), sorted);
    var once := DedupBy((a: int) => a, sorted);
    assert forall i, j | 0 <= i < j < |once| :: less(once[i], once[j]);
    DistinctCount(once);
  }

  // ── Batches ────────────────────────────────────────────────────────────────

  predicate KeyLess(a: Document, b: Document) {
    StrLess(a.collection, b.collection) || (a.collection == b.collection && StrLess(a.path, b.path))
  }

  /** Rows in (collection, path) order; that pair and the id are unique. */
  ghost predicate ValidTable(table: seq<Document>) {
    && StrictlySorted((a, b) => KeyLess(a, b), table)
    && KeyIdentifies((d: Document) => d.id, Elements(table))
    && (forall a, b | a in table && b in table && a.collection == b.collection && a.path == b.path :: a == b)
  }

  predicate AnyMatches(needles: seq<string>, d: Document) {
    exists n :: n in needles && ClauseMatches(n, d)
  }

  /** One statement. */
  function Query(table: seq<Document>, needles: seq<string>): seq<Document> {
    Keep(table, (d: Document) => AnyMatches(needles, d))
  }

  lemma KeyOrder(table: seq<Document>)
    requires ValidTable(table)
    ensures StrictTotalOn((a, b) => KeyLess(a, b), Elements(table))
    ensures WeakOrderOn((a, b) => KeyLess(a, b), Elements(table))
  {
    forall a, b: Document
      ensures !KeyLess(a, a)
      ensures KeyLess(a, b) || KeyLess(b, a) || (a.collection == b.collection && a.path == b.path)
    {
      StrLessIrreflexive(a.collection);
      StrLessIrreflexive(a.path);
      StrLessTotal(a.collection, b.collection);
      StrLessTotal(a.path, b.path);
    }
    forall a, b, c | KeyLess(a, b) && KeyLess(b, c)
      ensures KeyLess(a, c)
    {
      KeyLessTransitive(a, b, c);
    }
    assert forall a | a in Elements(table) :: a in table;
  }

  lemma KeyLessTransitive(a: Document, b: Document, c: Document)
    requires KeyLess(a, b) && KeyLess(b, c)
    ensures KeyLess(a, c)
  {
    if StrLess(a.collection, b.collection) && StrLess(b.collection, c.collection) {
      StrLessTransitive(a.collection, b.collection, c.collection);
    } else if a.collection == b.collection == c.collection {
      StrLessTransitive(a.path, b.path, c.path);
    }
  }

  /** Sorting rows of the table by key and dropping repeated ids gives the rows, each once, in
      table order. */
  lemma SortedOnceIs(table: seq<Document>, rows: seq<Document>, wanted: Document -> bool)
    requires ValidTable(table)
    requires forall d :: d in rows <==> d in table && wanted(d)
    ensures DedupBy((d: Document) => d.id, SortBy((a, b) => KeyLess(a, b), rows)) == Keep(table, wanted)
  {
    var less := (a, b) => KeyLess(a, b);
    var key := (d: Document) => d.id;
    var all := Elements(table);
    var sorted := SortBy(less, rows);
    KeyOrder(table);
    SortByIsSorted(less, all, rows);
    SortByMembers(less, rows);
    assert Elements(sorted) == Elements(rows) <= all;
    DedupIsStrict(less, key, all, sorted);
    KeepSorted(less, table, wanted);
    KeepMembers(table, wanted);
    assert Elements(Keep(table, wanted)) == Elements(rows);
    SortedUnique(less, all, DedupBy(key, sorted), Keep(table, wanted));
  }

  const NEEDLE_BATCH: nat := 250

  /** Any number of batches, merged, is what one statement over all needles would return. */
  method FindByNeedles(table: seq<Document>, needles: seq<string>) returns (rows: seq<Document>)
    requires ValidTable(table)
    ensures rows == Query(table, needles)
  {
    if needles == [] {
      KeepMembers(table, (d: Document) => AnyMatches(needles, d));
      NoneKept(table, (d: Document) => AnyMatches(needles, d));
      return [];
    }
    var next := if |needles| < NEEDLE_BATCH then |needles| else NEEDLE_BATCH;
    rows := Query(table, needles[..next]);
    KeepMembers(table, (d: Document) => AnyMatches(needles[..next], d));
    var merged := false;
    while next < |needles|
      invariant 0 <= next <= |needles|
      invariant forall d :: d in rows <==> d in table && AnyMatches(needles[..next], d)
      invariant !merged ==> rows == Query(table, needles[..next])
    {
      var to := if next + NEEDLE_BATCH < |needles| then next + NEEDLE_BATCH else |needles|;
      var batch := Query(table, needles[next..to]);
      KeepMembers(table, (d: Document) => AnyMatches(needles[next..to], d));
      MoreNeedles(needles, next, to);
      rows := rows + batch;
      next, merged := to, true;
    }
    assert needles[..next] == needles;
    if merged {
      SortedOnceIs(table, rows, (d: Document) => AnyMatches(needles, d));
      rows := SortBy((a, b) => KeyLess(a, b), rows);
      rows := DedupBy((d: Document) => d.id, rows);
    }
  }

  lemma {:induction false} NoneKept<T>(s: seq<T>, keep: T -> bool)
    requires forall x | x in s :: !keep(x)
    ensures Keep(s, keep) == []
  {
    if s != [] {
      NoneKept(s[..|s| - 1], keep);
    }
  }

  lemma MoreNeedles(needles: seq<string>, next: nat, to: nat)
    requires next <= to <= |needles|
    ensures forall d :: AnyMatches(needles[..to], d) <==> AnyMatches(needles[..next], d) || AnyMatches(needles[next..to], d)
  {
    assert needles[..to] == needles[..next] + needles[next..to];
  }

  // ── The report ─────────────────────────────────────────────────────────────

  /** One entry of a pattern, classified by its form alone. */
  datatype Entry = Docid(hex: string) | Glob(glob: string) | Path(needle: string)

  const SCHEME: string := "rqmd://"

  /** `trim_start_matches` strips the prefix as often as it occurs. */
  function StripScheme(s: string): string
    decreases |s|
  {
    if SCHEME <= s then StripScheme(s[|SCHEME|..]) else s
  }

  function Classify(written: string): Entry {
    if written != [] && written[0] == '#' then Docid(written[1..])
    else if exists c :: c in written && c in ['*', '?', '[', '{'] then Glob(StripScheme(written))
    else Path(StripScheme(written))
  }

  /** What the call can see: all active rows, the docid lookup over them, the rows of the chosen
      collections, the glob test on `collection/path`, and which globs compile. */
  datatype Scope = Scope(all: seq<Document>, lookup: string -> Option<Document>,
                           selected: seq<Document>, globMatches: (string, string) -> bool,
                           globCompiles: string -> bool)

  ghost predicate ValidScope(t: Scope) {
    && ValidTable(t.all) && ValidTable(t.selected)
    && (forall d | d in t.selected :: d in t.all)
    && (forall hex :: t.lookup(hex).Some? ==> t.lookup(hex).value in t.all)
  }

  predicate IsHit(t: Scope, entry: Entry, d: Document) {
    match entry
    case Docid(hex) => t.lookup(hex) == Some(d)
    case Glob(glob) => t.globMatches(glob, Full(d)) && d in t.selected
    case Path(needle) => ClauseMatches(needle, d) && d in t.selected
  }

  /** The documents an entry stands for. */
  function Hits(t: Scope, entry: Entry): set<Document> {
    set d | d in t.all && IsHit(t, entry, d)
  }

  // ── What an entry stands for ───────────────────────────────────────────────

  function Schemes(n: nat): string {
    if n == 0 then "" else "rqmd://" + Schemes(n - 1)
  }

  lemma StripOnce(scheme: string, rest: string)
    requires scheme == SCHEME
    ensures StripScheme(scheme + rest) == StripScheme(rest)
  {
    assert (scheme + rest)[|scheme|..] == rest;
  }

  lemma Regroup(a: string, b: string, c: string)
    ensures (a + b) + c == a + (b + c)
  {
  }

  /** However often the scheme precedes an entry, it goes. */
  lemma {:induction false} SchemesAreStripped(n: nat, bare: string)
    requires !("rqmd://" <= bare)
    ensures StripScheme(Schemes(n) + bare) == bare
  {
    if n == 0 {
      assert Schemes(0) + bare == bare;
    } else {
      SchemesAreStripped(n - 1, bare);
      Regroup("rqmd://", Schemes(n - 1), bare);
      StripOnce("rqmd://", Schemes(n - 1) + bare);
    }
  }

  /** Two characters count as one exactly when they are equal or the two cases of an ASCII letter. */
  lemma CaseIsIgnored(a: char, b: char)
    ensures Lower([a]) == Lower([b]) <==>
              || a == b
              || ('A' <= a <= 'Z' && b as int == a as int + 32)
              || ('A' <= b <= 'Z' && a as int == b as int + 32)
  {
    LowerCons([a], [b]);
    assert [a][1..] == [] && [b][1..] == [];
  }

  predicate HasWildcard(w: string) {
    '*' in w || '?' in w || '[' in w || '{' in w
  }

  /** `#` and a hash stand for the one document the lookup gives, an entry with a wildcard for the
      documents whose `collection/path` its glob matches, any other for those whose path or
      `collection/path` is the entry or has it after a slash, up to ASCII case there. */
  predicate StandsFor(t: Scope, w: string, d: Document) {
    if w != "" && w[0] == '#' then t.lookup(w[1..]) == Some(d)
    else
      var bare, full := StripScheme(w), d.collection + "/" + d.path;
      && d in t.selected
      && if HasWildcard(w) then t.globMatches(bare, full)
         else d.path == bare || full == bare || SlashSuffix(d.path, bare) || SlashSuffix(full, bare)
  }

  lemma EntryStandsFor(t: Scope, w: string, d: Document)
    ensures IsHit(t, Classify(w), d) <==> StandsFor(t, w, d)
  {
    SuffixArm(StripScheme(w), d.path);
    SuffixArm(StripScheme(w), d.collection + "/" + d.path);
    assert (exists c :: c in w && c in ['*', '?', '[', '{']) <==> HasWildcard(w);
  }

  datatype Ambiguous = Ambiguous(entry: string, matches: nat)

  datatype Report = Report(documents: seq<Document>, unmatched: seq<string>, ambiguous: seq<Ambiguous>)

  datatype Outcome = Resolved(report: Report) | TooManyEntries | InvalidGlob

  const MAX_DISTINCT_PATH_ENTRIES: nat := 5000

  /** Each element where it first occurs. */
  function FirstOccurrences<T(==)>(s: seq<T>): seq<T> {
    if s == [] then []
    else
      var before := FirstOccurrences(s[..|s| - 1]);
      if s[|s| - 1] in before then before else before + [s[|s| - 1]]
  }

  lemma {:induction false} FirstOccurrencesFacts<T>(s: seq<T>)
    ensures NoDuplicates(FirstOccurrences(s)) && Elements(FirstOccurrences(s)) == Elements(s)
  {
    if s != [] {
      FirstOccurrencesFacts(s[..|s| - 1]);
      assert s == s[..|s| - 1] + [s[|s| - 1]];
      var before := FirstOccurrences(s[..|s| - 1]);
      assert forall x :: x in before <==> x in Elements(before);
    }
  }

  lemma FirstOccurrencesSnoc<T>(s: seq<T>, x: T)
    ensures FirstOccurrences(s + [x]) ==
              if x in FirstOccurrences(s) then FirstOccurrences(s) else FirstOccurrences(s) + [x]
  {
    assert (s + [x])[..|s|] == s;
  }

  // Counting the documents of a needle among the rows the query returned gives the entry's hits.

  lemma PathCount(t: Scope, matched: seq<Document>, needle: string)
    requires ValidScope(t)
    requires forall d | d in t.selected && ClauseMatches(needle, d) :: d in matched
    requires forall d | d in matched :: d in t.selected
    requires NoDuplicates(matched)
    ensures |Matching(matched, needle)| == |Hits(t, Path(needle))|
  {
    PositionsCount(matched, Matching(matched, needle), Hits(t, Path(needle)));
  }

  lemma {:induction false} PositionsCount(rows: seq<Document>, positions: set<nat>, docs: set<Document>)
    requires NoDuplicates(rows) && forall i | i in positions :: 0 <= i < |rows| && rows[i] in docs
    requires forall d | d in docs :: exists i :: i in positions && 0 <= i < |rows| && rows[i] == d
    ensures |positions| == |docs|
    decreases positions
  {
    if positions != {} {
      var i :| i in positions;
      var fewer, rest := positions - {i}, docs - {rows[i]};
      forall j | j in fewer
        ensures rows[j] in rest
      {
        assert rows[j] != rows[i];
      }
      forall d | d in rest
        ensures exists j :: j in fewer && 0 <= j < |rows| && rows[j] == d
      {
        var j :| j in positions && 0 <= j < |rows| && rows[j] == d;
        assert j in fewer;
      }
      PositionsCount(rows, fewer, rest);
    } else {
      assert docs == {};
    }
  }

  /** The counts of the entries of one kind, before the others are looked at. */
  ghost predicate Counted(t: Scope, entries: seq<Entry>, counts: seq<nat>, kinds: set<nat>) {
    |counts| == |entries| && forall i | 0 <= i < |entries| && Kind(entries[i]) in kinds :: counts[i] == |Hits(t, entries[i])|
  }

  function Kind(e: Entry): nat {
    match e
    case Docid(_) => 0
    case Path(_) => 1
    case Glob(_) => 2
  }

  /** The documents collected so far: the hits of the entries of those kinds. */
  ghost predicate Collected(t: Scope, entries: seq<Entry>, docs: seq<Document>, kinds: set<nat>) {
    forall d :: d in docs <==> d in t.all && exists e :: e in entries && Kind(e) in kinds && IsHit(t, e, d)
  }

  ghost predicate NoGlobCounted(entries: seq<Entry>, counts: seq<nat>) {
    |counts| == |entries| && forall j | 0 <= j < |entries| && entries[j].Glob? :: counts[j] == 0
  }

  method ResolveDocids(t: Scope, entries: seq<Entry>) returns (counts: seq<nat>, docs: seq<Document>)
    requires ValidScope(t)
    ensures Counted(t, entries, counts, {0}) && Collected(t, entries, docs, {0})
    ensures NoGlobCounted(entries, counts)
  {
    counts, docs := seq(|entries|, _ => 0), [];
    for i := 0 to |entries|
      invariant |counts| == |entries| && NoGlobCounted(entries, counts)
      invariant forall j | 0 <= j < i && entries[j].Docid? :: counts[j] == |Hits(t, entries[j])|
      invariant forall d :: d in docs <==> d in t.all && exists e :: e in entries[..i] && e.Docid? && IsHit(t, e, d)
    {
      assert entries[..i + 1] == entries[..i] + [entries[i]];
      if entries[i].Docid? {
        var found := t.lookup(entries[i].hex);
        DocidHits(t, entries[i].hex);
        if found.Some? {
          docs := docs + [found.value];
          counts := counts[i := 1];
        } else {
          counts := counts[i := 0];
        }
      }
    }
    assert entries[..|entries|] == entries;
  }

  lemma DocidHits(t: Scope, hex: string)
    requires ValidScope(t)
    ensures Hits(t, Docid(hex)) == if t.lookup(hex).Some? then {t.lookup(hex).value} else {}
  {
  }

  function NeedlesOf(entries: seq<Entry>): seq<string> {
    if entries == [] then []
    else NeedlesOf(entries[..|entries| - 1]) + if entries[|entries| - 1].Path? then [entries[|entries| - 1].needle] else []
  }

  lemma {:induction false} NeedlesAre(entries: seq<Entry>, needle: string)
    ensures needle in NeedlesOf(entries) <==> Path(needle) in entries
  {
    if entries != [] {
      NeedlesAre(entries[..|entries| - 1], needle);
      assert entries == entries[..|entries| - 1] + [entries[|entries| - 1]];
    }
  }

  /** Every distinct needle once, in order. */
  method DistinctNeedles(entries: seq<Entry>) returns (distinct: seq<string>)
    ensures distinct == FirstOccurrences(NeedlesOf(entries))
  {
    distinct := [];
    var seen: set<string> := {};
    ghost var needles := [];
    for i := 0 to |entries|
      invariant needles == NeedlesOf(entries[..i]) && distinct == FirstOccurrences(needles)
      invariant forall n :: n in seen <==> n in distinct
    {
      NeedlesStep(entries, i);
      if entries[i].Path? {
        var n := entries[i].needle;
        FirstOccurrencesSnoc(needles, n);
        needles := needles + [n];
        if n !in seen {
          seen := seen + {n};
          distinct := distinct + [n];
        }
      }
    }
    assert entries[..|entries|] == entries;
  }

  lemma NeedlesStep(entries: seq<Entry>, i: nat)
    requires i < |entries|
    ensures NeedlesOf(entries[..i + 1]) ==
              if entries[i].Path? then NeedlesOf(entries[..i]) + [entries[i].needle] else NeedlesOf(entries[..i])
  {
    assert entries[..i + 1][..i] == entries[..i];
    assert NeedlesOf(entries[..i]) + [] == NeedlesOf(entries[..i]);
  }

  /** Looks the plain entries up together, then counts each of them on its own. */
  method ResolvePaths(t: Scope, entries: seq<Entry>, counts0: seq<nat>, docs0: seq<Document>)
    returns (ok: bool, counts: seq<nat>, docs: seq<Document>)
    requires ValidScope(t) && Counted(t, entries, counts0, {0}) && Collected(t, entries, docs0, {0})
    requires NoGlobCounted(entries, counts0)
    ensures ok <==> |FirstOccurrences(NeedlesOf(entries))| <= MAX_DISTINCT_PATH_ENTRIES
    ensures ok ==> Counted(t, entries, counts, {0, 1}) && Collected(t, entries, docs, {0, 1}) && NoGlobCounted(entries, counts)
  {
    var distinct := DistinctNeedles(entries);
    if |distinct| > MAX_DISTINCT_PATH_ENTRIES {
      return false, counts0, docs0;
    }
    var matched := FindByNeedles(t.selected, distinct);
    MatchedAre(t, entries, distinct);
    counts := CountPaths(t, entries, counts0, matched);
    ok, docs := true, docs0 + matched;
    CollectedPaths(t, entries, docs0, matched);
  }

  ghost predicate Looked(t: Scope, entries: seq<Entry>, matched: seq<Document>) {
    && NoDuplicates(matched)
    && forall d :: d in matched <==> d in t.selected && exists n :: Path(n) in entries && ClauseMatches(n, d)
  }

  lemma MatchedAre(t: Scope, entries: seq<Entry>, distinct: seq<string>)
    requires ValidScope(t) && distinct == FirstOccurrences(NeedlesOf(entries))
    ensures Looked(t, entries, Query(t.selected, distinct))
  {
    var matched := Query(t.selected, distinct);
    FirstOccurrencesFacts(NeedlesOf(entries));
    KeepMembers(t.selected, (d: Document) => AnyMatches(distinct, d));
    SelectedOnce(t);
    KeepDistinct(t.selected, (d: Document) => AnyMatches(distinct, d));
    forall n
      ensures n in distinct <==> Path(n) in entries
    {
      NeedlesAre(entries, n);
      assert n in distinct <==> n in Elements(distinct);
      assert n in NeedlesOf(entries) <==> n in Elements(NeedlesOf(entries));
    }
    forall d
      ensures AnyMatches(distinct, d) <==> exists n :: Path(n) in entries && ClauseMatches(n, d)
    {
      if n :| n in distinct && ClauseMatches(n, d) {
        assert Path(n) in entries;
      }
    }
  }

  lemma SelectedOnce(t: Scope)
    requires ValidScope(t)
    ensures NoDuplicates(t.selected)
  {
    KeyOrder(t.selected);
    forall i, j | 0 <= i < j < |t.selected|
      ensures t.selected[i] != t.selected[j]
    {
      assert t.selected[i] in Elements(t.selected);
    }
  }

  method CountPaths(t: Scope, entries: seq<Entry>, counts0: seq<nat>, matched: seq<Document>) returns (counts: seq<nat>)
    requires ValidScope(t) && Counted(t, entries, counts0, {0}) && Looked(t, entries, matched)
    requires NoGlobCounted(entries, counts0)
    ensures Counted(t, entries, counts, {0, 1}) && NoGlobCounted(entries, counts)
  {
    var ix := BuildIndex(matched);
    counts := counts0;
    for i := 0 to |entries|
      invariant |counts| == |entries| && NoGlobCounted(entries, counts)
      invariant forall j | 0 <= j < |entries| && (entries[j].Docid? || (j < i && entries[j].Path?)) ::
                  counts[j] == |Hits(t, entries[j])|
    {
      if entries[i].Path? {
        var n := Count(ix, matched, entries[i].needle);
        assert entries[i] == Path(entries[i].needle) && entries[i] in entries;
        PathCount(t, matched, entries[i].needle);
        counts := counts[i := n];
      }
    }
  }

  lemma CollectedPaths(t: Scope, entries: seq<Entry>, docs: seq<Document>, matched: seq<Document>)
    requires ValidScope(t) && Collected(t, entries, docs, {0}) && Looked(t, entries, matched)
    ensures Collected(t, entries, docs + matched, {0, 1})
  {
    forall d
      ensures d in matched <==> d in t.all && exists e :: e in entries && e.Path? && IsHit(t, e, d)
    {
      if d in matched {
        var n :| Path(n) in entries && ClauseMatches(n, d);
        assert IsHit(t, Path(n), d);
      }
      if e :| e in entries && e.Path? && IsHit(t, e, d) {
        assert Path(e.needle) in entries;
      }
    }
  }

  /** How many of the rows a glob matches. */
  function GlobHits(t: Scope, rows: seq<Document>, glob: string): nat {
    |Keep(rows, (d: Document) => t.globMatches(glob, Full(d)))|
  }

  lemma GlobCount(t: Scope, glob: string)
    requires ValidScope(t)
    ensures GlobHits(t, t.selected, glob) == |Hits(t, Glob(glob))|
  {
    var keep := (d: Document) => t.globMatches(glob, Full(d));
    SelectedOnce(t);
    KeepMembers(t.selected, keep);
    KeepDistinct(t.selected, keep);
    DistinctCount(Keep(t.selected, keep));
    assert Elements(Keep(t.selected, keep)) == Hits(t, Glob(glob));
  }

  /** All globs are tried on one listing. */
  method ResolveGlobs(t: Scope, entries: seq<Entry>, counts0: seq<nat>, docs0: seq<Document>)
    returns (counts: seq<nat>, docs: seq<Document>)
    requires ValidScope(t) && Counted(t, entries, counts0, {0, 1}) && Collected(t, entries, docs0, {0, 1})
    requires NoGlobCounted(entries, counts0)
    ensures Counted(t, entries, counts, {0, 1, 2}) && Collected(t, entries, docs, {0, 1, 2})
  {
    counts, docs := counts0, docs0;
    for i := 0 to |t.selected|
      invariant GlobsSoFar(t, entries, counts0, counts, i) && DocsSoFar(t, entries, docs0, docs, i)
    {
      var any;
      counts, any := CountGlobs(t, entries, counts, i, counts0);
      DocsStep(t, entries, docs0, docs, i);
      if any {
        docs := docs + [t.selected[i]];
      }
    }
    assert t.selected[..|t.selected|] == t.selected;
    GlobsCounted(t, entries, counts0, counts);
    CollectedGlobs(t, entries, docs0, docs);
  }

  ghost predicate GlobsSoFar(t: Scope, entries: seq<Entry>, counts0: seq<nat>, counts: seq<nat>, i: nat)
    requires i <= |t.selected| && |counts0| == |entries|
  {
    && |counts| == |entries|
    && forall j | 0 <= j < |entries| ::
         counts[j] == if entries[j].Glob? then GlobHits(t, t.selected[..i], entries[j].glob) else counts0[j]
  }

  ghost predicate DocsSoFar(t: Scope, entries: seq<Entry>, docs0: seq<Document>, docs: seq<Document>, i: nat)
    requires i <= |t.selected|
  {
    forall d :: d in docs <==> d in docs0 || (d in t.selected[..i] && AnyGlob(t, entries, d))
  }

  lemma DocsStep(t: Scope, entries: seq<Entry>, docs0: seq<Document>, docs: seq<Document>, i: nat)
    requires i < |t.selected| && DocsSoFar(t, entries, docs0, docs, i)
    ensures var d := t.selected[i];
            DocsSoFar(t, entries, docs0, if AnyGlob(t, entries, d) then docs + [d] else docs, i + 1)
  {
    assert t.selected[..i + 1] == t.selected[..i] + [t.selected[i]];
  }

  lemma GlobsCounted(t: Scope, entries: seq<Entry>, counts0: seq<nat>, counts: seq<nat>)
    requires ValidScope(t) && Counted(t, entries, counts0, {0, 1}) && |counts| == |entries|
    requires forall j | 0 <= j < |entries| ::
               counts[j] == if entries[j].Glob? then GlobHits(t, t.selected, entries[j].glob) else counts0[j]
    ensures Counted(t, entries, counts, {0, 1, 2})
  {
    forall j | 0 <= j < |entries|
      ensures counts[j] == |Hits(t, entries[j])|
    {
      if entries[j].Glob? {
        GlobCount(t, entries[j].glob);
        assert entries[j] == Glob(entries[j].glob);
      } else {
        assert Kind(entries[j]) in {0, 1};
      }
    }
  }

  predicate AnyGlob(t: Scope, entries: seq<Entry>, d: Document) {
    exists e :: e in entries && e.Glob? && t.globMatches(e.glob, Full(d))
  }

  lemma CollectedGlobs(t: Scope, entries: seq<Entry>, docs0: seq<Document>, docs: seq<Document>)
    requires ValidScope(t) && Collected(t, entries, docs0, {0, 1})
    requires forall d :: d in docs <==> d in docs0 || (d in t.selected && AnyGlob(t, entries, d))
    ensures Collected(t, entries, docs, {0, 1, 2})
  {
    forall d
      ensures d in t.selected && AnyGlob(t, entries, d) <==> d in t.all && exists e :: e in entries && e.Glob? && IsHit(t, e, d)
    {
      if e :| e in entries && e.Glob? && IsHit(t, e, d) {
        assert AnyGlob(t, entries, d);
      }
    }
  }

  method CountGlobs(t: Scope, entries: seq<Entry>, before: seq<nat>, i: nat, ghost counts0: seq<nat>)
    returns (counts: seq<nat>, any: bool)
    requires i < |t.selected| && |before| == |entries| == |counts0|
    requires GlobsSoFar(t, entries, counts0, before, i)
    ensures GlobsSoFar(t, entries, counts0, counts, i + 1)
    ensures any <==> AnyGlob(t, entries, t.selected[i])
  {
    counts, any := before, false;
    for s := 0 to |entries|
      invariant |counts| == |entries|
      invariant forall j | 0 <= j < |entries| ::
                  counts[j] == if entries[j].Glob? then GlobHits(t, t.selected[..if j < s then i + 1 else i], entries[j].glob) else counts0[j]
      invariant any <==> exists e :: e in entries[..s] && e.Glob? && t.globMatches(e.glob, Full(t.selected[i]))
    {
      assert entries[..s + 1] == entries[..s] + [entries[s]];
      if entries[s].Glob? {
        GlobStep(t, i, entries[s].glob);
        if t.globMatches(entries[s].glob, Full(t.selected[i])) {
          counts := counts[s := counts[s] + 1];
          any := true;
        }
      }
    }
    assert entries[..|entries|] == entries;
  }

  lemma GlobStep(t: Scope, i: nat, glob: string)
    requires i < |t.selected|
    ensures GlobHits(t, t.selected[..i + 1], glob)
         == GlobHits(t, t.selected[..i], glob) + if t.globMatches(glob, Full(t.selected[i])) then 1 else 0
  {
    KeepLast(t.selected[..i], t.selected[i], (d: Document) => t.globMatches(glob, Full(d)));
    assert t.selected[..i + 1] == t.selected[..i] + [t.selected[i]];
  }

  function Classified(written: seq<string>): seq<Entry> {
    seq(|written|, i requires 0 <= i < |written| => Classify(written[i]))
  }

  /** The entries, as written, to report: those with no hit, and plain ones with several. */
  ghost predicate Reports(t: Scope, written: seq<string>, report: Report) {
    && NoDuplicates(report.unmatched) && NoDuplicates(report.ambiguous)
    && (forall w :: w in report.unmatched <==> w in written && Hits(t, Classify(w)) == {})
    && (forall a :: a in report.ambiguous <==>
                      a.entry in written && Classify(a.entry).Path? && a.matches == |Hits(t, Classify(a.entry))| > 1)
  }

  /** How many documents an entry stands for. */
  function HitCount(t: Scope): string -> nat {
    w => |Hits(t, Classify(w))|
  }

  function IsPlain(): string -> bool {
    w => Classify(w).Path?
  }

  /** Entries without a hit, and plain entries with several. */
  function NoHit(hits: string -> nat): string -> bool {
    w => hits(w) == 0
  }

  function Several(hits: string -> nat, plain: string -> bool): string -> bool {
    w => plain(w) && hits(w) > 1
  }

  function WithCounts(hits: string -> nat, ws: seq<string>): seq<Ambiguous> {
    seq(|ws|, i requires 0 <= i < |ws| => Ambiguous(ws[i], hits(ws[i])))
  }

  function UnmatchedOf(hits: string -> nat, written: seq<string>): seq<string> {
    FirstOccurrences(Keep(written, NoHit(hits)))
  }

  function AmbiguousOf(hits: string -> nat, plain: string -> bool, written: seq<string>): seq<Ambiguous> {
    WithCounts(hits, FirstOccurrences(Keep(written, Several(hits, plain))))
  }

  predicate HasInvalidGlob(t: Scope, entries: seq<Entry>) {
    exists e :: e in entries && e.Glob? && !t.globCompiles(e.glob)
  }

  /** The documents are exactly the hits of all entries, each once, in table order; the report
      lists each entry that matched nothing and each plain entry that matched several, each
      once and in the order written. */
  method ResolveMultiGet(t: Scope, written: seq<string>) returns (outcome: Outcome)
    requires ValidScope(t)
    ensures outcome.TooManyEntries? <==> |FirstOccurrences(NeedlesOf(Classified(written)))| > 5000
    ensures outcome.InvalidGlob? <==> !outcome.TooManyEntries? && HasInvalidGlob(t, Classified(written))
    ensures outcome.Resolved? ==>
              && outcome.report.documents == Keep(t.all, (d: Document) => exists w :: w in written && IsHit(t, Classify(w), d))
              && (forall d :: d in outcome.report.documents <==> d in t.all && exists w :: w in written && StandsFor(t, w, d))
              && outcome.report.unmatched == UnmatchedOf(HitCount(t), written)
              && outcome.report.ambiguous == AmbiguousOf(HitCount(t), IsPlain(), written)
              && Reports(t, written, outcome.report)
  {
    var entries := Classified(written);
    var counts, docs := ResolveDocids(t, entries);
    var ok;
    ok, counts, docs := ResolvePaths(t, entries, counts, docs);
    if !ok {
      return TooManyEntries;
    }
    if HasInvalidGlob(t, entries) {
      return InvalidGlob;
    }
    counts, docs := ResolveGlobs(t, entries, counts, docs);
    CollectedAll(t, written, docs);
    SortedOnceIs(t.all, docs, (d: Document) => exists w :: w in written && IsHit(t, Classify(w), d));
    docs := SortBy((a, b) => KeyLess(a, b), docs);
    docs := DedupBy((d: Document) => d.id, docs);
    CountsAre(t, written, entries, counts);
    var unmatched, ambiguous := ListReports(written, entries, counts, HitCount(t), IsPlain());
    ReportsAre(t, written);
    DocumentsStandFor(t, written);
    outcome := Resolved(Report(docs, unmatched, ambiguous));
  }

  lemma DocumentsStandFor(t: Scope, written: seq<string>)
    ensures forall d :: d in Keep(t.all, (d: Document) => exists w :: w in written && IsHit(t, Classify(w), d)) <==>
                          d in t.all && exists w :: w in written && StandsFor(t, w, d)
  {
    KeepMembers(t.all, (d: Document) => exists w :: w in written && IsHit(t, Classify(w), d));
    forall w, d
      ensures IsHit(t, Classify(w), d) <==> StandsFor(t, w, d)
    {
      EntryStandsFor(t, w, d);
    }
  }

  lemma CollectedAll(t: Scope, written: seq<string>, docs: seq<Document>)
    requires Collected(t, Classified(written), docs, {0, 1, 2})
    ensures forall d :: d in docs <==> d in t.all && exists w :: w in written && IsHit(t, Classify(w), d)
  {
    var entries := Classified(written);
    forall e
      ensures e in entries <==> exists w :: w in written && e == Classify(w)
    {
      if w :| w in written && e == Classify(w) {
        var i :| 0 <= i < |written| && written[i] == w;
        assert entries[i] == e;
      }
    }
    forall d
      ensures d in docs <==> d in t.all && exists w :: w in written && IsHit(t, Classify(w), d)
    {
      if w :| w in written && IsHit(t, Classify(w), d) {
        assert Classify(w) in entries && Kind(Classify(w)) in {0, 1, 2};
      }
    }
  }

  /** The ordered lists hold what is to be reported, and nothing twice. */
  lemma ReportsAre(t: Scope, written: seq<string>)
    ensures Reports(t, written, Report([], UnmatchedOf(HitCount(t), written), AmbiguousOf(HitCount(t), IsPlain(), written)))
  {
    var several := Several(HitCount(t), IsPlain());
    var ws := FirstOccurrences(Keep(written, several));
    KeptOnce(written, NoHit(HitCount(t)));
    KeptOnce(written, several);
    forall a
      ensures a in WithCounts(HitCount(t), ws) <==>
                a.entry in written && Classify(a.entry).Path? && a.matches == |Hits(t, Classify(a.entry))| > 1
    {
      CountsOf(HitCount(t), ws, a);
    }
    forall w
      ensures NoHit(HitCount(t))(w) <==> Hits(t, Classify(w)) == {}
    {
    }
  }

  lemma CountsOf(hits: string -> nat, ws: seq<string>, a: Ambiguous)
    ensures a in WithCounts(hits, ws) <==> a.entry in ws && a.matches == hits(a.entry)
  {
    if a.entry in ws && a.matches == hits(a.entry) {
      var i :| 0 <= i < |ws| && ws[i] == a.entry;
      assert WithCounts(hits, ws)[i] == a;
    }
  }

  lemma KeptOnce(written: seq<string>, keep: string -> bool)
    ensures NoDuplicates(FirstOccurrences(Keep(written, keep)))
    ensures forall w :: w in FirstOccurrences(Keep(written, keep)) <==> w in written && keep(w)
  {
    var kept := Keep(written, keep);
    FirstOccurrencesFacts(kept);
    KeepMembers(written, keep);
    forall w
      ensures w in FirstOccurrences(kept) <==> w in kept
    {
      assert w in FirstOccurrences(kept) <==> w in Elements(FirstOccurrences(kept));
      assert w in kept <==> w in Elements(kept);
    }
  }

  lemma OneMoreKept(written: seq<string>, w: string, keep: string -> bool)
    ensures var before := FirstOccurrences(Keep(written, keep));
            FirstOccurrences(Keep(written + [w], keep)) == if keep(w) && w !in before then before + [w] else before
  {
    KeepLast(written, w, keep);
    if keep(w) {
      FirstOccurrencesSnoc(Keep(written, keep), w);
    } else {
      assert Keep(written, keep) + [] == Keep(written, keep);
    }
  }

  lemma CountsAre(t: Scope, written: seq<string>, entries: seq<Entry>, counts: seq<nat>)
    requires entries == Classified(written) && Counted(t, entries, counts, {0, 1, 2})
    ensures CountsFor(written, entries, counts, HitCount(t), IsPlain())
  {
    forall i | 0 <= i < |written|
      ensures counts[i] == |Hits(t, Classify(written[i]))|
    {
      assert Kind(entries[i]) in {0, 1, 2};
    }
  }

  ghost predicate CountsFor(written: seq<string>, entries: seq<Entry>, counts: seq<nat>, hits: string -> nat, plain: string -> bool) {
    && |written| == |entries| == |counts|
    && forall i | 0 <= i < |written| :: counts[i] == hits(written[i]) && (entries[i].Path? <==> plain(written[i]))
  }

  method ListReports(written: seq<string>, entries: seq<Entry>, counts: seq<nat>, ghost hits: string -> nat, ghost plain: string -> bool)
    returns (unmatched: seq<string>, ambiguous: seq<Ambiguous>)
    requires CountsFor(written, entries, counts, hits, plain)
    ensures unmatched == UnmatchedOf(hits, written) && ambiguous == AmbiguousOf(hits, plain, written)
  {
    unmatched, ambiguous := [], [];
    var seen: set<string> := {};
    for i := 0 to |written|
      invariant Listed(hits, plain, written[..i], unmatched, ambiguous, seen)
    {
      var w, n := written[i], counts[i];
      assert written[..i + 1] == written[..i] + [w];
      ListOneMore(hits, plain, written[..i], w, unmatched, ambiguous, seen);
      if (n == 0 || (entries[i].Path? && n > 1)) && w !in seen {
        seen := seen + {w};
        if n == 0 {
          unmatched := unmatched + [w];
        } else {
          ambiguous := ambiguous + [Ambiguous(w, n)];
        }
      }
    }
    assert written[..|written|] == written;
  }

  /** The lists for the entries so far, and the set of those that are in one. */
  ghost predicate Listed(hits: string -> nat, plain: string -> bool, written: seq<string>,
                         unmatched: seq<string>, ambiguous: seq<Ambiguous>, seen: set<string>) {
    && unmatched == UnmatchedOf(hits, written) && ambiguous == AmbiguousOf(hits, plain, written)
    && seen == Elements(unmatched) + Elements(FirstOccurrences(Keep(written, Several(hits, plain))))
  }

  lemma ListOneMore(hits: string -> nat, plain: string -> bool, written: seq<string>, w: string,
                    unmatched: seq<string>, ambiguous: seq<Ambiguous>, seen: set<string>)
    requires Listed(hits, plain, written, unmatched, ambiguous, seen)
    ensures hits(w) == 0 && w !in seen ==> Listed(hits, plain, written + [w], unmatched + [w], ambiguous, seen + {w})
    ensures hits(w) > 1 && plain(w) && w !in seen ==>
              Listed(hits, plain, written + [w], unmatched, ambiguous + [Ambiguous(w, hits(w))], seen + {w})
    ensures w in seen || !(hits(w) == 0 || (hits(w) > 1 && plain(w))) ==>
              Listed(hits, plain, written + [w], unmatched, ambiguous, seen)
  {
    var several := FirstOccurrences(Keep(written, Several(hits, plain)));
    OneMoreKept(written, w, NoHit(hits));
    OneMoreKept(written, w, Several(hits, plain));
    SeenBefore(hits, plain, written, w);
    ElementsSnoc(unmatched, w);
    ElementsSnoc(several, w);
    assert w in seen <==> w in unmatched || w in several;
    CountsGrow(hits, several, w);
  }

  lemma ElementsSnoc(ws: seq<string>, w: string)
    ensures Elements(ws + [w]) == Elements(ws) + {w}
  {
  }

  lemma CountsGrow(hits: string -> nat, ws: seq<string>, w: string)
    ensures WithCounts(hits, ws + [w]) == WithCounts(hits, ws) + [Ambiguous(w, hits(w))]
  {
  }

  /** An entry is in only one of the two lists. */
  lemma SeenBefore(hits: string -> nat, plain: string -> bool, written: seq<string>, w: string)
    ensures w in UnmatchedOf(hits, written) ==> hits(w) == 0
    ensures w in FirstOccurrences(Keep(written, Several(hits, plain))) ==> plain(w) && hits(w) > 1
  {
    KeptOnce(written, NoHit(hits));
    KeptOnce(written, Several(hits, plain));
  }
}
