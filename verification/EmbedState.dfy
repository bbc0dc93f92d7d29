/** Which texts still need embedding (db.rs). */
module EmbedState {
  // The documents and content_vectors tables as values and the pending queries over the documents
  // that no rule excludes (embed_exclusion.rs).
  import opened Common

  datatype DocKey = DocKey(collection: string, path: string)

  /** A documents row; its text is known by its hash. */
  datatype Doc = Doc(hash: string, prevHash: Option<string>, active: bool)

  /** That some chunk of `hash` has a vector with this fingerprint. */
  datatype Vector = Vector(hash: string, fingerprint: string)

  datatype State = State(docs: map<DocKey, Doc>, vectors: set<Vector>)

  /** Byte length of the text a hash stands for. */
  type Sizes = string -> nat

  // ── Fingerprints by path ───────────────────────────────────────────────────

  /** The extensions of the languages that share one AST fingerprint. */
  datatype Group = Group(extensions: set<string>, fingerprint: string)

  datatype Expected = Expected(base: string, groups: seq<Group>)

  predicate EndsWith(s: string, suffix: string) {
    |suffix| <= |s| && s[|s| - |suffix|..] == suffix
  }

  /** `path GLOB '*.ext'`. */
  predicate GlobMatches(path: string, extension: string) {
    EndsWith(path, "." + extension)
  }

  function LastIndexOf(s: string, c: char): Option<nat> {
    if s == [] then None
    else if s[|s| - 1] == c then Some(|s| - 1)
    else LastIndexOf(s[..|s| - 1], c)
  }

  function FileName(path: string): string {
    match LastIndexOf(path, '/')
    case None => path
    case Some(i) => if i < |path| then path[i + 1..] else ""
  }

  /** `Path::extension`: after the last dot of the file name, unless that dot is its first
      character. */
  function Extension(path: string): Option<string> {
    var name := FileName(path);
    match LastIndexOf(name, '.')
    case None => None
    case Some(i) => if i == 0 || i >= |name| then None else Some(name[i + 1..])
  }

  predicate PlainExtension(extension: string) {
    '.' !in extension && '/' !in extension
  }

  predicate OnlyExtension(path: string) {
    LastIndexOf(FileName(path), '.') == Some(0)
  }

  lemma {:induction false} LastIndexFinds(s: string, c: char)
    ensures var r := LastIndexOf(s, c);
            && (r.None? ==> c !in s)
            && (r.Some? ==> r.value < |s| && s[r.value] == c && c !in s[r.value + 1..])
  {
    if s != [] && s[|s| - 1] != c {
      LastIndexFinds(s[..|s| - 1], c);
      assert s == s[..|s| - 1] + [s[|s| - 1]];
      var r := LastIndexOf(s, c);
      if r.Some? {
        assert s[r.value + 1..] == s[..|s| - 1][r.value + 1..] + [s[|s| - 1]];
      }
    }
  }

  lemma {:induction false} LastIndexIs(s: string, c: char, i: nat)
    requires i < |s| && s[i] == c && c !in s[i + 1..]
    ensures LastIndexOf(s, c) == Some(i)
  {
    if i < |s| - 1 {
      assert s[|s| - 1] == s[i + 1..][|s| - i - 2];
      assert s[i + 1..] == s[..|s| - 1][i + 1..] + [s[|s| - 1]];
      LastIndexIs(s[..|s| - 1], c, i);
    }
  }

  lemma NotInTail(s: string, from: nat, i: nat)
    requires from <= |s| && i < |s| && s[i] !in s[from..]
    ensures i < from
  {
    assert forall j | from <= j < |s| :: s[j] == s[from..][j - from];
  }

  lemma EndsWithDot(name: string, extension: string)
    requires PlainExtension(extension) && EndsWith(name, "." + extension)
    ensures LastIndexOf(name, '.') == Some(|name| - |extension| - 1)
    ensures name[|name| - |extension|..] == extension
  {
    var i := |name| - |extension| - 1;
    assert name[i..] == "." + extension;
    assert name[i] == name[i..][0] && name[i + 1..] == name[i..][1..];
    LastIndexIs(name, '.', i);
  }

  lemma DotEndsWith(name: string, extension: string, dot: nat)
    requires dot < |name| && name[dot] == '.' && name[dot + 1..] == extension
    ensures EndsWith(name, "." + extension)
  {
    assert name[dot..] == ['.'] + name[dot + 1..];
    assert |name| - |"." + extension| == dot;
  }

  /** A name ends in `.ext` exactly when `ext` is what follows its last dot. */
  lemma NameEndsWith(name: string, extension: string)
    requires PlainExtension(extension)
    ensures var dot := LastIndexOf(name, '.');
            EndsWith(name, "." + extension) <==> dot.Some? && dot.value < |name| && name[dot.value + 1..] == extension
  {
    LastIndexFinds(name, '.');
    var dot := LastIndexOf(name, '.');
    if EndsWith(name, "." + extension) {
      EndsWithDot(name, extension);
    }
    if dot.Some? && name[dot.value + 1..] == extension {
      DotEndsWith(name, extension, dot.value);
    }
  }

  /** The SQL test and the chunker's extension agree on every path but a bare `.ext`. */
  lemma GlobIsExtension(path: string, extension: string)
    requires PlainExtension(extension)
    ensures GlobMatches(path, extension) <==>
              Extension(path) == Some(extension) || (OnlyExtension(path) && FileName(path) == "." + extension)
  {
    var name := FileName(path);
    SuffixOfName(path, "." + extension);
    NameEndsWith(name, extension);
    LastIndexFinds(name, '.');
    if OnlyExtension(path) {
      BareName(name, extension);
    }
  }

  lemma BareName(name: string, extension: string)
    requires name != [] && name[0] == '.'
    ensures name == "." + extension <==> name[1..] == extension
  {
    assert name == ['.'] + name[1..];
  }

  lemma SuffixOfName(path: string, suffix: string)
    requires '/' !in suffix
    ensures EndsWith(path, suffix) <==> EndsWith(FileName(path), suffix)
  {
    LastIndexFinds(path, '/');
    var slash := LastIndexOf(path, '/');
    if slash.Some? {
      if EndsWith(path, suffix) {
        NotInTail(path, |path| - |suffix|, slash.value);
      }
      if |suffix| <= |path| - slash.value - 1 {
        SameTail(path, slash.value + 1, |suffix|);
      }
    }
  }

  lemma SameTail(s: string, from: nat, n: nat)
    requires from <= |s| && n <= |s| - from
    ensures s[from..][|s| - from - n..] == s[|s| - n..]
  {
  }

  /** The extension is what follows the last dot of the last component, when something is before it. */
  lemma ExtensionIs(dir: string, stem: string, extension: string)
    requires '/' !in stem && PlainExtension(extension)
    ensures var name := stem + "." + extension;
            && Extension(name) == Extension(dir + "/" + name)
            && Extension(name) == if stem == "" then None else Some(extension)
  {
    var name, path := stem + "." + extension, dir + "/" + stem + "." + extension;
    assert path == dir + "/" + name && path[|dir|] == '/' && path[|dir| + 1..] == name;
    assert '/' !in name;
    LastIndexIs(path, '/', |dir|);
    LastIndexFinds(name, '/');
    assert name[|stem|] == '.' && name[|stem| + 1..] == extension;
    LastIndexIs(name, '.', |stem|);
  }

  lemma NoDotNoExtension(dir: string, name: string)
    requires '/' !in name && '.' !in name
    ensures Extension(name) == Extension(dir + "/" + name) == None
  {
    var path := dir + "/" + name;
    assert path[|dir|] == '/' && path[|dir| + 1..] == name;
    LastIndexIs(path, '/', |dir|);
    LastIndexFinds(name, '/');
    LastIndexFinds(name, '.');
  }

  // ── The pending rule ───────────────────────────────────────────────────────

  /** The fingerprint a file is embedded under: its language's, or the base one
      (`embed_fingerprint`). */
  function FingerprintFor(e: Expected, path: string): string {
    FirstGroup(e.groups, Extension(path), e.base)
  }

  function FirstGroup(groups: seq<Group>, extension: Option<string>, base: string): string {
    if groups == [] || extension.None? then base
    else if extension.value in groups[0].extensions then groups[0].fingerprint
    else FirstGroup(groups[1..], extension, base)
  }

  /** `d.path` matches one of the group's extensions (`path_has_extension_clause`). */
  predicate InGroup(g: Group, path: string) {
    exists x :: x in g.extensions && GlobMatches(path, x)
  }

  predicate InSomeGroup(e: Expected, path: string) {
    exists i :: 0 <= i < |e.groups| && InGroup(e.groups[i], path)
  }

  /** Documents that may be embedded: active and not excluded. */
  predicate Live(s: State, excluded: set<DocKey>, k: DocKey) {
    k in s.docs && s.docs[k].active && k !in excluded
  }

  /** The documents that can make a hash pending: live, with text. */
  predicate Counts(s: State, excluded: set<DocKey>, sizes: Sizes, k: DocKey) {
    Live(s, excluded, k) && sizes(s.docs[k].hash) > 0
  }

  predicate HasVector(s: State, hash: string, fingerprint: string) {
    Vector(hash, fingerprint) in s.vectors
  }

  /** Some vector of the hash is there, current or not (`hash_has_any_vector`). */
  predicate HasAnyVector(s: State, hash: string) {
    exists v :: v in s.vectors && v.hash == hash
  }

  /** `MAX` of a group's column over the live documents on the hash. */
  predicate Flag(s: State, excluded: set<DocKey>, hash: string, g: Group) {
    exists k :: k in s.docs && Live(s, excluded, k) && s.docs[k].hash == hash && InGroup(g, k.path)
  }

  predicate HasLive(s: State, excluded: set<DocKey>, hash: string) {
    exists k :: k in s.docs && Live(s, excluded, k) && s.docs[k].hash == hash
  }

  /** `MIN` of the all-AST column, zero when the hash has no live document. */
  predicate AllAst(s: State, excluded: set<DocKey>, hash: string, e: Expected) {
    && HasLive(s, excluded, hash)
    && forall k :: k in s.docs && Live(s, excluded, k) && s.docs[k].hash == hash ==> InSomeGroup(e, k.path)
  }

  predicate SatisfiedByGroup(s: State, excluded: set<DocKey>, e: Expected, hash: string) {
    exists i :: 0 <= i < |e.groups| && Flag(s, excluded, hash, e.groups[i]) && HasVector(s, hash, e.groups[i].fingerprint)
  }

  /** The per-hash check (`hash_needs_embed_inner`): none of the fingerprints that the live
      documents on the hash expect is there. */
  predicate NeedsEmbed(s: State, excluded: set<DocKey>, e: Expected, hash: string) {
    if e.groups == [] then !HasVector(s, hash, e.base)
    else
      !SatisfiedByGroup(s, excluded, e, hash) && (AllAst(s, excluded, hash, e) || !HasVector(s, hash, e.base))
  }

  function CountedHashes(s: State, excluded: set<DocKey>, sizes: Sizes): set<string> {
    set k | k in s.docs && Counts(s, excluded, sizes, k) :: s.docs[k].hash
  }

  /** The hashes with text, of live documents, that the per-hash check says are pending. */
  function Pending(s: State, excluded: set<DocKey>, sizes: Sizes, e: Expected): set<string> {
    set h | h in CountedHashes(s, excluded, sizes) && NeedsEmbed(s, excluded, e, h)
  }

  /** `clear_prev_hash`. */
  function ClearDonor(docs: map<DocKey, Doc>, hash: string): map<DocKey, Doc> {
    map k | k in docs :: if docs[k].hash == hash then docs[k].(prevHash := None) else docs[k]
  }

  /** Embedding a hash through the document at `path`: its rows are replaced by rows of one
      fingerprint, and its documents need no donor any more. */
  function Embed(s: State, e: Expected, hash: string, path: string): State {
    State(ClearDonor(s.docs, hash), (set v | v in s.vectors && v.hash != hash) + {Vector(hash, FingerprintFor(e, path))})
  }

  ghost predicate PlainGroups(e: Expected) {
    && (forall i, x | 0 <= i < |e.groups| && x in e.groups[i].extensions :: PlainExtension(x))
    && (forall i | 0 <= i < |e.groups| :: e.groups[i].fingerprint != e.base)
  }

  /** A file is embedded under the fingerprint of a group it is in, or under the base one when
      it is in none. */
  lemma {:induction false} FingerprintIsExpected(groups: seq<Group>, base: string, path: string)
    requires forall i, x | 0 <= i < |groups| && x in groups[i].extensions :: PlainExtension(x)
    requires !OnlyExtension(path)
    ensures var fp := FirstGroup(groups, Extension(path), base);
            (exists i :: 0 <= i < |groups| && InGroup(groups[i], path) && fp == groups[i].fingerprint)
            || ((forall i | 0 <= i < |groups| :: !InGroup(groups[i], path)) && fp == base)
  {
    if groups != [] {
      InGroupIsExtension(groups[0], path);
      if !InGroup(groups[0], path) {
        var rest := groups[1..];
        FingerprintIsExpected(rest, base, path);
        var fp := FirstGroup(groups, Extension(path), base);
        assert fp == FirstGroup(rest, Extension(path), base);
        if i :| 0 <= i < |rest| && InGroup(rest[i], path) && fp == rest[i].fingerprint {
          assert InGroup(groups[i + 1], path) && fp == groups[i + 1].fingerprint;
        } else {
          forall i | 0 <= i < |groups|
            ensures !InGroup(groups[i], path)
          {
            assert i > 0 ==> groups[i] == rest[i - 1];
          }
        }
      }
    }
  }

  lemma InGroupIsExtension(g: Group, path: string)
    requires forall x | x in g.extensions :: PlainExtension(x)
    requires !OnlyExtension(path)
    ensures InGroup(g, path) <==> Extension(path).Some? && Extension(path).value in g.extensions
  {
    forall x | x in g.extensions
      ensures GlobMatches(path, x) <==> Extension(path) == Some(x)
    {
      GlobIsExtension(path, x);
    }
  }

  /** A file that is nothing but an extension is chunked without a language, yet its name
      matches the pattern of one; it settles its hash unless every live document on the hash
      is taken for some language. */
  predicate Settles(s: State, excluded: set<DocKey>, e: Expected, k: DocKey)
    requires k in s.docs
  {
    e.groups == [] || !OnlyExtension(k.path) || !AllAst(s, excluded, s.docs[k].hash, e)
  }

  lemma CountsUnchanged(s: State, excluded: set<DocKey>, sizes: Sizes, docs: map<DocKey, Doc>, vectors: set<Vector>)
    requires docs.Keys == s.docs.Keys
    requires forall k | k in s.docs :: docs[k].hash == s.docs[k].hash && docs[k].active == s.docs[k].active
    ensures var s' := State(docs, vectors);
            && (forall k :: Live(s', excluded, k) <==> Live(s, excluded, k))
            && CountedHashes(s', excluded, sizes) == CountedHashes(s, excluded, sizes)
  {
  }

  lemma FlagsUnchanged(s: State, s': State, excluded: set<DocKey>, e: Expected, hash: string)
    requires s'.docs.Keys == s.docs.Keys
    requires forall k | k in s.docs :: s'.docs[k].hash == s.docs[k].hash && s'.docs[k].active == s.docs[k].active
    ensures forall i | 0 <= i < |e.groups| :: Flag(s', excluded, hash, e.groups[i]) <==> Flag(s, excluded, hash, e.groups[i])
    ensures AllAst(s', excluded, hash, e) <==> AllAst(s, excluded, hash, e)
  {
    forall k | k in s.docs && s.docs[k].hash == hash
      ensures Live(s', excluded, k) <==> Live(s, excluded, k)
    {
    }
    forall i | 0 <= i < |e.groups|
      ensures Flag(s', excluded, hash, e.groups[i]) <==> Flag(s, excluded, hash, e.groups[i])
    {
      FlagUnchanged(s, s', excluded, hash, e.groups[i]);
      FlagUnchanged(s', s, excluded, hash, e.groups[i]);
    }
    assert HasLive(s', excluded, hash) <==> HasLive(s, excluded, hash) by {
      if k :| k in s.docs && Live(s, excluded, k) && s.docs[k].hash == hash {
        assert Live(s', excluded, k);
      }
    }
  }

  lemma FlagUnchanged(s: State, s': State, excluded: set<DocKey>, hash: string, g: Group)
    requires s'.docs.Keys == s.docs.Keys
    requires forall k | k in s.docs :: s'.docs[k].hash == s.docs[k].hash && s'.docs[k].active == s.docs[k].active
    ensures Flag(s, excluded, hash, g) ==> Flag(s', excluded, hash, g)
  {
    if k :| k in s.docs && Live(s, excluded, k) && s.docs[k].hash == hash && InGroup(g, k.path) {
      assert k in s'.docs && Live(s', excluded, k);
    }
  }

  /** Embedding a hash through a live document satisfies it exactly when that document settles
      its hash. */
  lemma EmbedSatisfiesExactly(s: State, excluded: set<DocKey>, e: Expected, k: DocKey)
    requires PlainGroups(e) && Live(s, excluded, k)
    ensures NeedsEmbed(Embed(s, e, s.docs[k].hash, k.path), excluded, e, s.docs[k].hash) <==> !Settles(s, excluded, e, k)
  {
    var hash := s.docs[k].hash;
    var s' := Embed(s, e, hash, k.path);
    FlagsUnchanged(s, s', excluded, e, hash);
    assert HasVector(s', hash, FingerprintFor(e, k.path));
    if e.groups != [] {
      if OnlyExtension(k.path) {
        OnlyExtensionIsBase(s, excluded, e, k);
      } else {
        StemIsSatisfied(s, excluded, e, k);
      }
    }
  }

  lemma OnlyExtensionIsBase(s: State, excluded: set<DocKey>, e: Expected, k: DocKey)
    requires PlainGroups(e) && Live(s, excluded, k) && OnlyExtension(k.path)
    ensures var s' := Embed(s, e, s.docs[k].hash, k.path);
            HasVector(s', s.docs[k].hash, e.base) && !SatisfiedByGroup(s', excluded, e, s.docs[k].hash)
  {
    assert Extension(k.path) == None;
    assert FingerprintFor(e, k.path) == e.base;
  }

  lemma StemIsSatisfied(s: State, excluded: set<DocKey>, e: Expected, k: DocKey)
    requires PlainGroups(e) && Live(s, excluded, k) && !OnlyExtension(k.path)
    ensures var s' := Embed(s, e, s.docs[k].hash, k.path);
            || SatisfiedByGroup(s', excluded, e, s.docs[k].hash)
            || (HasVector(s', s.docs[k].hash, e.base) && !AllAst(s', excluded, s.docs[k].hash, e))
  {
    var hash := s.docs[k].hash;
    var s' := Embed(s, e, hash, k.path);
    var fp := FingerprintFor(e, k.path);
    FingerprintIsExpected(e.groups, e.base, k.path);
    assert Live(s', excluded, k) && s'.docs[k].hash == hash && HasVector(s', hash, fp);
    if i :| 0 <= i < |e.groups| && InGroup(e.groups[i], k.path) && fp == e.groups[i].fingerprint {
      assert Flag(s', excluded, hash, e.groups[i]);
    } else {
      assert !InSomeGroup(e, k.path);
    }
  }

  lemma OthersKeepTheirState(s: State, s': State, excluded: set<DocKey>, e: Expected, other: string)
    requires s'.docs.Keys == s.docs.Keys
    requires forall k | k in s.docs :: s'.docs[k].hash == s.docs[k].hash && s'.docs[k].active == s.docs[k].active
    requires forall v: Vector | v.hash == other :: v in s'.vectors <==> v in s.vectors
    ensures NeedsEmbed(s', excluded, e, other) <==> NeedsEmbed(s, excluded, e, other)
  {
    FlagsUnchanged(s, s', excluded, e, other);
    assert forall fp :: HasVector(s', other, fp) <==> HasVector(s, other, fp);
  }

  /** Embedding a pending hash through one of its documents takes exactly that hash off the
      pending set, even when documents of several fingerprint groups share it; only a document
      that does not settle its hash leaves the set as it was. */
  lemma EmbedLowersPending(s: State, excluded: set<DocKey>, sizes: Sizes, e: Expected, k: DocKey)
    requires PlainGroups(e) && Counts(s, excluded, sizes, k)
    requires s.docs[k].hash in Pending(s, excluded, sizes, e)
    ensures var hash := s.docs[k].hash;
            var was, now := Pending(s, excluded, sizes, e), Pending(Embed(s, e, hash, k.path), excluded, sizes, e);
            if Settles(s, excluded, e, k) then now == was - {hash} && |now| == |was| - 1 else now == was
  {
    var hash := s.docs[k].hash;
    var s' := Embed(s, e, hash, k.path);
    CountsUnchanged(s, excluded, sizes, s'.docs, s'.vectors);
    EmbedSatisfiesExactly(s, excluded, e, k);
    forall h | h != hash
      ensures h in Pending(s', excluded, sizes, e) <==> h in Pending(s, excluded, sizes, e)
    {
      OthersKeepTheirState(s, s', excluded, e, h);
    }
  }

  // ── The aggregate query ────────────────────────────────────────────────────

  predicate AllIn(rows: seq<DocKey>, s: State) {
    forall k | k in rows :: k in s.docs
  }

  datatype Flags = Flags(groups: seq<bool>, allAst: bool)

  function RowFlags(e: Expected, path: string): Flags {
    Flags(seq(|e.groups|, i requires 0 <= i < |e.groups| => InGroup(e.groups[i], path)), InSomeGroup(e, path))
  }

  /** MAX of each group flag, MIN of the last. */
  function Merge(a: Flags, b: Flags): Flags
    requires |a.groups| == |b.groups|
  {
    Flags(seq(|a.groups|, i requires 0 <= i < |a.groups| => a.groups[i] || b.groups[i]), a.allAst && b.allAst)
  }

  /** `GROUP BY d.hash` over the rows in any order. */
  function GroupBy(s: State, rows: seq<DocKey>, e: Expected): (m: map<string, Flags>)
    requires AllIn(rows, s)
    ensures forall h | h in m :: |m[h].groups| == |e.groups|
  {
    if rows == [] then map[]
    else
      var before := GroupBy(s, rows[..|rows| - 1], e);
      var k := rows[|rows| - 1];
      var hash, flags := s.docs[k].hash, RowFlags(e, k.path);
      before[hash := if hash in before then Merge(before[hash], flags) else flags]
  }

  ghost predicate HasRow(s: State, rows: seq<DocKey>, hash: string)
    requires AllIn(rows, s)
  {
    exists k :: k in rows && s.docs[k].hash == hash
  }

  ghost predicate RowInGroup(s: State, rows: seq<DocKey>, hash: string, g: Group)
    requires AllIn(rows, s)
  {
    exists k :: k in rows && s.docs[k].hash == hash && InGroup(g, k.path)
  }

  /** The rows of one hash, as the aggregate must summarize them. */
  ghost predicate Summarizes(s: State, rows: seq<DocKey>, e: Expected, hash: string, flags: Flags)
    requires AllIn(rows, s)
  {
    && |flags.groups| == |e.groups|
    && (forall i | 0 <= i < |e.groups| :: flags.groups[i] <==> RowInGroup(s, rows, hash, e.groups[i]))
    && (flags.allAst <==> forall k | k in rows && s.docs[k].hash == hash :: InSomeGroup(e, k.path))
  }

  lemma {:induction false} GroupBySummarizes(s: State, rows: seq<DocKey>, e: Expected, hash: string)
    requires AllIn(rows, s)
    ensures hash in GroupBy(s, rows, e) <==> HasRow(s, rows, hash)
    ensures hash in GroupBy(s, rows, e) ==> Summarizes(s, rows, e, hash, GroupBy(s, rows, e)[hash])
  {
    if rows != [] {
      var init, last := rows[..|rows| - 1], rows[|rows| - 1];
      GroupBySummarizes(s, init, e, hash);
      assert rows == init + [last];
      OneMoreRow(s, init, last, e, hash);
      var before := GroupBy(s, init, e);
      if s.docs[last].hash == hash {
        if hash in before {
          MergeSummarizes(s, init, last, e, hash, before[hash]);
        } else {
          FirstSummarizes(s, init, last, e, hash);
        }
      } else if hash in before {
        OtherSummarizes(s, init, last, e, hash, before[hash]);
      }
    }
  }

  lemma MergeSummarizes(s: State, init: seq<DocKey>, last: DocKey, e: Expected, hash: string, flags: Flags)
    requires AllIn(init, s) && last in s.docs && s.docs[last].hash == hash
    requires Summarizes(s, init, e, hash, flags)
    ensures Summarizes(s, init + [last], e, hash, Merge(flags, RowFlags(e, last.path)))
  {
    OneMoreRow(s, init, last, e, hash);
    assert forall k :: k in init + [last] <==> k in init || k == last;
  }

  lemma FirstSummarizes(s: State, init: seq<DocKey>, last: DocKey, e: Expected, hash: string)
    requires AllIn(init, s) && last in s.docs && s.docs[last].hash == hash
    requires !HasRow(s, init, hash)
    ensures Summarizes(s, init + [last], e, hash, RowFlags(e, last.path))
  {
    OneMoreRow(s, init, last, e, hash);
    assert forall k :: k in init + [last] <==> k in init || k == last;
  }

  lemma OtherSummarizes(s: State, init: seq<DocKey>, last: DocKey, e: Expected, hash: string, flags: Flags)
    requires AllIn(init, s) && last in s.docs && s.docs[last].hash != hash
    requires Summarizes(s, init, e, hash, flags)
    ensures Summarizes(s, init + [last], e, hash, flags)
  {
    OneMoreRow(s, init, last, e, hash);
    assert forall k :: k in init + [last] <==> k in init || k == last;
  }

  lemma OneMoreRow(s: State, init: seq<DocKey>, last: DocKey, e: Expected, hash: string)
    requires AllIn(init, s) && last in s.docs
    ensures HasRow(s, init + [last], hash) <==> HasRow(s, init, hash) || s.docs[last].hash == hash
    ensures forall i | 0 <= i < |e.groups| ::
              RowInGroup(s, init + [last], hash, e.groups[i]) <==>
                RowInGroup(s, init, hash, e.groups[i])
                || (s.docs[last].hash == hash && InGroup(e.groups[i], last.path))
  {
    var rows := init + [last];
    assert forall k :: k in rows <==> k in init || k == last;
    if k :| k in init && s.docs[k].hash == hash {
      assert k in rows;
    }
    assert last in rows;
    forall i | 0 <= i < |e.groups|
      ensures RowInGroup(s, rows, hash, e.groups[i]) <==>
                RowInGroup(s, init, hash, e.groups[i]) || (s.docs[last].hash == hash && InGroup(e.groups[i], last.path))
    {
      if k :| k in init && s.docs[k].hash == hash && InGroup(e.groups[i], k.path) {
        assert k in rows;
      }
    }
  }

  /** Satisfied by a group's vector, or by a base vector when some row is in no group. */
  predicate SatisfiedBy(s: State, e: Expected, hash: string, flags: Flags)
    requires |flags.groups| == |e.groups|
  {
    || (exists i :: 0 <= i < |e.groups| && flags.groups[i] && HasVector(s, hash, e.groups[i].fingerprint))
    || (!flags.allAst && HasVector(s, hash, e.base))
  }

  /** `count_pending_hashes`: without groups, hashes that lack a base vector; with groups, the
      aggregated rows that are not satisfied. */
  function CountedPending(s: State, rows: seq<DocKey>, e: Expected): set<string>
    requires AllIn(rows, s)
  {
    if e.groups == [] then set k | k in rows && !HasVector(s, s.docs[k].hash, e.base) :: s.docs[k].hash
    else
      var grouped := GroupBy(s, rows, e);
      set h | h in grouped && !SatisfiedBy(s, e, h, grouped[h])
  }

  /** The aggregate counts exactly the hashes whose own check says they need embedding. */
  lemma AggregateIsPerHash(s: State, excluded: set<DocKey>, sizes: Sizes, e: Expected, rows: seq<DocKey>)
    requires AllIn(rows, s)
    requires forall k :: k in rows <==> Counts(s, excluded, sizes, k)
    ensures CountedPending(s, rows, e) == Pending(s, excluded, sizes, e)
  {
    forall h
      ensures h in CountedPending(s, rows, e) <==> h in Pending(s, excluded, sizes, e)
    {
      GroupBySummarizes(s, rows, e, h);
      RowsAreCounted(s, excluded, sizes, rows, h);
      if e.groups != [] && HasRow(s, rows, h) {
        FlagsOfRows(s, excluded, sizes, e, rows, h, GroupBy(s, rows, e)[h]);
      }
    }
  }

  lemma RowsAreCounted(s: State, excluded: set<DocKey>, sizes: Sizes, rows: seq<DocKey>, h: string)
    requires AllIn(rows, s)
    requires forall k :: k in rows <==> Counts(s, excluded, sizes, k)
    ensures HasRow(s, rows, h) <==> h in CountedHashes(s, excluded, sizes)
    ensures HasRow(s, rows, h) ==> sizes(h) > 0
  {
    if k :| k in rows && s.docs[k].hash == h {
      assert Counts(s, excluded, sizes, k);
    }
    if k :| k in s.docs && Counts(s, excluded, sizes, k) && s.docs[k].hash == h {
      assert k in rows;
    }
  }

  lemma FlagsOfRows(s: State, excluded: set<DocKey>, sizes: Sizes, e: Expected, rows: seq<DocKey>, h: string, flags: Flags)
    requires AllIn(rows, s) && sizes(h) > 0 && HasRow(s, rows, h)
    requires forall k :: k in rows <==> Counts(s, excluded, sizes, k)
    requires Summarizes(s, rows, e, h, flags)
    ensures forall i | 0 <= i < |e.groups| :: flags.groups[i] <==> Flag(s, excluded, h, e.groups[i])
    ensures flags.allAst <==> AllAst(s, excluded, h, e)
  {
    forall i | 0 <= i < |e.groups|
      ensures RowInGroup(s, rows, h, e.groups[i]) <==> Flag(s, excluded, h, e.groups[i])
    {
      FlagOfRows(s, excluded, sizes, rows, h, e.groups[i]);
    }
    AllAstOfRows(s, excluded, sizes, e, rows, h);
  }

  lemma FlagOfRows(s: State, excluded: set<DocKey>, sizes: Sizes, rows: seq<DocKey>, h: string, g: Group)
    requires AllIn(rows, s) && sizes(h) > 0
    requires forall k :: k in rows <==> Counts(s, excluded, sizes, k)
    ensures RowInGroup(s, rows, h, g) <==> Flag(s, excluded, h, g)
  {
    if k :| k in rows && s.docs[k].hash == h && InGroup(g, k.path) {
      assert Counts(s, excluded, sizes, k);
    }
    if k :| k in s.docs && Live(s, excluded, k) && s.docs[k].hash == h && InGroup(g, k.path) {
      assert Counts(s, excluded, sizes, k);
    }
  }

  lemma AllAstOfRows(s: State, excluded: set<DocKey>, sizes: Sizes, e: Expected, rows: seq<DocKey>, h: string)
    requires AllIn(rows, s) && sizes(h) > 0 && HasRow(s, rows, h)
    requires forall k :: k in rows <==> Counts(s, excluded, sizes, k)
    ensures (forall k | k in rows && s.docs[k].hash == h :: InSomeGroup(e, k.path)) <==> AllAst(s, excluded, h, e)
  {
    forall k | k in s.docs && s.docs[k].hash == h
      ensures k in rows <==> Live(s, excluded, k)
    {
      assert Counts(s, excluded, sizes, k) <==> Live(s, excluded, k);
    }
    var k :| k in rows && s.docs[k].hash == h;
    assert Live(s, excluded, k);
  }
}
