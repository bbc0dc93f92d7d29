/** Which phrases the bigrams find (cjk_tokenizer.rs). */
module CjkSearch {
  // A query becomes the bigrams of its runs like any text; a phrase query asks for them at
  // consecutive positions of a document's stream.
  import opened CjkBigrams

  function Texts(tokens: seq<Token>): seq<string> {
    seq(|tokens|, i requires 0 <= i < |tokens| => tokens[i].text)
  }

  /** The overlapping pairs of a text. */
  function Pairs(s: string): seq<string> {
    if |s| < 2 then [] else seq(|s| - 1, k requires 0 <= k < |s| - 1 => [s[k], s[k + 1]])
  }

  /** A run that is split into pairs. */
  predicate Long(run: string) {
    |run| >= 2 && AllCjk(run)
  }

  function RunTexts(run: string): seq<string> {
    if Long(run) then Pairs(run) else [run]
  }

  /** The maximal runs of a word from `start` on. */
  function RunsFrom(s: string, start: nat): seq<string>
    requires start <= |s|
    decreases |s| - start
  {
    if start == |s| then [] else [s[start..RunEnd(s, start)]] + RunsFrom(s, RunEnd(s, start))
  }

  function Runs(word: string): seq<string> {
    if NoCjk(word) then [word] else RunsFrom(word, 0)
  }

  function AllRuns(words: seq<string>): seq<string> {
    if words == [] then [] else Runs(words[0]) + AllRuns(words[1..])
  }

  function Blocks(runs: seq<string>): seq<seq<string>> {
    seq(|runs|, i requires 0 <= i < |runs| => RunTexts(runs[i]))
  }

  function Flat(blocks: seq<seq<string>>): seq<string> {
    if blocks == [] then [] else blocks[0] + Flat(blocks[1..])
  }

  /** The tokens of the runs, run by run. */
  function AllTexts(runs: seq<string>): seq<string> {
    Flat(Blocks(runs))
  }

  // ── What the stream holds ──────────────────────────────────────────────────

  lemma TextsConcat(a: seq<Token>, b: seq<Token>)
    ensures Texts(a + b) == Texts(a) + Texts(b)
  {
  }

  lemma FlatHead(block: seq<string>, rest: seq<seq<string>>)
    ensures Flat([block] + rest) == block + Flat(rest)
  {
    assert ([block] + rest)[1..] == rest;
  }

  lemma {:induction false} FlatConcat(a: seq<seq<string>>, b: seq<seq<string>>)
    ensures Flat(a + b) == Flat(a) + Flat(b)
  {
    if a == [] {
      assert a + b == b;
    } else {
      var first, rest := a[0], a[1..];
      assert a == [first] + rest && a + b == [first] + (rest + b);
      FlatHead(first, rest);
      FlatHead(first, rest + b);
      FlatConcat(rest, b);
      Regroup(first, Flat(rest), Flat(b));
    }
  }

  lemma Regroup(a: seq<string>, b: seq<string>, c: seq<string>)
    ensures (a + b) + c == a + (b + c)
  {
  }

  lemma AllTextsConcat(a: seq<string>, b: seq<string>)
    ensures AllTexts(a + b) == AllTexts(a) + AllTexts(b)
  {
    assert Blocks(a + b) == Blocks(a) + Blocks(b);
    FlatConcat(Blocks(a), Blocks(b));
  }

  lemma NoTexts()
    ensures AllTexts([]) == []
  {
  }

  lemma HeadTexts(run: string, rest: seq<string>)
    ensures AllTexts([run] + rest) == RunTexts(run) + AllTexts(rest)
  {
    var blocks := Blocks([run] + rest);
    assert blocks[0] == RunTexts(run) && blocks[1..] == Blocks(rest);
  }

  lemma BigramText(t: Token, start: nat, end: nat, k: nat)
    requires start < end <= |t.text| && k < end - start - 1
    ensures Bigrams(t, start, end)[k].text == [t.text[start + k], t.text[start + k + 1]]
  {
    assert Bigrams(t, start, end)[k] == Piece(t, start + k, start + k + 2);
  }

  lemma BigramTexts(t: Token, start: nat, end: nat)
    requires start + 2 <= end <= |t.text|
    ensures Texts(Bigrams(t, start, end)) == Pairs(t.text[start..end])
  {
    var texts, pairs := Texts(Bigrams(t, start, end)), Pairs(t.text[start..end]);
    forall k | 0 <= k < |texts|
      ensures texts[k] == pairs[k]
    {
      BigramText(t, start, end, k);
    }
  }

  lemma RunIsLong(s: string, start: nat)
    requires start < |s|
    ensures var end := RunEnd(s, start);
            Long(s[start..end]) <==> IsCjk(s[start]) && end - start > 1
  {
    RunIsMaximal(s, start);
    var run := s[start..RunEnd(s, start)];
    assert run[0] == s[start] && run[0] in run;
  }

  lemma RunTextsAre(t: Token, start: nat)
    requires start < |t.text|
    ensures var end := RunEnd(t.text, start);
            Texts(RunPieces(t, start, end)) == RunTexts(t.text[start..end])
  {
    RunIsLong(t.text, start);
    var end := RunEnd(t.text, start);
    if IsCjk(t.text[start]) && end - start > 1 {
      BigramTexts(t, start, end);
    }
  }

  lemma {:induction false} TextsFromAre(t: Token, start: nat)
    requires start <= |t.text|
    ensures Texts(PiecesFrom(t, start)) == AllTexts(RunsFrom(t.text, start))
    decreases |t.text| - start
  {
    if start < |t.text| {
      var end := RunEnd(t.text, start);
      RunTextsAre(t, start);
      TextsFromAre(t, end);
      TextsConcat(RunPieces(t, start, end), PiecesFrom(t, end));
      HeadTexts(t.text[start..end], RunsFrom(t.text, end));
    }
  }

  lemma PiecesAre(t: Token)
    ensures Texts(Pieces(t)) == AllTexts(Runs(t.text))
  {
    if NoCjk(t.text) {
      NotLong(t.text);
      HeadTexts(t.text, []);
      assert [t.text] + [] == [t.text];
    } else {
      TextsFromAre(t, 0);
    }
  }

  lemma NotLong(s: string)
    requires NoCjk(s)
    ensures !Long(s)
  {
    if s != [] {
      assert s[0] in s;
    }
  }

  lemma {:induction false} SplitTextsAre(inner: seq<Token>)
    ensures Texts(SplitAll(inner)) == AllTexts(AllRuns(Texts(inner)))
  {
    if inner != [] {
      PiecesAre(inner[0]);
      SplitTextsAre(inner[1..]);
      TextsConcat(Pieces(inner[0]), SplitAll(inner[1..]));
      assert Texts(inner)[1..] == Texts(inner[1..]);
      AllTextsConcat(Runs(inner[0].text), AllRuns(Texts(inner[1..])));
    }
  }

  /** What is indexed depends only on the runs of the words. */
  lemma StreamTexts(inner: seq<Token>)
    ensures Texts(Stream(inner)) == AllTexts(AllRuns(Texts(inner)))
  {
    SplitTextsAre(inner);
    assert Texts(Stream(inner)) == Texts(SplitAll(inner));
  }

  /** A query of CJK characters is one run. */
  lemma QueryRuns(q: string)
    requires q != [] && AllCjk(q)
    ensures AllRuns([q]) == [q] && AllTexts([q]) == RunTexts(q)
  {
    assert forall k | 0 <= k < |q| :: q[k] in q;
    RunEndsHere(q, 0, |q|);
    assert q[0..|q|] == q && RunsFrom(q, |q|) == [];
    assert Runs(q) == [q] + [];
    assert AllRuns([q]) == Runs(q) + AllRuns([]);
    HeadTexts(q, []);
    assert [q] + [] == [q];
  }

  // ── Standing and occurring ─────────────────────────────────────────────────

  /** `x` stands in `s` from position `at`. */
  predicate StandsAt<T(==)>(x: seq<T>, s: seq<T>, at: int) {
    0 <= at && at + |x| <= |s| && s[at..at + |x|] == x
  }

  ghost predicate Stands<T>(x: seq<T>, s: seq<T>) {
    exists at :: StandsAt(x, s, at)
  }

  predicate SameAt<T(==)>(x: seq<T>, s: seq<T>, at: nat, k: nat) {
    k < |x| && at + k < |s| && s[at + k] == x[k]
  }

  lemma ElementAt<T>(x: seq<T>, s: seq<T>, at: int, k: nat)
    requires StandsAt(x, s, at) && k < |x|
    ensures SameAt(x, s, at, k)
  {
    assert s[at..at + |x|][k] == s[at + k];
  }

  lemma StandsByElements<T>(x: seq<T>, s: seq<T>, at: nat)
    requires at + |x| <= |s| && forall k | 0 <= k < |x| :: SameAt(x, s, at, k)
    ensures StandsAt(x, s, at)
  {
    var slice := s[at..at + |x|];
    forall k | 0 <= k < |x|
      ensures slice[k] == x[k]
    {
      assert SameAt(x, s, at, k);
    }
  }

  lemma StandsInFirst<T>(x: seq<T>, a: seq<T>, b: seq<T>, at: int)
    requires at + |x| <= |a|
    ensures StandsAt(x, a + b, at) <==> StandsAt(x, a, at)
  {
    if 0 <= at {
      assert (a + b)[at..at + |x|] == a[at..at + |x|];
    }
  }

  lemma StandsInSecond<T>(x: seq<T>, a: seq<T>, b: seq<T>, at: int)
    requires at >= |a|
    ensures StandsAt(x, a + b, at) <==> StandsAt(x, b, at - |a|)
  {
    if at + |x| <= |a + b| {
      assert (a + b)[at..at + |x|] == b[at - |a|..at - |a| + |x|];
    }
  }

  lemma PairStands(run: string, q: string, at: nat, k: nat)
    requires k + 1 < |q| && StandsAt(q, run, at)
    ensures SameAt(Pairs(q), Pairs(run), at, k)
  {
    ElementAt(q, run, at, k);
    ElementAt(q, run, at, k + 1);
    PairIs(q, k);
    PairIs(run, at + k);
  }

  lemma OccurrenceStands(run: string, q: string, at: nat)
    requires |run| >= 2 && |q| >= 2 && StandsAt(q, run, at)
    ensures StandsAt(Pairs(q), Pairs(run), at)
  {
    forall k | 0 <= k < |Pairs(q)|
      ensures SameAt(Pairs(q), Pairs(run), at, k)
    {
      PairStands(run, q, at, k);
    }
    StandsByElements(Pairs(q), Pairs(run), at);
  }

  lemma PairsDetermine(run: string, q: string, at: nat)
    requires |run| >= 2 && |q| >= 2 && StandsAt(Pairs(q), Pairs(run), at)
    ensures StandsAt(q, run, at)
  {
    forall k | 0 <= k < |q|
      ensures SameAt(q, run, at, k)
    {
      var i := if k < |q| - 1 then k else k - 1;
      ElementAt(Pairs(q), Pairs(run), at, i);
      PairsAgree(run, at + i, q, i);
    }
    StandsByElements(q, run, at);
  }

  lemma PairsAgree(s: string, i: nat, q: string, k: nat)
    requires i + 1 < |s| && k + 1 < |q| && Pairs(s)[i] == Pairs(q)[k]
    ensures s[i] == q[k] && s[i + 1] == q[k + 1]
  {
    assert Pairs(s)[i][0] == s[i] && Pairs(s)[i][1] == s[i + 1];
    assert Pairs(q)[k][0] == q[k] && Pairs(q)[k][1] == q[k + 1];
  }

  // ── Exactly where a query stands ───────────────────────────────────────────

  /** The position of the first token of run `i`. */
  function BlockStart(runs: seq<string>, i: nat): nat
    requires i <= |runs|
  {
    |AllTexts(runs[..i])|
  }

  lemma TextsAt(runs: seq<string>, i: nat)
    requires i < |runs|
    ensures AllTexts(runs) == AllTexts(runs[..i]) + (RunTexts(runs[i]) + AllTexts(runs[i + 1..]))
  {
    var later := runs[i + 1..];
    assert runs == runs[..i] + ([runs[i]] + later);
    AllTextsConcat(runs[..i], [runs[i]] + later);
    HeadTexts(runs[i], later);
  }

  lemma BlockFollows(runs: seq<string>, i: nat)
    requires i < |runs|
    ensures BlockStart(runs, i + 1) == BlockStart(runs, i) + |RunTexts(runs[i])|
  {
    var next := i + 1;
    assert runs[..next] == runs[..i] + ([runs[i]] + []);
    AllTextsConcat(runs[..i], [runs[i]] + []);
    HeadTexts(runs[i], []);
    NoTexts();
  }

  lemma {:induction false} BlocksAscend(runs: seq<string>, i: nat, j: nat)
    requires i <= j <= |runs|
    ensures BlockStart(runs, i) <= BlockStart(runs, j)
    decreases j
  {
    if i < j {
      BlockFollows(runs, j - 1);
      BlocksAscend(runs, i, j - 1);
    }
  }

  /** The run whose tokens hold position `at`. */
  lemma {:induction false} RunAt(runs: seq<string>, at: nat, n: nat) returns (i: nat)
    requires n <= |runs| && at < BlockStart(runs, n)
    ensures i < n && BlockStart(runs, i) <= at < BlockStart(runs, i) + |RunTexts(runs[i])|
    decreases n
  {
    if n == 0 {
      NoTexts();
    } else {
      BlockFollows(runs, n - 1);
      if at < BlockStart(runs, n - 1) {
        i := RunAt(runs, at, n - 1);
      } else {
        i := n - 1;
      }
    }
  }

  /** The query occurs in run `i`, and `at` is the position of its first pair there. */
  ghost predicate WithinRun(runs: seq<string>, q: string, at: int, i: nat) {
    i < |runs| && Long(runs[i]) && StandsAt(q, runs[i], at - BlockStart(runs, i))
  }

  ghost predicate Within(runs: seq<string>, q: string, at: int) {
    exists i: nat :: WithinRun(runs, q, at, i)
  }

  /** The second run begins with the character the first one ends with. */
  predicate Agree(a: string, b: string) {
    Long(a) && Long(b) && a[|a| - 1] == b[0]
  }

  predicate AgreeAt(runs: seq<string>, i: nat) {
    i + 1 < |runs| && Agree(runs[i], runs[i + 1])
  }

  ghost predicate Apart(runs: seq<string>) {
    forall i: nat :: !AgreeAt(runs, i)
  }

  lemma ApartTail(runs: seq<string>)
    requires runs != []
    ensures Apart(runs) <==> !AgreeAt(runs, 0) && Apart(runs[1..])
  {
    forall i: nat
      ensures AgreeAt(runs[1..], i) <==> AgreeAt(runs, i + 1)
    {
    }
    assert forall i: nat | i > 0 && AgreeAt(runs, i) :: AgreeAt(runs[1..], i - 1);
  }

  lemma PairIs(s: string, k: nat)
    requires k < |Pairs(s)|
    ensures k + 1 < |s| && Pairs(s)[k] == [s[k], s[k + 1]]
  {
  }

  lemma PairIsLong(q: string, j: nat)
    requires Long(q) && j < |Pairs(q)|
    ensures Long(Pairs(q)[j])
  {
    assert q[j] in q && q[j + 1] in q;
  }

  lemma PairsOfRun(run: string, k: nat, x: string)
    requires k < |RunTexts(run)| && RunTexts(run)[k] == x && Long(x)
    ensures Long(run) && RunTexts(run) == Pairs(run)
  {
  }

  /** A pair of CJK characters among the tokens comes from a long run. */
  lemma PairIsOfLong(run: string, k: nat, q: string, j: nat)
    requires Long(q) && j < |Pairs(q)| && k < |RunTexts(run)| && RunTexts(run)[k] == Pairs(q)[j]
    ensures Long(run) && k + 1 < |run| && run[k] == q[j] && run[k + 1] == q[j + 1]
  {
    PairIsLong(q, j);
    PairsOfRun(run, k, Pairs(q)[j]);
    PairIs(run, k);
    PairIs(q, j);
    PairsAgree(run, k, q, j);
  }

  lemma TextsAreNotEmpty(run: string)
    ensures |RunTexts(run)| > 0
  {
  }

  /** `x` within the middle of three parts. */
  lemma StandsInMiddle(x: seq<string>, a: seq<string>, b: seq<string>, c: seq<string>, at: int)
    requires |a| <= at && at + |x| <= |a| + |b|
    ensures StandsAt(x, a + (b + c), at) <==> StandsAt(x, b, at - |a|)
  {
    StandsInSecond(x, a, b + c, at);
    StandsInFirst(x, b, c, at - |a|);
  }

  lemma TokenOfBlock(runs: seq<string>, i: nat, k: nat)
    requires i < |runs| && k < |RunTexts(runs[i])|
    ensures BlockStart(runs, i) + k < |AllTexts(runs)|
    ensures AllTexts(runs)[BlockStart(runs, i) + k] == RunTexts(runs[i])[k]
  {
    TextsAt(runs, i);
    MiddleToken(AllTexts(runs[..i]), RunTexts(runs[i]), AllTexts(runs[i + 1..]), k);
  }

  lemma MiddleToken(a: seq<string>, b: seq<string>, c: seq<string>, k: nat)
    requires k < |b|
    ensures (a + (b + c))[|a| + k] == b[k]
  {
  }

  /** Where a pair of the query stands, a run has it. */
  lemma PairInRun(runs: seq<string>, q: string, at: nat, i: nat, k: nat, j: nat)
    requires Long(q) && StandsAt(Pairs(q), AllTexts(runs), at) && j < |Pairs(q)|
    requires i < |runs| && k < |RunTexts(runs[i])| && BlockStart(runs, i) + k == at + j
    ensures Long(runs[i]) && k + 1 < |runs[i]| && runs[i][k] == q[j] && runs[i][k + 1] == q[j + 1]
  {
    ElementAt(Pairs(q), AllTexts(runs), at, j);
    TokenOfBlock(runs, i, k);
    PairIsOfLong(runs[i], k, q, j);
  }

  /** A query whose pairs go on past the end of a run needs the next run to agree. */
  lemma CrossingAgrees(runs: seq<string>, q: string, at: nat, i: nat)
    requires Long(q) && StandsAt(Pairs(q), AllTexts(runs), at)
    requires i < |runs| && BlockStart(runs, i) <= at < BlockStart(runs, i) + |RunTexts(runs[i])| < at + |Pairs(q)|
    ensures AgreeAt(runs, i)
  {
    var next, last := i + 1, |RunTexts(runs[i])| - 1;
    var k := BlockStart(runs, i) + last - at;
    PairInRun(runs, q, at, i, last, k);
    BlockFollows(runs, i);
    HasNext(runs, i);
    TextsAreNotEmpty(runs[next]);
    PairInRun(runs, q, at, next, 0, k + 1);
  }

  lemma HasNext(runs: seq<string>, i: nat)
    requires i < |runs| && BlockStart(runs, i + 1) < |AllTexts(runs)|
    ensures i + 1 < |runs|
  {
    assert runs[..|runs|] == runs;
  }

  lemma WithinByPairs(runs: seq<string>, q: string, at: nat, i: nat)
    requires i < |runs| && Long(q) && StandsAt(Pairs(q), RunTexts(runs[i]), at - BlockStart(runs, i))
    ensures WithinRun(runs, q, at, i)
  {
    var from := at - BlockStart(runs, i);
    ElementAt(Pairs(q), RunTexts(runs[i]), from, 0);
    PairIsOfLong(runs[i], from, q, 0);
    PairsDetermine(runs[i], q, from);
  }

  lemma StandsWithin(runs: seq<string>, q: string, at: int)
    requires Apart(runs) && Long(q) && StandsAt(Pairs(q), AllTexts(runs), at)
    ensures Within(runs, q, at)
  {
    assert runs[..|runs|] == runs;
    var i := RunAt(runs, at, |runs|);
    if BlockStart(runs, i) + |RunTexts(runs[i])| < at + |Pairs(q)| {
      CrossingAgrees(runs, q, at, i);
    } else {
      TextsAt(runs, i);
      StandsInMiddle(Pairs(q), AllTexts(runs[..i]), RunTexts(runs[i]), AllTexts(runs[i + 1..]), at);
      WithinByPairs(runs, q, at, i);
    }
  }

  lemma WithinStands(runs: seq<string>, q: string, at: int, i: nat)
    requires Long(q) && WithinRun(runs, q, at, i)
    ensures StandsAt(Pairs(q), AllTexts(runs), at)
  {
    OccurrenceStands(runs[i], q, at - BlockStart(runs, i));
    TextsAt(runs, i);
    StandsInMiddle(Pairs(q), AllTexts(runs[..i]), RunTexts(runs[i]), AllTexts(runs[i + 1..]), at);
  }

  /** The last two characters of a run and the second of the next. */
  function Across(a: string, b: string): string
    requires Agree(a, b)
  {
    [a[|a| - 2], a[|a| - 1], b[1]]
  }

  lemma AcrossPairs(a: string, b: string)
    requires Agree(a, b)
    ensures Long(Across(a, b)) && Pairs(Across(a, b)) == [Pairs(a)[|a| - 2], Pairs(b)[0]]
  {
    assert a[|a| - 2] in a && a[|a| - 1] in a && b[1] in b;
  }

  lemma AcrossStands(runs: seq<string>, i: nat)
    requires AgreeAt(runs, i)
    ensures StandsAt(Pairs(Across(runs[i], runs[i + 1])), AllTexts(runs), BlockStart(runs, i) + |runs[i]| - 2)
  {
    var next := i + 1;
    var last := |runs[i]| - 2;
    AcrossPairs(runs[i], runs[next]);
    TokenOfBlock(runs, i, last);
    TokenOfBlock(runs, next, 0);
    BlockFollows(runs, i);
    var at := BlockStart(runs, i) + last;
    assert AllTexts(runs)[at..at + 2] == [AllTexts(runs)[at], AllTexts(runs)[at + 1]];
  }

  lemma AcrossOutside(runs: seq<string>, i: nat, j: nat)
    requires AgreeAt(runs, i)
    ensures !WithinRun(runs, Across(runs[i], runs[i + 1]), BlockStart(runs, i) + |runs[i]| - 2, j)
  {
    if j < i {
      BlockFollows(runs, j);
      BlocksAscend(runs, j + 1, i);
    } else if i < j < |runs| {
      BlockFollows(runs, i);
      BlocksAscend(runs, i + 1, j);
    }
  }

  /** Three characters across two runs that agree stand where they occur in neither. */
  lemma AgreeingRunsMislead(runs: seq<string>, i: nat) returns (q: string, at: int)
    requires AgreeAt(runs, i)
    ensures Long(q) && StandsAt(Pairs(q), AllTexts(runs), at) && !Within(runs, q, at)
  {
    q := Across(runs[i], runs[i + 1]);
    at := BlockStart(runs, i) + |runs[i]| - 2;
    AcrossPairs(runs[i], runs[i + 1]);
    AcrossStands(runs, i);
    forall j: nat
      ensures !WithinRun(runs, q, at, j)
    {
      AcrossOutside(runs, i, j);
    }
  }

  /** Search is exact, position by position, for every query of two or more CJK characters if and
      only if no two neighbouring runs agree in last and first character. */
  lemma SearchIsExactIff(runs: seq<string>)
    ensures Apart(runs) <==>
              forall q, at | Long(q) :: StandsAt(Pairs(q), AllTexts(runs), at) <==> Within(runs, q, at)
  {
    forall q, at | Long(q) && Within(runs, q, at)
      ensures StandsAt(Pairs(q), AllTexts(runs), at)
    {
      var i: nat :| WithinRun(runs, q, at, i);
      WithinStands(runs, q, at, i);
    }
    if Apart(runs) {
      forall q, at | Long(q) && StandsAt(Pairs(q), AllTexts(runs), at)
        ensures Within(runs, q, at)
      {
        StandsWithin(runs, q, at);
      }
    } else {
      var i: nat :| AgreeAt(runs, i);
      var q, at := AgreeingRunsMislead(runs, i);
    }
  }

  // ── Gluing runs that agree ─────────────────────────────────────────────────

  /** Neighbouring runs that agree joined at the character they share, as far as that goes. */
  function Glued(runs: seq<string>): (glued: seq<string>)
    ensures runs != [] ==> glued != []
  {
    if runs == [] then []
    else
      var rest := Glued(runs[1..]);
      if rest != [] && Agree(runs[0], rest[0]) then [runs[0] + rest[0][1..]] + rest[1..] else [runs[0]] + rest
  }

  lemma PairsOfGlued(a: string, b: string, k: nat)
    requires Agree(a, b) && k + 1 < |a + b[1..]|
    ensures [(a + b[1..])[k], (a + b[1..])[k + 1]] == (Pairs(a) + Pairs(b))[k]
  {
    if k >= |a| - 1 {
      var j := k - (|a| - 1);
      assert (a + b[1..])[k] == b[j] && (a + b[1..])[k + 1] == b[j + 1];
    }
  }

  lemma GluedIsLong(a: string, b: string)
    requires Agree(a, b)
    ensures Long(a + b[1..])
  {
    var whole := a + b[1..];
    forall c | c in whole
      ensures IsCjk(c)
    {
      assert c in a || c in b;
    }
  }

  /** Runs that agree have the tokens of one longer run. */
  lemma GluedRunTexts(a: string, b: string)
    requires Agree(a, b)
    ensures Long(a + b[1..]) && RunTexts(a + b[1..]) == RunTexts(a) + RunTexts(b)
  {
    GluedIsLong(a, b);
    var pairs, both := Pairs(a + b[1..]), Pairs(a) + Pairs(b);
    forall k | 0 <= k < |pairs|
      ensures pairs[k] == both[k]
    {
      PairsOfGlued(a, b, k);
    }
  }

  lemma {:induction false} GluedTexts(runs: seq<string>)
    ensures AllTexts(Glued(runs)) == AllTexts(runs)
  {
    if runs != [] {
      var rest := Glued(runs[1..]);
      GluedTexts(runs[1..]);
      assert runs == [runs[0]] + runs[1..];
      HeadTexts(runs[0], runs[1..]);
      if rest != [] && Agree(runs[0], rest[0]) {
        GluedRunTexts(runs[0], rest[0]);
        HeadTexts(runs[0] + rest[0][1..], rest[1..]);
        assert rest == [rest[0]] + rest[1..];
        HeadTexts(rest[0], rest[1..]);
        Regroup(RunTexts(runs[0]), RunTexts(rest[0]), AllTexts(rest[1..]));
      } else {
        HeadTexts(runs[0], rest);
      }
    }
  }

  lemma HeadAgrees(a: string, rest: seq<string>)
    ensures AgreeAt([a] + rest, 0) <==> rest != [] && Agree(a, rest[0])
  {
  }

  /** Gluing onto the first run keeps its end. */
  lemma GluedHeadApart(a: string, rest: seq<string>)
    requires rest != [] && Agree(a, rest[0])
    ensures AgreeAt([a + rest[0][1..]] + rest[1..], 0) <==> AgreeAt(rest, 0)
  {
    GluedIsLong(a, rest[0]);
    var whole := a + rest[0][1..];
    assert whole[|whole| - 1] == rest[0][|rest[0]| - 1];
  }

  lemma {:induction false} GluedIsApart(runs: seq<string>)
    ensures Apart(Glued(runs))
  {
    if runs != [] {
      var rest, glued := Glued(runs[1..]), Glued(runs);
      GluedIsApart(runs[1..]);
      if rest != [] && Agree(runs[0], rest[0]) {
        ApartTail(rest);
        assert glued[1..] == rest[1..];
        GluedHeadApart(runs[0], rest);
      } else {
        assert glued[1..] == rest;
        HeadAgrees(runs[0], rest);
      }
      ApartTail(glued);
    }
  }

  /** In any stream a query of two or more CJK characters is found if and only if it occurs in a
      run or in a gluing of consecutive runs that agree. */
  lemma PhraseIsFoundIff(inner: seq<Token>, q: Token)
    requires Long(q.text)
    ensures Stands(Texts(Stream([q])), Texts(Stream(inner))) <==>
              exists run :: run in Glued(AllRuns(Texts(inner))) && Long(run) && Stands(q.text, run)
  {
    var glued := Glued(AllRuns(Texts(inner)));
    QueryTexts(q);
    StreamTexts(inner);
    GluedTexts(AllRuns(Texts(inner)));
    GluedIsApart(AllRuns(Texts(inner)));
    FoundInApart(glued, q.text);
  }

  lemma QueryTexts(q: Token)
    requires q.text != [] && AllCjk(q.text)
    ensures Texts(Stream([q])) == RunTexts(q.text)
  {
    StreamTexts([q]);
    assert Texts([q]) == [q.text];
    QueryRuns(q.text);
  }

  lemma FoundInApart(runs: seq<string>, q: string)
    requires Long(q) && Apart(runs)
    ensures Stands(Pairs(q), AllTexts(runs)) <==> exists run :: run in runs && Long(run) && Stands(q, run)
  {
    if at :| StandsAt(Pairs(q), AllTexts(runs), at) {
      StandsWithin(runs, q, at);
      var i: nat :| WithinRun(runs, q, at, i);
      assert runs[i] in runs && Stands(q, runs[i]);
    }
    if run :| run in runs && Long(run) && Stands(q, run) {
      FoundInRun(runs, q, run);
    }
  }

  lemma FoundInRun(runs: seq<string>, q: string, run: string)
    requires Long(q) && run in runs && Long(run) && Stands(q, run)
    ensures Stands(Pairs(q), AllTexts(runs))
  {
    var i: nat :| i < |runs| && runs[i] == run;
    var at :| StandsAt(q, run, at);
    assert WithinRun(runs, q, BlockStart(runs, i) + at, i);
    WithinStands(runs, q, BlockStart(runs, i) + at, i);
  }

  /** Two words that agree are indexed like one longer word, which occurs in neither. */
  lemma TwoWordsLookLikeOne(a: Token, b: Token, one: Token)
    requires Agree(a.text, b.text) && one.text == a.text + b.text[1..]
    ensures Texts(Stream([a, b])) == Texts(Stream([one])) && !Stands(one.text, a.text) && !Stands(one.text, b.text)
  {
    GluedRunTexts(a.text, b.text);
    QueryTexts(one);
    QueryRuns(a.text);
    QueryRuns(b.text);
    StreamTexts([a, b]);
    assert Texts([a, b]) == [a.text, b.text] && AllRuns([b.text]) == [b.text];
    assert AllRuns([a.text, b.text]) == Runs(a.text) + AllRuns([b.text]);
    assert Runs(a.text) == Runs(a.text) + AllRuns([]);
    assert AllRuns([a.text, b.text]) == [a.text] + [b.text];
    AllTextsConcat([a.text], [b.text]);
  }

  // ── Substrings are found ───────────────────────────────────────────────────

  lemma CjkStands(q: string, s: string, at: nat, p: nat)
    requires AllCjk(q) && StandsAt(q, s, at) && at <= p < at + |q|
    ensures IsCjk(s[p])
  {
    ElementAt(q, s, at, p - at);
    assert q[p - at] in q;
  }

  lemma OccurrenceIsInRun(s: string, start: nat, q: string, at: nat)
    requires start <= at < |s| && at < RunEnd(s, start) && Long(q) && StandsAt(q, s, at)
    ensures IsCjk(s[start]) && at + |q| <= RunEnd(s, start)
  {
    var end := RunEnd(s, start);
    RunIsMaximal(s, start);
    CjkStands(q, s, at, at);
    if end < at + |q| {
      CjkStands(q, s, at, end);
    }
  }

  lemma OccursInRun(s: string, start: nat, q: string, at: nat)
    requires Long(q) && StandsAt(q, s, at) && start <= at < RunEnd(s, start)
    ensures var run := s[start..RunEnd(s, start)];
            Long(run) && Stands(q, run)
  {
    OccurrenceIsInRun(s, start, q, at);
    RunIsLong(s, start);
    var run, from := s[start..RunEnd(s, start)], at - start;
    assert run[from..from + |q|] == s[at..at + |q|];
    assert StandsAt(q, run, from);
  }

  lemma {:induction false} OccursInSomeRun(s: string, start: nat, q: string, at: nat) returns (run: string)
    requires start <= at && Long(q) && StandsAt(q, s, at)
    ensures run in RunsFrom(s, start) && Long(run) && Stands(q, run)
    decreases |s| - start
  {
    var end := RunEnd(s, start);
    if at < end {
      OccursInRun(s, start, q, at);
      run := s[start..end];
    } else {
      run := OccursInSomeRun(s, end, q, at);
    }
  }

  lemma {:induction false} RunOfWord(words: seq<string>, i: nat, run: string)
    requires i < |words| && run in Runs(words[i])
    ensures run in AllRuns(words)
  {
    if i > 0 {
      assert words[1..][i - 1] == words[i];
      RunOfWord(words[1..], i - 1, run);
    }
  }

  /** Whatever text surrounds it, a CJK substring of two or more characters of any inner token
      is found: the tokens of the query stand at consecutive positions of the stream. */
  lemma SubstringIsFound(inner: seq<Token>, i: nat, q: Token, at: nat)
    requires i < |inner| && Long(q.text) && StandsAt(q.text, inner[i].text, at)
    ensures Stands(Texts(Stream([q])), Texts(Stream(inner)))
  {
    var s := inner[i].text;
    ElementAt(q.text, s, at, 0);
    assert q.text[0] in q.text && s[at] in s;
    var run := OccursInSomeRun(s, 0, q.text, at);
    RunOfWord(Texts(inner), i, run);
    FoundInRun(AllRuns(Texts(inner)), q.text, run);
    QueryTexts(q);
    StreamTexts(inner);
  }

  /** In any stream a single CJK character is found if and only if it is a run of its own. */
  lemma SingleCharacterIsFoundIff(inner: seq<Token>, q: Token)
    requires |q.text| == 1 && AllCjk(q.text)
    ensures Stands(Texts(Stream([q])), Texts(Stream(inner))) <==> q.text in AllRuns(Texts(inner))
  {
    QueryTexts(q);
    StreamTexts(inner);
    var texts := AllTexts(AllRuns(Texts(inner)));
    SingleIsRun(AllRuns(Texts(inner)), q.text);
    OneTokenStands(q.text, texts);
  }

  lemma OneTokenStands(x: string, texts: seq<string>)
    ensures Stands([x], texts) <==> x in texts
  {
    if x in texts {
      var at :| 0 <= at < |texts| && texts[at] == x;
      assert texts[at..at + 1] == [x];
      assert StandsAt([x], texts, at);
    }
    if at :| StandsAt([x], texts, at) {
      ElementAt([x], texts, at, 0);
    }
  }

  lemma SingleOfRun(run: string, s: string)
    requires |s| == 1
    ensures s in RunTexts(run) <==> s == run
  {
    assert forall x | x in Pairs(run) :: |x| == 2;
  }

  lemma {:induction false} SingleIsRun(runs: seq<string>, s: string)
    requires |s| == 1
    ensures s in AllTexts(runs) <==> s in runs
  {
    if runs != [] {
      SingleIsRun(runs[1..], s);
      assert runs == [runs[0]] + runs[1..];
      HeadTexts(runs[0], runs[1..]);
      SingleOfRun(runs[0], s);
      assert s in runs <==> s == runs[0] || s in runs[1..];
    }
  }
}
