/** The tokenizer for CJK text (cjk_tokenizer.rs). */
module CjkBigrams {
  // Runs of CJK characters become overlapping bigrams, which makes them searchable by substring.
  // Offsets count UTF-8 bytes.

  /** UTF-8 length of a character. */
  function Width(c: char): nat {
    if c as int < 0x80 then 1 else if c as int < 0x800 then 2 else if c as int < 0x1_0000 then 3 else 4
  }

  const CJK_RANGES := [(0x3040, 0x30FF), (0x3400, 0x4DBF), (0x4E00, 0x9FFF), (0xAC00, 0xD7AF), (0xF900, 0xFAFF),
                       (0xFF66, 0xFF9F)]

  predicate InRanges(u: int, ranges: seq<(int, int)>) {
    ranges != [] && (ranges[0].0 <= u <= ranges[0].1 || InRanges(u, ranges[1..]))
  }

  predicate IsCjk(c: char) {
    InRanges(c as int, CJK_RANGES)
  }

  /** Byte offset of the i-th character. */
  function Offset(s: string, i: nat): nat
    requires i <= |s|
  {
    if i == 0 then 0 else Offset(s, i - 1) + Width(s[i - 1])
  }

  /** The character that starts at a byte offset. */
  function IndexAt(s: string, at: int): (i: nat)
    ensures i <= |s|
  {
    if s == [] || at <= 0 then 0 else 1 + IndexAt(s[1..], at - Width(s[0]))
  }

  /** `s[from..to]` by bytes, at character boundaries. */
  function Bytes(s: string, from: nat, to: nat): string {
    var a, b := IndexAt(s, from), IndexAt(s, to);
    if a <= b then s[a..b] else ""
  }

  lemma {:induction false} OffsetTail(s: string, i: nat)
    requires 1 <= i <= |s|
    ensures Offset(s, i) == Width(s[0]) + Offset(s[1..], i - 1)
  {
    if i > 1 {
      OffsetTail(s, i - 1);
    }
  }

  lemma {:induction false} IndexOfOffset(s: string, i: nat)
    requires i <= |s|
    ensures IndexAt(s, Offset(s, i)) == i
  {
    if i > 0 {
      OffsetTail(s, i);
      IndexOfOffset(s[1..], i - 1);
    }
  }

  lemma {:induction false} OffsetWithin(s: string, from: nat, to: nat, i: nat)
    requires from <= to <= |s| && i <= to - from
    ensures Offset(s, from + i) == Offset(s, from) + Offset(s[from..to], i)
  {
    if i > 0 {
      OffsetWithin(s, from, to, i - 1);
    }
  }

  datatype Token = Token(offsetFrom: nat, offsetTo: nat, position: nat, text: string, positionLength: nat)

  // ── Runs ───────────────────────────────────────────────────────────────────

  predicate AllCjk(s: string) {
    forall c | c in s :: IsCjk(c)
  }

  predicate NoCjk(s: string) {
    forall c | c in s :: !IsCjk(c)
  }

  /** Where the run of characters of one kind that starts at `i` ends. */
  function RunEnd(s: string, i: nat): (j: nat)
    requires i < |s|
    ensures i < j <= |s|
    decreases |s| - i
  {
    if i + 1 < |s| && IsCjk(s[i + 1]) == IsCjk(s[i]) then RunEnd(s, i + 1) else i + 1
  }

  /** A run is uniform and cannot be extended. */
  lemma {:induction false} RunIsMaximal(s: string, i: nat)
    requires i < |s|
    ensures var j := RunEnd(s, i);
            && (forall k | i <= k < j :: IsCjk(s[k]) == IsCjk(s[i]))
            && (j < |s| ==> IsCjk(s[j]) != IsCjk(s[i]))
    decreases |s| - i
  {
    if i + 1 < |s| && IsCjk(s[i + 1]) == IsCjk(s[i]) {
      RunIsMaximal(s, i + 1);
    }
  }

  /** The piece of a token between two of its characters. */
  function Piece(t: Token, from: nat, to: nat): Token
    requires from <= to <= |t.text|
  {
    Token(t.offsetFrom + Offset(t.text, from), t.offsetFrom + Offset(t.text, to), 0, t.text[from..to], 1)
  }

  function Bigrams(t: Token, start: nat, end: nat): seq<Token>
    requires start < end <= |t.text|
  {
    seq(end - start - 1, k requires 0 <= k < end - start - 1 => Piece(t, start + k, start + k + 2))
  }

  /** A run of several CJK characters gives its bigrams, any other run one piece. */
  function RunPieces(t: Token, start: nat, end: nat): seq<Token>
    requires start < end <= |t.text|
  {
    if !IsCjk(t.text[start]) || end - start == 1 then [Piece(t, start, end)] else Bigrams(t, start, end)
  }

  function PiecesFrom(t: Token, start: nat): seq<Token>
    requires start <= |t.text|
    decreases |t.text| - start
  {
    if start == |t.text| then []
    else
      var end := RunEnd(t.text, start);
      RunPieces(t, start, end) + PiecesFrom(t, end)
  }

  function Pieces(t: Token): seq<Token> {
    if NoCjk(t.text) then [t] else PiecesFrom(t, 0)
  }

  function SplitAll(tokens: seq<Token>): seq<Token> {
    if tokens == [] then [] else Pieces(tokens[0]) + SplitAll(tokens[1..])
  }

  // ── The loops ──────────────────────────────────────────────────────────────

  /** `piece` works on byte offsets. */
  function PieceAt(t: Token, from: nat, to: nat): Token {
    Token(t.offsetFrom + from, t.offsetFrom + to, 0, Bytes(t.text, from, to), 1)
  }

  lemma PieceAtIsPiece(t: Token, from: nat, to: nat)
    requires from <= to <= |t.text|
    ensures PieceAt(t, Offset(t.text, from), Offset(t.text, to)) == Piece(t, from, to)
  {
    IndexOfOffset(t.text, from);
    IndexOfOffset(t.text, to);
  }

  /** The byte offsets of the characters `from..to`. */
  function Boundaries(s: string, from: nat, to: nat): seq<int>
    requires from <= to <= |s|
  {
    seq(to - from, k requires 0 <= k < to - from => Offset(s, from + k))
  }

  method FlushRun(t: Token, start: nat, end: nat, isCjkRun: bool, boundaries: seq<int>, out: seq<Token>,
                  ghost from: nat, ghost to: nat)
    returns (out': seq<Token>)
    requires from < to <= |t.text| && start == Offset(t.text, from) && end == Offset(t.text, to)
    requires boundaries == Boundaries(t.text, from, to) && isCjkRun == IsCjk(t.text[from])
    ensures out' == out + RunPieces(t, from, to)
  {
    if !isCjkRun || |boundaries| == 1 {
      PieceAtIsPiece(t, from, to);
      return out + [PieceAt(t, start, end)];
    }
    out' := out;
    for k := 0 to |boundaries|
      invariant out' == out + Bigrams(t, from, to)[..if k < to - from - 1 then k else to - from - 1]
    {
      var next := if k + 2 < |boundaries| then boundaries[k + 2] else end;
      if k + 1 < |boundaries| {
        BigramStep(t, from, to, k);
        out' := out' + [PieceAt(t, boundaries[k], next)];
      }
    }
    assert Bigrams(t, from, to)[..to - from - 1] == Bigrams(t, from, to);
  }

  lemma BigramStep(t: Token, from: nat, to: nat, k: nat)
    requires from < to <= |t.text| && k + 1 < to - from
    ensures Bigrams(t, from, to)[..k + 1]
         == Bigrams(t, from, to)[..k] + [PieceAt(t, Offset(t.text, from + k), Offset(t.text, from + k + 2))]
  {
    PieceAtIsPiece(t, from + k, from + k + 2);
  }

  method Split(t: Token, out: seq<Token>) returns (out': seq<Token>)
    ensures out' == out + Pieces(t)
  {
    if NoCjk(t.text) {
      return out + [t];
    }
    out' := out;
    var at := 0;
    var runStart: nat := 0;
    var runIsCjk, boundaries: seq<int> := false, [];
    ghost var from: nat := 0;
    ghost var whole := out + PiecesFrom(t, 0);
    for i := 0 to |t.text|
      invariant from <= i && (from == i ==> i == 0) && at == Offset(t.text, i)
      invariant RestIs(t, out', from, whole)
      invariant InRun(t, from, i, runStart, runIsCjk, boundaries)
    {
      var cjk := IsCjk(t.text[i]);
      if i == 0 {
        runStart, runIsCjk, boundaries := at, cjk, [];
      } else if runIsCjk != cjk {
        out' := EndRun(t, runStart, at, runIsCjk, boundaries, out', from, i, whole);
        from := i;
        runStart, runIsCjk, boundaries := at, cjk, [];
      }
      RunGrows(t, from, i, runStart, runIsCjk, boundaries);
      boundaries := boundaries + [at];
      at := at + Width(t.text[i]);
    }
    if |t.text| > 0 {
      out' := EndRun(t, runStart, at, runIsCjk, boundaries, out', from, |t.text|, whole);
    }
    assert PiecesFrom(t, |t.text|) == [];
  }

  /** What is out so far and the pieces of the characters from `from` on are the `whole`. */
  ghost predicate RestIs(t: Token, out: seq<Token>, from: nat, whole: seq<Token>)
    requires from <= |t.text|
  {
    out + PiecesFrom(t, from) == whole
  }

  lemma RestAfterRun(t: Token, out: seq<Token>, from: nat, whole: seq<Token>)
    requires from < |t.text| && RestIs(t, out, from, whole)
    ensures RestIs(t, out + RunPieces(t, from, RunEnd(t.text, from)), RunEnd(t.text, from), whole)
  {
    var run, rest := RunPieces(t, from, RunEnd(t.text, from)), PiecesFrom(t, RunEnd(t.text, from));
    assert (out + run) + rest == out + (run + rest);
  }

  /** Flushing a finished run leaves the rest still to come. */
  method EndRun(t: Token, start: nat, end: nat, isCjkRun: bool, boundaries: seq<int>, out: seq<Token>,
                ghost from: nat, ghost i: nat, ghost whole: seq<Token>)
    returns (out': seq<Token>)
    requires from < i <= |t.text| && RestIs(t, out, from, whole)
    requires InRun(t, from, i, start, isCjkRun, boundaries) && end == Offset(t.text, i)
    requires i < |t.text| ==> IsCjk(t.text[i]) != isCjkRun
    ensures RestIs(t, out', i, whole)
  {
    UniformEndsHere(t.text, from, i, isCjkRun);
    RestAfterRun(t, out, from, whole);
    out' := FlushRun(t, start, end, isCjkRun, boundaries, out, from, i);
  }

  /** The characters `from..i` are of one kind, and the loop's variables describe them. */
  ghost predicate InRun(t: Token, from: nat, i: nat, runStart: nat, runIsCjk: bool, boundaries: seq<int>)
    requires from <= i <= |t.text|
  {
    runStart == Offset(t.text, from) && boundaries == Boundaries(t.text, from, i) && Uniform(t.text, from, i, runIsCjk)
  }

  predicate Uniform(s: string, from: nat, i: nat, isCjk: bool)
    requires from <= i <= |s|
  {
    i == from || (IsCjk(s[i - 1]) == isCjk && Uniform(s, from, i - 1, isCjk))
  }

  lemma {:induction false} UniformAt(s: string, from: nat, i: nat, isCjk: bool, k: nat)
    requires from <= k < i <= |s| && Uniform(s, from, i, isCjk)
    ensures IsCjk(s[k]) == isCjk
  {
    if k < i - 1 {
      UniformAt(s, from, i - 1, isCjk, k);
    }
  }

  lemma UniformEndsHere(s: string, from: nat, i: nat, isCjk: bool)
    requires from < i <= |s| && Uniform(s, from, i, isCjk)
    requires i < |s| ==> IsCjk(s[i]) != isCjk
    ensures RunEnd(s, from) == i && IsCjk(s[from]) == isCjk
  {
    forall k | from <= k < i
      ensures IsCjk(s[k]) == isCjk
    {
      UniformAt(s, from, i, isCjk, k);
    }
    RunEndsHere(s, from, i);
  }

  lemma RunGrows(t: Token, from: nat, i: nat, runStart: nat, runIsCjk: bool, boundaries: seq<int>)
    requires from <= i < |t.text| && InRun(t, from, i, runStart, runIsCjk, boundaries)
    requires IsCjk(t.text[i]) == runIsCjk
    ensures InRun(t, from, i + 1, runStart, runIsCjk, boundaries + [Offset(t.text, i)])
  {
    assert Boundaries(t.text, from, i + 1) == Boundaries(t.text, from, i) + [Offset(t.text, from + (i - from))];
  }

  lemma {:induction false} RunEndsHere(s: string, from: nat, i: nat)
    requires from < i <= |s|
    requires forall k | from <= k < i :: IsCjk(s[k]) == IsCjk(s[from])
    requires i < |s| ==> IsCjk(s[i]) != IsCjk(s[from])
    ensures RunEnd(s, from) == i
    decreases i - from
  {
    if from + 1 < i {
      RunEndsHere(s, from + 1, i);
    }
  }

  /** The filter over an inner token stream. */
  class CjkBigramStream {
    var tail: seq<Token>
    var pending: seq<Token>
    var current: Token
    var nextPosition: nat

    ghost function Remaining(): seq<Token>
      reads this
    {
      Renumbered(pending + SplitAll(tail), nextPosition)
    }

    constructor (inner: seq<Token>)
      ensures Remaining() == Stream(inner)
    {
      tail, pending, nextPosition := inner, [], 0;
      current := Token(0, 0, 0, "", 1);
      new;
      assert pending + SplitAll(tail) == SplitAll(inner);
    }

    /** Splits the next inner token. */
    method Refill()
      requires pending == [] && tail != []
      modifies this`tail, this`pending
      ensures Remaining() == old(Remaining()) && tail == old(tail)[1..]
    {
      RefillKeeps(tail);
      pending := Split(tail[0], pending);
      tail := tail[1..];
    }

    method Pop()
      requires pending != []
      modifies this`pending, this`current, this`nextPosition
      ensures old(Remaining()) == [current] + Remaining()
    {
      TakesFirst(pending, SplitAll(tail), nextPosition);
      var token := pending[0];
      pending := pending[1..];
      token := token.(position := nextPosition);
      nextPosition := nextPosition + 1;
      current := token;
    }

    /** Moves to the next token, if there is one. */
    method Advance() returns (more: bool)
      modifies this
      ensures if more then old(Remaining()) == [current] + Remaining()
              else old(Remaining()) == Remaining() == [] && current == old(current)
    {
      while true
        invariant Remaining() == old(Remaining()) && current == old(current)
        decreases |tail|, |pending|
      {
        if pending != [] {
          Pop();
          return true;
        }
        if tail == [] {
          assert pending + SplitAll(tail) == [];
          return false;
        }
        Refill();
      }
    }
  }

  lemma RefillKeeps(tail: seq<Token>)
    requires tail != []
    ensures ([] + Pieces(tail[0])) + SplitAll(tail[1..]) == [] + SplitAll(tail)
  {
  }

  lemma TakesFirst(pending: seq<Token>, later: seq<Token>, first: nat)
    requires pending != []
    ensures Renumbered(pending + later, first)
         == [pending[0].(position := first)] + Renumbered(pending[1..] + later, first + 1)
  {
    assert (pending + later)[1..] == pending[1..] + later;
  }

  function Renumbered(tokens: seq<Token>, first: nat): seq<Token> {
    seq(|tokens|, i requires 0 <= i < |tokens| => tokens[i].(position := first + i))
  }

  /** What the filter emits for the inner tokens. */
  function Stream(inner: seq<Token>): seq<Token> {
    Renumbered(SplitAll(inner), 0)
  }

  method Drain(inner: seq<Token>) returns (out: seq<Token>)
    ensures out == Stream(inner)
  {
    var stream := new CjkBigramStream(inner);
    out := [];
    var more := stream.Advance();
    while more
      invariant more ==> out + ([stream.current] + stream.Remaining()) == Stream(inner)
      invariant !more ==> out == Stream(inner)
      decreases more, |stream.Remaining()|
    {
      assert (out + [stream.current]) + stream.Remaining() == out + ([stream.current] + stream.Remaining());
      out := out + [stream.current];
      more := stream.Advance();
    }
  }

  // ── Offsets and positions ──────────────────────────────────────────────────

  /** The token's offsets delimit its text in the document. */
  ghost predicate SliceOf(doc: string, t: Token) {
    exists a, b :: IsSlice(doc, t, a, b)
  }

  predicate IsSlice(doc: string, t: Token, a: int, b: int) {
    0 <= a <= b <= |doc| && Offset(doc, a) == t.offsetFrom && Offset(doc, b) == t.offsetTo && doc[a..b] == t.text
  }

  lemma SubSlice(doc: string, a: nat, b: nat, from: nat, to: nat)
    requires a <= b <= |doc| && from <= to <= b - a
    ensures doc[a..b][from..to] == doc[a + from..a + to]
  {
    var one, two := doc[a..b][from..to], doc[a + from..a + to];
    forall k | 0 <= k < to - from
      ensures one[k] == two[k]
    {
      assert one[k] == doc[a..b][from + k] == doc[a + from + k];
    }
  }

  lemma PieceSlices(doc: string, t: Token, from: nat, to: nat)
    requires SliceOf(doc, t) && from <= to <= |t.text|
    ensures SliceOf(doc, Piece(t, from, to))
  {
    var a, b :| IsSlice(doc, t, a, b);
    OffsetWithin(doc, a, b, from);
    OffsetWithin(doc, a, b, to);
    SubSlice(doc, a, b, from, to);
    assert IsSlice(doc, Piece(t, from, to), a + from, a + to);
  }

  ghost predicate AllSlice(doc: string, tokens: seq<Token>) {
    forall i | 0 <= i < |tokens| :: SliceOf(doc, tokens[i])
  }

  lemma RunSlices(doc: string, t: Token, start: nat, end: nat)
    requires SliceOf(doc, t) && start < end <= |t.text|
    ensures AllSlice(doc, RunPieces(t, start, end))
  {
    var run := RunPieces(t, start, end);
    forall i | 0 <= i < |run|
      ensures SliceOf(doc, run[i])
    {
      if !IsCjk(t.text[start]) || end - start == 1 {
        PieceSlices(doc, t, start, end);
      } else {
        PieceSlices(doc, t, start + i, start + i + 2);
      }
    }
  }

  lemma {:induction false} PiecesSlice(doc: string, t: Token, start: nat)
    requires SliceOf(doc, t) && start <= |t.text|
    ensures AllSlice(doc, PiecesFrom(t, start))
    decreases |t.text| - start
  {
    if start < |t.text| {
      RunSlices(doc, t, start, RunEnd(t.text, start));
      PiecesSlice(doc, t, RunEnd(t.text, start));
    }
  }

  lemma {:induction false} SplitSlices(doc: string, inner: seq<Token>)
    requires AllSlice(doc, inner)
    ensures AllSlice(doc, SplitAll(inner))
  {
    if inner != [] {
      PiecesSlice(doc, inner[0], 0);
      assert forall i | 0 <= i < |inner[1..]| :: inner[1..][i] == inner[i + 1];
      SplitSlices(doc, inner[1..]);
    }
  }

  /** When the inner tokens' offsets slice the document to their texts, so do those of every
      token emitted, and positions count 0, 1, 2, ... */
  lemma StreamOffsets(doc: string, inner: seq<Token>)
    requires AllSlice(doc, inner)
    ensures AllSlice(doc, Stream(inner))
    ensures forall i | 0 <= i < |Stream(inner)| :: Stream(inner)[i].position == i
  {
    SplitSlices(doc, inner);
    forall i | 0 <= i < |Stream(inner)|
      ensures SliceOf(doc, Stream(inner)[i])
    {
      var a, b :| IsSlice(doc, SplitAll(inner)[i], a, b);
      assert IsSlice(doc, Stream(inner)[i], a, b);
    }
  }

  // ── Characters ─────────────────────────────────────────────────────────────

  /** The bytes of a character (section 3 of RFC 3629). */
  function Utf8Bytes(c: char): seq<int> {
    var u := c as int;
    if u < 0x80 then [u]
    else if u < 0x800 then [0xC0 + u / 64, 0x80 + u % 64]
    else if u < 0x1_0000 then [0xE0 + u / 4096, 0x80 + u / 64 % 64, 0x80 + u % 64]
    else [0xF0 + u / 262_144, 0x80 + u / 4096 % 64, 0x80 + u / 64 % 64, 0x80 + u % 64]
  }

  function Utf8Text(s: string): seq<int> {
    if s == [] then [] else Utf8Text(s[..|s| - 1]) + Utf8Bytes(s[|s| - 1])
  }

  /** An offset is the number of bytes before it. */
  lemma {:induction false} OffsetsCountBytes(s: string, i: nat)
    requires i <= |s|
    ensures Offset(s, i) == |Utf8Text(s[..i])|
  {
    if i > 0 {
      OffsetsCountBytes(s, i - 1);
      assert s[..i][..i - 1] == s[..i - 1] && s[..i][i - 1] == s[i - 1];
    }
  }

  /** Hiragana and Katakana, the unified ideographs with extension A, Hangul syllables, the
      compatibility ideographs and halfwidth Katakana. */
  lemma CjkIs(c: char)
    ensures IsCjk(c) <==>
              || '\U{3040}' <= c <= '\U{30FF}' || '\U{3400}' <= c <= '\U{4DBF}' || '\U{4E00}' <= c <= '\U{9FFF}'
              || '\U{AC00}' <= c <= '\U{D7AF}' || '\U{F900}' <= c <= '\U{FAFF}' || '\U{FF66}' <= c <= '\U{FF9F}'
  {
    var ranges, u := CJK_RANGES, c as int;
    assert InRanges(u, ranges) <==> 0x3040 <= u <= 0x30FF || InRanges(u, ranges[1..]);
    assert InRanges(u, ranges[1..]) <==> 0x3400 <= u <= 0x4DBF || InRanges(u, ranges[2..]) by {
      assert ranges[1..][1..] == ranges[2..];
    }
    assert InRanges(u, ranges[2..]) <==> 0x4E00 <= u <= 0x9FFF || InRanges(u, ranges[3..]) by {
      assert ranges[2..][1..] == ranges[3..];
    }
    assert InRanges(u, ranges[3..]) <==> 0xAC00 <= u <= 0xD7AF || InRanges(u, ranges[4..]) by {
      assert ranges[3..][1..] == ranges[4..];
    }
    assert InRanges(u, ranges[4..]) <==> 0xF900 <= u <= 0xFAFF || InRanges(u, ranges[5..]) by {
      assert ranges[4..][1..] == ranges[5..];
    }
    assert InRanges(u, ranges[5..]) <==> 0xFF66 <= u <= 0xFF9F by {
      assert ranges[5..][1..] == [];
    }
  }

  ghost predicate AllSingle(tokens: seq<Token>) {
    forall i | 0 <= i < |tokens| :: tokens[i].positionLength == 1
  }

  lemma RunIsSingle(t: Token, start: nat, end: nat)
    requires start < end <= |t.text|
    ensures AllSingle(RunPieces(t, start, end))
  {
    var run := RunPieces(t, start, end);
    forall i | 0 <= i < |run|
      ensures run[i].positionLength == 1
    {
      if IsCjk(t.text[start]) && end - start > 1 {
        assert run[i] == Piece(t, start + i, start + i + 2);
      }
    }
  }

  /** A piece takes up one position; a token without CJK characters passes as it is. */
  lemma {:induction false} PiecesAreSingle(t: Token, start: nat)
    requires start <= |t.text|
    ensures AllSingle(PiecesFrom(t, start)) && (NoCjk(t.text) ==> Pieces(t) == [t])
    decreases |t.text| - start
  {
    if start < |t.text| {
      RunIsSingle(t, start, RunEnd(t.text, start));
      PiecesAreSingle(t, RunEnd(t.text, start));
    }
  }
}
