/** The chunker (chunking.rs). */
module Chunking {
  // Where documents are cut, how much consecutive chunks overlap, and why nothing is lost. Text is
  // its UTF-8 bytes.
  import opened Common

  type Byte = int
  type Text = seq<Byte>

  const CHUNK_SIZE: nat := 3600
  const CHUNK_OVERLAP: nat := 540
  const CHUNK_WINDOW: nat := 800

  datatype Chunk = Chunk(text: Text, pos: nat) {
    function End(): nat {
      pos + |text|
    }
  }

  datatype BreakPoint = BreakPoint(pos: nat, score: int)

  // ── Character boundaries ───────────────────────────────────────────────────

  predicate Continuation(b: Byte) {
    0x80 <= b < 0xC0
  }

  predicate IsBoundary(t: Text, p: nat) {
    p == 0 || p == |t| || (p < |t| && !Continuation(t[p]))
  }

  predicate FourContinuations(t: Text, i: nat) {
    i + 3 < |t| && Continuation(t[i]) && Continuation(t[i + 1]) && Continuation(t[i + 2]) && Continuation(t[i + 3])
  }

  /** A continuation byte at `i` has no ASCII byte before it. */
  predicate ContinuesWide(t: Text, i: nat) {
    i < |t| && Continuation(t[i]) ==> i > 0 && t[i - 1] >= 0x80
  }

  /** What the chunker relies on in UTF-8: a character has at most three continuation bytes,
      and they follow a byte that is not ASCII. */
  ghost predicate Utf8(t: Text) {
    && (forall i: nat :: ContinuesWide(t, i))
    && (forall i: nat :: !FourContinuations(t, i))
  }

  function Min(a: nat, b: nat): nat {
    if a < b then a else b
  }

  function SaturatingSub(a: nat, b: nat): nat {
    if a < b then 0 else a - b
  }

  /** The first boundary at or after `p`. */
  function SnapForward(t: Text, p: nat): (r: nat)
    requires p <= |t|
    ensures p <= r <= |t| && IsBoundary(t, r)
    decreases |t| - p
  {
    if IsBoundary(t, p) then p else SnapForward(t, p + 1)
  }

  /** The last boundary at or before `p`. */
  function SnapBackward(t: Text, p: nat): (r: nat)
    requires p <= |t|
    ensures r <= p && IsBoundary(t, r)
  {
    if IsBoundary(t, p) then p else SnapBackward(t, p - 1)
  }

  /** Nothing between a position and where it snaps to is a boundary. */
  lemma SnapsToNearest(t: Text, p: nat, q: nat)
    requires p <= |t|
    ensures p <= q < SnapForward(t, p) || SnapBackward(t, p) < q <= p ==> !IsBoundary(t, q)
  {
    SnapForwardNearest(t, p, q);
    SnapBackwardNearest(t, p, q);
  }

  lemma {:induction false} SnapForwardNearest(t: Text, p: nat, q: nat)
    requires p <= |t|
    ensures p <= q < SnapForward(t, p) ==> !IsBoundary(t, q)
    decreases |t| - p
  {
    if !IsBoundary(t, p) {
      SnapForwardNearest(t, p + 1, q);
    }
  }

  lemma {:induction false} SnapBackwardNearest(t: Text, p: nat, q: nat)
    requires p <= |t|
    ensures SnapBackward(t, p) < q <= p ==> !IsBoundary(t, q)
  {
    if !IsBoundary(t, p) {
      SnapBackwardNearest(t, p - 1, q);
    }
  }

  /** Snapping moves at most three bytes. */
  lemma SnapsAreShort(t: Text, p: nat)
    requires Utf8(t) && p <= |t|
    ensures SnapForward(t, p) <= p + 3 && p <= SnapBackward(t, p) + 3
  {
    var b := SnapBackward(t, p);
    assert !FourContinuations(t, p) && !FourContinuations(t, b + 1);
    SnapsToNearest(t, p, p);
    SnapsToNearest(t, p, p + 1);
    SnapsToNearest(t, p, p + 2);
    SnapsToNearest(t, p, p + 3);
    SnapsToNearest(t, p, b + 1);
    SnapsToNearest(t, p, b + 2);
    SnapsToNearest(t, p, b + 3);
    SnapsToNearest(t, p, b + 4);
  }

  method SnapCharBoundaryForward(t: Text, pos: nat) returns (p: nat)
    ensures p == SnapForward(t, Min(pos, |t|))
  {
    p := Min(pos, |t|);
    while p < |t| && !IsBoundary(t, p)
      invariant p <= |t| && SnapForward(t, p) == SnapForward(t, Min(pos, |t|))
    {
      p := p + 1;
    }
  }

  method SnapCharBoundaryBackward(t: Text, pos: nat) returns (p: nat)
    ensures p == SnapBackward(t, Min(pos, |t|))
  {
    p := Min(pos, |t|);
    while p > 0 && !IsBoundary(t, p)
      invariant p <= |t| && SnapBackward(t, p) == SnapBackward(t, Min(pos, |t|))
    {
      p := p - 1;
    }
  }

  /** A boundary is an end of the text or a byte that does not continue a character. */
  lemma BoundaryIs(t: Text, p: nat)
    requires p <= |t|
    ensures IsBoundary(t, p) <==> p == 0 || p == |t| || t[p] < 0x80 || t[p] > 0xBF
  {
  }

  // ── The best break ─────────────────────────────────────────────────────────

  predicate InWindow(b: BreakPoint, from: nat, to: nat) {
    from <= b.pos < to
  }

  predicate Beats(a: BreakPoint, b: BreakPoint) {
    a.score > b.score || (a.score == b.score && a.pos >= b.pos)
  }

  ghost predicate Unbeaten(breaks: seq<BreakPoint>, from: nat, to: nat, b: BreakPoint) {
    forall other | other in breaks && from <= other.pos < to ::
      other.score < b.score || (other.score == b.score && other.pos <= b.pos)
  }

  /** `best` is the position of a candidate of the window that none there outscores, the last such;
      there is none only when the window holds no break point. */
  ghost predicate IsBest(breaks: seq<BreakPoint>, from: nat, to: nat, best: Option<nat>) {
    match best
    case None => forall b | b in breaks :: b.pos < from || to <= b.pos
    case Some(pos) =>
      from <= pos < to && exists b :: b in breaks && b.pos == pos && Unbeaten(breaks, from, to, b)
  }

  function BestCandidate(breaks: seq<BreakPoint>, from: nat, to: nat): (best: Option<BreakPoint>)
    ensures best.Some? ==> best.value in breaks && InWindow(best.value, from, to)
  {
    if breaks == [] then None
    else
      var rest := BestCandidate(breaks[..|breaks| - 1], from, to);
      var b := breaks[|breaks| - 1];
      if !InWindow(b, from, to) then rest
      else if rest.None? || Beats(b, rest.value) then Some(b)
      else rest
  }

  function BestBreakInWindow(breaks: seq<BreakPoint>, from: nat, to: nat): (best: Option<nat>)
    ensures best.Some? ==> from <= best.value < to
  {
    var best := BestCandidate(breaks, from, to);
    if best.None? then None else Some(best.value.pos)
  }

  lemma {:induction false} BestCandidateIsBest(breaks: seq<BreakPoint>, from: nat, to: nat)
    ensures var best := BestCandidate(breaks, from, to);
            && (best.None? ==> forall b | b in breaks :: !InWindow(b, from, to))
            && (best.Some? ==>
                  && best.value in breaks && InWindow(best.value, from, to)
                  && forall other | other in breaks && InWindow(other, from, to) :: Beats(best.value, other))
  {
    if breaks != [] {
      BestCandidateIsBest(breaks[..|breaks| - 1], from, to);
      assert breaks == breaks[..|breaks| - 1] + [breaks[|breaks| - 1]];
    }
  }

  lemma BestBreakIsBest(breaks: seq<BreakPoint>, from: nat, to: nat)
    ensures IsBest(breaks, from, to, BestBreakInWindow(breaks, from, to))
  {
    BestCandidateIsBest(breaks, from, to);
    var best := BestCandidate(breaks, from, to);
    if best.Some? {
      forall other | other in breaks && from <= other.pos < to
        ensures other.score < best.value.score || (other.score == best.value.score && other.pos <= best.value.pos)
      {
        assert InWindow(other, from, to) && Beats(best.value, other);
      }
      assert Unbeaten(breaks, from, to, best.value);
    }
  }

  // ── Cuts ───────────────────────────────────────────────────────────────────

  /** Where the chunk at `start` would end before snapping: at the best break of its window,
      or at the ideal size when the window has none. */
  function RawCut(t: Text, breaks: seq<BreakPoint>, start: nat): (cut: nat)
    requires start + CHUNK_SIZE < |t|
    ensures start + 3200 <= cut <= start + 3999 && cut < |t|
  {
    var ideal := start + CHUNK_SIZE;
    var best := BestBreakInWindow(breaks, SaturatingSub(ideal, CHUNK_WINDOW / 2), Min(ideal + CHUNK_WINDOW / 2, |t|));
    if best.Some? then best.value else ideal
  }

  /** Where the chunk at `start` ends when it is not the last one. */
  function CutEnd(t: Text, breaks: seq<BreakPoint>, start: nat): (end: nat)
    requires start + CHUNK_SIZE < |t|
    ensures start + 3200 <= end <= |t| && IsBoundary(t, end)
  {
    SnapForward(t, RawCut(t, breaks, start))
  }

  function NextStart(t: Text, end: nat): nat
    requires end <= |t|
  {
    var back := SnapBackward(t, SaturatingSub(end, CHUNK_OVERLAP));
    if back >= end then end else back
  }

  /** The next chunk starts 540 to 543 bytes before the end of this one. */
  lemma OverlapBounds(t: Text, end: nat)
    requires Utf8(t) && 543 <= end <= |t|
    ensures end - 543 <= NextStart(t, end) <= end - 540 && IsBoundary(t, NextStart(t, end))
  {
    SnapsAreShort(t, end - CHUNK_OVERLAP);
  }

  ghost predicate AtBoundaries(t: Text, breaks: seq<BreakPoint>) {
    forall b | b in breaks :: IsBoundary(t, b.pos)
  }

  /** A cut never lies more than 4002 bytes after the start, or 3999 when break points are
      character boundaries. */
  lemma CutBounds(t: Text, breaks: seq<BreakPoint>, start: nat)
    requires Utf8(t) && start + CHUNK_SIZE < |t|
    ensures CutEnd(t, breaks, start) <= start + 4002
    ensures AtBoundaries(t, breaks) ==> CutEnd(t, breaks, start) <= start + 3999
  {
    var cut := RawCut(t, breaks, start);
    SnapsAreShort(t, cut);
    if AtBoundaries(t, breaks) && cut != start + CHUNK_SIZE {
      BreakBoundary(t, breaks, start + CHUNK_SIZE - CHUNK_WINDOW / 2, Min(start + CHUNK_SIZE + CHUNK_WINDOW / 2, |t|));
    }
  }

  lemma BreakBoundary(t: Text, breaks: seq<BreakPoint>, from: nat, to: nat)
    requires AtBoundaries(t, breaks)
    ensures var best := BestBreakInWindow(breaks, from, to); best.Some? ==> IsBoundary(t, best.value)
  {
  }

  lemma SnapsWithin(t: Text, p: nat, m: nat)
    requires p <= m <= |t|
    ensures SnapForward(t, p) <= m <==> exists q :: p <= q <= m && IsBoundary(t, q)
  {
    if q :| p <= q <= m && IsBoundary(t, q) {
      SnapsToNearest(t, p, q);
    }
  }

  /** The chunk at `start` stays within the ideal size: with no break point in its window when the
      hard cut is a character boundary, otherwise when the best break is not after the ideal end
      and a boundary lies between them. */
  predicate FitsSize(t: Text, breaks: seq<BreakPoint>, start: nat)
    requires start + CHUNK_SIZE < |t|
  {
    var ideal := start + CHUNK_SIZE;
    match BestBreakInWindow(breaks, ideal - CHUNK_WINDOW / 2, Min(ideal + CHUNK_WINDOW / 2, |t|))
    case None => IsBoundary(t, ideal)
    case Some(pos) => pos <= ideal && exists q :: pos <= q <= ideal && IsBoundary(t, q)
  }

  lemma FitsSizeIff(t: Text, breaks: seq<BreakPoint>, start: nat)
    requires start + CHUNK_SIZE < |t|
    ensures CutEnd(t, breaks, start) <= start + CHUNK_SIZE <==> FitsSize(t, breaks, start)
  {
    var ideal := start + CHUNK_SIZE;
    var cut := RawCut(t, breaks, start);
    if cut <= ideal {
      SnapsWithin(t, cut, ideal);
    }
  }

  /** The chunks from `start` on. */
  ghost function ChunksFrom(t: Text, breaks: seq<BreakPoint>, start: nat): seq<Chunk>
    requires Utf8(t) && start < |t|
    decreases |t| - start
  {
    if start + CHUNK_SIZE >= |t| then [Chunk(t[start..], start)]
    else
      var end := CutEnd(t, breaks, start);
      OverlapBounds(t, end);
      [Chunk(t[start..end], start)] + ChunksFrom(t, breaks, NextStart(t, end))
  }

  ghost function ChunkFromBreakPoints(t: Text, breaks: seq<BreakPoint>): seq<Chunk>
    requires Utf8(t)
  {
    if |t| <= CHUNK_SIZE then [Chunk(t, 0)] else ChunksFrom(t, breaks, 0)
  }

  // ── What the chunks are ────────────────────────────────────────────────────

  ghost predicate IsSlice(t: Text, c: Chunk) {
    c.End() <= |t| && c.text == t[c.pos..c.End()] && IsBoundary(t, c.pos) && IsBoundary(t, c.End())
  }

  /** `c` is not the last chunk and `next` follows it. */
  ghost predicate Follows(t: Text, breaks: seq<BreakPoint>, c: Chunk, next: Chunk) {
    && 3200 <= |c.text| <= 4002
    && (AtBoundaries(t, breaks) ==> |c.text| <= 3999)
    && 540 <= c.End() - next.pos <= 543
    && c.pos + 2657 <= next.pos
    && c.pos + CHUNK_SIZE < |t| && c.End() == CutEnd(t, breaks, c.pos)
  }

  ghost predicate Linked(t: Text, breaks: seq<BreakPoint>, chunks: seq<Chunk>, i: nat) {
    i + 1 < |chunks| ==> Follows(t, breaks, chunks[i], chunks[i + 1])
  }

  ghost predicate WellChunked(t: Text, breaks: seq<BreakPoint>, chunks: seq<Chunk>) {
    && chunks != []
    && (forall i | 0 <= i < |chunks| :: IsSlice(t, chunks[i]))
    && (forall i: nat :: Linked(t, breaks, chunks, i))
    && |chunks[|chunks| - 1].text| <= CHUNK_SIZE && chunks[|chunks| - 1].End() == |t|
  }

  lemma WellChunkedTail(t: Text, breaks: seq<BreakPoint>, chunks: seq<Chunk>)
    requires |chunks| > 1
    ensures WellChunked(t, breaks, chunks) <==>
            IsSlice(t, chunks[0]) && Follows(t, breaks, chunks[0], chunks[1]) && WellChunked(t, breaks, chunks[1..])
  {
    var tail := chunks[1..];
    assert Linked(t, breaks, chunks, 0) <==> Follows(t, breaks, chunks[0], chunks[1]);
    forall i: nat
      ensures Linked(t, breaks, tail, i) <==> Linked(t, breaks, chunks, i + 1)
    {
      assert i + 1 < |tail| ==> tail[i] == chunks[i + 1] && tail[i + 1] == chunks[i + 2];
    }
    assert forall i: nat | i > 0 && Linked(t, breaks, tail, i - 1) :: Linked(t, breaks, chunks, i);
    assert forall i | 0 <= i < |tail| :: tail[i] == chunks[i + 1];
    assert forall i | 0 < i < |chunks| :: chunks[i] == tail[i - 1];
  }

  lemma {:induction false} ChunksAreWellChunked(t: Text, breaks: seq<BreakPoint>, start: nat)
    requires Utf8(t) && start < |t| && IsBoundary(t, start)
    ensures var chunks := ChunksFrom(t, breaks, start);
            WellChunked(t, breaks, chunks) && chunks[0].pos == start
    decreases |t| - start
  {
    if start + CHUNK_SIZE < |t| {
      var end := CutEnd(t, breaks, start);
      OverlapBounds(t, end);
      var rest := ChunksFrom(t, breaks, NextStart(t, end));
      ChunksAreWellChunked(t, breaks, NextStart(t, end));
      var c := Chunk(t[start..end], start);
      CutFollows(t, breaks, start, rest[0]);
      assert ([c] + rest)[1..] == rest;
      WellChunkedTail(t, breaks, [c] + rest);
    }
  }

  lemma CutFollows(t: Text, breaks: seq<BreakPoint>, start: nat, next: Chunk)
    requires Utf8(t) && start + CHUNK_SIZE < |t| && IsBoundary(t, start)
    requires next.pos == NextStart(t, CutEnd(t, breaks, start))
    ensures var c := Chunk(t[start..CutEnd(t, breaks, start)], start);
            IsSlice(t, c) && Follows(t, breaks, c, next)
  {
    CutBounds(t, breaks, start);
    OverlapBounds(t, CutEnd(t, breaks, start));
  }

  /** Every chunk without what the next one repeats, put together. */
  function Reassemble(chunks: seq<Chunk>): Text {
    if chunks == [] then []
    else if |chunks| == 1 then chunks[0].text
    else chunks[0].text[..Min(SaturatingSub(chunks[1].pos, chunks[0].pos), |chunks[0].text|)] + Reassemble(chunks[1..])
  }

  lemma {:induction false} ReassembleRestores(t: Text, breaks: seq<BreakPoint>, chunks: seq<Chunk>, n: nat)
    requires WellChunked(t, breaks, chunks) && n < |chunks|
    ensures chunks[n].pos <= |t| && Reassemble(chunks[n..]) == t[chunks[n].pos..]
    decreases |chunks| - n
  {
    assert IsSlice(t, chunks[n]);
    if n + 1 < |chunks| {
      assert Linked(t, breaks, chunks, n);
      ReassembleRestores(t, breaks, chunks, n + 1);
      SliceJoins(t, chunks[n], chunks[n + 1].pos);
      ReassembleAt(chunks, n);
    } else {
      assert chunks[n..] == [chunks[n]];
    }
  }

  lemma ReassembleAt(chunks: seq<Chunk>, n: nat)
    requires n + 1 < |chunks| && chunks[n].pos <= chunks[n + 1].pos <= chunks[n].End()
    ensures Reassemble(chunks[n..]) == chunks[n].text[..chunks[n + 1].pos - chunks[n].pos] + Reassemble(chunks[n + 1..])
  {
    var rest := chunks[n..];
    assert rest[0] == chunks[n] && rest[1] == chunks[n + 1] && rest[1..] == chunks[n + 1..];
  }

  lemma SliceJoins(t: Text, c: Chunk, p: nat)
    requires IsSlice(t, c) && c.pos <= p <= c.End()
    ensures c.text[..p - c.pos] + t[p..] == t[c.pos..]
  {
    assert c.text[..p - c.pos] == t[c.pos..p];
  }

  lemma {:induction false} FewChunks(t: Text, breaks: seq<BreakPoint>, chunks: seq<Chunk>, n: nat)
    requires WellChunked(t, breaks, chunks) && n < |chunks|
    ensures chunks[0].pos + 2657 * n <= chunks[n].pos
  {
    if n > 0 {
      FewChunks(t, breaks, chunks, n - 1);
      assert Linked(t, breaks, chunks, n - 1);
    }
  }

  /** Whatever the break points: chunks are slices at character boundaries that overlap by 540
      to 543 bytes and advance by at least 2657; there are at most |t| / 2657 + 1 of them, and
      dropping the overlaps gives the text back. */
  lemma ChunkingIsLossless(t: Text, breaks: seq<BreakPoint>)
    requires Utf8(t)
    ensures var chunks := ChunkFromBreakPoints(t, breaks);
            && WellChunked(t, breaks, chunks) && chunks[0].pos == 0
            && Reassemble(chunks) == t
            && 2657 * (|chunks| - 1) <= |t|
  {
    var chunks := ChunkFromBreakPoints(t, breaks);
    if |t| > CHUNK_SIZE {
      ChunksAreWellChunked(t, breaks, 0);
      FewChunks(t, breaks, chunks, |chunks| - 1);
      assert IsSlice(t, chunks[|chunks| - 1]);
    } else {
      assert t[0..|t|] == t;
    }
    ReassembleRestores(t, breaks, chunks, 0);
    assert t[0..] == t && chunks[0..] == chunks;
  }

  /** A chunk is longer than the 3600 bytes its documentation promises exactly when another
      follows it and its cut does not fit. */
  lemma LongChunksIff(t: Text, breaks: seq<BreakPoint>, i: nat)
    requires Utf8(t) && i < |ChunkFromBreakPoints(t, breaks)|
    ensures var chunks := ChunkFromBreakPoints(t, breaks);
            |chunks[i].text| > CHUNK_SIZE <==>
              i + 1 < |chunks| && chunks[i].pos + CHUNK_SIZE < |t| && !FitsSize(t, breaks, chunks[i].pos)
  {
    var chunks := ChunkFromBreakPoints(t, breaks);
    ChunkingIsLossless(t, breaks);
    if i + 1 < |chunks| {
      assert Linked(t, breaks, chunks, i);
      FitsSizeIff(t, breaks, chunks[i].pos);
    }
  }

  /** A newline at byte 3999 and nothing else to break at. */
  const LATE_BREAK: Text := seq(5000, i => if i == 3999 then 10 else 120)

  /** A four-byte character whose second byte is byte 3999. */
  const WIDE_BREAK: Text := seq(5000, i => if i == 3998 then 0xF0 else if 3999 <= i < 4002 then 0x80 else 120)

  /** Both bounds are reached: 3999 bytes with the break at a character boundary, 4002 without. */
  lemma BoundsAreReached()
    ensures var breaks := [BreakPoint(3999, 1)];
            && Utf8(LATE_BREAK) && AtBoundaries(LATE_BREAK, breaks)
            && |ChunkFromBreakPoints(LATE_BREAK, breaks)[0].text| == 3999
            && Utf8(WIDE_BREAK) && |ChunkFromBreakPoints(WIDE_BREAK, breaks)[0].text| == 4002
  {
    var breaks := [BreakPoint(3999, 1)];
    assert breaks[..0] == [] && BestCandidate(breaks, 3200, 4000) == Some(breaks[0]);
    AsciiIsUtf8(LATE_BREAK);
    WideBreakIsUtf8();
    assert SnapForward(WIDE_BREAK, 4002) == 4002;
    assert SnapForward(WIDE_BREAK, 4001) == 4002;
    assert SnapForward(WIDE_BREAK, 4000) == 4002;
    FirstChunk(LATE_BREAK, breaks);
    FirstChunk(WIDE_BREAK, breaks);
  }

  lemma WideBreakIsUtf8()
    ensures Utf8(WIDE_BREAK)
  {
    forall i: nat
      ensures ContinuesWide(WIDE_BREAK, i) && !FourContinuations(WIDE_BREAK, i)
    {
      assert i < 5000 ==> (Continuation(WIDE_BREAK[i]) <==> 3999 <= i < 4002);
      assert i + 3 < 5000 ==> (Continuation(WIDE_BREAK[i + 3]) <==> 3999 <= i + 3 < 4002);
    }
  }

  lemma FirstChunk(t: Text, breaks: seq<BreakPoint>)
    requires Utf8(t) && |t| > CHUNK_SIZE
    ensures |ChunkFromBreakPoints(t, breaks)[0].text| == CutEnd(t, breaks, 0)
  {
    assert ChunksFrom(t, breaks, 0)[0] == Chunk(t[0..CutEnd(t, breaks, 0)], 0);
  }

  /** One round of the loop: where the chunk at `start` ends and where the next one starts. */
  method Cut(t: Text, breaks: seq<BreakPoint>, start: nat) returns (end: nat, next: nat)
    requires Utf8(t) && start + CHUNK_SIZE < |t|
    ensures end == CutEnd(t, breaks, start) && next == NextStart(t, end)
    ensures start < next < |t|
  {
    var ideal := start + CHUNK_SIZE;
    var best := BestBreakInWindow(breaks, SaturatingSub(ideal, CHUNK_WINDOW / 2), Min(ideal + CHUNK_WINDOW / 2, |t|));
    var break_ := if best.Some? then best.value else ideal;
    assert break_ == RawCut(t, breaks, start);
    end := SnapCharBoundaryForward(t, Min(break_, |t|));
    next := SnapCharBoundaryBackward(t, SaturatingSub(end, CHUNK_OVERLAP));
    if next >= end {
      next := end;
    }
    OverlapBounds(t, end);
  }

  method ChunkText(t: Text, breaks: seq<BreakPoint>) returns (chunks: seq<Chunk>)
    requires Utf8(t)
    ensures chunks == ChunkFromBreakPoints(t, breaks)
  {
    if |t| <= CHUNK_SIZE {
      return [Chunk(t, 0)];
    }
    chunks := [];
    var start := 0;
    while start + CHUNK_SIZE < |t|
      invariant start < |t|
      invariant chunks + ChunksFrom(t, breaks, start) == ChunksFrom(t, breaks, 0)
      decreases |t| - start
    {
      var end, next := Cut(t, breaks, start);
      AppendChunk(t, breaks, chunks, start);
      chunks := chunks + [Chunk(t[start..end], start)];
      start := next;
    }
    chunks := chunks + [Chunk(t[start..], start)];
  }

  lemma AppendChunk(t: Text, breaks: seq<BreakPoint>, chunks: seq<Chunk>, start: nat)
    requires Utf8(t) && start + CHUNK_SIZE < |t|
    ensures var end := CutEnd(t, breaks, start);
            && NextStart(t, end) < |t|
            && chunks + ChunksFrom(t, breaks, start)
               == (chunks + [Chunk(t[start..end], start)]) + ChunksFrom(t, breaks, NextStart(t, end))
  {
    OverlapBounds(t, CutEnd(t, breaks, start));
  }

  // ── Code fences ────────────────────────────────────────────────────────────

  datatype Fence = Fence(start: nat, end: nat)

  const TICK: Byte := 96

  predicate MarkAt(t: Text, p: nat) {
    p + 3 <= |t| && t[p] == TICK && t[p + 1] == TICK && t[p + 2] == TICK
  }

  /** Non-overlapping fence marks from `p` on, leftmost first. */
  function Marks(t: Text, p: nat): seq<nat>
    requires p <= |t|
    decreases |t| - p
  {
    if p == |t| then []
    else if MarkAt(t, p) then [p] + Marks(t, p + 3)
    else Marks(t, p + 1)
  }

  predicate InsideFence(pos: nat, fences: seq<Fence>) {
    exists f :: f in fences && f.start < pos < f.end
  }

  /** Marks pair up in order; a last one without a partner opens to the end of the text. */
  ghost predicate PairsUp(t: Text, marks: seq<nat>, fences: seq<Fence>) {
    && |fences| == (|marks| + 1) / 2
    && forall i | 0 <= i < |fences| ::
         fences[i] == Fence(marks[2 * i], if 2 * i + 1 < |marks| then marks[2 * i + 1] + 3 else |t|)
  }

  lemma InsideIs(pos: nat, fences: seq<Fence>)
    ensures InsideFence(pos, fences) <==> exists f :: f in fences && f.start < pos && pos < f.end
  {
  }

  /** The marks are occurrences of three backticks, and every occurrence overlaps one of them. */
  lemma {:induction false} MarksAre(t: Text, p: nat, at: nat)
    requires p <= |t|
    ensures at in Marks(t, p) ==> p <= at && at + 3 <= |t| && t[at] == 96 && t[at + 1] == 96 && t[at + 2] == 96
    ensures p <= at && at + 3 <= |t| && t[at] == 96 && t[at + 1] == 96 && t[at + 2] == 96 ==>
              exists m :: m in Marks(t, p) && m <= at < m + 3
    decreases |t| - p
  {
    if p < |t| {
      var next := if MarkAt(t, p) then p + 3 else p + 1;
      MarksAre(t, next, at);
      assert MarkAt(t, p) ==> p in Marks(t, p);
      assert forall m | m in Marks(t, next) :: m in Marks(t, p);
    }
  }

  ghost predicate Ascend(marks: seq<nat>, from: nat, to: nat) {
    && (forall i | 0 <= i < |marks| :: from <= marks[i] && marks[i] + 3 <= to)
    && (forall i, j | 0 <= i < j < |marks| :: marks[i] + 3 <= marks[j])
  }

  lemma {:induction false} MarksAscend(t: Text, p: nat)
    requires p <= |t|
    ensures Ascend(Marks(t, p), p, |t|)
    decreases |t| - p
  {
    if p < |t| && MarkAt(t, p) {
      MarksAscend(t, p + 3);
      assert Marks(t, p) == [p] + Marks(t, p + 3);
    } else if p < |t| {
      MarksAscend(t, p + 1);
    }
  }

  /** The fences closed after the marks `done`. */
  ghost predicate Closed(done: seq<nat>, fences: seq<Fence>, opens: Option<nat>) {
    && |fences| == |done| / 2
    && opens == (if |done| % 2 == 1 then Some(done[|done| - 1]) else None)
    && forall i | 0 <= i < |fences| :: fences[i] == Fence(done[2 * i], done[2 * i + 1] + 3)
  }

  lemma CloseOne(done: seq<nat>, fences: seq<Fence>, opens: Option<nat>, p: nat)
    requires Closed(done, fences, opens)
    ensures opens.None? ==> Closed(done + [p], fences, Some(p))
    ensures opens.Some? ==> Closed(done + [p], fences + [Fence(opens.value, p + 3)], None)
  {
  }

  lemma FencesAreDisjoint(t: Text, marks: seq<nat>, fences: seq<Fence>)
    requires PairsUp(t, marks, fences) && Ascend(marks, 0, |t|)
    ensures forall i, j | 0 <= i < j < |fences| :: fences[i].start < fences[i].end <= fences[j].start
  {
    forall i, j | 0 <= i < j < |fences|
      ensures fences[i].start < fences[i].end <= fences[j].start
    {
      assert marks[2 * i] + 3 <= marks[2 * i + 1];
      assert 2 * i + 1 < 2 * j < |marks| && marks[2 * i + 1] + 3 <= marks[2 * j];
    }
  }

  lemma FinishFences(t: Text, marks: seq<nat>, fences: seq<Fence>, opens: Option<nat>)
    requires Closed(marks, fences, opens)
    ensures PairsUp(t, marks, if opens.Some? then fences + [Fence(opens.value, |t|)] else fences)
  {
    var n, all := |marks|, if opens.Some? then fences + [Fence(opens.value, |t|)] else fences;
    assert n == 2 * |fences| + n % 2;
    forall i | 0 <= i < |all|
      ensures all[i] == Fence(marks[2 * i], if 2 * i + 1 < n then marks[2 * i + 1] + 3 else |t|)
    {
      if i < |fences| {
        assert all[i] == fences[i] && 2 * i + 1 < n;
      }
    }
  }

  lemma NextMark(t: Text, p: nat, done: seq<nat>)
    requires p < |t|
    ensures if MarkAt(t, p) then p + 3 <= |t| && done + Marks(t, p) == (done + [p]) + Marks(t, p + 3)
            else Marks(t, p) == Marks(t, p + 1)
  {
    if MarkAt(t, p) {
      assert done + ([p] + Marks(t, p + 3)) == (done + [p]) + Marks(t, p + 3);
    }
  }

  /** The scan itself: every second mark closes the fence that the one before it opened. */
  method ScanMarks(t: Text) returns (fences: seq<Fence>, opens: Option<nat>)
    ensures Closed(Marks(t, 0), fences, opens)
  {
    fences, opens := [], None;
    var p := 0;
    ghost var done: seq<nat> := [];
    while p < |t|
      invariant p <= |t| && done + Marks(t, p) == Marks(t, 0)
      invariant Closed(done, fences, opens)
      decreases |t| - p
    {
      NextMark(t, p, done);
      if MarkAt(t, p) {
        fences, opens := CloseAt(done, fences, opens, p);
        done := done + [p];
        p := p + 3;
      } else {
        p := p + 1;
      }
    }
    assert done == Marks(t, 0);
  }

  method CloseAt(ghost done: seq<nat>, fences: seq<Fence>, opens: Option<nat>, p: nat)
    returns (fences': seq<Fence>, opens': Option<nat>)
    requires Closed(done, fences, opens)
    ensures Closed(done + [p], fences', opens')
  {
    CloseOne(done, fences, opens, p);
    match opens {
      case None =>
        fences', opens' := fences, Some(p);
      case Some(start) =>
        fences', opens' := fences + [Fence(start, p + 3)], None;
    }
  }

  method ScanCodeFences(t: Text) returns (fences: seq<Fence>)
    ensures PairsUp(t, Marks(t, 0), fences)
    ensures forall i, j | 0 <= i < j < |fences| :: fences[i].start < fences[i].end <= fences[j].start
  {
    var opens;
    fences, opens := ScanMarks(t);
    FinishFences(t, Marks(t, 0), fences, opens);
    MarksAscend(t, 0);
    if opens.Some? {
      fences := fences + [Fence(opens.value, |t|)];
    }
    FencesAreDisjoint(t, Marks(t, 0), fences);
  }

  /** Three backticks at `p`. */
  predicate TicksAt(t: Text, p: int) {
    0 <= p && p + 3 <= |t| && t[p] == 96 && t[p + 1] == 96 && t[p + 2] == 96
  }

  /** Fence `f` opens at three backticks and ends after three others or with the text. */
  ghost predicate IsFenced(t: Text, f: Fence) {
    && TicksAt(t, f.start) && f.start < f.end <= |t|
    && (f.end == |t| || (f.start + 3 <= f.end - 3 && TicksAt(t, f.end - 3)))
  }

  lemma FenceIsFenced(t: Text, fences: seq<Fence>, i: nat)
    requires PairsUp(t, Marks(t, 0), fences) && i < |fences|
    ensures IsFenced(t, fences[i])
  {
    var marks, a, b := Marks(t, 0), 2 * i, 2 * i + 1;
    MarksAscend(t, 0);
    assert marks[a] in marks;
    MarksAre(t, 0, marks[a]);
    if b < |marks| {
      assert marks[b] in marks;
      MarksAre(t, 0, marks[b]);
    }
  }

  lemma TicksAreFenced(t: Text, fences: seq<Fence>, at: nat)
    requires PairsUp(t, Marks(t, 0), fences) && TicksAt(t, at)
    ensures exists f :: f in fences && f.start <= at < f.end
  {
    var marks := Marks(t, 0);
    MarksAscend(t, 0);
    MarksAre(t, 0, at);
    var m :| m in marks && m <= at < m + 3;
    var j :| 0 <= j < |marks| && marks[j] == m;
    MarkInFence(t, marks, fences, j, at);
    assert fences[j / 2] in fences;
  }

  /** All backticks by three lie in a fence, and each fence is one. */
  lemma FencesAre(t: Text, fences: seq<Fence>)
    requires PairsUp(t, Marks(t, 0), fences)
    ensures forall f | f in fences :: IsFenced(t, f)
    ensures forall at: nat | TicksAt(t, at) :: exists f :: f in fences && f.start <= at < f.end
  {
    forall f | f in fences
      ensures IsFenced(t, f)
    {
      var i :| 0 <= i < |fences| && fences[i] == f;
      FenceIsFenced(t, fences, i);
    }
    forall at: nat | TicksAt(t, at)
      ensures exists f :: f in fences && f.start <= at < f.end
    {
      TicksAreFenced(t, fences, at);
    }
  }

  lemma MarkInFence(t: Text, marks: seq<nat>, fences: seq<Fence>, j: nat, at: nat)
    requires PairsUp(t, marks, fences) && Ascend(marks, 0, |t|) && j < |marks| && marks[j] <= at < marks[j] + 3 && at < |t|
    ensures fences[j / 2].start <= at < fences[j / 2].end
  {
    var i := j / 2;
    assert j == 2 * i || j == 2 * i + 1;
    if j == 2 * i && j + 1 < |marks| {
      assert marks[j] + 3 <= marks[j + 1];
    } else if j == 2 * i + 1 {
      assert marks[2 * i] + 3 <= marks[j];
    }
  }

  /** The module promises never to cut inside a fence. With break points that are outside all
      fences, a cut is inside one exactly when its window had no break point and the hard cut
      at the ideal size falls there. */
  lemma CutInsideFenceIff(t: Text, breaks: seq<BreakPoint>, fences: seq<Fence>, start: nat)
    requires Utf8(t) && start + CHUNK_SIZE < |t|
    requires AtBoundaries(t, breaks) && forall b | b in breaks :: !InsideFence(b.pos, fences)
    ensures InsideFence(CutEnd(t, breaks, start), fences) <==>
            && (forall b | b in breaks :: !InWindow(b, start + 3200, Min(start + 4000, |t|)))
            && InsideFence(SnapForward(t, start + CHUNK_SIZE), fences)
  {
    BestCandidateIsBest(breaks, start + 3200, Min(start + 4000, |t|));
  }

  lemma AsciiIsUtf8(t: Text)
    requires forall i | 0 <= i < |t| :: 0 <= t[i] < 0x80
    ensures Utf8(t) && forall p: nat | p <= |t| :: IsBoundary(t, p)
  {
  }

  /** A fence longer than the window is cut: here one that runs from the first byte on. */
  lemma LongFencesAreCut(t: Text)
    requires |t| > 4000 && t[..3] == [TICK, TICK, TICK] && forall i | 3 <= i < |t| :: t[i] == 120
    ensures Utf8(t) && Marks(t, 0) == [0]
    ensures CutEnd(t, [], 0) == CHUNK_SIZE && InsideFence(CHUNK_SIZE, [Fence(0, |t|)])
  {
    assert t[0] == t[..3][0] && t[1] == t[..3][1] && t[2] == t[..3][2];
    AsciiIsUtf8(t);
    LongFenceMarks(t);
    assert RawCut(t, [], 0) == CHUNK_SIZE && IsBoundary(t, CHUNK_SIZE);
    var fence := Fence(0, |t|);
    assert fence in [fence];
  }

  lemma LongFenceMarks(t: Text)
    requires |t| > 4000 && MarkAt(t, 0) && forall i | 3 <= i < |t| :: t[i] == 120
    ensures Marks(t, 0) == [0]
  {
    NoMarks(t, 3);
    assert Marks(t, 0) == [0] + Marks(t, 3);
  }

  lemma {:induction false} NoMarks(t: Text, p: nat)
    requires p <= |t| && forall i | p <= i < |t| :: t[i] != TICK
    ensures Marks(t, p) == []
    decreases |t| - p
  {
    if p < |t| {
      NoMarks(t, p + 1);
    }
  }
}
