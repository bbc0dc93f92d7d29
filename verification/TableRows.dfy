/** What counts as a table row (chunking.rs). */
module TableRows {
  // The line tests of the table scan, over the UTF-8 bytes of a line with its newline.
  import opened Chunking

  const PIPE: Byte := 124
  const DASH: Byte := 45
  const COLON: Byte := 58

  /** Bytes of the white space character a text starts with, 0 when it starts with none. */
  function SpaceLength(s: Text): (n: nat)
    ensures n <= 3 && n <= |s|
  {
    if s == [] then 0
    else if 9 <= s[0] <= 13 || s[0] == 32 then 1
    else if |s| >= 2 && s[0] == 0xC2 && s[1] in {0x85, 0xA0} then 2
    else if |s| < 3 then 0
    else if s[0] == 0xE1 && s[1] == 0x9A && s[2] == 0x80 then 3
    else if s[0] == 0xE2 && s[1] == 0x80 && (0x80 <= s[2] <= 0x8A || s[2] in {0xA8, 0xA9, 0xAF}) then 3
    else if s[0] == 0xE2 && s[1] == 0x81 && s[2] == 0x9F then 3
    else if s[0] == 0xE3 && s[1] == 0x80 && s[2] == 0x80 then 3
    else 0
  }

  /** The last `n` bytes are one white space character. */
  predicate EndsInSpace(s: Text, n: nat)
    ensures EndsInSpace(s, n) ==> n <= |s|
  {
    n <= |s| && SpaceLength(s[|s| - n..]) == n
  }

  /** Bytes of the white space character a text ends with. */
  function SpaceSuffix(s: Text): (n: nat)
    ensures n <= |s|
  {
    if EndsInSpace(s, 1) then 1
    else if EndsInSpace(s, 2) then 2
    else if EndsInSpace(s, 3) then 3
    else 0
  }

  function TrimStart(s: Text): Text
    decreases |s|
  {
    if SpaceLength(s) == 0 then s else TrimStart(s[SpaceLength(s)..])
  }

  function TrimEnd(s: Text): Text
    decreases |s|
  {
    if SpaceSuffix(s) == 0 then s else TrimEnd(s[..|s| - SpaceSuffix(s)])
  }

  function Trim(s: Text): Text {
    TrimEnd(TrimStart(s))
  }

  function TrimPipesStart(s: Text): Text {
    if s != [] && s[0] == PIPE then TrimPipesStart(s[1..]) else s
  }

  function TrimPipesEnd(s: Text): Text {
    if s != [] && s[|s| - 1] == PIPE then TrimPipesEnd(s[..|s| - 1]) else s
  }

  /** The cells between the pipes; a text without a pipe is one cell. */
  function Cells(s: Text): (cells: seq<Text>)
    ensures cells != []
  {
    if s == [] then [[]]
    else
      var rest := Cells(s[1..]);
      if s[0] == PIPE then [[]] + rest else [[s[0]] + rest[0]] + rest[1..]
  }

  /** `is_table_row`. */
  predicate IsTableRow(line: Text) {
    var s := TrimStart(line);
    s != [] && s[0] == PIPE
  }

  /** A cell of dashes and colons with at least one dash. */
  predicate IsRule(cell: Text) {
    var s := Trim(cell);
    DASH in s && forall b | b in s :: b == DASH || b == COLON
  }

  /** `is_separator_row`. */
  predicate IsSeparatorRow(line: Text) {
    forall cell | cell in Cells(TrimPipesEnd(TrimPipesStart(Trim(line)))) :: IsRule(cell)
  }

  lemma PipeIsRow(line: Text)
    requires line != [] && line[0] == PIPE
    ensures IsTableRow(line)
  {
  }

  /** The shortest separator row. */
  lemma ShortestSeparator()
    ensures IsSeparatorRow([PIPE, DASH, 10])
  {
    var line := [PIPE, DASH, 10];
    assert TrimStart(line) == line;
    assert line[|line| - 1..] == [10] && EndsInSpace(line, 1) && line[..2] == [PIPE, DASH];
    NoSpaceAtEnd([PIPE], DASH);
    assert [PIPE] + [DASH] == [PIPE, DASH];
    assert Trim(line) == [PIPE, DASH];
    assert [PIPE, DASH][1..] == [DASH] && TrimPipesStart([PIPE, DASH]) == [DASH];
    assert Cells([DASH]) == [[DASH]] by {
      assert [DASH][1..] == [] && Cells([]) == [[]];
      assert [DASH] + [] == [DASH];
    }
    NoSpaceAtEnd([], DASH);
    assert [] + [DASH] == [DASH] && Trim([DASH]) == [DASH];
    assert IsRule([DASH]);
  }

  lemma NoSpaceAtEnd(s: Text, b: Byte)
    requires 33 <= b < 0x80
    ensures TrimEnd(s + [b]) == s + [b]
  {
    NoSpaceSuffix(s + [b]);
  }

  lemma NoSpaceSuffix(s: Text)
    requires s != [] && 33 <= s[|s| - 1] < 0x80
    ensures SpaceSuffix(s) == 0
  {
    NoSpaceTail(s, 1);
    NoSpaceTail(s, 2);
    NoSpaceTail(s, 3);
  }

  lemma NoSpaceTail(s: Text, n: nat)
    requires 1 <= n && s != [] && 33 <= s[|s| - 1] < 0x80
    ensures !EndsInSpace(s, n)
  {
    if n <= |s| {
      var tail := s[|s| - n..];
      assert |tail| == n && tail[n - 1] == s[|s| - 1];
      NoSpaceWhole(tail);
    }
  }

  /** A white space character ends in a control character, a space or a byte that is not ASCII. */
  lemma NoSpaceWhole(s: Text)
    requires s != [] && 33 <= s[|s| - 1] < 0x80
    ensures SpaceLength(s) != |s|
  {
  }

  // ── What the tests accept ──────────────────────────────────────────────────

  /** ASCII white space: tab to carriage return, and the space. */
  predicate AllBlank(s: Text) {
    forall b | b in s :: 9 <= b <= 13 || b == 32
  }

  lemma {:induction false} BlanksAreTrimmed(blanks: Text, rest: Text)
    requires AllBlank(blanks)
    ensures TrimStart(blanks + rest) == TrimStart(rest)
    decreases |blanks|
  {
    if blanks == [] {
      assert blanks + rest == rest;
    } else {
      assert blanks[0] in blanks && forall b | b in blanks[1..] :: b in blanks;
      assert (blanks + rest)[0] == blanks[0] && (blanks + rest)[1..] == blanks[1..] + rest;
      BlanksAreTrimmed(blanks[1..], rest);
    }
  }

  /** A line is a row if and only if a pipe comes first after ASCII white space; `first` is the first
      other byte, an ASCII one. */
  lemma RowIff(blanks: Text, first: Byte, rest: Text)
    requires AllBlank(blanks) && 33 <= first < 0x80
    ensures IsTableRow(blanks + [first] + rest) <==> first == 124
  {
    assert blanks + [first] + rest == blanks + ([first] + rest);
    BlanksAreTrimmed(blanks, [first] + rest);
    assert SpaceLength([first] + rest) == 0;
  }

  /** Visible ASCII characters other than the pipe. */
  predicate Plain(cell: Text) {
    forall b | b in cell :: 33 <= b < 0x80 && b != 124
  }

  /** The cells with a pipe between each two. */
  function Joined(cells: seq<Text>): Text {
    if cells == [] then [] else if |cells| == 1 then cells[0] else cells[0] + [124] + Joined(cells[1..])
  }

  lemma {:induction false} OneCell(cell: Text)
    requires Plain(cell)
    ensures Cells(cell) == [cell]
  {
    if cell != [] {
      assert cell[0] in cell && forall b | b in cell[1..] :: b in cell;
      OneCell(cell[1..]);
      assert [cell[0]] + cell[1..] == cell;
    }
  }

  lemma {:induction false} FirstCell(cell: Text, rest: Text)
    requires Plain(cell)
    ensures Cells(cell + [124] + rest) == [cell] + Cells(rest)
  {
    var s := cell + [124] + rest;
    if cell == [] {
      assert s[0] == 124 && s[1..] == rest;
    } else {
      assert cell[0] in cell && forall b | b in cell[1..] :: b in cell;
      assert s[0] == cell[0] && s[1..] == cell[1..] + [124] + rest;
      FirstCell(cell[1..], rest);
      var later := [cell[1..]] + Cells(rest);
      assert later[0] == cell[1..] && later[1..] == Cells(rest) && [cell[0]] + cell[1..] == cell;
    }
  }

  lemma {:induction false} CellsOfJoined(cells: seq<Text>)
    requires cells != [] && forall cell | cell in cells :: Plain(cell)
    ensures Cells(Joined(cells)) == cells
  {
    assert cells[0] in cells;
    if |cells| == 1 {
      OneCell(cells[0]);
    } else {
      assert forall cell | cell in cells[1..] :: cell in cells;
      CellsOfJoined(cells[1..]);
      FirstCell(cells[0], Joined(cells[1..]));
      assert cells == [cells[0]] + cells[1..];
    }
  }

  lemma PlainIsTrimmed(cell: Text)
    requires Plain(cell)
    ensures Trim(cell) == cell
  {
    if cell != [] {
      assert cell[0] in cell && cell[|cell| - 1] in cell;
      assert SpaceLength(cell) == 0;
      NoSpaceSuffix(cell);
    }
  }

  lemma {:induction false} JoinedEnds(cells: seq<Text>)
    requires cells != [] && (forall cell | cell in cells :: Plain(cell)) && cells[0] != [] && cells[|cells| - 1] != []
    ensures var s := Joined(cells); s != [] && s[0] != 124 && s[|s| - 1] != 124
  {
    assert cells[0] in cells && cells[0][0] in cells[0] && cells[|cells| - 1] in cells;
    LastOfJoined(cells);
    assert Joined(cells)[0] == cells[0][0];
  }

  lemma {:induction false} LastOfJoined(cells: seq<Text>)
    requires cells != [] && (forall cell | cell in cells :: Plain(cell)) && cells[|cells| - 1] != []
    ensures var s := Joined(cells); s != [] && s[|s| - 1] != 124
  {
    if |cells| == 1 {
      assert cells[0] in cells && cells[0][|cells[0]| - 1] in cells[0];
    } else {
      assert forall cell | cell in cells[1..] :: cell in cells;
      LastOfJoined(cells[1..]);
      var s, rest := Joined(cells), Joined(cells[1..]);
      assert s[|s| - 1] == rest[|rest| - 1];
    }
  }

  /** The text of a row with its outer pipes and newline is trimmed to what is between them. */
  lemma OuterIsTrimmed(inner: Text)
    requires inner != [] && inner[0] != 124 && inner[|inner| - 1] != 124
    ensures TrimPipesEnd(TrimPipesStart(Trim([124] + inner + [124] + [10]))) == inner
  {
    var row := [124] + inner + [124];
    var line := row + [10];
    assert SpaceLength(line) == 0;
    assert line[|line| - 1..] == [10] && EndsInSpace(line, 1) && line[..|line| - 1] == row;
    NoSpaceAtEnd([124] + inner, 124);
    assert Trim(line) == row;
    assert row[1..] == inner + [124] && (inner + [124])[0] == inner[0];
    assert TrimPipesStart(row) == inner + [124];
    assert (inner + [124])[..|inner|] == inner;
  }

  /** A row of visible ASCII cells between pipes is a separator if and only if every cell has a dash and
      is made of dashes and colons. */
  lemma SeparatorIff(cells: seq<Text>)
    requires cells != [] && (forall cell | cell in cells :: Plain(cell)) && cells[0] != [] && cells[|cells| - 1] != []
    ensures IsSeparatorRow([124] + Joined(cells) + [124] + [10]) <==>
              forall cell | cell in cells :: 45 in cell && forall b | b in cell :: b == 45 || b == 58
  {
    JoinedEnds(cells);
    OuterIsTrimmed(Joined(cells));
    CellsOfJoined(cells);
    forall cell | cell in cells
      ensures IsRule(cell) <==> 45 in cell && forall b | b in cell :: b == 45 || b == 58
    {
      PlainIsTrimmed(cell);
    }
  }
}
