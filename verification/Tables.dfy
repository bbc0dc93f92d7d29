/** Pipe tables (chunking.rs). */
module Tables {
  // Finding the tables of a document line by line, and giving each chunk that starts inside one
  // the header it needs.
  import opened Common
  import opened Chunking
  import opened TableRows

  const NEWLINE: Byte := 10

  const MAX_TABLE_HEADER: nat := CHUNK_WINDOW

  /** `start..dataStart` holds the header and separator rows, `dataStart..end` the data rows. */
  datatype Table = Table(start: nat, dataStart: nat, end: nat)

  predicate LineStart(t: Text, p: nat) {
    p == 0 || (p <= |t| && t[p - 1] == NEWLINE)
  }

  /** The position after the first newline at or after `p`, or the end of the text. */
  function NextLine(t: Text, p: nat): (n: nat)
    requires p <= |t|
    ensures p <= n <= |t| && (p < |t| ==> p < n)
    ensures n == |t| || LineStart(t, n)
    decreases |t| - p
  {
    if p == |t| then p
    else if t[p] == NEWLINE then p + 1
    else NextLine(t, p + 1)
  }

  /** Nothing between a position and the next line is a line start. */
  lemma {:induction false} NextLineIsNext(t: Text, p: nat, q: nat)
    requires p <= |t|
    ensures p < q < NextLine(t, p) ==> !LineStart(t, q) && NextLine(t, q) == NextLine(t, p)
    decreases |t| - p
  {
    if p < |t| && t[p] != NEWLINE {
      NextLineIsNext(t, p + 1, q);
    }
  }

  /** The line that `pos` lies on, when it is not before `from`. */
  lemma {:induction false} RowContaining(t: Text, pos: nat, from: nat) returns (p: nat)
    requires from <= pos < |t| && LineStart(t, from)
    ensures from <= p <= pos && LineStart(t, p) && NextLine(t, p) == NextLine(t, pos)
    decreases pos
  {
    if LineStart(t, pos) {
      p := pos;
    } else {
      p := RowContaining(t, pos - 1, from);
      assert NextLine(t, pos - 1) == NextLine(t, pos);
    }
  }

  /** The line starting at `p` is a table row outside every code fence. */
  predicate RowAt(t: Text, fences: seq<Fence>, p: nat) {
    p < |t| && IsTableRow(t[p..NextLine(t, p)]) && !InsideFence(p, fences)
  }

  predicate SeparatorAt(t: Text, p: nat) {
    p < |t| && IsSeparatorRow(t[p..NextLine(t, p)])
  }

  /** Position `n` ends the line that starts at `p`: just after its newline, or at the end of the text. */
  predicate EndsLine(t: Text, p: nat, n: nat) {
    p < n <= |t| && (n == |t| || t[n - 1] == 10) && forall i | p <= i < n - 1 :: t[i] != 10
  }

  lemma {:induction false} NextLineEnds(t: Text, p: nat, n: nat)
    requires p < |t|
    ensures EndsLine(t, p, n) <==> n == NextLine(t, p)
    decreases |t| - p
  {
    if t[p] != 10 && p + 1 < |t| {
      NextLineEnds(t, p + 1, n);
    }
  }

  /** A line counts as a row when it reads as one and does not start within a fence; a separator is
      judged by its text alone. */
  lemma RowsAreLines(t: Text, fences: seq<Fence>, p: nat, n: nat)
    requires EndsLine(t, p, n)
    ensures RowAt(t, fences, p) <==> IsTableRow(t[p..n]) && forall f | f in fences :: p <= f.start || f.end <= p
    ensures SeparatorAt(t, p) <==> IsSeparatorRow(t[p..n])
    ensures LineStart(t, p) <==> p == 0 || t[p - 1] == 10
  {
    NextLineEnds(t, p, n);
  }

  // ── Finding tables ─────────────────────────────────────────────────────────

  /** A run of table rows, by the start of each, with the end of the last. */
  datatype Run = Run(rows: seq<nat>, end: nat)

  const NO_ROWS := Run([], 0)

  /** The table of a run: at least two rows, the second a separator. */
  function TableOf(t: Text, r: Run): Option<Table> {
    if |r.rows| >= 2 && SeparatorAt(t, r.rows[1]) then
      Some(Table(r.rows[0], if |r.rows| > 2 then r.rows[2] else r.end, r.end))
    else None
  }

  function Flush(t: Text, tables: seq<Table>, run: Run): seq<Table> {
    var table := TableOf(t, run);
    if table.Some? then tables + [table.value] else tables
  }

  /** The tables found from `offset` on, with `run` open there. */
  function ScanFrom(t: Text, fences: seq<Fence>, offset: nat, run: Run, tables: seq<Table>): seq<Table>
    requires offset <= |t|
    decreases |t| - offset
  {
    if offset == |t| then Flush(t, tables, run)
    else
      var next := NextLine(t, offset);
      if RowAt(t, fences, offset) then ScanFrom(t, fences, next, Run(run.rows + [offset], next), tables)
      else ScanFrom(t, fences, next, NO_ROWS, Flush(t, tables, run))
  }

  function Tables(t: Text, fences: seq<Fence>): seq<Table> {
    ScanFrom(t, fences, 0, NO_ROWS, [])
  }

  method ScanTables(t: Text, fences: seq<Fence>) returns (tables: seq<Table>)
    ensures tables == Tables(t, fences)
  {
    tables := [];
    var run := NO_ROWS;
    var offset := 0;
    while offset < |t|
      invariant offset <= |t|
      invariant ScanFrom(t, fences, offset, run, tables) == Tables(t, fences)
      decreases |t| - offset
    {
      var next := NextLine(t, offset);
      if RowAt(t, fences, offset) {
        run := Run(run.rows + [offset], next);
      } else {
        tables := Flush(t, tables, run);
        run := NO_ROWS;
      }
      offset := next;
    }
    tables := Flush(t, tables, run);
  }

  // ── What a table is ────────────────────────────────────────────────────────

  ghost predicate AllRows(t: Text, fences: seq<Fence>, from: nat, to: nat) {
    forall p: nat | from <= p < to && LineStart(t, p) :: RowAt(t, fences, p)
  }

  /** The line before `p`, if there is one, is not a row. */
  ghost predicate StartsRun(t: Text, fences: seq<Fence>, p: nat) {
    forall q: nat | q < p && q < |t| && LineStart(t, q) && NextLine(t, q) == p :: !RowAt(t, fences, q)
  }

  ghost predicate EndsRun(t: Text, fences: seq<Fence>, p: nat) {
    p == |t| || (p < |t| && LineStart(t, p) && !RowAt(t, fences, p))
  }

  /** A maximal run of rows outside code fences whose second line is a separator; the data rows
      begin after it. */
  ghost predicate IsTable(t: Text, fences: seq<Fence>, table: Table) {
    && table.start < table.end <= |t| && LineStart(t, table.start)
    && AllRows(t, fences, table.start, table.end)
    && StartsRun(t, fences, table.start) && EndsRun(t, fences, table.end)
    && var second := NextLine(t, table.start);
       second < table.end && SeparatorAt(t, second) && table.dataStart == NextLine(t, second)
  }

  /** `run` is open at `offset`: its rows are the lines up to there, and no row comes before. */
  ghost predicate RunOk(t: Text, fences: seq<Fence>, run: Run, offset: nat) {
    && offset <= |t| && (offset == |t| || LineStart(t, offset))
    && if run.rows == [] then StartsRun(t, fences, offset)
       else
         var first := run.rows[0];
         && first < offset && run.end == offset && LineStart(t, first)
         && AllRows(t, fences, first, offset) && StartsRun(t, fences, first)
         && ChainOk(t, run.rows, first, offset)
  }

  /** The first three rows follow each other; a run shorter than that ends at `offset`. */
  ghost predicate ChainOk(t: Text, rows: seq<nat>, first: nat, offset: nat)
    requires rows != [] && first < offset <= |t|
  {
    var second := NextLine(t, first);
    && (|rows| == 1 <==> second == offset) && second <= offset
    && (|rows| >= 2 ==> rows[1] == second && (|rows| == 2 <==> NextLine(t, second) == offset))
    && (|rows| >= 3 ==> rows[2] == NextLine(t, second))
  }

  lemma LineEndsBefore(t: Text, q: nat, p: nat)
    requires q < p <= |t| && (p == |t| || LineStart(t, p))
    ensures NextLine(t, q) <= p
  {
    NextLineIsNext(t, q, p);
  }

  /** A run of rows cannot start within another. */
  lemma NoRunWithin(t: Text, fences: seq<Fence>, first: nat, offset: nat, p: nat)
    requires first < p < offset <= |t| && LineStart(t, first) && LineStart(t, p) && AllRows(t, fences, first, offset)
    ensures !StartsRun(t, fences, p)
  {
    var q := RowContaining(t, p - 1, first);
    assert t[p - 1] == NEWLINE && NextLine(t, q) == p;
    assert q < p && LineStart(t, q) && RowAt(t, fences, q);
  }

  /** Closing a run yields its table if it has one, and no other table starts in it. */
  lemma RunIsTable(t: Text, fences: seq<Fence>, run: Run, offset: nat, table: Table)
    requires RunOk(t, fences, run, offset) && run.rows != [] && EndsRun(t, fences, offset)
    requires run.rows[0] <= table.start < offset
    ensures IsTable(t, fences, table) <==> TableOf(t, run) == Some(table)
  {
    var first := run.rows[0];
    if table.start != first && LineStart(t, table.start) {
      NoRunWithin(t, fences, first, offset, table.start);
    }
    if table.start == first {
      TableOfRun(t, fences, run, offset, table);
    }
  }

  lemma TableOfRun(t: Text, fences: seq<Fence>, run: Run, offset: nat, table: Table)
    requires RunOk(t, fences, run, offset) && run.rows != [] && EndsRun(t, fences, offset) && table.start == run.rows[0]
    ensures IsTable(t, fences, table) <==> TableOf(t, run) == Some(table)
  {
    var first := run.rows[0];
    if table.start < table.end <= |t| && AllRows(t, fences, first, table.end) && EndsRun(t, fences, table.end) {
      RunEndsOnce(t, fences, first, offset, table.end);
    }
    var second := NextLine(t, first);
    if second < offset {
      LineEndsBefore(t, second, offset);
    }
  }

  lemma RunEndsOnce(t: Text, fences: seq<Fence>, first: nat, a: nat, b: nat)
    requires first < a <= |t| && first < b <= |t|
    requires AllRows(t, fences, first, a) && EndsRun(t, fences, a)
    requires AllRows(t, fences, first, b) && EndsRun(t, fences, b)
    ensures a == b
  {
    assert a < b ==> !RowAt(t, fences, a) && RowAt(t, fences, a);
    assert b < a ==> !RowAt(t, fences, b) && RowAt(t, fences, b);
  }

  lemma RowsGrow(t: Text, fences: seq<Fence>, first: nat, offset: nat)
    requires first <= offset < |t| && AllRows(t, fences, first, offset) && RowAt(t, fences, offset)
    ensures AllRows(t, fences, first, NextLine(t, offset))
  {
    forall p: nat | first <= p < NextLine(t, offset) && LineStart(t, p)
      ensures RowAt(t, fences, p)
    {
      NextLineIsNext(t, offset, p);
    }
  }

  /** The run grown by the row at `offset`. */
  lemma RunGrows(t: Text, fences: seq<Fence>, run: Run, offset: nat)
    requires RunOk(t, fences, run, offset) && RowAt(t, fences, offset)
    ensures var next := NextLine(t, offset);
            RunOk(t, fences, Run(run.rows + [offset], next), next)
  {
    if run.rows == [] {
      RowsGrow(t, fences, offset, offset);
      assert [] + [offset] == [offset];
    } else {
      RowsGrow(t, fences, run.rows[0], offset);
      ChainGrows(t, run.rows, run.rows[0], offset);
    }
  }

  lemma ChainGrows(t: Text, rows: seq<nat>, first: nat, offset: nat)
    requires rows != [] && first < offset < |t| && LineStart(t, offset) && ChainOk(t, rows, first, offset)
    ensures ChainOk(t, rows + [offset], first, NextLine(t, offset))
  {
    var second := NextLine(t, first);
    if second < offset {
      LineEndsBefore(t, second, offset);
    }
  }

  /** After a line that is not a row a run may start. */
  lemma RunRestarts(t: Text, fences: seq<Fence>, offset: nat)
    requires offset < |t| && LineStart(t, offset) && !RowAt(t, fences, offset)
    ensures RunOk(t, fences, NO_ROWS, NextLine(t, offset))
  {
    var next := NextLine(t, offset);
    forall q: nat | q < next && q < |t| && LineStart(t, q) && NextLine(t, q) == next
      ensures !RowAt(t, fences, q)
    {
      if q < offset {
        LineEndsBefore(t, q, offset);
      }
      NextLineIsNext(t, offset, q);
    }
  }

  /** Where the lines not yet accounted for begin. */
  function Open(run: Run, offset: nat): nat {
    if run.rows == [] then offset else run.rows[0]
  }

  /** `tables` are the tables that start before the open run. */
  ghost predicate Found(t: Text, fences: seq<Fence>, tables: seq<Table>, from: nat) {
    forall table :: table in tables <==> table.start < from && IsTable(t, fences, table)
  }

  lemma FlushFinds(t: Text, fences: seq<Fence>, run: Run, offset: nat, tables: seq<Table>)
    requires RunOk(t, fences, run, offset) && EndsRun(t, fences, offset) && Found(t, fences, tables, Open(run, offset))
    ensures Found(t, fences, Flush(t, tables, run), offset)
  {
    forall table
      ensures table in Flush(t, tables, run) <==> table.start < offset && IsTable(t, fences, table)
    {
      if run.rows != [] && run.rows[0] <= table.start < offset {
        RunIsTable(t, fences, run, offset, table);
      }
      TableStartsRun(t, run, table);
    }
  }

  lemma TableStartsRun(t: Text, run: Run, table: Table)
    ensures TableOf(t, run) == Some(table) ==> run.rows != [] && table.start == run.rows[0]
  {
  }

  /** A line that is not a row starts no table. */
  lemma NoTableAt(t: Text, fences: seq<Fence>, tables: seq<Table>, offset: nat)
    requires offset < |t| && LineStart(t, offset) && !RowAt(t, fences, offset) && Found(t, fences, tables, offset)
    ensures Found(t, fences, tables, NextLine(t, offset))
  {
    forall table
      ensures table in tables <==> table.start < NextLine(t, offset) && IsTable(t, fences, table)
    {
      NextLineIsNext(t, offset, table.start);
    }
  }

  lemma {:induction false} ScanFindsAll(t: Text, fences: seq<Fence>, offset: nat, run: Run, tables: seq<Table>)
    requires RunOk(t, fences, run, offset) && Found(t, fences, tables, Open(run, offset))
    ensures Found(t, fences, ScanFrom(t, fences, offset, run, tables), |t|)
    decreases |t| - offset
  {
    if offset == |t| {
      FlushFinds(t, fences, run, offset, tables);
    } else {
      var next := NextLine(t, offset);
      if RowAt(t, fences, offset) {
        RunGrows(t, fences, run, offset);
        ScanFindsAll(t, fences, next, Run(run.rows + [offset], next), tables);
      } else {
        FlushFinds(t, fences, run, offset, tables);
        RunRestarts(t, fences, offset);
        NoTableAt(t, fences, Flush(t, tables, run), offset);
        ScanFindsAll(t, fences, next, NO_ROWS, Flush(t, tables, run));
      }
    }
  }

  /** The scan finds exactly the maximal runs of rows outside code fences whose second line is a
      separator, each with all its data rows. */
  lemma TablesAreExact(t: Text, fences: seq<Fence>, table: Table)
    ensures table in Tables(t, fences) <==> IsTable(t, fences, table)
  {
    ScanFindsAll(t, fences, 0, NO_ROWS, []);
  }

  ghost predicate TableOk(t: Text, table: Table) {
    && table.start < table.dataStart <= table.end <= |t|
    && LineStart(t, table.start)
    && (table.dataStart == |t| || LineStart(t, table.dataStart))
    && (table.end == |t| || LineStart(t, table.end))
  }

  /** Tables in order, none overlapping, each beginning and ending with whole lines. */
  ghost predicate TablesOk(t: Text, tables: seq<Table>) {
    && (forall i | 0 <= i < |tables| :: TableOk(t, tables[i]))
    && (forall i, j | 0 <= i < j < |tables| :: tables[i].end <= tables[j].start)
  }

  ghost predicate EndBy(tables: seq<Table>, to: nat) {
    forall i | 0 <= i < |tables| :: tables[i].end <= to
  }

  lemma FlushKeepsTables(t: Text, fences: seq<Fence>, run: Run, offset: nat, tables: seq<Table>)
    requires RunOk(t, fences, run, offset) && TablesOk(t, tables) && EndBy(tables, Open(run, offset))
    ensures TablesOk(t, Flush(t, tables, run)) && EndBy(Flush(t, tables, run), offset)
  {
    var table := TableOf(t, run);
    if table.Some? {
      RunTableOk(t, fences, run, offset);
      OneMoreTable(t, tables, table.value);
    }
  }

  lemma OneMoreTable(t: Text, tables: seq<Table>, table: Table)
    requires TablesOk(t, tables) && EndBy(tables, table.start) && TableOk(t, table)
    ensures TablesOk(t, tables + [table]) && EndBy(tables + [table], table.end)
  {
    var all := tables + [table];
    forall i, j | 0 <= i < j < |all|
      ensures all[i].end <= all[j].start
    {
      assert all[i] == tables[i];
    }
    forall i | 0 <= i < |all|
      ensures TableOk(t, all[i]) && all[i].end <= table.end
    {
      assert i < |tables| ==> all[i] == tables[i];
    }
  }

  lemma RunTableOk(t: Text, fences: seq<Fence>, run: Run, offset: nat)
    requires RunOk(t, fences, run, offset) && TableOf(t, run).Some?
    ensures var table := TableOf(t, run).value;
            TableOk(t, table) && run.rows != [] && table.start == run.rows[0] && table.end == offset
  {
    var second := NextLine(t, run.rows[0]);
    if second < offset {
      LineEndsBefore(t, second, offset);
    }
  }

  lemma {:induction false} ScanKeepsTables(t: Text, fences: seq<Fence>, offset: nat, run: Run, tables: seq<Table>)
    requires RunOk(t, fences, run, offset) && TablesOk(t, tables) && EndBy(tables, Open(run, offset))
    ensures TablesOk(t, ScanFrom(t, fences, offset, run, tables))
    decreases |t| - offset
  {
    FlushKeepsTables(t, fences, run, offset, tables);
    if offset < |t| {
      var next := NextLine(t, offset);
      if RowAt(t, fences, offset) {
        RunGrows(t, fences, run, offset);
        ScanKeepsTables(t, fences, next, Run(run.rows + [offset], next), tables);
      } else {
        RunRestarts(t, fences, offset);
        ScanKeepsTables(t, fences, next, NO_ROWS, Flush(t, tables, run));
      }
    }
  }

  /** The tables of a document are disjoint, in order and made of whole lines. */
  lemma TablesAreOk(t: Text, fences: seq<Fence>)
    ensures TablesOk(t, Tables(t, fences))
  {
    ScanKeepsTables(t, fences, 0, NO_ROWS, []);
  }

  // ── Carrying headers ───────────────────────────────────────────────────────

  predicate Inside(table: Table, pos: nat) {
    table.start < pos < table.end
  }

  function FindTable(tables: seq<Table>, pos: nat): (r: Option<Table>)
    ensures r.None? <==> forall table | table in tables :: !Inside(table, pos)
    ensures r.Some? ==> r.value in tables && Inside(r.value, pos)
  {
    if tables == [] then None
    else if Inside(tables[0], pos) then Some(tables[0])
    else FindTable(tables[1..], pos)
  }

  /** The first row boundary at or after `pos`. */
  function RowStart(t: Text, pos: nat): nat
    requires 0 < pos <= |t|
  {
    if t[pos - 1] == NEWLINE then pos else NextLine(t, pos)
  }

  ghost predicate IsPiece(t: Text, c: Chunk) {
    c.End() <= |t| && c.text == t[c.pos..c.End()]
  }

  /** How a chunk is treated: as it is, extended back to its table's first row, or moved to a
      row and given the header. */
  datatype Treatment = Keep | Extend(table: Table) | Move(table: Table, row: nat)

  function Treat(t: Text, pos: nat, end: nat, tables: seq<Table>): (r: Treatment)
    requires end <= |t| && TablesOk(t, tables)
    ensures r.Extend? ==> r.table in tables && r.table.start < pos < r.table.dataStart
    ensures r.Move? ==> r.table in tables && r.table.dataStart <= pos <= r.row < end && r.row < r.table.end
                        && LineStart(t, r.row) && r.table.start < pos && r.row == RowStart(t, pos)
                        && r.table.dataStart - r.table.start <= MAX_TABLE_HEADER
  {
    var found := FindTable(tables, pos);
    if found.None? then Keep
    else
      var table := found.value;
      assert TableOk(t, table);
      if pos < table.dataStart then Extend(table)
      else if table.dataStart - table.start > MAX_TABLE_HEADER then Keep
      else
        var row := RowStart(t, pos);
        if row >= end || row >= table.end then Keep else Move(table, row)
  }

  function Carry(t: Text, c: Chunk, tables: seq<Table>): Chunk
    requires IsPiece(t, c) && TablesOk(t, tables)
  {
    match Treat(t, c.pos, c.End(), tables)
    case Keep => c
    case Extend(table) => Chunk(t[table.start..c.End()], table.start)
    case Move(table, row) =>
      assert TableOk(t, table);
      Chunk(t[table.start..table.dataStart] + t[row..c.End()], row)
  }

  /** The first line start from `pos` on, or the end of the text. */
  ghost predicate NextRow(t: Text, pos: nat, row: nat) {
    pos <= row <= |t| && (row == |t| || LineStart(t, row)) && forall p: nat | pos <= p < row :: !LineStart(t, p)
  }

  /** What becomes of a chunk. One that starts within its table's first two rows begins with them; one
      that starts among the data rows begins at the next row, below a copy of the two, unless
      that is too long or no row is left; any other stays as it is. */
  ghost predicate Adjusted(t: Text, c: Chunk, r: Chunk, tables: seq<Table>) {
    && (forall table | table in tables && table.start < c.pos < table.dataStart && table.dataStart <= |t| && c.End() <= |t| ::
          table.start <= c.End() && r == Chunk(t[table.start..c.End()], table.start))
    && (forall table, row: nat | table in tables && table.start < table.dataStart <= c.pos < table.end && NextRow(t, c.pos, row) && c.End() <= |t| ::
          if table.dataStart - table.start <= 800 && row < c.End() && row < table.end
          then r == Chunk(t[table.start..table.dataStart] + t[row..c.End()], row) else r == c)
    && ((forall table | table in tables :: !(table.start < c.pos < table.end)) ==> r == c)
  }

  lemma RowStartIsNext(t: Text, pos: nat)
    requires 0 < pos <= |t|
    ensures NextRow(t, pos, RowStart(t, pos)) && forall row: nat | NextRow(t, pos, row) :: row == RowStart(t, pos)
  {
    if t[pos - 1] != NEWLINE {
      forall p: nat | pos <= p < RowStart(t, pos)
        ensures !LineStart(t, p)
      {
        if p > pos {
          NextLineIsNext(t, pos, p);
        }
      }
    }
  }

  lemma CarryAdjusts(t: Text, c: Chunk, tables: seq<Table>)
    requires IsPiece(t, c) && TablesOk(t, tables)
    ensures Adjusted(t, c, Carry(t, c, tables), tables)
  {
    forall table | table in tables && table.start < c.pos < table.end
      ensures FindTable(tables, c.pos) == Some(table) && TableOk(t, table)
    {
      TablesApart(t, tables, table, c.pos);
    }
    if 0 < c.pos {
      RowStartIsNext(t, c.pos);
    }
  }

  /** `r` is `c` from a row of `table` on, below the table's header. */
  ghost predicate Headed(t: Text, c: Chunk, r: Chunk, table: Table)
    requires r.pos <= c.End() <= |t|
  {
    && table.dataStart <= c.pos <= r.pos < table.end && LineStart(t, r.pos)
    && table.start <= table.dataStart <= |t| && table.dataStart - table.start <= MAX_TABLE_HEADER
    && IsBoundary(t, table.start) && IsBoundary(t, table.dataStart)
    && r.text == t[table.start..table.dataStart] + t[r.pos..c.End()]
  }

  /** A chunk keeps its end and stays a slice of the document from its offset on, preceded by
      nothing or by the header of the table it starts in, at most 800 bytes of it; every slice
      taken begins and ends at a character boundary. */
  lemma CarryKeepsTheEnd(t: Text, c: Chunk, tables: seq<Table>)
    requires Utf8(t) && IsSlice(t, c) && TablesOk(t, tables)
    ensures var r := Carry(t, c, tables);
            && r.pos <= c.End() && IsBoundary(t, r.pos)
            && (r.text == t[r.pos..c.End()] || exists table :: table in tables && Headed(t, c, r, table))
  {
    match Treat(t, c.pos, c.End(), tables)
    case Keep =>
    case Extend(table) =>
      assert TableOk(t, table);
      LineStartIsBoundary(t, table.start);
    case Move(table, row) =>
      MovedIsHeaded(t, c, tables);
  }

  lemma MovedIsHeaded(t: Text, c: Chunk, tables: seq<Table>)
    requires Utf8(t) && IsSlice(t, c) && TablesOk(t, tables) && Treat(t, c.pos, c.End(), tables).Move?
    ensures var r, table := Carry(t, c, tables), Treat(t, c.pos, c.End(), tables).table;
            r.pos <= c.End() && IsBoundary(t, r.pos) && table in tables && Headed(t, c, r, table)
  {
    var treatment := Treat(t, c.pos, c.End(), tables);
    var table := treatment.table;
    assert TableOk(t, table);
    LineStartIsBoundary(t, table.start);
    LineStartIsBoundary(t, table.dataStart);
    LineStartIsBoundary(t, treatment.row);
  }

  lemma LineStartIsBoundary(t: Text, p: nat)
    requires Utf8(t) && p <= |t|
    ensures LineStart(t, p) ==> IsBoundary(t, p)
  {
    assert ContinuesWide(t, p);
  }

  /** Where a chunk from `pos` to `end` starts once treated. */
  function StartOf(pos: nat, treatment: Treatment): nat {
    match treatment
    case Keep => pos
    case Extend(table) => table.start
    case Move(_, row) => row
  }

  lemma OrderBeforeHeader(t: Text, a: nat, aEnd: nat, b: nat, bEnd: nat, tables: seq<Table>)
    requires TablesOk(t, tables) && a < b && aEnd <= bEnd <= |t| && Treat(t, b, bEnd, tables).Extend?
    ensures StartOf(a, Treat(t, a, aEnd, tables)) <= StartOf(b, Treat(t, b, bEnd, tables))
  {
    var table := Treat(t, b, bEnd, tables).table;
    TablesApart(t, tables, table, a);
  }

  lemma OrderAfterMove(t: Text, a: nat, aEnd: nat, b: nat, bEnd: nat, tables: seq<Table>)
    requires TablesOk(t, tables) && a < b && aEnd <= bEnd <= |t|
    requires Treat(t, a, aEnd, tables).Move? && !Treat(t, b, bEnd, tables).Extend?
    ensures StartOf(a, Treat(t, a, aEnd, tables)) <= StartOf(b, Treat(t, b, bEnd, tables))
  {
    var r := Treat(t, a, aEnd, tables);
    if b < r.row {
      TablesApart(t, tables, r.table, b);
      SameRow(t, a, b);
      MovesAlike(t, b, bEnd, tables, r.table, r.row);
    }
  }

  /** Two positions with no row start between them have the same next row start. */
  lemma SameRow(t: Text, a: nat, b: nat)
    requires 0 < a < b <= |t|
    ensures b < RowStart(t, a) ==> RowStart(t, b) == RowStart(t, a)
  {
    NextLineIsNext(t, a, b);
  }

  lemma MovesAlike(t: Text, pos: nat, end: nat, tables: seq<Table>, table: Table, row: nat)
    requires end <= |t| && TablesOk(t, tables) && 0 < pos <= |t| && FindTable(tables, pos) == Some(table)
    requires !Treat(t, pos, end, tables).Extend? && table.dataStart - table.start <= MAX_TABLE_HEADER
    requires RowStart(t, pos) == row && row < end && row < table.end
    ensures Treat(t, pos, end, tables) == Move(table, row)
  {
  }

  /** Offsets stay in order. */
  lemma CarryKeepsTheOrder(t: Text, a: Chunk, b: Chunk, tables: seq<Table>)
    requires IsPiece(t, a) && IsPiece(t, b) && TablesOk(t, tables)
    requires a.pos < b.pos && a.End() <= b.End()
    ensures Carry(t, a, tables).pos <= Carry(t, b, tables).pos
  {
    if Treat(t, b.pos, b.End(), tables).Extend? {
      OrderBeforeHeader(t, a.pos, a.End(), b.pos, b.End(), tables);
    } else if Treat(t, a.pos, a.End(), tables).Move? {
      OrderAfterMove(t, a.pos, a.End(), b.pos, b.End(), tables);
    }
  }

  /** A position inside one table is inside no other. */
  lemma TablesApart(t: Text, tables: seq<Table>, table: Table, pos: nat)
    requires TablesOk(t, tables) && table in tables
    ensures Inside(table, pos) ==> FindTable(tables, pos) == Some(table)
    ensures forall other | other in tables && other != table :: other.end <= table.start || table.end <= other.start
  {
    var i :| 0 <= i < |tables| && tables[i] == table;
    forall other | other in tables && other != table
      ensures other.end <= table.start || table.end <= other.start
    {
      var j :| 0 <= j < |tables| && tables[j] == other;
    }
  }

  // ── Coverage ───────────────────────────────────────────────────────────────

  ghost predicate ArePieces(t: Text, chunks: seq<Chunk>) {
    forall i | 0 <= i < |chunks| :: IsPiece(t, chunks[i])
  }

  method CarryTableHeaders(t: Text, chunks: seq<Chunk>, tables: seq<Table>) returns (carried: seq<Chunk>)
    requires TablesOk(t, tables) && ArePieces(t, chunks)
    ensures |carried| == |chunks| && forall i | 0 <= i < |chunks| :: carried[i] == Carry(t, chunks[i], tables)
  {
    carried := [];
    for i := 0 to |chunks|
      invariant |carried| == i && forall j | 0 <= j < i :: carried[j] == Carry(t, chunks[j], tables)
    {
      carried := carried + [Carry(t, chunks[i], tables)];
    }
  }

  ghost predicate Overlaps(chunks: seq<Chunk>, i: nat) {
    i + 1 < |chunks| ==> chunks[i + 1].pos <= chunks[i].End()
  }

  /** Pieces in order that leave no gap. */
  ghost predicate Ordered(t: Text, chunks: seq<Chunk>) {
    && chunks != [] && chunks[0].pos == 0 && chunks[|chunks| - 1].End() == |t|
    && ArePieces(t, chunks)
    && (forall i, j | 0 <= i < j < |chunks| :: chunks[i].pos < chunks[j].pos && chunks[i].End() <= chunks[j].End())
    && (forall i: nat :: Overlaps(chunks, i))
  }

  /** Byte `p` of the document is in some carried chunk. */
  ghost predicate Covered(t: Text, chunks: seq<Chunk>, tables: seq<Table>, p: nat)
    requires TablesOk(t, tables) && ArePieces(t, chunks)
  {
    exists i :: 0 <= i < |chunks| && Carry(t, chunks[i], tables).pos <= p < chunks[i].End()
  }

  /** `pos` lies within a data row of a table whose header is carried along, and the next row
      starts before the table and a chunk that ends at `end` are over. */
  predicate CutsRow(t: Text, tables: seq<Table>, pos: nat, end: nat)
    requires pos <= |t|
  {
    && !LineStart(t, pos) && NextLine(t, pos) < end
    && exists table :: table in tables && table.start < pos && table.dataStart <= pos < table.end
         && table.dataStart - table.start <= MAX_TABLE_HEADER && NextLine(t, pos) < table.end
  }

  /** Chunk `i + 1` starts within such a row, and chunk `i` ends before the row does, not after
      byte `p` of it. */
  predicate Loses(t: Text, chunks: seq<Chunk>, tables: seq<Table>, i: nat, p: nat) {
    i + 1 < |chunks| &&
    var next := chunks[i + 1];
    next.pos <= |t| && CutsRow(t, tables, next.pos, next.End()) && chunks[i].End() <= p < NextLine(t, next.pos)
  }

  lemma CutRowMoves(t: Text, c: Chunk, tables: seq<Table>)
    requires TablesOk(t, tables) && IsPiece(t, c) && CutsRow(t, tables, c.pos, c.End())
    ensures Carry(t, c, tables).pos == NextLine(t, c.pos)
  {
    var table :| table in tables && table.start < c.pos && table.dataStart <= c.pos < table.end
                 && table.dataStart - table.start <= MAX_TABLE_HEADER && NextLine(t, c.pos) < table.end;
    TablesApart(t, tables, table, c.pos);
    assert Treat(t, c.pos, c.End(), tables) == Move(table, NextLine(t, c.pos));
  }

  lemma MovedCutsRow(t: Text, c: Chunk, tables: seq<Table>)
    requires TablesOk(t, tables) && IsPiece(t, c) && Carry(t, c, tables).pos > c.pos
    ensures CutsRow(t, tables, c.pos, c.End()) && Carry(t, c, tables).pos == NextLine(t, c.pos)
  {
    var r := Treat(t, c.pos, c.End(), tables);
    assert r.Move? && r.row > c.pos;
    RowAfter(t, c.pos, c.End(), tables);
  }

  lemma RowAfter(t: Text, pos: nat, end: nat, tables: seq<Table>)
    requires end <= |t| && TablesOk(t, tables) && Treat(t, pos, end, tables).Move?
    ensures var r := Treat(t, pos, end, tables);
            && 0 < pos < r.table.end && r.table.start < pos
            && (r.row > pos ==> !LineStart(t, pos) && r.row == NextLine(t, pos))
  {
  }

  lemma LostIsUncovered(t: Text, chunks: seq<Chunk>, tables: seq<Table>, i: nat, p: nat)
    requires TablesOk(t, tables) && Ordered(t, chunks) && Loses(t, chunks, tables, i, p)
    ensures !Covered(t, chunks, tables, p)
  {
    CutRowMoves(t, chunks[i + 1], tables);
    forall j | 0 <= j < |chunks|
      ensures !(Carry(t, chunks[j], tables).pos <= p < chunks[j].End())
    {
      if i + 1 < j {
        CarryKeepsTheOrder(t, chunks[i + 1], chunks[j], tables);
      }
    }
  }

  lemma LostBefore(t: Text, chunks: seq<Chunk>, tables: seq<Table>, n: nat, p: nat)
    requires TablesOk(t, tables) && Ordered(t, chunks) && n < |chunks|
    requires n > 0 ==> chunks[n - 1].End() <= p
    requires p < Carry(t, chunks[n], tables).pos
    ensures n > 0 && Loses(t, chunks, tables, n - 1, p)
  {
    if n > 0 {
      assert Overlaps(chunks, n - 1);
    }
    MovedCutsRow(t, chunks[n], tables);
  }

  ghost predicate Lost(t: Text, chunks: seq<Chunk>, tables: seq<Table>, p: nat) {
    exists i: nat :: Loses(t, chunks, tables, i, p)
  }

  lemma {:induction false} UncoveredIsLost(t: Text, chunks: seq<Chunk>, tables: seq<Table>, n: nat, p: nat)
    requires TablesOk(t, tables) && Ordered(t, chunks) && n < |chunks| && p < chunks[n].End()
    requires !Covered(t, chunks, tables, p)
    ensures Lost(t, chunks, tables, p)
  {
    if n > 0 && p < chunks[n - 1].End() {
      UncoveredIsLost(t, chunks, tables, n - 1, p);
    } else {
      assert p < Carry(t, chunks[n], tables).pos;
      LostBefore(t, chunks, tables, n, p);
    }
  }

  /** A byte is in no carried chunk exactly when some chunk starts within a data row, of a table
      with a header of at most 800 bytes, that goes on past the end of the chunk before it and
      ends before the chunk and the table do, and the byte is in what is left of that row. */
  lemma ByteIsLostIff(t: Text, chunks: seq<Chunk>, tables: seq<Table>, p: nat)
    requires TablesOk(t, tables) && Ordered(t, chunks) && p < |t|
    ensures !Covered(t, chunks, tables, p) <==> Lost(t, chunks, tables, p)
  {
    if Lost(t, chunks, tables, p) {
      var i: nat :| Loses(t, chunks, tables, i, p);
      LostIsUncovered(t, chunks, tables, i, p);
    } else if !Covered(t, chunks, tables, p) {
      UncoveredIsLost(t, chunks, tables, |chunks| - 1, p);
    }
  }

  lemma DocumentIsOrdered(t: Text, breaks: seq<BreakPoint>, fences: seq<Fence>)
    requires Utf8(t)
    ensures TablesOk(t, Tables(t, fences)) && Ordered(t, ChunkFromBreakPoints(t, breaks))
  {
    TablesAreOk(t, fences);
    ChunkingIsLossless(t, breaks);
    WellChunkedIsOrdered(t, breaks, ChunkFromBreakPoints(t, breaks));
  }

  /** Every byte of a document is in some carried chunk exactly when no chunk boundary loses the
      byte right after it. */
  lemma CoverageIff(t: Text, breaks: seq<BreakPoint>, fences: seq<Fence>)
    requires Utf8(t)
    ensures var chunks, tables := ChunkFromBreakPoints(t, breaks), Tables(t, fences);
            && TablesOk(t, tables) && Ordered(t, chunks)
            && ((forall p: nat | p < |t| :: Covered(t, chunks, tables, p)) <==>
                  (forall i: nat | i < |chunks| :: !Loses(t, chunks, tables, i, chunks[i].End())))
  {
    DocumentIsOrdered(t, breaks, fences);
    CoverageOf(t, ChunkFromBreakPoints(t, breaks), Tables(t, fences));
  }

  lemma CoverageOf(t: Text, chunks: seq<Chunk>, tables: seq<Table>)
    requires TablesOk(t, tables) && Ordered(t, chunks)
    ensures (forall p: nat | p < |t| :: Covered(t, chunks, tables, p)) <==>
              (forall i: nat | i < |chunks| :: !Loses(t, chunks, tables, i, chunks[i].End()))
  {
    forall p: nat | p < |t| && !Covered(t, chunks, tables, p)
      ensures exists i: nat :: i < |chunks| && Loses(t, chunks, tables, i, chunks[i].End())
    {
      ByteIsLostIff(t, chunks, tables, p);
      var i: nat :| Loses(t, chunks, tables, i, p);
      assert Loses(t, chunks, tables, i, chunks[i].End());
    }
    forall i: nat | i < |chunks| && Loses(t, chunks, tables, i, chunks[i].End())
      ensures chunks[i].End() < |t| && !Covered(t, chunks, tables, chunks[i].End())
    {
      LostIsUncovered(t, chunks, tables, i, chunks[i].End());
    }
  }

  /** Every data row is at most 540 bytes long with its newline. */
  ghost predicate RowsFit(t: Text, tables: seq<Table>) {
    forall table, p: nat | table in tables && table.dataStart <= p < table.end && p < |t| && LineStart(t, p) ::
      NextLine(t, p) <= p + CHUNK_OVERLAP
  }

  /** The chunks of a document stay complete when its table rows fit the overlap. */
  lemma ShortRowsAreCovered(t: Text, breaks: seq<BreakPoint>, fences: seq<Fence>)
    requires Utf8(t) && RowsFit(t, Tables(t, fences))
    ensures var chunks, tables := ChunkFromBreakPoints(t, breaks), Tables(t, fences);
            && TablesOk(t, tables) && Ordered(t, chunks)
            && forall p: nat | p < |t| :: Covered(t, chunks, tables, p)
  {
    var chunks, tables := ChunkFromBreakPoints(t, breaks), Tables(t, fences);
    DocumentIsOrdered(t, breaks, fences);
    ChunkingIsLossless(t, breaks);
    forall i: nat | i < |chunks|
      ensures !Loses(t, chunks, tables, i, chunks[i].End())
    {
      ShortRowKeeps(t, breaks, chunks, tables, i);
    }
    CoverageOf(t, chunks, tables);
  }

  lemma ShortRowKeeps(t: Text, breaks: seq<BreakPoint>, chunks: seq<Chunk>, tables: seq<Table>, i: nat)
    requires TablesOk(t, tables) && RowsFit(t, tables) && WellChunked(t, breaks, chunks) && i < |chunks|
    ensures !Loses(t, chunks, tables, i, chunks[i].End())
  {
    if i + 1 < |chunks| {
      var next := chunks[i + 1];
      assert Linked(t, breaks, chunks, i) && IsSlice(t, next);
      if CutsRow(t, tables, next.pos, next.End()) {
        CutRowIsShort(t, next.pos, next.End(), tables);
      }
    }
  }

  lemma CutRowIsShort(t: Text, pos: nat, end: nat, tables: seq<Table>)
    requires TablesOk(t, tables) && RowsFit(t, tables) && pos <= |t| && CutsRow(t, tables, pos, end)
    ensures NextLine(t, pos) <= pos + CHUNK_OVERLAP
  {
    var table :| table in tables && table.start < pos && table.dataStart <= pos < table.end;
    assert TableOk(t, table);
    var p := RowContaining(t, pos, table.dataStart);
    assert NextLine(t, p) <= p + CHUNK_OVERLAP;
  }

  lemma {:induction false} WellChunkedIsOrdered(t: Text, breaks: seq<BreakPoint>, chunks: seq<Chunk>)
    requires WellChunked(t, breaks, chunks) && chunks[0].pos == 0
    ensures Ordered(t, chunks)
  {
    forall i, j | 0 <= i < j < |chunks|
      ensures chunks[i].pos < chunks[j].pos && chunks[i].End() <= chunks[j].End()
    {
      ChunksAscend(t, breaks, chunks, i, j);
    }
    forall i: nat
      ensures Overlaps(chunks, i)
    {
      assert Linked(t, breaks, chunks, i);
    }
    SlicesArePieces(t, chunks);
  }

  lemma {:induction false} ChunksAscend(t: Text, breaks: seq<BreakPoint>, chunks: seq<Chunk>, i: nat, j: nat)
    requires WellChunked(t, breaks, chunks) && i < j < |chunks|
    ensures chunks[i].pos < chunks[j].pos && chunks[i].End() <= chunks[j].End()
    decreases j
  {
    var before := j - 1;
    NextAscends(t, breaks, chunks, before);
    if i < before {
      ChunksAscend(t, breaks, chunks, i, before);
    }
  }

  lemma NextAscends(t: Text, breaks: seq<BreakPoint>, chunks: seq<Chunk>, i: nat)
    requires WellChunked(t, breaks, chunks) && i + 1 < |chunks|
    ensures chunks[i].pos < chunks[i + 1].pos && chunks[i].End() <= chunks[i + 1].End()
  {
    assert Linked(t, breaks, chunks, i) && Linked(t, breaks, chunks, i + 1);
    assert IsSlice(t, chunks[i]) && IsSlice(t, chunks[i + 1]);
  }

  // ── A table that loses text ────────────────────────────────────────────────

  /** A header, a separator, one row of 5002 bytes and one of two. */
  ghost predicate IsLongRowText(t: Text) {
    |t| == 5009 && forall i | 0 <= i < |t| :: t[i] == LongRowByte(i)
  }

  function LongRowByte(i: nat): Byte {
    if i == 1 || i == 4 || i == 5006 || i == 5008 then NEWLINE else if i == 3 then DASH else PIPE
  }

  lemma {:induction false} NoNewlineBefore(t: Text, p: nat, q: nat)
    requires p <= q < |t| && t[q] == NEWLINE && forall i | p <= i < q :: t[i] != NEWLINE
    ensures NextLine(t, p) == q + 1
    decreases q - p
  {
    if p < q {
      NoNewlineBefore(t, p + 1, q);
    }
  }

  lemma LongRowLines(t: Text)
    requires IsLongRowText(t)
    ensures NextLine(t, 0) == 2 && NextLine(t, 2) == 5 && NextLine(t, 5) == NextLine(t, 3060) == 5007 && NextLine(t, 5007) == 5009
  {
    NoNewlineBefore(t, 0, 1);
    NoNewlineBefore(t, 2, 4);
    NoNewlineBefore(t, 5, 5006);
    NoNewlineBefore(t, 3060, 5006);
    NoNewlineBefore(t, 5007, 5008);
  }

  /** It has no fence mark, so no fence. */
  lemma LongRowFences(t: Text, fences: seq<Fence>)
    requires IsLongRowText(t) && PairsUp(t, Marks(t, 0), fences)
    ensures fences == []
  {
    NoMarks(t, 0);
  }

  lemma LongRowRows(t: Text)
    requires IsLongRowText(t)
    ensures RowAt(t, [], 0) && RowAt(t, [], 2) && RowAt(t, [], 5) && RowAt(t, [], 5007) && SeparatorAt(t, 2)
  {
    LongRowLines(t);
    PipeIsRow(t[0..2]);
    PipeIsRow(t[2..5]);
    PipeIsRow(t[5..5007]);
    PipeIsRow(t[5007..5009]);
    ShortestSeparator();
    assert t[2..5] == [PIPE, DASH, 10];
  }

  lemma LongRowTable(t: Text)
    requires IsLongRowText(t)
    ensures Tables(t, []) == [Table(0, 5, 5009)]
  {
    LongRowLines(t);
    LongRowRows(t);
    var all := Run([0, 2, 5, 5007], 5009);
    assert ScanFrom(t, [], 5009, all, []) == [Table(0, 5, 5009)];
    assert [0, 2, 5] + [5007] == all.rows && [0, 2] + [5] == [0, 2, 5] && [0] + [2] == [0, 2];
    assert ScanFrom(t, [], 5007, Run([0, 2, 5], 5007), []) == [Table(0, 5, 5009)];
    assert ScanFrom(t, [], 5, Run([0, 2], 5), []) == [Table(0, 5, 5009)];
    assert ScanFrom(t, [], 2, Run([0], 2), []) == [Table(0, 5, 5009)];
    assert [] + [0] == [0];
  }

  /** Every break pattern of the chunker begins with a newline. */
  ghost predicate AtNewlines(t: Text, breaks: seq<BreakPoint>) {
    forall b | b in breaks :: b.pos < |t| && t[b.pos] == NEWLINE
  }

  lemma LongRowChunks(t: Text, breaks: seq<BreakPoint>)
    requires IsLongRowText(t) && AtNewlines(t, breaks)
    ensures Utf8(t) && ChunkFromBreakPoints(t, breaks) == [Chunk(t[0..3600], 0), Chunk(t[3060..], 3060)]
  {
    FirstHardCut(t, breaks);
    var start, end := 0, 3600;
    assert ChunksFrom(t, breaks, 3060) == [Chunk(t[3060..], 3060)];
    assert ChunksFrom(t, breaks, start) == [Chunk(t[start..end], start)] + ChunksFrom(t, breaks, NextStart(t, end));
  }

  lemma FirstHardCut(t: Text, breaks: seq<BreakPoint>)
    requires IsLongRowText(t) && AtNewlines(t, breaks)
    ensures Utf8(t) && CutEnd(t, breaks, 0) == 3600 && NextStart(t, 3600) == 3060
  {
    AsciiIsUtf8(t);
    BestCandidateIsBest(breaks, 3200, 4000);
    assert RawCut(t, breaks, 0) == 3600;
    assert IsBoundary(t, 3600) && IsBoundary(t, 3060);
  }

  /** Longer rows can lose text, whatever break points the patterns find: the second chunk of this
      document moves past everything the first one left of the long row. */
  lemma LongRowsLoseBytes(t: Text, breaks: seq<BreakPoint>, fences: seq<Fence>, p: nat)
    requires IsLongRowText(t) && AtNewlines(t, breaks) && PairsUp(t, Marks(t, 0), fences)
    ensures var chunks, tables := ChunkFromBreakPoints(t, breaks), Tables(t, fences);
            && Utf8(t) && TablesOk(t, tables) && Ordered(t, chunks)
            && (p < |t| ==> (!Covered(t, chunks, tables, p) <==> 3600 <= p < 5007))
  {
    LongRowFences(t, fences);
    LongRowDocument(t, breaks, p);
  }

  lemma LongRowDocument(t: Text, breaks: seq<BreakPoint>, p: nat)
    requires IsLongRowText(t) && AtNewlines(t, breaks)
    ensures var chunks, tables := ChunkFromBreakPoints(t, breaks), Tables(t, []);
            && Utf8(t) && TablesOk(t, tables) && Ordered(t, chunks)
            && (p < |t| ==> (!Covered(t, chunks, tables, p) <==> 3600 <= p < 5007))
  {
    LongRowChunks(t, breaks);
    DocumentIsOrdered(t, breaks, []);
    LongRowTable(t);
    LongRowLosesBytes(t, ChunkFromBreakPoints(t, breaks), Tables(t, []), p);
  }

  lemma LongRowLosesBytes(t: Text, chunks: seq<Chunk>, tables: seq<Table>, p: nat)
    requires IsLongRowText(t) && tables == [Table(0, 5, 5009)] && TablesOk(t, tables)
    requires chunks == [Chunk(t[0..3600], 0), Chunk(t[3060..], 3060)] && Ordered(t, chunks)
    ensures p < |t| ==> (!Covered(t, chunks, tables, p) <==> 3600 <= p < 5007)
  {
    LongRowLines(t);
    if p < |t| {
      ByteIsLostIff(t, chunks, tables, p);
      LongRowLoses(t, chunks, tables, p);
    }
  }

  lemma LongRowLoses(t: Text, chunks: seq<Chunk>, tables: seq<Table>, p: nat)
    requires IsLongRowText(t) && tables == [Table(0, 5, 5009)] && NextLine(t, 3060) == 5007
    requires chunks == [Chunk(t[0..3600], 0), Chunk(t[3060..], 3060)]
    ensures Lost(t, chunks, tables, p) <==> 3600 <= p < 5007
  {
    var table := tables[0];
    assert table in tables && CutsRow(t, tables, 3060, 5009);
    assert Loses(t, chunks, tables, 0, p) <==> 3600 <= p < 5007;
    assert forall i: nat :: Loses(t, chunks, tables, i, p) ==> i == 0;
  }

  // ── A whole document ───────────────────────────────────────────────────────

  /** The chunks of a document as they are embedded, with the fences found in it; `breaks` are the
      matches of the break patterns outside those fences. */
  method ChunkDocument(t: Text, breaks: seq<BreakPoint>) returns (carried: seq<Chunk>, fences: seq<Fence>)
    requires Utf8(t)
    ensures PairsUp(t, Marks(t, 0), fences)
    ensures TablesOk(t, Tables(t, fences)) && ArePieces(t, ChunkFromBreakPoints(t, breaks))
    ensures var chunks := ChunkFromBreakPoints(t, breaks);
            |carried| == |chunks| && forall i | 0 <= i < |chunks| ::
              carried[i] == if |t| <= CHUNK_SIZE then chunks[i] else Carry(t, chunks[i], Tables(t, fences))
    ensures var chunks := ChunkFromBreakPoints(t, breaks);
            |t| > CHUNK_SIZE ==> forall i | 0 <= i < |chunks| :: Adjusted(t, chunks[i], carried[i], Tables(t, fences))
  {
    fences := ScanCodeFences(t);
    TablesAreOk(t, fences);
    ChunksArePieces(t, breaks);
    var chunks := ChunkText(t, breaks);
    if |t| <= CHUNK_SIZE {
      return chunks, fences;
    }
    var tables := ScanTables(t, fences);
    carried := CarryTableHeaders(t, chunks, tables);
    forall i | 0 <= i < |chunks|
      ensures Adjusted(t, chunks[i], carried[i], tables)
    {
      CarryAdjusts(t, chunks[i], tables);
    }
  }

  lemma ChunksArePieces(t: Text, breaks: seq<BreakPoint>)
    requires Utf8(t)
    ensures ArePieces(t, ChunkFromBreakPoints(t, breaks))
  {
    ChunkingIsLossless(t, breaks);
    SlicesArePieces(t, ChunkFromBreakPoints(t, breaks));
  }

  lemma SlicesArePieces(t: Text, chunks: seq<Chunk>)
    requires forall i | 0 <= i < |chunks| :: IsSlice(t, chunks[i])
    ensures ArePieces(t, chunks)
  {
  }
}
