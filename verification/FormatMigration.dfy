/**
 The markdown format migration: metadata rows, and candidate tables without their Email and
 Website columns. `src/voter_api/cli/convert_cmd.py`, lines 176-178 and 225-448.

 A file is its sequence of lines. Inferred texts (election type, body, seat) are inputs.
 */
module FormatMigration {
  import opened Prelude
  import opened MarkdownText

  function Renamed(cells: seq<string>): (r: seq<string>)
    ensures |r| == |cells|
  {
    seq(|cells|, i requires 0 <= i < |cells| => if cells[i] == "Qualified" then "Qualified Date" else cells[i])
  }

  // ---------------------------------------------------------------- the scanner, as a function

  predicate HeaderLike(line: string) {
    Contains(line, "|") && Contains(line, "Candidate") && Contains(line, "Email") && Contains(line, "Website")
  }

  predicate IsRow(line: string) {
    StartsWith(line, "|") && Strip(line) != "|"
  }

  datatype Columns = Columns(email: Option<nat>, website: Option<nat>)

  function ColumnsOf(header: string): Columns {
    Columns(IndexOf(HeadCells(header), "Email"), IndexOf(HeadCells(header), "Website"))
  }

  function NewHeader(line: string): string {
    Line(Renamed(Project(HeadCells(line), ColumnsOf(line).email, ColumnsOf(line).website)))
  }

  function NewSeparator(line: string, c: Columns): string {
    Line(Project(HeadCells(line), c.email, c.website))
  }

  function NewRow(line: string, c: Columns): string {
    if |Cells(line)| >= 7 && c.email.Some? && c.website.Some? then Line(Project(Cells(line), c.email, c.website))
    else line
  }

  /** `_reduce_candidate_table_columns`. */
  function Reduce(lines: seq<string>): seq<string>
    decreases |lines|, 1
  {
    if lines == [] then []
    else if HeaderLike(lines[0]) then [NewHeader(lines[0])] + AfterHeader(lines[1..], ColumnsOf(lines[0]))
    else [lines[0]] + Reduce(lines[1..])
  }

  /** The line after a header is the separator, or is lost when it does not start with a bar. */
  function AfterHeader(lines: seq<string>, c: Columns): seq<string>
    decreases |lines|, 0
  {
    if lines == [] then []
    else (if StartsWith(lines[0], "|") then [NewSeparator(lines[0], c)] else []) + InTable(lines[1..], c)
  }

  function InTable(lines: seq<string>, c: Columns): seq<string>
    decreases |lines|, 2
  {
    if lines != [] && IsRow(lines[0]) then [NewRow(lines[0], c)] + InTable(lines[1..], c) else Reduce(lines)
  }

  // ---------------------------------------------------------------- what happens to each line

  datatype Kind = Outside | Header | Separator(c: Columns) | Lost | Row(c: Columns)

  /** Where the scanner stands before a line. */
  datatype Place = Scanning | AfterTop(c: Columns) | Inside(c: Columns)

  function KindAt(p: Place, line: string): Kind {
    match p
    case AfterTop(c) => if StartsWith(line, "|") then Separator(c) else Lost
    case Inside(c) => if IsRow(line) then Row(c) else if HeaderLike(line) then Header else Outside
    case Scanning => if HeaderLike(line) then Header else Outside
  }

  function Next(p: Place, line: string): Place {
    match KindAt(p, line)
    case Outside => Scanning
    case Header => AfterTop(ColumnsOf(line))
    case _ => Inside(p.c)
  }

  function KindsFrom(p: Place, lines: seq<string>): (r: seq<Kind>)
    ensures |r| == |lines|
    decreases |lines|
  {
    if lines == [] then [] else [KindAt(p, lines[0])] + KindsFrom(Next(p, lines[0]), lines[1..])
  }

  function Kinds(lines: seq<string>): (r: seq<Kind>)
    ensures |r| == |lines|
  {
    KindsFrom(Scanning, lines)
  }

  ghost function PlaceAt(p: Place, lines: seq<string>, i: nat): Place
    requires i <= |lines|
    decreases i
  {
    if i == 0 then p else PlaceAt(Next(p, lines[0]), lines[1..], i - 1)
  }

  lemma {:induction false} KindsFromAt(p: Place, lines: seq<string>, i: nat)
    requires i < |lines|
    ensures KindsFrom(p, lines)[i] == KindAt(PlaceAt(p, lines, i), lines[i])
    decreases i
  {
    hide KindAt, Next;
    if i > 0 {
      KindsFromAt(Next(p, lines[0]), lines[1..], i - 1);
    }
  }

  lemma {:induction false} PlaceNext(p: Place, lines: seq<string>, i: nat)
    requires i < |lines|
    ensures PlaceAt(p, lines, i + 1) == Next(PlaceAt(p, lines, i), lines[i])
    decreases i
  {
    hide Next;
    if i > 0 {
      PlaceNext(Next(p, lines[0]), lines[1..], i - 1);
    }
  }

  /** What each kind says about its line and the line before. */
  ghost predicate KindFits(lines: seq<string>, kinds: seq<Kind>, i: nat)
    requires |kinds| == |lines| && i < |lines|
  {
    match kinds[i]
    case Outside => !HeaderLike(lines[i]) && (i > 0 ==> !kinds[i - 1].Header?)
    case Header => HeaderLike(lines[i]) && (i > 0 ==> !kinds[i - 1].Header?)
    case Separator(_) => i > 0 && kinds[i - 1].Header? && StartsWith(lines[i], "|")
    case Lost => i > 0 && kinds[i - 1].Header? && !StartsWith(lines[i], "|")
    case Row(_) => i > 0 && !kinds[i - 1].Header? && IsRow(lines[i])
  }

  lemma {:induction false} KindsFit(lines: seq<string>, i: nat)
    requires i < |lines|
    ensures KindFits(lines, Kinds(lines), i)
  {
    hide HeaderLike, IsRow, ColumnsOf, StartsWith, KindsFrom;
    KindsFromAt(Scanning, lines, i);
    if i > 0 {
      KindsFromAt(Scanning, lines, i - 1);
      PlaceNext(Scanning, lines, i - 1);
    }
  }

  function Emit(line: string, k: Kind): seq<string> {
    match k
    case Outside => [line]
    case Header => [NewHeader(line)]
    case Separator(c) => [NewSeparator(line, c)]
    case Lost => []
    case Row(c) => [NewRow(line, c)]
  }

  function EmitAll(lines: seq<string>, kinds: seq<Kind>): seq<string>
    requires |lines| == |kinds|
  {
    if lines == [] then [] else Emit(lines[0], kinds[0]) + EmitAll(lines[1..], kinds[1..])
  }

  lemma {:induction false} EmitAllStep(p: Place, lines: seq<string>)
    requires lines != []
    ensures EmitAll(lines, KindsFrom(p, lines))
         == Emit(lines[0], KindAt(p, lines[0])) + EmitAll(lines[1..], KindsFrom(Next(p, lines[0]), lines[1..]))
  {
    hide KindAt, Next, Emit;
    assert KindsFrom(p, lines)[1..] == KindsFrom(Next(p, lines[0]), lines[1..]);
  }

  lemma {:induction false} LeavingEmits(c: Columns, lines: seq<string>)
    requires lines == [] || !IsRow(lines[0])
    ensures KindsFrom(Inside(c), lines) == KindsFrom(Scanning, lines)
  {
    hide HeaderLike, IsRow, ColumnsOf;
  }

  lemma {:induction false} AfterHeaderEmits(lines: seq<string>, c: Columns)
    ensures AfterHeader(lines, c) == EmitAll(lines, KindsFrom(AfterTop(c), lines))
    decreases |lines|, 0
  {
    if lines != [] {
      hide NewHeader, NewSeparator, NewRow, ColumnsOf, HeaderLike, IsRow, StartsWith, InTable, KindsFrom, EmitAll;
      InTableEmits(lines[1..], c);
      EmitAllStep(AfterTop(c), lines);
    }
  }

  lemma {:induction false} InTableEmits(lines: seq<string>, c: Columns)
    ensures InTable(lines, c) == EmitAll(lines, KindsFrom(Inside(c), lines))
    decreases |lines|, 2
  {
    hide NewHeader, NewSeparator, NewRow, ColumnsOf, HeaderLike, IsRow, Reduce, KindsFrom, EmitAll;
    if lines != [] && IsRow(lines[0]) {
      InTableEmits(lines[1..], c);
      EmitAllStep(Inside(c), lines);
    } else {
      ReduceEmits(lines);
      LeavingEmits(c, lines);
    }
  }

  /** The scanner treats every line by its place: outside, header, separator or row of a table. */
  lemma {:induction false} ReduceEmits(lines: seq<string>)
    ensures Reduce(lines) == EmitAll(lines, Kinds(lines))
    decreases |lines|, 1
  {
    if lines != [] {
      hide NewHeader, NewSeparator, NewRow, ColumnsOf, HeaderLike, AfterHeader, KindsFrom, EmitAll;
      EmitAllStep(Scanning, lines);
      if HeaderLike(lines[0]) {
        AfterHeaderEmits(lines[1..], ColumnsOf(lines[0]));
      } else {
        ReduceEmits(lines[1..]);
      }
    }
  }

  function LostLines(kinds: seq<Kind>): nat {
    if kinds == [] then 0 else (if kinds[0].Lost? then 1 else 0) + LostLines(kinds[1..])
  }

  lemma {:induction false} EmitAllCounts(lines: seq<string>, kinds: seq<Kind>)
    requires |lines| == |kinds|
    ensures |EmitAll(lines, kinds)| + LostLines(kinds) == |lines|
    ensures LostLines(kinds) == 0 <==> forall i :: 0 <= i < |kinds| ==> !kinds[i].Lost?
    ensures LostLines(kinds) == 0 ==> forall i :: 0 <= i < |lines| ==> Emit(lines[i], kinds[i]) == [EmitAll(lines, kinds)[i]]
  {
    if lines != [] {
      hide Emit;
      assert |Emit(lines[0], kinds[0])| == if kinds[0].Lost? then 0 else 1 by { EmitOne(lines[0], kinds[0]); }
      EmitAllCounts(lines[1..], kinds[1..]);
      var out, rest := EmitAll(lines, kinds), EmitAll(lines[1..], kinds[1..]);
      if LostLines(kinds) == 0 {
        forall i | 0 <= i < |lines| ensures Emit(lines[i], kinds[i]) == [out[i]] && !kinds[i].Lost? {
          if i > 0 {
            assert lines[i] == lines[1..][i - 1] && kinds[i] == kinds[1..][i - 1] && out[i] == rest[i - 1];
          }
        }
      } else if !kinds[0].Lost? {
        var i :| 0 <= i < |kinds| - 1 && kinds[1..][i].Lost?;
        assert kinds[i + 1].Lost?;
      }
    }
  }

  lemma {:induction false} EmitOne(line: string, k: Kind)
    ensures |Emit(line, k)| == if k.Lost? then 0 else 1
  {
  }

  /** The line count is kept exactly when no line is lost; then each line goes to its own position. */
  lemma {:induction false} LinesKept(lines: seq<string>)
    ensures |Reduce(lines)| == |lines| <==> forall i :: 0 <= i < |lines| ==> !Kinds(lines)[i].Lost?
    ensures |Reduce(lines)| == |lines| ==> forall i :: 0 <= i < |lines| ==>
              [Reduce(lines)[i]] == Emit(lines[i], Kinds(lines)[i])
  {
    ReduceEmits(lines);
    hide Emit, Reduce, Kinds;
    EmitAllCounts(lines, Kinds(lines));
  }

  // ---------------------------------------------------------------- a table in a file

  /** The line mentions the word. */
  ghost predicate Mentions(line: string, word: string) {
    exists a, b :: line == a + word + b
  }

  /** A line opens a table exactly when it has a bar and mentions Candidate, Email and Website. */
  lemma {:induction false} HeaderMeaning(line: string)
    ensures HeaderLike(line)
        <==> Mentions(line, "|") && Mentions(line, "Candidate") && Mentions(line, "Email") && Mentions(line, "Website")
  {
    ContainsMeaning(line, "|");
    ContainsMeaning(line, "Candidate");
    ContainsMeaning(line, "Email");
    ContainsMeaning(line, "Website");
    hide Contains;
  }

  /** A line is a row exactly when it starts with a bar and has more than white space after it. */
  lemma {:induction false} RowMeaning(line: string)
    ensures IsRow(line) <==> line != "" && line[0] == '|' && exists i :: 0 < i < |line| && !IsSpace(line[i])
  {
    StartsMeaning(line, "|");
    if line != "" && line[0] == '|' {
      assert line == "|" + line[1..];
      var a, b := StripSplits(line);
      hide Strip;
      assert line == a + (Strip(line) + b);
      FirstOfSpace(a, Strip(line) + b);
      if Strip(line) == "|" {
        assert line == "|" + b;
        assert forall i :: 0 < i < |line| ==> line[i] in b;
      } else {
        SomethingElse(line, b);
      }
    }
  }

  lemma {:induction false} SomethingElse(line: string, b: string)
    requires line != "" && line[0] == '|' && line == Strip(line) + b && AllSpace(b) && Strip(line) != "|"
    requires Strip(line) != "" ==> !IsSpace(Strip(line)[|Strip(line)| - 1])
    ensures exists i :: 0 < i < |line| && !IsSpace(line[i])
  {
    hide Strip;
    var t := Strip(line);
    FirstOfSpace(b, "");
    assert b + "" == b && "" + b == b;
    assert t != "";
    assert t[..1] == [line[0]] && t[..|t|] == t;
    assert line[|t| - 1] == t[|t| - 1];
  }

  lemma {:induction false} FirstOfSpace(a: string, rest: string)
    requires AllSpace(a)
    ensures a != "" ==> IsSpace((a + rest)[0])
  {
    if a != "" {
      assert a[0] in a;
    }
  }

  function NewRows(rows: seq<string>, c: Columns): (r: seq<string>)
    ensures |r| == |rows|
  {
    seq(|rows|, i requires 0 <= i < |rows| => NewRow(rows[i], c))
  }

  /** Lines before the first table are copied. */
  lemma {:induction false} LinesBefore(x: seq<string>, rest: seq<string>)
    requires forall line :: line in x ==> !HeaderLike(line)
    ensures Reduce(x + rest) == x + Reduce(rest)
  {
    if x == [] {
      assert x + rest == rest;
    } else {
      hide HeaderLike;
      assert x[0] in x;
      assert (x + rest)[1..] == x[1..] + rest;
      LinesBefore(x[1..], rest);
      assert x == [x[0]] + x[1..];
      ConcatAssoc([x[0]], x[1..], Reduce(rest));
    }
  }

  lemma {:induction false} RowsInside(rows: seq<string>, rest: seq<string>, c: Columns)
    requires forall row :: row in rows ==> IsRow(row)
    requires rest == [] || !IsRow(rest[0])
    ensures InTable(rows + rest, c) == NewRows(rows, c) + Reduce(rest)
  {
    hide IsRow, NewRow, Reduce;
    if rows == [] {
      assert rows + rest == rest;
    } else {
      assert rows[0] in rows;
      assert (rows + rest)[0] == rows[0] && (rows + rest)[1..] == rows[1..] + rest;
      RowsInside(rows[1..], rest, c);
      assert NewRows(rows, c) == [NewRow(rows[0], c)] + NewRows(rows[1..], c);
      hide InTable, NewRows;
      assert [NewRow(rows[0], c)] + (NewRows(rows[1..], c) + Reduce(rest)) == NewRows(rows, c) + Reduce(rest);
    }
  }

  /**
   A table is its header line, a separator starting with a bar, and the rows that follow up to
   the first line that is no row; each is rewritten by the columns of the header, and the lines
   after it are scanned anew.
   */
  lemma {:induction false} TableReduced(header: string, separator: string, rows: seq<string>, rest: seq<string>)
    requires HeaderLike(header) && separator != "" && separator[0] == '|'
    requires forall row :: row in rows ==> IsRow(row)
    requires rest == [] || !IsRow(rest[0])
    ensures var c := ColumnsOf(header);
      Reduce([header, separator] + rows + rest)
      == [NewHeader(header), NewSeparator(separator, c)] + NewRows(rows, c) + Reduce(rest)
  {
    hide IsRow, ColumnsOf, NewHeader, NewSeparator, HeaderLike, InTable, NewRows, StartsWith;
    var lines, c := [header, separator] + rows + rest, ColumnsOf(header);
    StartsMeaning(separator, "|");
    assert separator == "|" + separator[1..];
    RowsInside(rows, rest, c);
    assert lines[1..][1..] == rows + rest && lines[1..][0] == separator;
    assert Reduce(lines) == [NewHeader(header)] + AfterHeader(lines[1..], c);
    assert AfterHeader(lines[1..], c) == [NewSeparator(separator, c)] + InTable(rows + rest, c);
    hide Reduce, AfterHeader;
    var out := NewRows(rows, c) + Reduce(rest);
    assert [NewHeader(header)] + ([NewSeparator(separator, c)] + out) == [NewHeader(header), NewSeparator(separator, c)] + out;
    ConcatAssoc([NewHeader(header), NewSeparator(separator, c)], NewRows(rows, c), Reduce(rest));
  }

  // ---------------------------------------------------------------- columns

  /** The columns of a header, empty ones included: its cells after the opening bar. */
  function ColumnCells(header: string): seq<string> {
    var cells := StripAll(Split(header));
    if cells[0] == "" then cells[1..] else cells
  }

  /** The columns of a written header are its cells, and an empty one after the closing bar. */
  lemma {:induction false} ColumnsOfLine(cells: seq<string>)
    requires cells != [] && forall i :: 0 <= i < |cells| ==> Clean(cells[i])
    ensures ColumnCells(Line(cells)) == cells + [""]
  {
    hide Split, Line, StripAll, Clean;
    PartsOfLine(cells);
  }

  lemma {:induction false} HeadCellsAreColumns(header: string)
    ensures HeadCells(header) == NonEmpty(ColumnCells(header))
  {
    hide Split, Strip;
    var cells := StripAll(Split(header));
    assert cells == [cells[0]] + cells[1..];
    NonEmptyConcat([cells[0]], cells[1..]);
    assert cells[0] == "" ==> NonEmpty([cells[0]]) == [];
  }

  /** The position the migration takes for a column is smaller by the number of empty header cells left of it. */
  lemma {:induction false} PositionTaken(header: string, name: string)
    requires name in ColumnCells(header) && name != ""
    ensures var p := IndexOf(ColumnCells(header), name); var e := IndexOf(HeadCells(header), name);
      p.Some? && p.value < |ColumnCells(header)| && e.Some? && e.value <= p.value
      && (e == p <==> "" !in ColumnCells(header)[..p.value])
      && ColumnCells(header)[p.value] == name && e.value < |HeadCells(header)| && HeadCells(header)[e.value] == name
  {
    hide ColumnCells, HeadCells, IndexOf, NonEmpty;
    HeadCellsAreColumns(header);
    IndexAmongNonEmpty(ColumnCells(header), name);
    IndexOfFirst(ColumnCells(header), name);
    IndexOfFirst(HeadCells(header), name);
  }

  /** A row of seven or more cells reads back without the two positions taken from the header. */
  lemma {:induction false} RowProjected(row: string, c: Columns)
    requires |Cells(row)| >= 7 && c.email.Some? && c.website.Some?
    ensures Cells(NewRow(row, c)) == Project(Cells(row), c.email, c.website)
  {
    hide Cells, Clean, Line, Project;
    CellsClean(row);
    ProjectClean(Cells(row), c.email, c.website);
    ProjectLength(Cells(row), c.email, c.website);
    CellsOfLine(Project(Cells(row), c.email, c.website));
  }

  /** A written row is kept as it is exactly when it has fewer cells, the table lacks a column, or the row reaches neither. */
  lemma {:induction false} RowKept(cells: seq<string>, c: Columns)
    requires cells != [] && forall i :: 0 <= i < |cells| ==> Clean(cells[i])
    ensures NewRow(Line(cells), c) == Line(cells)
        <==> |cells| < 7 || c.email.None? || c.website.None? || (c.email.value >= |cells| && c.website.value >= |cells|)
  {
    CellsOfLine(cells);
    hide Cells, Clean, Line, Project;
    if |cells| >= 7 && c.email.Some? && c.website.Some? {
      RowProjected(Line(cells), c);
      if c.email.value >= |cells| && c.website.value >= |cells| {
        ProjectSame(cells, c.email, c.website, None, None);
        ProjectNone(cells);
      } else {
        ProjectShorter(cells, c.email, c.website);
      }
    }
  }

  /** The cells of a row, with what follows its last bar. */
  function RowParts(row: string): seq<string> {
    Cells(row) + [Tail(row)]
  }

  /**
   A rewritten row keeps every non-empty cell outside the two positions exactly when nothing
   follows its last bar, or what follows stands at one of the two positions.
   */
  lemma {:induction false} RewrittenRowWhole(row: string, c: Columns)
    requires |Cells(row)| >= 7 && c.email.Some? && c.website.Some?
    ensures NonEmpty(Cells(NewRow(row, c))) == NonEmpty(Project(RowParts(row), c.email, c.website))
        <==> Tail(row) == "" || |Cells(row)| in {c.email.value, c.website.value}
  {
    hide Cells, Tail, Project, NewRow, NonEmpty;
    RowProjected(row, c);
    var cells, n := Cells(row), |Cells(row)|;
    ProjectSnoc(cells, Tail(row), c.email, c.website);
    var more := if c.email != Some(n) && c.website != Some(n) then [Tail(row)] else [];
    NonEmptyExtended(Project(cells, c.email, c.website), more);
    NonEmptyOne(Tail(row));
    assert NonEmpty([]) == [] by { NonEmptyNothing(); }
  }

  /** The row parts of a row that starts with a bar are all it holds. */
  lemma {:induction false} RowPartsAreAll(row: string)
    requires IsRow(row)
    ensures NonEmpty(RowParts(row)) == HeadCells(row)
  {
    CellsAndTail(row);
    hide Cells, Split, StripAll, Tail, StartsWith, IsRow;
    assert [""] + Cells(row) + [Tail(row)] == [""] + RowParts(row);
    NonEmptyConcat([""], RowParts(row));
    NonEmptyOne("");
  }

  /** A row written without its closing bar. */
  function Unclosed(cells: seq<string>): string {
    "| " + Join(cells)
  }

  /**
   The last cell of a row without closing bar is not counted: up to seven cells the row is kept
   as it is, and a longer one loses that cell, when it is not empty, unless it is to be dropped.
   */
  lemma {:induction false} UnclosedRow(cells: seq<string>, c: Columns)
    requires |cells| >= 2 && c.email.Some? && c.website.Some?
    requires forall i :: 0 <= i < |cells| ==> Clean(cells[i])
    ensures var row, n := Unclosed(cells), |cells|;
      && IsRow(row) && RowParts(row) == cells
      && (n <= 7 ==> NewRow(row, c) == row)
      && (n > 7 ==> Cells(NewRow(row, c)) == Project(cells[..n - 1], c.email, c.website))
  {
    var n := |cells| - 1;
    var init, last := cells[..n], cells[n];
    assert Clean(last);
    JoinSnoc(init, last);
    assert init + [last] == cells;
    assert Unclosed(cells) == Line(init) + (" " + last) by { UnclosedIsLine(init, last); }
    UnterminatedCell(init, " " + last);
    LStripSpaces(" ", last);
    StripCell(last);
    CellsMakeRow(Unclosed(cells));
    hide Cells, Tail, Join, Line, Project, IsRow, Strip, LStrip, Clean;
    if |cells| > 7 {
      RowProjected(Unclosed(cells), c);
    }
  }

  lemma {:induction false} UnclosedIsLine(init: seq<string>, last: string)
    requires init != [] && Join(init + [last]) == Join(init) + " | " + last
    ensures Unclosed(init + [last]) == Line(init) + (" " + last)
  {
    hide Join;
    var x := Join(init);
    assert "| " + (x + " | " + last) == ("| " + x + " |") + (" " + last);
  }

  lemma {:induction false} CellsMakeRow(line: string)
    requires StartsWith(line, "|") && Cells(line) != []
    ensures IsRow(line)
  {
    var a, b := StripSplits(line);
    hide Strip, Split;
    if Strip(line) == "|" {
      SpacesBarFree(a);
      SpacesBarFree(b);
      SplitAtBar(a, b);
      SplitBarFree(b);
    }
  }

  lemma {:induction false} StripCell(cell: string)
    requires Clean(cell)
    ensures Strip(" " + cell) == cell
  {
    LStripSpaces(" ", cell);
    hide IsSpace;
  }

  /** Short tables: the header always loses two cells, a row only from seven cells on. */
  lemma {:induction false} RowAndHeaderAgree(header: string, cells: seq<string>)
    requires ColumnsOf(header).email.Some? && ColumnsOf(header).website.Some?
    requires |HeadCells(header)| == |cells| > 2 && forall i :: 0 <= i < |cells| ==> Clean(cells[i])
    ensures |Cells(NewRow(Line(cells), ColumnsOf(header)))| == |Cells(NewHeader(header))| <==> |cells| >= 7
  {
    var c := ColumnsOf(header);
    var e, w := c.email.value, c.website.value;
    CellsOfLine(cells);
    HeaderProjected(header, e, w);
    hide Cells, HeadCells, Clean, Line, Project, NewHeader, ColumnsOf, Renamed;
    WithoutTwo(HeadCells(header), Min(e, w), Max(e, w));
    if |cells| >= 7 {
      RowProjected(Line(cells), c);
      ProjectIsWithout(cells, Min(e, w), Max(e, w));
      WithoutTwo(cells, Min(e, w), Max(e, w));
    }
  }

  lemma {:induction false} WithoutTwo(cells: seq<string>, a: nat, b: nat)
    requires a < b < |cells|
    ensures |Without(Without(cells, b), a)| == |cells| - 2
  {
  }

  /** Whatever its form, a row of fewer than seven cells, or of a table that lacks a column, is kept. */
  lemma {:induction false} RowUntouched(row: string, c: Columns)
    requires |Cells(row)| < 7 || c.email.None? || c.website.None?
    ensures NewRows([row], c) == [row]
  {
    assert NewRow(row, c) == row;
  }

  function Mark(n: nat): (s: string)
    ensures |s| == n && forall c :: c in s ==> c == 'x'
  {
    seq(n, i => 'x')
  }

  /** A row of `n` distinct cells. */
  function Marks(n: nat): (r: seq<string>)
    ensures |r| == n && forall i :: 0 <= i < n ==> |r[i]| == i + 1
    ensures forall i :: 0 <= i < n ==> Clean(r[i])
  {
    seq(n, i requires 0 <= i < n => Mark(i + 1))
  }

  lemma {:induction false} SameProjection(n: nat, e: nat, w: nat, e': nat, w': nat, k: nat)
    requires Project(Marks(n), Some(e), Some(w)) == Project(Marks(n), Some(e'), Some(w'))
    requires k < n && (k == e || k == w)
    ensures k == e' || k == w'
  {
    hide Project, Marks;
    if k != e' && k != w' {
      ProjectHas(Marks(n), Some(e'), Some(w'), k);
      ProjectMembers(Marks(n), Some(e), Some(w), Marks(n)[k]);
    }
  }

  ghost predicate DropsColumns(header: string, n: nat) {
    forall row :: |Cells(row)| == n ==>
      Cells(NewRow(row, ColumnsOf(header)))
      == Project(Cells(row), IndexOf(ColumnCells(header), "Email"), IndexOf(ColumnCells(header), "Website"))
  }

  /** No empty header cell left of the column, or the position taken for it beyond the row. */
  ghost predicate InPlace(header: string, name: string, n: nat) {
    var p, e := IndexOf(ColumnCells(header), name), IndexOf(HeadCells(header), name);
    p.Some? && p.value < |ColumnCells(header)| && e.Some?
    && ("" !in ColumnCells(header)[..p.value] || e.value >= n)
  }

  /**
   The rows of seven or more cells lose the cells of the Email and Website columns exactly when
   no empty header cell stands left of either, as far as the rows reach.
   */
  lemma {:induction false} ColumnsDropped(header: string, n: nat)
    requires "Email" in ColumnCells(header) && "Website" in ColumnCells(header) && n >= 7
    ensures DropsColumns(header, n) <==> InPlace(header, "Email", n) && InPlace(header, "Website", n)
  {
    PositionTaken(header, "Email");
    PositionTaken(header, "Website");
    var c, d := ColumnsOf(header), Columns(IndexOf(ColumnCells(header), "Email"), IndexOf(ColumnCells(header), "Website"));
    assert "Email"[0] != "Website"[0];
    assert c.email != c.website && d.email != d.website;
    hide ColumnCells, HeadCells, Cells, NewRow, ColumnsOf, IndexOf;
    if InPlace(header, "Email", n) && InPlace(header, "Website", n) {
      forall row | |Cells(row)| == n ensures Cells(NewRow(row, c)) == Project(Cells(row), d.email, d.website) {
        RowProjected(row, c);
        ProjectSame(Cells(row), c.email, c.website, d.email, d.website);
      }
    }
    if DropsColumns(header, n) {
      CellsOfLine(Marks(n));
      RowProjected(Line(Marks(n)), c);
      AsFarAsRowsReach(n, c.email.value, c.website.value, d.email.value, d.website.value);
    }
  }

  lemma {:induction false} AsFarAsRowsReach(n: nat, e: nat, w: nat, e': nat, w': nat)
    requires Project(Marks(n), Some(e), Some(w)) == Project(Marks(n), Some(e'), Some(w'))
    requires e <= e' && w <= w' && e != w && e' != w'
    ensures (e == e' || e >= n) && (w == w' || w >= n)
  {
    hide Project, Marks;
    if e < n {
      SameProjection(n, e, w, e', w', e);
    }
    if w < n {
      SameProjection(n, e, w, e', w', w);
    }
  }

  const SHIFTED := ["Candidate", "", "Status", "Email", "Website", "Party", "Occupation"]
  const SHIFTED_ROW := ["Ann Poe", "", "Qualified", "ann@poe.com", "poe.com", "Independent", "Nurse"]

  /** Under a header with an empty cell before Status, the rows lose status and email and keep the website. */
  lemma {:induction false} EmptyHeaderCellShifts()
    ensures HeaderLike(Line(SHIFTED)) && ColumnsOf(Line(SHIFTED)) == Columns(Some(2), Some(3))
    ensures Cells(NewRow(Line(SHIFTED_ROW), ColumnsOf(Line(SHIFTED)))) == ["Ann Poe", "", "poe.com", "Independent", "Nurse"]
  {
    hide NewRow, ColumnsOf, HeaderLike, Cells, Line, Clean, Project;
    ShiftedColumns();
    ShiftedHeaderLike();
    ShiftedRowClean();
    CellsOfLine(SHIFTED_ROW);
    RowProjected(Line(SHIFTED_ROW), Columns(Some(2), Some(3)));
    ProjectIsWithout(SHIFTED_ROW, 2, 3);
  }

  lemma {:induction false} ShiftedClean()
    ensures forall i :: 0 <= i < |SHIFTED| ==> Clean(SHIFTED[i])
  {
    assert Clean("") && Clean("Candidate") && Clean("Status") && Clean("Email") && Clean("Website");
    assert Clean("Party") && Clean("Occupation");
    hide Clean;
  }

  lemma {:induction false} ShiftedRowClean()
    ensures forall i :: 0 <= i < |SHIFTED_ROW| ==> Clean(SHIFTED_ROW[i])
  {
    assert Clean("") && Clean("Ann Poe") && Clean("Qualified") && Clean("ann@poe.com") && Clean("poe.com");
    assert Clean("Independent") && Clean("Nurse");
    hide Clean;
  }

  lemma {:induction false} ShiftedColumns()
    ensures ColumnsOf(Line(SHIFTED)) == Columns(Some(2), Some(3))
  {
    hide Split, Line, StripAll, IndexOf, HeadCells, Clean;
    var x, y := ["Candidate", ""], ["Status", "Email", "Website", "Party", "Occupation"];
    ShiftedClean();
    HeadCellsOfLine(SHIFTED);
    NonEmptyConcat(x, y);
    AllNonEmpty(y);
    assert NonEmpty(x) == ["Candidate"] by { NonEmptyConcat(["Candidate"], [""]); }
    assert x + y == SHIFTED;
    var kept := ["Candidate"] + y;
    assert kept[2] == "Email" && kept[3] == "Website";
    assert "Email"[0] == 'E' && "Website"[0] == 'W' && "Candidate"[0] == 'C' && "Status"[0] == 'S';
    hide NonEmpty;
    IndexOfIs(kept, "Email", 2);
    IndexOfIs(kept, "Website", 3);
  }

  lemma {:induction false} HeadCellsOfLine(cells: seq<string>)
    requires cells != [] && forall i :: 0 <= i < |cells| ==> Clean(cells[i])
    ensures HeadCells(Line(cells)) == NonEmpty(cells)
  {
    hide Split, Line, StripAll, Clean;
    PartsOfLine(cells);
    NonEmptyConcat([""] + cells, [""]);
    NonEmptyConcat([""], cells);
  }

  lemma {:induction false} AllNonEmpty(cells: seq<string>)
    requires forall i :: 0 <= i < |cells| ==> cells[i] != ""
    ensures NonEmpty(cells) == cells
  {
    if cells != [] {
      AllNonEmpty(cells[..|cells| - 1]);
      assert cells == cells[..|cells| - 1] + [cells[|cells| - 1]];
    }
  }

  lemma {:induction false} ShiftedHeaderLike()
    ensures HeaderLike(Line(SHIFTED))
  {
    hide Split, Line, StripAll, Clean, Contains;
    var line := Line(SHIFTED);
    ShiftedClean();
    CellsOfLine(SHIFTED);
    BarInLine(line);
    hide Cells;
    assert SHIFTED[0] == "Candidate" && SHIFTED[3] == "Email" && SHIFTED[4] == "Website";
    CellOccurs(line, "Candidate");
    CellOccurs(line, "Email");
    CellOccurs(line, "Website");
  }

  lemma {:induction false} ColumnsAre(line: string)
    ensures ColumnsOf(line) == Columns(IndexOf(HeadCells(line), "Email"), IndexOf(HeadCells(line), "Website"))
  {
  }

  /** The new header reads back as the old cells without the first Email and Website, with Qualified renamed. */
  lemma {:induction false} HeaderProjected(line: string, e: nat, w: nat)
    requires ColumnsOf(line) == Columns(Some(e), Some(w)) && |HeadCells(line)| > 2
    ensures e < |HeadCells(line)| && HeadCells(line)[e] == "Email" && "Email" !in HeadCells(line)[..e]
    ensures w < |HeadCells(line)| && HeadCells(line)[w] == "Website" && "Website" !in HeadCells(line)[..w]
    ensures Cells(NewHeader(line)) == Renamed(Without(Without(HeadCells(line), Max(e, w)), Min(e, w)))
  {
    assert "Email"[0] != "Website"[0];
    hide Cells, Clean, Line, Project, HeadCells, IndexOf, Renamed, Without, ColumnsOf;
    assert IndexOf(HeadCells(line), "Email") == Some(e) && IndexOf(HeadCells(line), "Website") == Some(w) by {
      ColumnsAre(line);
    }
    var cells := HeadCells(line);
    IndexOfFirst(cells, "Email");
    IndexOfFirst(cells, "Website");
    HeadCellsClean(line);
    var kept := Project(cells, Some(e), Some(w));
    ProjectClean(cells, Some(e), Some(w));
    ProjectLength(cells, Some(e), Some(w));
    ProjectIsWithout(cells, Min(e, w), Max(e, w));
    RenamedClean(kept);
    CellsOfLine(Renamed(kept));
  }

  /** A header reads back without its first cells "Email" and "Website", whichever it has, and with "Qualified Date" for "Qualified". */
  lemma {:induction false} HeaderRead(line: string)
    requires Project(HeadCells(line), IndexOf(HeadCells(line), "Email"), IndexOf(HeadCells(line), "Website")) != []
    ensures var kept := Project(HeadCells(line), IndexOf(HeadCells(line), "Email"), IndexOf(HeadCells(line), "Website"));
      var cells := Cells(NewHeader(line));
      |cells| == |kept| && forall i :: 0 <= i < |kept| ==> cells[i] == if kept[i] == "Qualified" then "Qualified Date" else kept[i]
  {
    hide Cells, Clean, Line, Project, HeadCells, IndexOf;
    ColumnsAre(line);
    var kept := Project(HeadCells(line), ColumnsOf(line).email, ColumnsOf(line).website);
    HeadCellsClean(line);
    ProjectClean(HeadCells(line), ColumnsOf(line).email, ColumnsOf(line).website);
    RenamedClean(kept);
    CellsOfLine(Renamed(kept));
  }

  /** A separator reads back without the two positions taken from the header. */
  lemma {:induction false} SeparatorRead(line: string, c: Columns)
    requires Project(HeadCells(line), c.email, c.website) != []
    ensures Cells(NewSeparator(line, c)) == Project(HeadCells(line), c.email, c.website)
  {
    hide Cells, Clean, Line, Project, HeadCells;
    HeadCellsClean(line);
    ProjectClean(HeadCells(line), c.email, c.website);
    CellsOfLine(Project(HeadCells(line), c.email, c.website));
  }

  function Min(a: nat, b: nat): nat {
    if a < b then a else b
  }

  function Max(a: nat, b: nat): nat {
    if a < b then b else a
  }

  lemma {:induction false} RenamedClean(cells: seq<string>)
    requires forall i :: 0 <= i < |cells| ==> Clean(cells[i])
    ensures forall i :: 0 <= i < |Renamed(cells)| ==> Clean(Renamed(cells)[i])
  {
    assert Clean("Qualified Date");
    hide Clean;
  }

  // ---------------------------------------------------------------- reducing twice

  lemma {:induction false} RewrittenNotHeader(line: string, cells: seq<string>, c: Columns)
    requires cells == Cells(line) || cells == HeadCells(line)
    requires !HeaderLike(line) && Contains(line, "|")
    ensures !HeaderLike(Line(Project(cells, c.email, c.website)))
  {
    assert IsWord("Candidate") && IsWord("Email") && IsWord("Website");
    hide Contains, Line, Cells, HeadCells, Project, IsWord;
    var rewritten := Line(Project(cells, c.email, c.website));
    if Contains(rewritten, "Candidate") { WordFromCells(line, cells, c.email, c.website, "Candidate"); }
    if Contains(rewritten, "Email") { WordFromCells(line, cells, c.email, c.website, "Email"); }
    if Contains(rewritten, "Website") { WordFromCells(line, cells, c.email, c.website, "Website"); }
  }

  /** A rewritten row is not a header when the line it comes from is not. */
  lemma {:induction false} RowNotHeader(line: string, c: Columns)
    requires !HeaderLike(line)
    ensures !HeaderLike(NewRow(line, c))
  {
    assert |Cells(line)| >= 7 ==> |Split(line)| > 1;
    hide Line, Split, Cells, HeadCells, Project, Contains, HeaderLike;
    if |Cells(line)| >= 7 {
      BarInLine(line);
      RewrittenNotHeader(line, Cells(line), c);
    }
  }

  /** Nor is a rewritten separator. */
  lemma {:induction false} SeparatorNotHeader(line: string, c: Columns)
    requires !HeaderLike(line) && StartsWith(line, "|")
    ensures !HeaderLike(NewSeparator(line, c))
  {
    assert OccursAt(line, "|", 0);
    assert Contains(line, "|");
    hide Line, HeadCells, Project, Contains, HeaderLike, StartsWith;
    RewrittenNotHeader(line, HeadCells(line), c);
  }

  /** Besides the dropped cell no header cell mentions Email. */
  ghost predicate OnlyEmailCell(line: string) {
    var e := ColumnsOf(line).email;
    forall k :: 0 <= k < |HeadCells(line)| && Contains(HeadCells(line)[k], "Email") ==> e == Some(k)
  }

  lemma {:induction false} HeaderNotHeader(line: string)
    requires OnlyEmailCell(line)
    ensures !HeaderLike(NewHeader(line))
  {
    hide Line, HeadCells, ColumnsOf, Project, Contains;
    var cells, c := HeadCells(line), ColumnsOf(line);
    var kept := Project(cells, c.email, c.website);
    if Contains(Line(Renamed(kept)), "Email") {
      EmailWord();
      WordInLine(Renamed(kept), "Email");
      var x :| x in Renamed(kept) && Contains(x, "Email");
      var i :| 0 <= i < |kept| && Renamed(kept)[i] == x;
      assert kept[i] == x;
      ProjectMembers(cells, c.email, c.website, x);
    }
  }

  lemma {:induction false} EmailWord()
    ensures IsWord("Email") && !Contains("Qualified Date", "Email")
  {
    NoWordWithout("Qualified Date", "Email", 'E');
  }

  lemma {:induction false} EmittedFrom(lines: seq<string>, kinds: seq<Kind>, x: string)
    requires |lines| == |kinds| && x in EmitAll(lines, kinds)
    ensures exists i :: 0 <= i < |lines| && x in Emit(lines[i], kinds[i])
  {
    hide Emit;
    if x !in Emit(lines[0], kinds[0]) {
      EmittedFrom(lines[1..], kinds[1..], x);
      var i :| 0 <= i < |lines| - 1 && x in Emit(lines[1..][i], kinds[1..][i]);
      assert x in Emit(lines[i + 1], kinds[i + 1]);
    }
  }

  lemma {:induction false} NothingToReduce(lines: seq<string>)
    requires forall x :: x in lines ==> !HeaderLike(x)
    ensures Reduce(lines) == lines
  {
    if lines != [] {
      assert lines[0] in lines;
      NothingToReduce(lines[1..]);
      assert lines == [lines[0]] + lines[1..];
    }
  }

  /** The tables the migration is written for: one Email header cell, and no row that looks like a header. */
  ghost predicate Regular(lines: seq<string>) {
    NoHeaderRows(lines) && forall i :: 0 <= i < |lines| && Kinds(lines)[i].Header? ==> OnlyEmailCell(lines[i])
  }

  ghost predicate NoHeaderRows(lines: seq<string>) {
    forall i :: 0 <= i < |lines| && (Kinds(lines)[i].Separator? || Kinds(lines)[i].Row?) ==> !HeaderLike(lines[i])
  }

  lemma {:induction false} EmittedNotHeader(lines: seq<string>, i: nat)
    requires Regular(lines) && i < |lines|
    ensures forall x :: x in Emit(lines[i], Kinds(lines)[i]) ==> !HeaderLike(x)
  {
    hide Kinds, HeaderLike, NewHeader, NewRow, NewSeparator, StartsWith, IsRow;
    KindsFit(lines, i);
    match Kinds(lines)[i]
    case Header => HeaderNotHeader(lines[i]);
    case Separator(c) => SeparatorNotHeader(lines[i], c);
    case Row(c) => RowNotHeader(lines[i], c);
    case _ =>
  }

  /** Reducing a second time changes nothing. */
  lemma {:induction false} ReduceIdempotent(lines: seq<string>)
    requires Regular(lines)
    ensures Reduce(Reduce(lines)) == Reduce(lines)
  {
    ReduceEmits(lines);
    hide Emit, Kinds, HeaderLike, Regular;
    forall x | x in Reduce(lines) ensures !HeaderLike(x) {
      EmittedFrom(lines, Kinds(lines), x);
      var i :| 0 <= i < |lines| && x in Emit(lines[i], Kinds(lines)[i]);
      EmittedNotHeader(lines, i);
    }
    NothingToReduce(Reduce(lines));
  }

  /** Without header-like rows the line count is kept exactly when each header but a last line is followed by a bar. */
  lemma {:induction false} RegularLinesKept(lines: seq<string>)
    requires NoHeaderRows(lines)
    ensures |Reduce(lines)| == |lines|
        <==> forall i :: 0 <= i < |lines| - 1 && HeaderLike(lines[i]) ==> StartsWith(lines[i + 1], "|")
  {
    hide Kinds, HeaderLike, IsRow, StartsWith, Reduce, OnlyEmailCell, Emit;
    LinesKept(lines);
    if |Reduce(lines)| == |lines| {
      forall i | 0 <= i < |lines| - 1 && HeaderLike(lines[i]) ensures StartsWith(lines[i + 1], "|") {
        KindsFit(lines, i);
        KindsFit(lines, i + 1);
      }
    } else {
      var j :| 0 <= j < |lines| && Kinds(lines)[j].Lost?;
      KindsFit(lines, j);
      KindsFit(lines, j - 1);
    }
  }

  /** A line without a bar right after a header is lost. */
  lemma {:induction false} LineLost(header: string, x: string)
    requires HeaderLike(header) && !StartsWith(x, "|")
    ensures Reduce([header, x]) == [NewHeader(header)]
  {
    hide HeaderLike, StartsWith, NewHeader, ColumnsOf;
    ReduceStep([header, x], 0);
    AfterHeaderStep([header, x], 1, ColumnsOf(header));
    InTableStep([header, x], 2, ColumnsOf(header));
    AfterHeaderStep([header, x], 2, ColumnsOf(header));
    assert [header, x][0..] == [header, x];
  }

  // ---------------------------------------------------------------- the migrations

  const ID_ROW := "| ID | |"
  const VERSION_ROW := "| Format Version | 1 |"
  const VERSION := "Format Version"

  /** `_is_already_migrated`: the pattern matches in the text, across line breaks too. */
  ghost predicate IsMigrated(lines: seq<string>) {
    exists i, j, k :: LabelledAt(Content(lines), VERSION, i, j, k)
  }

  /** A line with the cell "Format Version": the pattern matches inside it. */
  ghost predicate HasVersionLine(lines: seq<string>) {
    exists line :: line in lines && VERSION in Cells(line)
  }

  lemma {:induction false} VersionText()
    ensures Clean(VERSION) && VERSION != "" && '\n' !in VERSION
  {
  }

  /** A file with such a line is recognised; a recognised one has one, or the words at an end of a line. */
  lemma {:induction false} RecognisedByLine(lines: seq<string>)
    ensures HasVersionLine(lines) ==> IsMigrated(lines)
    ensures IsMigrated(lines) ==> HasVersionLine(lines) || exists line :: line in lines && AtEnd(line, VERSION)
  {
    VersionText();
    hide Cells, LabelledAt, Content, Clean, VERSION, AtEnd, HasPart;
    MatchesIffCell(Content(lines), VERSION);
    if line :| line in lines && VERSION in Cells(line) {
      LineCellInContent(lines, line, VERSION);
    }
    if IsMigrated(lines) {
      CellIsInnerPart(Content(lines), VERSION);
      SomeLine(lines);
      PartOfLine(lines, VERSION);
      var line :| line in lines && HasPart(line, VERSION);
      PartIsCellOrEnd(line, VERSION);
    }
  }

  lemma {:induction false} SomeLine(lines: seq<string>)
    requires HasPart(Content(lines), VERSION)
    ensures lines != []
  {
    SplitBarFree("");
    StripNothing();
    hide Split, Strip, VERSION;
    assert VERSION != "" by { VersionText(); }
  }

  const ACROSS := ["|", "Format Version |"]

  /** The words at an end of a line can match across the line break. */
  lemma {:induction false} MatchAcrossBreak()
    ensures IsMigrated(ACROSS)
  {
    var s := "|\nFormat Version |";
    assert Content(ACROSS) == s;
    assert s[1..2] == "\n" && s[2..16] == VERSION && s[16..17] == " ";
    assert LabelledAt(s, VERSION, 0, 2, 17);
  }

  lemma {:induction false} JoinTwo(a: string, b: string)
    ensures Join([a, b]) == a + " | " + b
  {
  }

  lemma {:induction false} VersionRowIsLine()
    ensures VERSION_ROW == Line([VERSION, "1"])
  {
    hide Join;
    JoinTwo(VERSION, "1");
  }

  lemma {:induction false} VersionCells()
    ensures Cells(VERSION_ROW) == [VERSION, "1"]
  {
    VersionRowIsLine();
    assert Clean(VERSION) && Clean("1");
    hide Cells, Line, Clean, VERSION, VERSION_ROW;
    CellsOfLine([VERSION, "1"]);
  }

  lemma {:induction false} VersionRowCounts(lines: seq<string>)
    requires VERSION_ROW in lines
    ensures HasVersionLine(lines) && IsMigrated(lines)
  {
    VersionCells();
    hide IsMigrated, Cells, AtEnd;
    assert VERSION in [VERSION, "1"];
    RecognisedByLine(lines);
  }

  /** The first line satisfying the metadata test, as each migration has it. */
  predicate LooseMeta(line: string) {
    Contains(line, "| Field | Value |") || (Contains(line, "| Field") && Contains(line, "Value"))
  }

  predicate StrictMeta(line: string) {
    Contains(line, "| Field | Value |")
  }

  function Clamp(n: nat, lines: seq<string>): nat {
    if n <= |lines| then n else |lines|
  }

  /** Rows inserted after the separator of the table whose header is at `at`. */
  function InsertRows(lines: seq<string>, at: nat, rows: seq<string>): seq<string> {
    lines[..Clamp(at + 2, lines)] + rows + lines[Clamp(at + 2, lines)..]
  }

  function Bodies(body: string, seat: string): seq<string> {
    ["| Body | " + body + " |", "| Seat | " + seat + " |", "| Stage | election |"]
  }

  const METADATA_HEADING := ["", "## Metadata", "", "| Field | Value |", "|-------|-------|"]

  function MigrateSingle(lines: seq<string>, meta: Option<nat>, body: string, seat: string): seq<string>
    requires lines != []
  {
    var rows := [ID_ROW, VERSION_ROW] + Bodies(body, seat);
    Reduce(if meta.Some? && meta.value > 0 then InsertRows(lines, meta.value, rows)
           else [lines[0]] + METADATA_HEADING + rows + lines[1..])
  }

  function MigrateOverview(lines: seq<string>, at: nat, electionType: string): seq<string> {
    lines[..Clamp(at, lines)]
    + (METADATA_HEADING + [ID_ROW, VERSION_ROW, "| Name (SOS) | |", "| Type | " + electionType + " |", "| Stage | election |", ""])
    + lines[Clamp(at, lines)..]
  }

  /** Each contest heading gets an empty line and its body and seat. */
  function WithSeats(lines: seq<string>, infer: string -> (string, string)): seq<string> {
    if lines == [] then []
    else
      var k := |lines| - 1;
      WithSeats(lines[..k], infer) + [lines[k]] + SeatLines(lines[k], infer)
  }

  function SeatLines(line: string, infer: string -> (string, string)): seq<string> {
    if StartsWith(line, "### ") then
      var (body, seat) := infer(Strip(line[4..]));
      ["", "**Body:** " + body + " | **Seat:** " + seat]
    else []
  }

  function MigrateMulti(lines: seq<string>, meta: Option<nat>, infer: string -> (string, string)): seq<string> {
    Reduce(WithSeats(if meta.Some? && meta.value > 0 then InsertRows(lines, meta.value, [ID_ROW, VERSION_ROW]) else lines, infer))
  }

  lemma {:induction false} EmitAllHas(lines: seq<string>, kinds: seq<Kind>, i: nat, x: string)
    requires |lines| == |kinds| && i < |lines| && x in Emit(lines[i], kinds[i])
    ensures x in EmitAll(lines, kinds)
  {
    hide Emit;
    if i > 0 {
      EmitAllHas(lines[1..], kinds[1..], i - 1, x);
    }
  }

  lemma {:induction false} VersionRowShape()
    ensures |Cells(VERSION_ROW)| < 7 && !HeaderLike(VERSION_ROW) && !HeaderLike(ID_ROW)
  {
    VersionCells();
    hide Cells;
    NoWordWithout(VERSION_ROW, "Email", 'E');
    NoWordWithout(ID_ROW, "Email", 'E');
  }

  lemma {:induction false} VersionRowEmitted(lines: seq<string>, i: nat)
    requires 0 < i < |lines| && lines[i - 1] == ID_ROW && lines[i] == VERSION_ROW
    ensures Emit(lines[i], Kinds(lines)[i]) == [VERSION_ROW]
  {
    VersionRowShape();
    hide HeaderLike, Cells, Kinds, IsRow, StartsWith, VERSION_ROW, ID_ROW, Line, Project, HeadCells;
    KindsFit(lines, i - 1);
    KindsFit(lines, i);
  }

  /** The version row survives the table reduction wherever it was inserted. */
  lemma {:induction false} VersionRowSurvives(x: seq<string>, y: seq<string>)
    ensures VERSION_ROW in Reduce(x + [ID_ROW, VERSION_ROW] + y)
  {
    hide Kinds, Reduce, EmitAll, Emit, VERSION_ROW, ID_ROW;
    var lines, i := x + [ID_ROW, VERSION_ROW] + y, |x| + 1;
    assert lines[i] == VERSION_ROW && lines[i - 1] == ID_ROW;
    VersionRowEmitted(lines, i);
    EmitAllHas(lines, Kinds(lines), i, VERSION_ROW);
    ReduceEmits(lines);
  }

  /** A migrated overview or single-contest file is recognised as migrated, whatever it held. */
  lemma {:induction false} SingleAndOverviewMigrated(lines: seq<string>, meta: Option<nat>, at: nat, a: string, b: string)
    requires lines != []
    ensures IsMigrated(MigrateSingle(lines, meta, a, b)) && IsMigrated(MigrateOverview(lines, at, a))
  {
    var rows := [ID_ROW, VERSION_ROW] + Bodies(a, b);
    hide Reduce, IsMigrated;
    var x := if meta.Some? && meta.value > 0 then lines[..Clamp(meta.value + 2, lines)] else [lines[0]] + METADATA_HEADING;
    var z := if meta.Some? && meta.value > 0 then lines[Clamp(meta.value + 2, lines)..] else lines[1..];
    VersionRowSurvives(x, Bodies(a, b) + z);
    assert x + [ID_ROW, VERSION_ROW] + (Bodies(a, b) + z) == x + rows + z;
    VersionRowCounts(MigrateSingle(lines, meta, a, b));
    var n := Clamp(at, lines);
    assert MigrateOverview(lines, at, a)[n + 6] == VERSION_ROW;
    VersionRowCounts(MigrateOverview(lines, at, a));
  }

  lemma {:induction false} NoSeatLines(line: string, infer: string -> (string, string))
    requires line == "" || line[0] != '#'
    ensures SeatLines(line, infer) == [] && WithSeats([line], infer) == [line]
  {
    if |line| >= 4 {
      assert line[..4][0] == line[0];
    }
    assert [line][..0] == [];
  }

  lemma {:induction false} WithSeatsSnoc(x: seq<string>, line: string, infer: string -> (string, string))
    ensures WithSeats(x + [line], infer) == WithSeats(x, infer) + ([line] + SeatLines(line, infer))
    ensures WithSeats([], infer) == []
  {
    hide SeatLines;
    assert (x + [line])[..|x|] == x;
  }

  lemma {:induction false} WithSeatsConcat(x: seq<string>, y: seq<string>, infer: string -> (string, string))
    ensures WithSeats(x + y, infer) == WithSeats(x, infer) + WithSeats(y, infer)
  {
    hide SeatLines, WithSeats;
    if y == [] {
      assert x + y == x;
      WithSeatsSnoc(x, "", infer);
    } else {
      var k := |y| - 1;
      assert x + y == (x + y[..k]) + [y[k]] && y == y[..k] + [y[k]];
      WithSeatsConcat(x, y[..k], infer);
      WithSeatsSnoc(x + y[..k], y[k], infer);
      WithSeatsSnoc(y[..k], y[k], infer);
      ConcatAssoc(WithSeats(x, infer), WithSeats(y[..k], infer), [y[k]] + SeatLines(y[k], infer));
    }
  }

  /** The multi-contest migration adds the version row when the metadata table is not at the very top. */
  lemma {:induction false} MultiMigrated(lines: seq<string>, meta: nat, infer: string -> (string, string))
    requires meta > 0
    ensures HasVersionLine(MigrateMulti(lines, Some(meta), infer)) && IsMigrated(MigrateMulti(lines, Some(meta), infer))
  {
    var n := Clamp(meta + 2, lines);
    var x, y, two := lines[..n], lines[n..], [ID_ROW, VERSION_ROW];
    WithSeatsConcat(x + two, y, infer);
    WithSeatsConcat(x, two, infer);
    NoSeatLines(ID_ROW, infer);
    NoSeatLines(VERSION_ROW, infer);
    WithSeatsConcat([ID_ROW], [VERSION_ROW], infer);
    assert [ID_ROW] + [VERSION_ROW] == two;
    hide Reduce, WithSeats, IsMigrated, HasVersionLine;
    VersionRowSurvives(WithSeats(x, infer), WithSeats(y, infer));
    VersionRowCounts(MigrateMulti(lines, Some(meta), infer));
  }

  /** What makes a line of a kind come out with the cell "Format Version". */
  ghost predicate KeepsVersion(line: string, k: Kind) {
    match k
    case Outside => VERSION in Cells(line)
    case Header => VERSION in HeadCells(line)
    case Separator(c) => VERSION in Project(HeadCells(line), c.email, c.website)
    case Lost => false
    case Row(c) =>
      if |Cells(line)| >= 7 && c.email.Some? && c.website.Some? then VERSION in Project(Cells(line), c.email, c.website)
      else VERSION in Cells(line)
  }

  lemma {:induction false} VersionInLine(cells: seq<string>)
    requires forall i :: 0 <= i < |cells| ==> Clean(cells[i])
    ensures VERSION in Cells(Line(cells)) <==> VERSION in cells
  {
    if cells != [] {
      CellsOfLine(cells);
    } else {
      assert Line([]) == Line([""]);
      CellsOfLine([""]);
    }
  }

  lemma {:induction false} VersionRenamed(cells: seq<string>)
    ensures VERSION in Renamed(cells) <==> VERSION in cells
  {
    assert VERSION[0] == 'F' && "Qualified"[0] == 'Q' && "Qualified Date"[0] == 'Q';
    hide VERSION;
    if VERSION in cells {
      var i :| 0 <= i < |cells| && cells[i] == VERSION;
      assert Renamed(cells)[i] == VERSION;
    }
    if VERSION in Renamed(cells) {
      var i :| 0 <= i < |cells| && Renamed(cells)[i] == VERSION;
      assert cells[i] == VERSION;
    }
  }

  lemma {:induction false} VersionNotDropped(cells: seq<string>)
    ensures VERSION in Project(cells, IndexOf(cells, "Email"), IndexOf(cells, "Website")) <==> VERSION in cells
  {
    assert VERSION[0] == 'F' && "Email"[0] == 'E' && "Website"[0] == 'W';
    hide VERSION, Project, IndexOf;
    var e, w := IndexOf(cells, "Email"), IndexOf(cells, "Website");
    IndexOfFirst(cells, "Email");
    IndexOfFirst(cells, "Website");
    if VERSION in cells {
      var k :| 0 <= k < |cells| && cells[k] == VERSION;
      ProjectHas(cells, e, w, k);
    }
    if VERSION in Project(cells, e, w) {
      ProjectMembers(cells, e, w, VERSION);
    }
  }

  lemma {:induction false} VersionInHeader(line: string)
    ensures VERSION in Cells(NewHeader(line)) <==> VERSION in HeadCells(line)
  {
    hide HeadCells, Cells, Line, IndexOf, Project, VERSION, Clean, Renamed;
    var cells, c := HeadCells(line), ColumnsOf(line);
    var kept := Project(cells, c.email, c.website);
    HeadCellsClean(line);
    ProjectClean(cells, c.email, c.website);
    RenamedClean(kept);
    VersionInLine(Renamed(kept));
    VersionRenamed(kept);
    VersionNotDropped(cells);
  }

  lemma {:induction false} EmitKeepsVersion(line: string, k: Kind)
    ensures (exists x :: x in Emit(line, k) && VERSION in Cells(x)) <==> KeepsVersion(line, k)
  {
    hide Cells, HeadCells, Line, Project, NewHeader, VERSION, Clean;
    match k
    case Outside => assert line in Emit(line, k);
    case Header =>
      VersionInHeader(line);
      assert NewHeader(line) in Emit(line, k);
    case Separator(c) =>
      HeadCellsClean(line);
      ProjectClean(HeadCells(line), c.email, c.website);
      VersionInLine(Project(HeadCells(line), c.email, c.website));
      assert NewSeparator(line, c) in Emit(line, k);
    case Lost =>
    case Row(c) =>
      CellsClean(line);
      ProjectClean(Cells(line), c.email, c.website);
      VersionInLine(Project(Cells(line), c.email, c.website));
      assert NewRow(line, c) in Emit(line, k);
  }

  ghost predicate SomeVersionKept(lines: seq<string>) {
    exists i :: 0 <= i < |lines| && KeepsVersion(lines[i], Kinds(lines)[i])
  }

  ghost predicate SomeVersionAtEnd(lines: seq<string>) {
    exists line :: line in lines && AtEnd(line, VERSION)
  }

  /** A line that comes out with the words at an end had them there. */
  lemma {:induction false} EmittedEnd(line: string, k: Kind, x: string)
    requires x in Emit(line, k) && AtEnd(x, VERSION)
    ensures VERSION in Cells(x) || AtEnd(line, VERSION)
  {
    VersionText();
    hide Cells, HeadCells, Line, Project, VERSION, Clean, AtEnd, HasPart, IndexOf, Renamed;
    EndIsPart(x, VERSION);
    match k
    case Header =>
      var c := ColumnsOf(line);
      HeadCellsClean(line);
      ProjectClean(HeadCells(line), c.email, c.website);
      RenamedClean(Project(HeadCells(line), c.email, c.website));
      WrittenPart(Renamed(Project(HeadCells(line), c.email, c.website)), VERSION);
    case Separator(c) =>
      HeadCellsClean(line);
      ProjectClean(HeadCells(line), c.email, c.website);
      WrittenPart(Project(HeadCells(line), c.email, c.website), VERSION);
    case Row(c) =>
      if x != line {
        CellsClean(line);
        ProjectClean(Cells(line), c.email, c.website);
        WrittenPart(Project(Cells(line), c.email, c.website), VERSION);
      }
    case _ =>
  }

  lemma {:induction false} EndIsPart(line: string, text: string)
    requires AtEnd(line, text)
    ensures HasPart(line, text)
  {
    hide Split, Strip;
    var n := |Split(line)| - 1;
    assert Strip(Split(line)[0]) == text || Strip(Split(line)[n]) == text;
  }

  /** A line of the reduced file matches the pattern exactly when some line keeps the cell through the reduction. */
  lemma {:induction false} ReducedLine(lines: seq<string>)
    ensures HasVersionLine(Reduce(lines)) <==> SomeVersionKept(lines)
  {
    hide Cells, Emit, EmitAll, Kinds, KeepsVersion, Reduce, VERSION;
    ReduceEmits(lines);
    var kinds := Kinds(lines);
    if HasVersionLine(Reduce(lines)) {
      var x :| x in Reduce(lines) && VERSION in Cells(x);
      EmittedFrom(lines, kinds, x);
      var i :| 0 <= i < |lines| && x in Emit(lines[i], kinds[i]);
      EmitKeepsVersion(lines[i], kinds[i]);
    }
    if i :| 0 <= i < |lines| && KeepsVersion(lines[i], kinds[i]) {
      EmitKeepsVersion(lines[i], kinds[i]);
      var x :| x in Emit(lines[i], kinds[i]) && VERSION in Cells(x);
      EmitAllHas(lines, kinds, i, x);
    }
  }

  lemma {:induction false} ReducedEnd(lines: seq<string>, x: string)
    requires x in Reduce(lines) && AtEnd(x, VERSION)
    ensures HasVersionLine(Reduce(lines)) || SomeVersionAtEnd(lines)
  {
    hide Cells, Emit, EmitAll, Kinds, Reduce, VERSION, AtEnd;
    ReduceEmits(lines);
    EmittedFrom(lines, Kinds(lines), x);
    var i :| 0 <= i < |lines| && x in Emit(lines[i], Kinds(lines)[i]);
    EmittedEnd(lines[i], Kinds(lines)[i], x);
    assert lines[i] in lines;
  }

  /**
   A reduced file is recognised when one of its lines keeps the cell through the reduction; and
   only then, unless a line has the words before its first or after its last bar.
   */
  lemma {:induction false} ReducedRecognised(lines: seq<string>)
    ensures HasVersionLine(Reduce(lines)) <==> SomeVersionKept(lines)
    ensures SomeVersionKept(lines) ==> IsMigrated(Reduce(lines))
    ensures !SomeVersionAtEnd(lines) ==> (IsMigrated(Reduce(lines)) <==> SomeVersionKept(lines))
  {
    hide Cells, IsMigrated, Reduce, VERSION, AtEnd, SomeVersionKept, HasVersionLine, SomeVersionAtEnd;
    ReducedLine(lines);
    RecognisedByLine(Reduce(lines));
    if x :| x in Reduce(lines) && AtEnd(x, VERSION) {
      ReducedEnd(lines, x);
    }
  }

  /**
   A migrated multi-contest file is recognised when its metadata table stands below the first
   line, or a line of it or an inferred seat line keeps the cell through the reduction; and only
   then, unless a line has the words before its first or after its last bar.
   */
  lemma {:induction false} MultiRecognised(lines: seq<string>, meta: Option<nat>, infer: string -> (string, string))
    ensures var marked, kept := meta.Some? && meta.value > 0, SomeVersionKept(WithSeats(lines, infer));
      && (HasVersionLine(MigrateMulti(lines, meta, infer)) <==> marked || kept)
      && (marked || kept ==> IsMigrated(MigrateMulti(lines, meta, infer)))
      && (!SomeVersionAtEnd(WithSeats(lines, infer)) ==> (IsMigrated(MigrateMulti(lines, meta, infer)) <==> marked || kept))
  {
    hide Reduce, WithSeats, IsMigrated, SomeVersionKept, SomeVersionAtEnd, HasVersionLine;
    if meta.Some? && meta.value > 0 {
      MultiMigrated(lines, meta.value, infer);
    } else {
      ReducedRecognised(WithSeats(lines, infer));
    }
  }

  lemma {:induction false} KeptIsInLine(line: string, k: Kind)
    requires KeepsVersion(line, k)
    ensures Contains(line, VERSION)
  {
    hide Cells, HeadCells, Project, Contains, VERSION;
    if k.Separator? {
      ProjectMembers(HeadCells(line), k.c.email, k.c.website, VERSION);
    }
    if k.Row? && VERSION !in Cells(line) {
      ProjectMembers(Cells(line), k.c.email, k.c.website, VERSION);
    }
    CellOccurs(line, VERSION);
  }

  lemma {:induction false} WithSeatsMembers(lines: seq<string>, infer: string -> (string, string), x: string)
    requires x in WithSeats(lines, infer)
    ensures x in lines || exists line :: line in lines && x in SeatLines(line, infer)
  {
    hide SeatLines;
    if lines != [] {
      var k := |lines| - 1;
      assert lines[k] in lines;
      if x in WithSeats(lines[..k], infer) {
        WithSeatsMembers(lines[..k], infer, x);
        if x !in lines {
          var line :| line in lines[..k] && x in SeatLines(line, infer);
          assert line in lines;
        }
      }
    }
  }

  ghost predicate SeatUnversioned(texts: (string, string)) {
    !Contains(texts.0, "Version") && !Contains(texts.1, "Version")
  }

  const BODY := "**Body:**"
  const SEAT := "**Seat:**"

  lemma {:induction false} SeatWords()
    ensures !Contains(BODY, "Version") && !Contains(SEAT, "Version") && !Contains("", "Version")
  {
    NoWordWithout(BODY, "Version", 'V');
    NoWordWithout(SEAT, "Version", 'V');
    NoWordWithout("", "Version", 'V');
  }

  lemma {:induction false} VersionBeside(a: string, sep: string, b: string)
    requires sep == " " || sep == " | "
    requires !Contains(a, "Version") && !Contains(b, "Version")
    ensures !Contains(a + sep + b, "Version")
  {
    hide Contains;
    if Contains(a + sep + b, "Version") {
      WordBesideSeparator(a, sep, b, "Version");
    }
  }

  lemma {:induction false} SeatLineText(body: string, seat: string)
    requires !Contains(body, "Version") && !Contains(seat, "Version")
    ensures !Contains("**Body:** " + body + " | **Seat:** " + seat, "Version")
  {
    assert "**Body:** " + body + " | **Seat:** " + seat == BODY + " " + (body + " | " + (SEAT + " " + seat));
    SeatWords();
    hide Contains, BODY, SEAT;
    VersionBeside(SEAT, " ", seat);
    VersionBeside(body, " | ", SEAT + " " + seat);
    VersionBeside(BODY, " ", body + " | " + (SEAT + " " + seat));
  }

  lemma {:induction false} VersionPart(s: string)
    requires Contains(s, VERSION)
    ensures Contains(s, "Version")
  {
    assert OccursAt(VERSION, "Version", 7);
    assert Contains(VERSION, "Version");
    ContainsTrans(s, VERSION, "Version");
  }

  lemma {:induction false} SeatedUnversioned(lines: seq<string>, infer: string -> (string, string), x: string)
    requires forall line :: line in lines ==> !Contains(line, VERSION)
    requires forall line :: line in lines && StartsWith(line, "### ") ==> SeatUnversioned(infer(Strip(line[4..])))
    requires x in WithSeats(lines, infer)
    ensures !Contains(x, VERSION)
  {
    SeatWords();
    hide WithSeats, Contains, VERSION;
    WithSeatsMembers(lines, infer, x);
    if x !in lines && Contains(x, VERSION) {
      VersionPart(x);
      var line :| line in lines && x in SeatLines(line, infer);
      var (body, seat) := infer(Strip(line[4..]));
      SeatLineText(body, seat);
    }
  }

  /** In a file without "Format Version" the migration is recognised exactly when its metadata table is below the first line. */
  lemma {:induction false} UnversionedMulti(lines: seq<string>, meta: Option<nat>, infer: string -> (string, string))
    requires forall line :: line in lines ==> !Contains(line, VERSION)
    requires forall line :: line in lines && StartsWith(line, "### ") ==> SeatUnversioned(infer(Strip(line[4..])))
    ensures IsMigrated(MigrateMulti(lines, meta, infer)) <==> meta.Some? && meta.value > 0
  {
    hide IsMigrated, HasVersionLine, MigrateMulti, WithSeats, KeepsVersion, Kinds, Contains, VERSION, AtEnd, SeatUnversioned;
    MultiRecognised(lines, meta, infer);
    var all := WithSeats(lines, infer);
    forall x | x in all ensures !Contains(x, VERSION) {
      SeatedUnversioned(lines, infer, x);
    }
    if i :| 0 <= i < |all| && KeepsVersion(all[i], Kinds(all)[i]) {
      KeptIsInLine(all[i], Kinds(all)[i]);
    }
    if x :| x in all && AtEnd(x, VERSION) {
      EndInside(x, VERSION);
    }
  }

  lemma {:induction false} NoHeading(line: string)
    requires line != "" && line[0] == '|'
    ensures !StartsWith(line, "### ")
  {
    if |line| >= 4 {
      assert line[..4][0] == '|';
    }
  }

  const TABLE_TOP := "| Field | Value |"
  const TABLE_RULE := "|---|---|"

  lemma {:induction false} TopIsMeta()
    ensures StrictMeta(TABLE_TOP)
  {
    hide Contains;
    ContainsItself(TABLE_TOP);
  }

  lemma {:induction false} TopNoHeading()
    ensures !StartsWith(TABLE_TOP, "### ") && !StartsWith(TABLE_RULE, "### ")
  {
    hide StartsWith;
    NoHeading(TABLE_TOP);
    NoHeading(TABLE_RULE);
  }

  lemma {:induction false} TopChars()
    ensures 'm' in VERSION && 'm' !in TABLE_TOP && 'm' !in TABLE_RULE
  {
    assert VERSION[3] == 'm';
  }

  lemma {:induction false} TopUnversioned()
    ensures !Contains(TABLE_TOP, VERSION) && !Contains(TABLE_RULE, VERSION)
  {
    hide Contains, VERSION, TABLE_TOP, TABLE_RULE;
    TopChars();
    NoWordWithout(TABLE_TOP, VERSION, 'm');
    NoWordWithout(TABLE_RULE, VERSION, 'm');
  }

  /** A county file that starts with its metadata table stays unrecognised. */
  lemma {:induction false} MetadataAtTop(infer: string -> (string, string))
    ensures StrictMeta(TABLE_TOP) && !IsMigrated(MigrateMulti([TABLE_TOP, TABLE_RULE], Some(0), infer))
  {
    hide MigrateMulti, IsMigrated, StrictMeta, Contains, StartsWith, SeatUnversioned, TABLE_TOP, TABLE_RULE, VERSION;
    TopIsMeta();
    TopNoHeading();
    TopUnversioned();
    UnversionedMulti([TABLE_TOP, TABLE_RULE], Some(0), infer);
  }

  // ---------------------------------------------------------------- where the metadata is looked for

  /** The county test wants the whole heading of the metadata table ... */
  lemma {:induction false} StrictMetaMeaning(line: string)
    ensures StrictMeta(line) <==> Mentions(line, "| Field | Value |")
  {
    ContainsMeaning(line, "| Field | Value |");
    hide Contains;
  }

  /** ... the single-contest test its two words, the first after a bar. */
  lemma {:induction false} LooseMetaMeaning(line: string)
    ensures LooseMeta(line) <==> Mentions(line, "| Field") && Mentions(line, "Value")
  {
    ContainsMeaning(line, "| Field");
    ContainsMeaning(line, "Value");
    WholeHeading();
    hide Contains;
    if Contains(line, "| Field | Value |") {
      ContainsTrans(line, "| Field | Value |", "| Field");
      ContainsTrans(line, "| Field | Value |", "Value");
    }
  }

  lemma {:induction false} WholeHeading()
    ensures Contains("| Field | Value |", "| Field") && Contains("| Field | Value |", "Value")
  {
    ContainsMiddle("", "| Field", " | Value |");
    ContainsMiddle("| Field | ", "Value", " |");
    hide Contains;
    assert "" + "| Field" + " | Value |" == "| Field | Value |" && "| Field | " + "Value" + " |" == "| Field | Value |";
  }

  /** An overview's metadata goes before the first heading of the second level or below, or table line with a Date. */
  lemma {:induction false} SectionMeaning(line: string)
    ensures SectionStart(line)
        <==> (|line| >= 2 && line[0] == '#' && line[1] == '#') || (line != "" && line[0] == '|' && Mentions(line, "Date"))
  {
    ContainsMeaning(line, "Date");
    hide Contains;
    if |line| >= 2 {
      assert line[..2] == [line[0], line[1]];
    }
    if line != "" {
      assert line[..1] == [line[0]];
    }
  }

  // ---------------------------------------------------------------- where the rows go

  /** The rows a single-contest file gains. */
  function ContestRows(body: string, seat: string): seq<string> {
    ["| ID | |", "| Format Version | 1 |", "| Body | " + body + " |", "| Seat | " + seat + " |", "| Stage | election |"]
  }

  /** They go below the separator of its metadata table, or into a new table below the title. */
  lemma {:induction false} SingleLayout(lines: seq<string>, meta: Option<nat>, body: string, seat: string)
    requires lines != [] && (meta.Some? ==> meta.value + 2 <= |lines|)
    ensures MigrateSingle(lines, meta, body, seat)
         == Reduce(if meta.Some? && meta.value > 0
                   then lines[..meta.value + 2] + ContestRows(body, seat) + lines[meta.value + 2..]
                   else [lines[0]] + ["", "## Metadata", "", "| Field | Value |", "|-------|-------|"]
                        + ContestRows(body, seat) + lines[1..])
  {
    hide Reduce;
    assert [ID_ROW, VERSION_ROW] + Bodies(body, seat) == ContestRows(body, seat);
  }

  /** An overview gains a metadata section at the place found. */
  lemma {:induction false} OverviewLayout(lines: seq<string>, at: nat, electionType: string)
    requires at <= |lines|
    ensures MigrateOverview(lines, at, electionType)
         == lines[..at]
            + ["", "## Metadata", "", "| Field | Value |", "|-------|-------|", "| ID | |", "| Format Version | 1 |",
               "| Name (SOS) | |", "| Type | " + electionType + " |", "| Stage | election |", ""]
            + lines[at..]
  {
    hide ID_ROW, VERSION_ROW;
    RowTexts();
    assert METADATA_HEADING + [ID_ROW, VERSION_ROW, "| Name (SOS) | |", "| Type | " + electionType + " |", "| Stage | election |", ""]
        == ["", "## Metadata", "", "| Field | Value |", "|-------|-------|", ID_ROW, VERSION_ROW,
            "| Name (SOS) | |", "| Type | " + electionType + " |", "| Stage | election |", ""];
  }

  lemma {:induction false} RowTexts()
    ensures ID_ROW == "| ID | |" && VERSION_ROW == "| Format Version | 1 |"
  {
  }

  /** A county file gains two rows below the separator of a metadata table that is not at the top. */
  lemma {:induction false} MultiLayout(lines: seq<string>, meta: Option<nat>, infer: string -> (string, string))
    requires meta.Some? ==> meta.value + 2 <= |lines|
    ensures MigrateMulti(lines, meta, infer)
         == Reduce(WithSeats(if meta.Some? && meta.value > 0
                             then lines[..meta.value + 2] + ["| ID | |", "| Format Version | 1 |"] + lines[meta.value + 2..]
                             else lines, infer))
  {
    hide Reduce, WithSeats, ID_ROW, VERSION_ROW;
    RowTexts();
  }

  /** Below each contest heading it gains an empty line and the body and seat inferred from its text. */
  lemma {:induction false} SeatsBelowHeadings(x: seq<string>, line: string, y: seq<string>, infer: string -> (string, string))
    ensures WithSeats(x + [line] + y, infer)
         == WithSeats(x, infer) + [line]
            + (if |line| >= 4 && line[0] == '#' && line[1] == '#' && line[2] == '#' && line[3] == ' ' then
                 var (body, seat) := infer(Strip(line[4..]));
                 ["", "**Body:** " + body + " | **Seat:** " + seat]
               else [])
            + WithSeats(y, infer)
  {
    HeadingMark(line);
    WithSeatsConcat(x + [line], y, infer);
    WithSeatsSnoc(x, line, infer);
    hide WithSeats, Strip;
  }

  lemma {:induction false} HeadingMark(line: string)
    ensures StartsWith(line, "### ") <==> |line| >= 4 && line[0] == '#' && line[1] == '#' && line[2] == '#' && line[3] == ' '
  {
    if |line| >= 4 {
      assert line[..4] == [line[0], line[1], line[2], line[3]];
    }
  }

  // ---------------------------------------------------------------- the commands

  /** One step of each of the scanner's states, at line `i`. */
  lemma {:induction false} ReduceStep(lines: seq<string>, i: nat)
    requires i < |lines|
    ensures Reduce(lines[i..]) == if HeaderLike(lines[i])
                                  then [NewHeader(lines[i])] + AfterHeader(lines[i + 1..], ColumnsOf(lines[i]))
                                  else [lines[i]] + Reduce(lines[i + 1..])
  {
    assert lines[i..][1..] == lines[i + 1..];
  }

  lemma {:induction false} AfterHeaderStep(lines: seq<string>, i: nat, c: Columns)
    requires i <= |lines|
    ensures i == |lines| ==> AfterHeader(lines[i..], c) == [] && Reduce(lines[i..]) == []
    ensures i < |lines| && StartsWith(lines[i], "|") ==>
              AfterHeader(lines[i..], c) == [NewSeparator(lines[i], c)] + InTable(lines[i + 1..], c)
    ensures i < |lines| && !StartsWith(lines[i], "|") ==> AfterHeader(lines[i..], c) == InTable(lines[i + 1..], c)
  {
    if i < |lines| {
      assert lines[i..][1..] == lines[i + 1..];
    }
  }

  lemma {:induction false} InTableStep(lines: seq<string>, i: nat, c: Columns)
    requires i <= |lines|
    ensures InTable(lines[i..], c) == if i < |lines| && IsRow(lines[i]) then [NewRow(lines[i], c)] + InTable(lines[i + 1..], c)
                                      else Reduce(lines[i..])
  {
    if i < |lines| {
      assert lines[i..][1..] == lines[i + 1..];
    }
  }

  /** `result` is what has been written of `whole`, and `rest` what is still to come. */
  ghost predicate Leads(result: seq<string>, rest: seq<string>, whole: seq<string>) {
    result + rest == whole
  }

  lemma {:induction false} LeadsEnds(whole: seq<string>, result: seq<string>)
    ensures Leads([], whole, whole)
    ensures Leads(result, [], whole) ==> result == whole
  {
    assert [] + whole == whole && result + [] == result;
  }

  lemma {:induction false} Emitted(result: seq<string>, line: string, rest: seq<string>, whole: seq<string>)
    requires Leads(result, [line] + rest, whole)
    ensures Leads(result + [line], rest, whole)
  {
    assert result + ([line] + rest) == (result + [line]) + rest;
  }

  /** `_reduce_candidate_table_columns`: the index-driven scanner. */
  method ReduceCandidateTableColumns(lines: seq<string>) returns (result: seq<string>)
    ensures result == Reduce(lines)
  {
    hide Reduce, AfterHeader, InTable, HeaderLike, IsRow, NewHeader, NewSeparator, NewRow, ColumnsOf, StartsWith, Leads;
    result := [];
    var i := 0;
    assert lines[0..] == lines;
    LeadsEnds(Reduce(lines), []);
    while i < |lines|
      invariant 0 <= i <= |lines|
      invariant Leads(result, Reduce(lines[i..]), Reduce(lines))
    {
      ReduceStep(lines, i);
      if HeaderLike(lines[i]) {
        var c := ColumnsOf(lines[i]);
        Emitted(result, NewHeader(lines[i]), AfterHeader(lines[i + 1..], c), Reduce(lines));
        result := result + [NewHeader(lines[i])];
        i := i + 1;
        AfterHeaderStep(lines, i, c);
        if i < |lines| {
          if StartsWith(lines[i], "|") {
            Emitted(result, NewSeparator(lines[i], c), InTable(lines[i + 1..], c), Reduce(lines));
            result := result + [NewSeparator(lines[i], c)];
          }
          i := i + 1;
          InTableStep(lines, i, c);
          while i < |lines| && IsRow(lines[i])
            invariant 0 <= i <= |lines|
            invariant Leads(result, InTable(lines[i..], c), Reduce(lines))
          {
            InTableStep(lines, i, c);
            Emitted(result, NewRow(lines[i], c), InTable(lines[i + 1..], c), Reduce(lines));
            result := result + [NewRow(lines[i], c)];
            i := i + 1;
          }
          InTableStep(lines, i, c);
        }
      } else {
        Emitted(result, lines[i], Reduce(lines[i + 1..]), Reduce(lines));
        result := result + [lines[i]];
        i := i + 1;
      }
    }
    AfterHeaderStep(lines, |lines|, Columns(None, None));
    LeadsEnds(Reduce(lines), result);
  }

  /** The search for the metadata table; None stands for -1. */
  method FindStrictMeta(lines: seq<string>) returns (at: Option<nat>)
    ensures at.Some? ==> at.value < |lines| && StrictMeta(lines[at.value]) && forall j :: 0 <= j < at.value ==> !StrictMeta(lines[j])
    ensures at.None? ==> forall j :: 0 <= j < |lines| ==> !StrictMeta(lines[j])
  {
    for i := 0 to |lines|
      invariant forall j :: 0 <= j < i ==> !StrictMeta(lines[j])
    {
      if StrictMeta(lines[i]) {
        return Some(i);
      }
    }
    at := None;
  }

  /** `_migrate_multi_contest`. */
  method MigrateMultiContest(lines: seq<string>, infer: string -> (string, string)) returns (result: seq<string>, meta: Option<nat>)
    ensures meta.Some? ==> meta.value < |lines| && StrictMeta(lines[meta.value]) && forall j :: 0 <= j < meta.value ==> !StrictMeta(lines[j])
    ensures meta.None? ==> forall j :: 0 <= j < |lines| ==> !StrictMeta(lines[j])
    ensures result == MigrateMulti(lines, meta, infer)
  {
    hide Reduce, StrictMeta, Strip, InsertRows;
    meta := FindStrictMeta(lines);
    var rows := lines;
    if meta.Some? && meta.value > 0 {
      rows := InsertRows(lines, meta.value, [ID_ROW, VERSION_ROW]);
    }
    var withSeats := [];
    for i := 0 to |rows|
      invariant withSeats == WithSeats(rows[..i], infer)
    {
      assert rows[..i + 1][..i] == rows[..i];
      withSeats := withSeats + [rows[i]];
      if StartsWith(rows[i], "### ") {
        var (body, seat) := infer(Strip(rows[i][4..]));
        withSeats := withSeats + ["", "**Body:** " + body + " | **Seat:** " + seat];
      }
    }
    assert rows[..|rows|] == rows;
    result := ReduceCandidateTableColumns(withSeats);
  }

  method FindLooseMeta(lines: seq<string>) returns (at: Option<nat>)
    ensures at.Some? ==> at.value < |lines| && LooseMeta(lines[at.value]) && forall j :: 0 <= j < at.value ==> !LooseMeta(lines[j])
    ensures at.None? ==> forall j :: 0 <= j < |lines| ==> !LooseMeta(lines[j])
  {
    for i := 0 to |lines|
      invariant forall j :: 0 <= j < i ==> !LooseMeta(lines[j])
    {
      if LooseMeta(lines[i]) {
        return Some(i);
      }
    }
    at := None;
  }

  /** `_migrate_single_contest`; the result is recognised as migrated. */
  method MigrateSingleContest(lines: seq<string>, body: string, seat: string) returns (result: seq<string>, meta: Option<nat>)
    requires lines != []
    ensures meta.Some? ==> meta.value < |lines| && LooseMeta(lines[meta.value]) && forall j :: 0 <= j < meta.value ==> !LooseMeta(lines[j])
    ensures meta.None? ==> forall j :: 0 <= j < |lines| ==> !LooseMeta(lines[j])
    ensures result == MigrateSingle(lines, meta, body, seat) && IsMigrated(result)
  {
    hide LooseMeta, IsMigrated;
    meta := FindLooseMeta(lines);
    var rows := [ID_ROW, VERSION_ROW] + Bodies(body, seat);
    var marked;
    if meta.Some? && meta.value > 0 {
      marked := InsertRows(lines, meta.value, rows);
    } else {
      marked := [lines[0]] + METADATA_HEADING + rows + lines[1..];
    }
    result := ReduceCandidateTableColumns(marked);
    SingleAndOverviewMigrated(lines, meta, 0, body, seat);
  }

  predicate SectionStart(line: string) {
    StartsWith(line, "##") || (StartsWith(line, "|") && Contains(line, "Date"))
  }

  /** `_migrate_overview`: the metadata goes before the first section or date table after the title. */
  method MigrateOverviewFile(lines: seq<string>, electionType: string) returns (result: seq<string>, at: nat)
    ensures at >= 1 && ((at < |lines| && SectionStart(lines[at])) || at == 1)
    ensures forall j :: 1 <= j < at && j < |lines| ==> !SectionStart(lines[j])
    ensures at == 1 && 1 < |lines| && !SectionStart(lines[1]) ==> (forall j :: 1 <= j < |lines| ==> !SectionStart(lines[j]))
    ensures result == MigrateOverview(lines, at, electionType)
  {
    hide SectionStart;
    at := 1;
    var i := 1;
    while i < |lines| && !SectionStart(lines[i])
      invariant 1 <= i
      invariant forall j :: 1 <= j < i && j < |lines| ==> !SectionStart(lines[j])
    {
      i := i + 1;
    }
    if i < |lines| {
      at := i;
    }
    result := MigrateOverview(lines, at, electionType);
  }
}
