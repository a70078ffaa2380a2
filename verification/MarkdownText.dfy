/**
 Markdown table lines as strings: splitting at bars, stripping, joining cells, and words in lines.
 The string operations of `src/voter_api/cli/convert_cmd.py`, lines 381-448.
 */
module MarkdownText {
  import opened Prelude

  predicate OccursAt(s: string, w: string, i: int) {
    0 <= i <= |s| - |w| && s[i..i + |w|] == w
  }

  /** `w in s`. */
  predicate Contains(s: string, w: string) {
    exists i :: 0 <= i <= |s| && OccursAt(s, w, i)
  }

  predicate StartsWith(s: string, w: string) {
    |w| <= |s| && s[..|w|] == w
  }

  predicate IsSpace(c: char) {
    c == ' ' || '\t' <= c <= '\r' || '\U{1C}' <= c <= '\U{1F}'
  }

  /** The characters that `strip` and the pattern `\s` take for white space. */
  lemma {:induction false} SpaceChars(c: char)
    ensures IsSpace(c) <==> c in [' ', '\t', '\n', '\U{0B}', '\U{0C}', '\r', '\U{1C}', '\U{1D}', '\U{1E}', '\U{1F}']
  {
  }

  /** A text contains another exactly when it is that text with something before and after. */
  lemma {:induction false} ContainsMeaning(s: string, w: string)
    ensures Contains(s, w) <==> exists a, b :: s == a + w + b
  {
    if i :| 0 <= i <= |s| && OccursAt(s, w, i) {
      assert s == s[..i] + w + s[i + |w|..];
    }
    if a, b :| s == a + w + b {
      assert OccursAt(s, w, |a|);
    }
  }

  lemma {:induction false} StartsMeaning(s: string, w: string)
    ensures StartsWith(s, w) <==> exists b :: s == w + b
  {
    if StartsWith(s, w) {
      assert s == w + s[|w|..];
    }
  }

  ghost predicate AllSpace(s: string) {
    forall c :: c in s ==> IsSpace(c)
  }

  function LStrip(s: string): string {
    if s != "" && IsSpace(s[0]) then LStrip(s[1..]) else s
  }

  function RStrip(s: string): string {
    if s != "" && IsSpace(s[|s| - 1]) then RStrip(s[..|s| - 1]) else s
  }

  function Strip(s: string): string {
    RStrip(LStrip(s))
  }

  /** `s.split("|")`. */
  function Split(s: string): (parts: seq<string>)
    ensures parts != []
  {
    if s == "" then [""]
    else
      var rest := Split(s[1..]);
      if s[0] == '|' then [""] + rest else [[s[0]] + rest[0]] + rest[1..]
  }

  /** `" | ".join(cells)`. */
  function Join(cells: seq<string>): string {
    if cells == [] then ""
    else if |cells| == 1 then cells[0]
    else cells[0] + " | " + Join(cells[1..])
  }

  function Line(cells: seq<string>): string {
    "| " + Join(cells) + " |"
  }

  function StripAll(parts: seq<string>): (r: seq<string>)
    ensures |r| == |parts|
  {
    seq(|parts|, i requires 0 <= i < |parts| => Strip(parts[i]))
  }

  /** The cells of a data row: everything between the first and the last bar, stripped. */
  function Cells(line: string): seq<string> {
    var parts := Split(line);
    if |parts| <= 2 then [] else StripAll(parts[1..|parts| - 1])
  }

  function NonEmpty(cells: seq<string>): seq<string> {
    if cells == [] then []
    else NonEmpty(cells[..|cells| - 1]) + if cells[|cells| - 1] != "" then [cells[|cells| - 1]] else []
  }

  /** The cells of a header or separator: stripped and without the empty ones. */
  function HeadCells(line: string): seq<string> {
    NonEmpty(StripAll(Split(line)))
  }

  /** The index of the first cell that is exactly `name`. */
  function IndexOf(cells: seq<string>, name: string): Option<nat> {
    if cells == [] then None
    else if cells[0] == name then Some(0)
    else match IndexOf(cells[1..], name) case None => None case Some(k) => Some(k + 1)
  }

  /** The cells at other positions than `e` and `w`, in order. */
  function Project(cells: seq<string>, e: Option<nat>, w: Option<nat>): seq<string> {
    if cells == [] then []
    else
      var k := |cells| - 1;
      Project(cells[..k], e, w) + if e != Some(k) && w != Some(k) then [cells[k]] else []
  }

  predicate BarFree(s: string) {
    '|' !in s
  }

  /** Cells as the migration writes them: no bar inside, no space around. */
  predicate Clean(cell: string) {
    BarFree(cell) && (cell != "" ==> !IsSpace(cell[0]) && !IsSpace(cell[|cell| - 1]))
  }

  // ---------------------------------------------------------------- projections

  function Without(cells: seq<string>, k: nat): seq<string> {
    if k < |cells| then cells[..k] + cells[k + 1..] else cells
  }

  /** The projection takes out the two positions, as far as the sequence has them. */
  lemma {:induction false} ProjectIsWithout(cells: seq<string>, a: nat, b: nat)
    requires a < b
    ensures Project(cells, Some(a), Some(b)) == Without(Without(cells, b), a)
    ensures Project(cells, Some(b), Some(a)) == Without(Without(cells, b), a)
  {
    hide Project;
    ProjectSwapped(cells, Some(b), Some(a));
    if b < |cells| {
      ProjectDrops(cells, a, b);
      assert Without(cells, b)[..a] == cells[..a];
      assert Without(cells, b)[a + 1..] == cells[a + 1..b] + cells[b + 1..];
    } else if a < |cells| {
      ProjectSame(cells, Some(a), Some(b), Some(a), None);
      ProjectOne(cells, a);
    } else {
      ProjectSame(cells, Some(a), Some(b), None, None);
      ProjectNone(cells);
    }
  }

  lemma {:induction false} ProjectSwapped(cells: seq<string>, e: Option<nat>, w: Option<nat>)
    ensures Project(cells, e, w) == Project(cells, w, e)
  {
    ProjectSame(cells, e, w, w, e);
  }

  lemma {:induction false} ProjectDrops(cells: seq<string>, a: nat, b: nat)
    requires a < b < |cells|
    ensures Project(cells, Some(a), Some(b)) == cells[..a] + cells[a + 1..b] + cells[b + 1..]
  {
    var k := |cells| - 1;
    var init := cells[..k];
    if k > b {
      ProjectDrops(init, a, b);
      assert init[..a] == cells[..a] && init[a + 1..b] == cells[a + 1..b];
      assert cells[b + 1..] == init[b + 1..] + [cells[k]];
    } else {
      ProjectOne(init, a);
      assert init[..a] == cells[..a] && init[a + 1..] == cells[a + 1..b] && cells[b + 1..] == [];
      ProjectSame(init, Some(a), Some(b), Some(a), None);
    }
  }

  lemma {:induction false} ProjectOne(cells: seq<string>, a: nat)
    requires a < |cells|
    ensures Project(cells, Some(a), None) == cells[..a] + cells[a + 1..]
  {
    var k := |cells| - 1;
    if k > a {
      ProjectOne(cells[..k], a);
      assert cells[..k][..a] == cells[..a] && cells[a + 1..] == cells[..k][a + 1..] + [cells[k]];
    } else {
      ProjectSame(cells[..k], Some(a), None, None, None);
      ProjectNone(cells[..k]);
      assert cells[a + 1..] == [];
    }
  }

  lemma {:induction false} ProjectNone(cells: seq<string>)
    ensures Project(cells, None, None) == cells
  {
    if cells != [] {
      var k := |cells| - 1;
      ProjectNone(cells[..k]);
      assert Project(cells, None, None) == Project(cells[..k], None, None) + [cells[k]];
      assert cells == cells[..k] + [cells[k]];
    }
  }

  /** Only positions inside the sequence matter. */
  lemma {:induction false} ProjectSame(cells: seq<string>, e: Option<nat>, w: Option<nat>, e': Option<nat>, w': Option<nat>)
    requires forall k :: 0 <= k < |cells| ==> (e != Some(k) && w != Some(k) <==> e' != Some(k) && w' != Some(k))
    ensures Project(cells, e, w) == Project(cells, e', w')
  {
    if cells != [] {
      ProjectSame(cells[..|cells| - 1], e, w, e', w');
    }
  }

  lemma {:induction false} ProjectMembers(cells: seq<string>, e: Option<nat>, w: Option<nat>, x: string)
    requires x in Project(cells, e, w)
    ensures exists k :: 0 <= k < |cells| && cells[k] == x && e != Some(k) && w != Some(k)
  {
    var k := |cells| - 1;
    if !(e != Some(k) && w != Some(k) && cells[k] == x) {
      ProjectMembers(cells[..k], e, w, x);
      var j :| 0 <= j < k && cells[..k][j] == x && e != Some(j) && w != Some(j);
      assert cells[j] == x;
    }
  }

  lemma {:induction false} ProjectHas(cells: seq<string>, e: Option<nat>, w: Option<nat>, k: nat)
    requires k < |cells| && e != Some(k) && w != Some(k)
    ensures cells[k] in Project(cells, e, w)
  {
    if k < |cells| - 1 {
      ProjectHas(cells[..|cells| - 1], e, w, k);
    }
  }

  /** At most two cells go. */
  lemma {:induction false} ProjectLength(cells: seq<string>, e: Option<nat>, w: Option<nat>)
    ensures |cells| - 2 <= |Project(cells, e, w)|
    ensures w.None? || w.value >= |cells| ==> |cells| - 1 <= |Project(cells, e, w)|
    ensures e.None? || e.value >= |cells| ==> |cells| - 1 <= |Project(cells, e, w)|
    ensures (e.None? || e.value >= |cells|) && (w.None? || w.value >= |cells|) ==> |Project(cells, e, w)| == |cells|
  {
    if cells != [] {
      ProjectLength(cells[..|cells| - 1], e, w);
    }
  }

  lemma {:induction false} ProjectSnoc(cells: seq<string>, x: string, e: Option<nat>, w: Option<nat>)
    ensures Project(cells + [x], e, w)
         == Project(cells, e, w) + if e != Some(|cells|) && w != Some(|cells|) then [x] else []
  {
    assert (cells + [x])[..|cells|] == cells;
  }

  lemma {:induction false} ProjectShorter(cells: seq<string>, e: Option<nat>, w: Option<nat>)
    requires (e.Some? && e.value < |cells|) || (w.Some? && w.value < |cells|)
    ensures |Project(cells, e, w)| < |cells|
  {
    var k := |cells| - 1;
    if e == Some(k) || w == Some(k) {
      ProjectAtMost(cells[..k], e, w);
    } else {
      ProjectShorter(cells[..k], e, w);
    }
  }

  lemma {:induction false} ProjectAtMost(cells: seq<string>, e: Option<nat>, w: Option<nat>)
    ensures |Project(cells, e, w)| <= |cells|
  {
    if cells != [] {
      ProjectAtMost(cells[..|cells| - 1], e, w);
    }
  }

  lemma {:induction false} ProjectClean(cells: seq<string>, e: Option<nat>, w: Option<nat>)
    requires forall i :: 0 <= i < |cells| ==> Clean(cells[i])
    ensures forall i :: 0 <= i < |Project(cells, e, w)| ==> Clean(Project(cells, e, w)[i])
  {
    hide Clean;
    if cells != [] {
      ProjectClean(cells[..|cells| - 1], e, w);
    }
  }

  // ---------------------------------------------------------------- splitting and joining

  lemma {:induction false} SplitBarFree(s: string)
    requires BarFree(s)
    ensures Split(s) == [s]
  {
    if s != "" {
      SplitBarFree(s[1..]);
      assert s == [s[0]] + s[1..];
    }
  }

  lemma {:induction false} SplitAtBar(a: string, b: string)
    requires BarFree(a)
    ensures Split(a + "|" + b) == [a] + Split(b)
  {
    if a == "" {
      assert (a + "|" + b)[1..] == b;
    } else {
      SplitAtBar(a[1..], b);
      assert (a + "|" + b)[1..] == a[1..] + "|" + b;
      assert a == [a[0]] + a[1..];
    }
  }

  lemma {:induction false} SplitCons(c: char, s: string)
    ensures Split([c] + s) == if c == '|' then [""] + Split(s) else [[c] + Split(s)[0]] + Split(s)[1..]
  {
    assert ([c] + s)[1..] == s;
  }

  lemma {:induction false} ConsConcat(c: char, a: seq<string>, b: seq<string>)
    requires a != []
    ensures if c == '|' then [""] + (a + b) == ([""] + a) + b
            else [[c] + (a + b)[0]] + (a + b)[1..] == ([[c] + a[0]] + a[1..]) + b
  {
    assert (a + b)[1..] == a[1..] + b;
  }

  lemma {:induction false} SplitConcat(a: string, b: string)
    ensures Split(a + "|" + b) == Split(a) + Split(b)
  {
    hide Split;
    if a == "" {
      assert "" + "|" + b == ['|'] + b;
      SplitCons('|', b);
      SplitBarFree("");
    } else {
      var rest := a[1..] + "|" + b;
      SplitConcat(a[1..], b);
      SplitCons(a[0], rest);
      SplitCons(a[0], a[1..]);
      assert a == [a[0]] + a[1..];
      assert a + "|" + b == [a[0]] + rest;
      ConsConcat(a[0], Split(a[1..]), Split(b));
    }
  }

  /** Every part of a split line stands between two bars, or at an end of the line. */
  lemma {:induction false} SplitAround(s: string, p: nat) returns (before: string, after: string)
    requires p < |Split(s)|
    ensures s == before + Split(s)[p] + after && BarFree(Split(s)[p])
    ensures if p == 0 then before == "" else before != "" && before[|before| - 1] == '|'
    ensures if p == |Split(s)| - 1 then after == "" else after != "" && after[0] == '|'
  {
    if s == "" {
      before, after := "", "";
    } else if s[0] == '|' && p == 0 {
      before, after := "", s;
    } else if s[0] == '|' {
      before, after := SplitAround(s[1..], p - 1);
      before := "|" + before;
    } else {
      before, after := SplitAround(s[1..], p);
      if p > 0 {
        before := [s[0]] + before;
      }
    }
  }

  lemma {:induction false} StripPadded(cell: string)
    requires Clean(cell)
    ensures Strip(" " + cell + " ") == cell
  {
    assert (" " + cell + " ")[1..] == cell + " ";
    assert (cell + " ")[..|cell|] == cell;
    if cell == "" {
      assert LStrip(" ") == "" by { assert " "[1..] == ""; }
      assert " " + cell + " " == "  " && "  "[1..] == " ";
    } else {
      assert LStrip(cell + " ") == cell + " ";
      assert RStrip(cell + " ") == cell;
    }
  }

  lemma {:induction false} SplitJoined(cells: seq<string>)
    requires cells != [] && forall i :: 0 <= i < |cells| ==> Clean(cells[i])
    ensures var parts := Split(" " + Join(cells) + " |");
      |parts| == |cells| + 1 && forall i :: 0 <= i < |cells| ==> parts[i] == " " + cells[i] + " "
  {
    hide Split;
    var first := " " + cells[0] + " ";
    if |cells| == 1 {
      SplitAtBar(first, "");
      SplitBarFree("");
      assert " " + Join(cells) + " |" == first + "|" + "";
    } else {
      var rest := " " + Join(cells[1..]) + " |";
      SplitAtBar(first, rest);
      assert " " + Join(cells) + " |" == first + "|" + rest;
      SplitJoined(cells[1..]);
    }
  }

  lemma {:induction false} StripSlice(parts: seq<string>, i: nat, j: nat)
    requires i <= j <= |parts|
    ensures StripAll(parts[i..j]) == StripAll(parts)[i..j]
  {
    hide Strip;
  }

  /** Reading back a written line gives its cells. */
  lemma {:induction false} CellsOfLine(cells: seq<string>)
    requires cells != [] && forall i :: 0 <= i < |cells| ==> Clean(cells[i])
    ensures Cells(Line(cells)) == cells
  {
    hide Split, Line, StripAll, Clean;
    PartsOfLine(cells);
    var parts := Split(Line(cells));
    assert |StripAll(parts)| == |cells| + 2;
    StripSlice(parts, 1, |parts| - 1);
    assert ([""] + cells + [""])[1..|cells| + 1] == cells;
  }

  /** A written line split at its bars: the cells between two empty parts. */
  lemma {:induction false} PartsOfLine(cells: seq<string>)
    requires cells != [] && forall i :: 0 <= i < |cells| ==> Clean(cells[i])
    ensures StripAll(Split(Line(cells))) == [""] + cells + [""]
  {
    hide StripAll, Split, Join, Clean;
    var tail := " " + Join(cells) + " |";
    SplitAtBar("", tail);
    assert Line(cells) == "" + "|" + tail;
    SplitJoined(cells);
    LastPartEmpty(" " + Join(cells) + " ");
    assert " " + Join(cells) + " |" == " " + Join(cells) + " " + "|";
    StripParts(cells, Split(tail));
  }

  lemma {:induction false} StripParts(cells: seq<string>, parts: seq<string>)
    requires |parts| == |cells| + 1 && parts[|cells|] == ""
    requires forall i :: 0 <= i < |cells| ==> Clean(cells[i]) && parts[i] == " " + cells[i] + " "
    ensures StripAll([""] + parts) == [""] + cells + [""]
  {
    hide Strip, Clean;
    assert Strip("") == "" by { StripNothing(); }
    forall i | 0 <= i < |cells| ensures Strip(parts[i]) == cells[i] {
      StripPadded(cells[i]);
    }
  }

  lemma {:induction false} StripNothing()
    ensures Strip("") == ""
  {
  }

  lemma {:induction false} LastPartEmpty(s: string)
    ensures var parts := Split(s + "|"); parts[|parts| - 1] == ""
  {
    SplitConcat(s, "");
    assert s + "|" + "" == s + "|";
  }

  /** What follows the last bar of a line, stripped. */
  function Tail(line: string): string {
    var parts := Split(line);
    Strip(parts[|parts| - 1])
  }

  lemma {:induction false} BarOpens(line: string)
    requires StartsWith(line, "|")
    ensures |Split(line)| >= 2 && Split(line)[0] == ""
  {
    SplitConcat("", line[1..]);
    assert line == "" + "|" + line[1..];
    SplitBarFree("");
  }

  /** A line that starts with a bar holds its cells and its tail. */
  lemma {:induction false} CellsAndTail(line: string)
    requires StartsWith(line, "|")
    ensures StripAll(Split(line)) == [""] + Cells(line) + [Tail(line)]
  {
    hide Split, Strip, StartsWith;
    BarOpens(line);
    StripNothing();
    var parts := Split(line);
    var n, all := |parts| - 1, StripAll(parts);
    StripSlice(parts, 1, n);
    assert Cells(line) == all[1..n];
    assert all[0] == "" && all[n] == Tail(line);
    hide StripAll, Cells, Tail;
    assert all == [all[0]] + all[1..n] + [all[n]];
  }

  /** Its cells are all it holds, empty ones aside, exactly when nothing follows the last bar. */
  lemma {:induction false} WholeIffNoTail(line: string)
    requires StartsWith(line, "|")
    ensures NonEmpty(Cells(line)) == HeadCells(line) <==> Tail(line) == ""
  {
    CellsAndTail(line);
    hide Cells, Split, StripAll, Tail, StartsWith;
    NonEmptyConcat([""] + Cells(line), [Tail(line)]);
    NonEmptyConcat([""], Cells(line));
    NonEmptyOne("");
    NonEmptyOne(Tail(line));
  }

  lemma {:induction false} NonEmptyNothing()
    ensures NonEmpty([]) == []
  {
  }

  lemma {:induction false} NonEmptyOne(cell: string)
    ensures NonEmpty([cell]) == if cell != "" then [cell] else []
  {
    assert [cell][..0] == [];
    assert NonEmpty([]) == [];
  }

  /** What follows the last bar of a line is not read as a cell, and is lost unless it is blank. */
  lemma {:induction false} UnterminatedCell(cells: seq<string>, last: string)
    requires cells != [] && BarFree(last) && forall i :: 0 <= i < |cells| ==> Clean(cells[i])
    ensures StartsWith(Line(cells) + last, "|") && Tail(Line(cells) + last) == Strip(last)
    ensures Cells(Line(cells) + last) == cells
    ensures NonEmpty(cells) == HeadCells(Line(cells) + last) <==> Strip(last) == ""
  {
    CellsOfLine(cells);
    var body := "| " + Join(cells) + " ";
    assert Line(cells) == body + "|" + "" && Line(cells) + last == body + "|" + last;
    assert StartsWith(Line(cells) + last, "|") by { assert body[0] == '|'; }
    SplitConcat(body, "");
    SplitConcat(body, last);
    SplitBarFree(last);
    SplitBarFree("");
    hide Split, Join, Line, StartsWith;
    var parts := Split(body);
    assert (parts + [""])[1..|parts|] == parts[1..] == (parts + [last])[1..|parts|];
    WholeIffNoTail(Line(cells) + last);
  }

  lemma {:induction false} JoinSnoc(cells: seq<string>, last: string)
    requires cells != []
    ensures Join(cells + [last]) == Join(cells) + " | " + last
  {
    if |cells| == 1 {
      assert cells + [last] == [cells[0], last];
      assert Join([last]) == last && (cells + [last])[1..] == [last];
    } else {
      JoinSnoc(cells[1..], last);
      assert (cells + [last])[0] == cells[0] && (cells + [last])[1..] == cells[1..] + [last];
    }
  }

  // ---------------------------------------------------------------- stripping

  lemma {:induction false} LStripSplits(s: string) returns (n: nat)
    ensures n <= |s| && LStrip(s) == s[n..] && AllSpace(s[..n])
    ensures LStrip(s) != "" ==> !IsSpace(LStrip(s)[0])
  {
    n := 0;
    if s != "" && IsSpace(s[0]) {
      n := LStripSplits(s[1..]);
      hide LStrip, IsSpace;
      assert s[1..][n..] == s[n + 1..];
      assert s[..n + 1] == [s[0]] + s[1..][..n];
      n := n + 1;
    } else {
      assert s[0..] == s;
    }
  }

  lemma {:induction false} RStripSplits(s: string)
    ensures |RStrip(s)| <= |s| && RStrip(s) == s[..|RStrip(s)|] && AllSpace(s[|RStrip(s)|..])
    ensures RStrip(s) != "" ==> !IsSpace(RStrip(s)[|RStrip(s)| - 1])
  {
    if s != "" && IsSpace(s[|s| - 1]) {
      var k := |s| - 1;
      RStripSplits(s[..k]);
      var n := |RStrip(s[..k])|;
      assert s[n..] == s[..k][n..] + [s[k]];
    } else {
      assert s[..|s|] == s && s[|s|..] == "";
    }
  }

  /** Stripping takes white space off both ends and nothing else. */
  lemma {:induction false} StripSplits(s: string) returns (a: string, b: string)
    ensures s == a + Strip(s) + b && AllSpace(a) && AllSpace(b)
    ensures Strip(s) != "" ==> !IsSpace(Strip(s)[0]) && !IsSpace(Strip(s)[|Strip(s)| - 1])
  {
    var n := LStripSplits(s);
    var t := LStrip(s);
    RStripSplits(t);
    a, b := s[..n], t[|RStrip(t)|..];
    hide LStrip, RStrip, AllSpace, IsSpace;
    assert s == s[..n] + s[n..] && t == t[..|RStrip(t)|] + t[|RStrip(t)|..];
  }

  lemma {:induction false} LStripSpaces(a: string, s: string)
    requires AllSpace(a)
    ensures LStrip(a + s) == LStrip(s)
  {
    if a == "" {
      assert a + s == s;
    } else {
      assert a[0] in a && (a + s)[1..] == a[1..] + s;
      LStripSpaces(a[1..], s);
    }
  }

  lemma {:induction false} RStripSpaces(s: string, b: string)
    requires AllSpace(b)
    ensures RStrip(s + b) == RStrip(s)
  {
    if b == "" {
      assert s + b == s;
    } else {
      var k := |b| - 1;
      assert b[k] in b && (s + b)[..|s + b| - 1] == s + b[..k];
      RStripSpaces(s, b[..k]);
    }
  }

  lemma {:induction false} StripPaddedBy(a: string, text: string, b: string)
    requires AllSpace(a) && AllSpace(b) && Clean(text) && text != ""
    ensures Strip(a + text + b) == text
  {
    assert a + text + b == a + (text + b);
    LStripSpaces(a, text + b);
    assert LStrip(text + b) == text + b;
    RStripSpaces(text, b);
    assert RStrip(text) == text;
  }

  lemma {:induction false} StripClean(s: string)
    requires BarFree(s)
    ensures Clean(Strip(s))
  {
    var a, b := StripSplits(s);
    hide Strip, AllSpace, IsSpace;
    forall c | c in Strip(s) ensures c in s {
      var i :| 0 <= i < |Strip(s)| && Strip(s)[i] == c;
      assert (a + Strip(s) + b)[|a| + i] == c;
    }
  }

  // ---------------------------------------------------------------- clean cells

  lemma {:induction false} PartClean(line: string, p: nat)
    requires p < |Split(line)|
    ensures Clean(StripAll(Split(line))[p])
  {
    var before, after := SplitAround(line, p);
    hide Split, Clean;
    StripClean(Split(line)[p]);
  }

  lemma {:induction false} CellsClean(line: string)
    ensures forall i :: 0 <= i < |Cells(line)| ==> Clean(Cells(line)[i])
  {
    hide Split, Clean;
    forall i | 0 <= i < |Cells(line)| ensures Clean(Cells(line)[i]) {
      PartClean(line, i + 1);
    }
  }

  lemma {:induction false} NonEmptyClean(cells: seq<string>)
    requires forall i :: 0 <= i < |cells| ==> Clean(cells[i])
    ensures forall i :: 0 <= i < |NonEmpty(cells)| ==> Clean(NonEmpty(cells)[i])
  {
    hide Clean;
    if cells != [] {
      NonEmptyClean(cells[..|cells| - 1]);
    }
  }

  lemma {:induction false} HeadCellsClean(line: string)
    ensures forall i :: 0 <= i < |HeadCells(line)| ==> Clean(HeadCells(line)[i])
  {
    hide Split, Clean;
    forall i | 0 <= i < |Split(line)| ensures Clean(StripAll(Split(line))[i]) {
      PartClean(line, i);
    }
    NonEmptyClean(StripAll(Split(line)));
  }

  /** The cell found is the first of its name. */
  lemma {:induction false} IndexOfFirst(cells: seq<string>, name: string)
    ensures match IndexOf(cells, name)
      case None => name !in cells
      case Some(k) => k < |cells| && cells[k] == name && forall j :: 0 <= j < k ==> cells[j] != name
  {
    if cells != [] {
      IndexOfFirst(cells[1..], name);
      assert cells == [cells[0]] + cells[1..];
    }
  }

  lemma {:induction false} NonEmptyMembers(cells: seq<string>, x: string)
    requires x in NonEmpty(cells)
    ensures x in cells
  {
    if x !in [cells[|cells| - 1]] {
      NonEmptyMembers(cells[..|cells| - 1], x);
    }
  }

  lemma {:induction false} IndexOfIs(cells: seq<string>, name: string, k: nat)
    requires k < |cells| && cells[k] == name && forall j :: 0 <= j < k ==> cells[j] != name
    ensures IndexOf(cells, name) == Some(k)
  {
    IndexOfFirst(cells, name);
  }

  lemma {:induction false} NonEmptyConcat(a: seq<string>, b: seq<string>)
    ensures NonEmpty(a + b) == NonEmpty(a) + NonEmpty(b)
  {
    if b == [] {
      assert a + b == a;
    } else {
      var k := |b| - 1;
      assert (a + b)[..|a| + k] == a + b[..k];
      NonEmptyConcat(a, b[..k]);
    }
  }

  lemma {:induction false} NonEmptyExtended(cells: seq<string>, more: seq<string>)
    ensures NonEmpty(cells + more) == NonEmpty(cells) <==> NonEmpty(more) == []
  {
    NonEmptyConcat(cells, more);
    hide NonEmpty;
    assert NonEmpty(cells) + [] == NonEmpty(cells);
  }

  lemma {:induction false} NonEmptyLength(cells: seq<string>)
    ensures |NonEmpty(cells)| <= |cells|
    ensures |NonEmpty(cells)| == |cells| <==> "" !in cells
  {
    if cells != [] {
      var k := |cells| - 1;
      NonEmptyLength(cells[..k]);
      assert forall x :: x in cells <==> x in cells[..k] || x == cells[k];
    }
  }

  lemma {:induction false} NonEmptyHas(cells: seq<string>, x: string)
    requires x in cells && x != ""
    ensures x in NonEmpty(cells)
  {
    var k := |cells| - 1;
    if x != cells[k] {
      assert x in cells[..k];
      NonEmptyHas(cells[..k], x);
    }
  }

  /** Dropping empty cells moves a cell to the left by the number of empty ones before it. */
  lemma {:induction false} IndexAmongNonEmpty(cells: seq<string>, name: string)
    requires name in cells && name != ""
    ensures IndexOf(cells, name).Some? && IndexOf(cells, name).value < |cells|
    ensures var p := IndexOf(cells, name).value; var e := |NonEmpty(cells[..p])|;
      IndexOf(NonEmpty(cells), name) == Some(e) && e <= p && (e == p <==> "" !in cells[..p])
  {
    IndexOfFirst(cells, name);
    var p := IndexOf(cells, name).value;
    var left, right := cells[..p], cells[p + 1..];
    assert cells == left + ([name] + right);
    NonEmptyConcat(left, [name] + right);
    NonEmptyConcat([name], right);
    assert NonEmpty([name]) == [name];
    NonEmptyLength(left);
    hide NonEmpty, IndexOf;
    var e := |NonEmpty(left)|;
    forall j | 0 <= j < e ensures NonEmpty(cells)[j] != name {
      assert NonEmpty(cells)[j] == NonEmpty(left)[j];
      NonEmptyMembers(left, NonEmpty(left)[j]);
    }
    IndexOfIs(NonEmpty(cells), name, e);
  }

  // ---------------------------------------------------------------- words in lines

  /** A word of the detection: it has no bar and no space. */
  predicate IsWord(w: string) {
    w != "" && '|' !in w && ' ' !in w
  }

  lemma {:induction false} SliceOfSlice(s: string, i: nat, n: nat, j: nat, m: nat)
    requires i <= n <= |s| && j <= m <= n - i
    ensures s[i..n][j..m] == s[i + j..i + m]
  {
    var x, y := s[i..n][j..m], s[i + j..i + m];
    assert forall k :: 0 <= k < m - j ==> x[k] == s[i..n][j + k] == s[i + j + k] == y[k];
  }

  lemma {:induction false} ContainsTrans(s: string, t: string, w: string)
    requires Contains(s, t) && Contains(t, w)
    ensures Contains(s, w)
  {
    var i :| 0 <= i <= |s| && OccursAt(s, t, i);
    var j :| 0 <= j <= |t| && OccursAt(t, w, j);
    SliceOfSlice(s, i, i + |t|, j, j + |w|);
    assert OccursAt(s, w, i + j);
  }

  lemma {:induction false} ContainsMiddle(before: string, w: string, after: string)
    ensures Contains(before + w + after, w)
  {
    assert OccursAt(before + w + after, w, |before|);
  }

  lemma {:induction false} StripInside(s: string)
    ensures Contains(s, Strip(s))
  {
    var a, b := StripSplits(s);
    hide Strip, Contains;
    ContainsMiddle(a, Strip(s), b);
  }

  /** Every part of a split line is a piece of it. */
  lemma {:induction false} PartInside(s: string, i: nat)
    requires i < |Split(s)|
    ensures Contains(s, Split(s)[i])
  {
    var before, after := SplitAround(s, i);
    hide Split, Contains;
    ContainsMiddle(before, Split(s)[i], after);
  }

  /** A cell is a stripped part of its line. */
  lemma {:induction false} CellIsPart(line: string, cell: string) returns (p: nat)
    requires cell in Cells(line) || cell in HeadCells(line)
    ensures p < |Split(line)| && Strip(Split(line)[p]) == cell
  {
    hide Split, Strip;
    if cell in Cells(line) {
      var i :| 0 <= i < |Cells(line)| && Cells(line)[i] == cell;
      p := i + 1;
    } else {
      NonEmptyMembers(StripAll(Split(line)), cell);
      var i :| 0 <= i < |Split(line)| && StripAll(Split(line))[i] == cell;
      p := i;
    }
  }

  /** A word in a cell is a word in its line. */
  lemma {:induction false} CellInside(line: string, cell: string, w: string)
    requires cell in Cells(line) || cell in HeadCells(line)
    requires Contains(cell, w)
    ensures Contains(line, w)
  {
    hide Cells, HeadCells, Contains, Split, Strip;
    var p := CellIsPart(line, cell);
    PartInside(line, p);
    StripInside(Split(line)[p]);
    ContainsTrans(line, Split(line)[p], cell);
    ContainsTrans(line, cell, w);
  }

  lemma {:induction false} OccursLeft(a: string, b: string, w: string, i: nat)
    requires i + |w| <= |a| && OccursAt(a + b, w, i)
    ensures Contains(a, w)
  {
    assert (a + b)[i..i + |w|] == a[i..i + |w|];
    assert OccursAt(a, w, i);
  }

  lemma {:induction false} OccursRight(a: string, b: string, w: string, i: nat)
    requires |a| <= i && OccursAt(a + b, w, i)
    ensures Contains(b, w)
  {
    var j := i - |a|;
    assert (a + b)[i..i + |w|] == b[j..j + |w|];
    assert OccursAt(b, w, j);
  }

  lemma {:induction false} OccursChar(s: string, w: string, i: nat, p: nat)
    requires OccursAt(s, w, i) && i <= p < i + |w|
    ensures p < |s| && s[p] == w[p - i]
  {
    assert s[i..i + |w|][p - i] == s[p];
  }

  lemma {:induction false} ContainsItself(s: string)
    ensures Contains(s, s)
  {
    hide Contains;
    ContainsMiddle("", s, "");
    assert "" + s + "" == s;
  }

  lemma {:induction false} CellOccurs(line: string, cell: string)
    requires cell in Cells(line) || cell in HeadCells(line)
    ensures Contains(line, cell)
  {
    hide Cells, HeadCells, Contains;
    ContainsItself(cell);
    CellInside(line, cell, cell);
  }

  /** A word cannot straddle a separator made of bars and spaces. */
  lemma {:induction false} WordBesideSeparator(a: string, sep: string, b: string, w: string)
    requires w != "" && sep != "" && forall i, j :: 0 <= i < |w| && 0 <= j < |sep| ==> w[i] != sep[j]
    requires Contains(a + sep + b, w)
    ensures Contains(a, w) || Contains(b, w)
  {
    var s := a + sep + b;
    var i :| 0 <= i <= |s| && OccursAt(s, w, i);
    hide Contains, OccursAt;
    if i + |w| <= |a| {
      assert s == a + (sep + b);
      OccursLeft(a, sep + b, w, i);
    } else if i >= |a| + |sep| {
      OccursRight(a + sep, b, w, i);
    } else {
      var p := if i > |a| then i else |a|;
      assert s[p] == sep[p - |a|];
      OccursChar(s, w, i, p);
    }
  }

  lemma {:induction false} WordInJoined(cells: seq<string>, w: string)
    requires IsWord(w) && Contains(Join(cells), w)
    ensures exists c :: c in cells && Contains(c, w)
  {
    if |cells| == 1 {
      assert cells[0] in cells;
    } else if cells != [] {
      WordBesideSeparator(cells[0], " | ", Join(cells[1..]), w);
      assert cells[0] in cells;
      if !Contains(cells[0], w) {
        WordInJoined(cells[1..], w);
        var c :| c in cells[1..] && Contains(c, w);
        assert c in cells;
      }
    }
  }

  lemma {:induction false} WordInLine(cells: seq<string>, w: string)
    requires IsWord(w) && Contains(Line(cells), w)
    ensures exists c :: c in cells && Contains(c, w)
  {
    assert Line(cells) == "" + "| " + (Join(cells) + " |") && Join(cells) + " |" == Join(cells) + " |" + "";
    WordBesideSeparator("", "| ", Join(cells) + " |", w);
    WordBesideSeparator(Join(cells), " |", "", w);
    WordInJoined(cells, w);
  }

  lemma {:induction false} BarInLine(line: string)
    requires |Split(line)| > 1
    ensures Contains(line, "|")
  {
    if BarFree(line) {
      SplitBarFree(line);
    }
    var i :| 0 <= i < |line| && line[i] == '|';
    assert OccursAt(line, "|", i);
  }

  lemma {:induction false} WordBringsChar(s: string, w: string, c: char)
    requires c in w && Contains(s, w)
    ensures c in s
  {
    var i :| 0 <= i <= |s| && OccursAt(s, w, i);
    var k :| 0 <= k < |w| && w[k] == c;
    hide OccursAt;
    OccursChar(s, w, i, i + k);
  }

  lemma {:induction false} NoWordWithout(s: string, w: string, c: char)
    requires c in w && c !in s
    ensures !Contains(s, w)
  {
    hide Contains;
    if Contains(s, w) {
      WordBringsChar(s, w, c);
    }
  }

  /** A word in a line rewritten from cells of another is a word in that line. */
  lemma {:induction false} WordFromCells(line: string, cells: seq<string>, e: Option<nat>, w: Option<nat>, word: string)
    requires cells == Cells(line) || cells == HeadCells(line)
    requires IsWord(word) && Contains(Line(Project(cells, e, w)), word)
    ensures Contains(line, word)
  {
    hide Line, Cells, HeadCells, Contains;
    var kept := Project(cells, e, w);
    WordInLine(kept, word);
    var x :| x in kept && Contains(x, word);
    ProjectMembers(cells, e, w, x);
    CellInside(line, x, word);
  }

  // ---------------------------------------------------------------- labels between bars

  /** The pattern `\|\s*text\s*\|` matches from `i` to `k`, the text standing at `j`. */
  ghost predicate LabelledAt(line: string, text: string, i: nat, j: nat, k: nat) {
    && i < j <= |line| - |text| && j + |text| <= k < |line|
    && line[i] == '|' && AllSpace(line[i + 1..j]) && line[j..j + |text|] == text
    && AllSpace(line[j + |text|..k]) && line[k] == '|'
  }

  lemma {:induction false} SpacesBarFree(s: string)
    requires AllSpace(s)
    ensures BarFree(s)
  {
  }

  /** A part strictly between two bars is a cell once stripped. */
  lemma {:induction false} BetweenBarsIsCell(before: string, part: string, after: string)
    requires BarFree(part)
    ensures Strip(part) in Cells(before + "|" + part + "|" + after)
  {
    var line := before + "|" + part + "|" + after;
    SplitConcat(before, part + "|" + after);
    SplitAtBar(part, after);
    assert line == before + "|" + (part + "|" + after);
    hide Split, Strip;
    var p := |Split(before)|;
    assert Split(line)[p] == part && 0 < p < |Split(line)| - 1;
    assert Cells(line)[p - 1] == Strip(part);
  }

  lemma {:induction false} MatchIsCell(line: string, text: string, i: nat, j: nat, k: nat)
    requires Clean(text) && text != "" && LabelledAt(line, text, i, j, k)
    ensures text in Cells(line)
  {
    var a, b := line[i + 1..j], line[j + |text|..k];
    SpacesBarFree(a);
    SpacesBarFree(b);
    var before, after := line[..i], line[k + 1..];
    assert line == before + "|" + (a + text + b) + "|" + after;
    hide Cells;
    StripPaddedBy(a, text, b);
    hide Strip, AllSpace, IsSpace;
    BetweenBarsIsCell(before, a + text + b, after);
  }

  lemma {:induction false} LabelledIn(before: string, a: string, text: string, b: string, after: string)
    requires before != "" && before[|before| - 1] == '|' && after != "" && after[0] == '|'
    requires AllSpace(a) && AllSpace(b)
    ensures var j := |before| + |a|;
      LabelledAt(before + (a + text + b) + after, text, |before| - 1, j, j + |text| + |b|)
  {
    hide AllSpace;
    var line, j := before + (a + text + b) + after, |before| + |a|;
    assert line[|before| - 1] == '|' && line[j + |text| + |b|] == after[0];
    assert line[|before|..j] == a;
    assert line[j..j + |text|] == text;
    assert line[j + |text|..j + |text| + |b|] == b;
  }

  lemma {:induction false} CellIsMatch(line: string, text: string) returns (i: nat, j: nat, k: nat)
    requires text in Cells(line)
    ensures LabelledAt(line, text, i, j, k)
  {
    hide Split, Strip, AllSpace, LabelledAt;
    var q :| 0 <= q < |Cells(line)| && Cells(line)[q] == text;
    var part := Split(line)[q + 1];
    var before, after := SplitAround(line, q + 1);
    var a, b := StripSplits(part);
    i, j, k := |before| - 1, |before| + |a|, |before| + |a| + |text| + |b|;
    LabelledIn(before, a, text, b, after);
  }

  /** A line matches the pattern exactly when the text is one of its cells. */
  lemma {:induction false} MatchesIffCell(line: string, text: string)
    requires Clean(text) && text != ""
    ensures (exists i, j, k :: LabelledAt(line, text, i, j, k)) <==> text in Cells(line)
  {
    hide Cells, LabelledAt, Clean;
    if i, j, k :| LabelledAt(line, text, i, j, k) {
      MatchIsCell(line, text, i, j, k);
    }
    if text in Cells(line) {
      var i, j, k := CellIsMatch(line, text);
    }
  }

  lemma {:induction false} LabelledWithin(before: string, line: string, after: string, text: string, i: nat, j: nat, k: nat)
    requires LabelledAt(line, text, i, j, k)
    ensures LabelledAt(before + line + after, text, |before| + i, |before| + j, |before| + k)
  {
    hide AllSpace;
    var s, n := before + line + after, |before|;
    assert s[n + i] == line[i] && s[n + k] == line[k];
    assert s[n + i + 1..n + j] == line[i + 1..j];
    assert s[n + j..n + j + |text|] == line[j..j + |text|];
    assert s[n + j + |text|..n + k] == line[j + |text|..k];
  }

  // ---------------------------------------------------------------- several lines

  /** `"\n".join(lines)`. */
  function Content(lines: seq<string>): string {
    if lines == [] then ""
    else if |lines| == 1 then lines[0]
    else lines[0] + "\n" + Content(lines[1..])
  }

  lemma {:induction false} ContentAround(lines: seq<string>, line: string) returns (before: string, after: string)
    requires line in lines
    ensures Content(lines) == before + line + after
  {
    if line == lines[0] {
      before, after := "", if |lines| == 1 then "" else "\n" + Content(lines[1..]);
      assert Content(lines) == line + after;
    } else {
      before, after := ContentAround(lines[1..], line);
      assert lines[0] + "\n" + (before + line + after) == (lines[0] + "\n" + before) + line + after;
      before := lines[0] + "\n" + before;
    }
  }

  /** A cell of a line is a cell of the text. */
  lemma {:induction false} LineCellInContent(lines: seq<string>, line: string, text: string)
    requires line in lines && text in Cells(line) && Clean(text) && text != ""
    ensures text in Cells(Content(lines))
  {
    hide Cells, Content, LabelledAt, Clean;
    var before, after := ContentAround(lines, line);
    var i, j, k := CellIsMatch(line, text);
    LabelledWithin(before, line, after, text, i, j, k);
    MatchIsCell(Content(lines), text, |before| + i, |before| + j, |before| + k);
  }

  /** Putting two strings together joins the last part of one and the first of the other. */
  lemma {:induction false} SplitMerge(x: string, y: string)
    ensures var n := |Split(x)| - 1; Split(x + y) == Split(x)[..n] + [Split(x)[n] + Split(y)[0]] + Split(y)[1..]
  {
    hide Split;
    if x == "" {
      SplitBarFree("");
      assert "" + y == y && "" + Split(y)[0] == Split(y)[0];
      assert Split(y) == [Split(y)[0]] + Split(y)[1..];
      assert [""][..0] == [] && [] + [Split(y)[0]] == [Split(y)[0]];
    } else {
      var r := x[1..];
      SplitMerge(r, y);
      assert x == [x[0]] + r && x + y == [x[0]] + (r + y);
      SplitCons(x[0], r);
      SplitCons(x[0], r + y);
      MergeCons(x[0], Split(r), Split(y), Split(x), Split(x + y));
    }
  }

  lemma {:induction false} MergeCons(c: char, a: seq<string>, b: seq<string>, ca: seq<string>, cab: seq<string>)
    requires a != [] && b != []
    requires ca == if c == '|' then [""] + a else [[c] + a[0]] + a[1..]
    requires var ab := a[..|a| - 1] + [a[|a| - 1] + b[0]] + b[1..];
      cab == if c == '|' then [""] + ab else [[c] + ab[0]] + ab[1..]
    ensures cab == ca[..|ca| - 1] + [ca[|ca| - 1] + b[0]] + b[1..]
  {
    var n := |a| - 1;
    if c == '|' {
      assert ([""] + a)[..n + 1] == [""] + a[..n];
    } else if n == 0 {
      assert ([c] + a[0]) + b[0] == [c] + (a[0] + b[0]);
    } else {
      assert ([[c] + a[0]] + a[1..])[..n] == [[c] + a[0]] + a[1..n];
      assert (a[..n] + [a[n] + b[0]] + b[1..])[1..] == a[1..n] + [a[n] + b[0]] + b[1..];
    }
  }

  lemma {:induction false} BreakOutside(a: string, b: string, s1: string, text: string, s2: string)
    requires a + "\n" + b == s1 + text + s2 && '\n' !in text
    ensures if |a| < |s1| then b == s1[|a| + 1..] + text + s2
            else |a| >= |s1| + |text| && a == s1 + text + s2[..|a| - |s1| - |text|]
  {
    var s, m := a + "\n" + b, |s1| + |text|;
    assert s[|a|] == '\n';
    if |a| < |s1| {
      assert b == s[|a| + 1..];
      assert (s1 + text + s2)[|a| + 1..] == s1[|a| + 1..] + text + s2;
    } else {
      assert forall k :: |s1| <= k < m ==> s[k] in text;
      assert a == s[..|a|];
      assert (s1 + text + s2)[..|a|] == s1 + text + s2[..|a| - m];
    }
  }

  /** A text that does not run over a line break stands on one side of it. */
  lemma {:induction false} StripBeside(a: string, b: string, text: string)
    requires Strip(a + "\n" + b) == text && text != "" && Clean(text) && '\n' !in text
    ensures Strip(a) == text || Strip(b) == text
  {
    hide Strip, AllSpace, IsSpace, Clean;
    var s1, s2 := StripSplits(a + "\n" + b);
    BreakOutside(a, b, s1, text, s2);
    if |a| < |s1| {
      AllSpaceSlice(s1, |a| + 1, |s1|);
      assert s1[|a| + 1..|s1|] == s1[|a| + 1..];
      StripPaddedBy(s1[|a| + 1..], text, s2);
    } else {
      var n := |a| - |s1| - |text|;
      AllSpaceSlice(s2, 0, n);
      assert s2[0..n] == s2[..n];
      StripPaddedBy(s1, text, s2[..n]);
    }
  }

  lemma {:induction false} AllSpaceSlice(s: string, i: nat, j: nat)
    requires AllSpace(s) && i <= j <= |s|
    ensures AllSpace(s[i..j])
  {
    hide IsSpace;
  }

  /** A line of which a part, stripped, is the text. */
  ghost predicate HasPart(line: string, text: string) {
    exists p :: 0 <= p < |Split(line)| && Strip(Split(line)[p]) == text
  }

  lemma {:induction false} PartOfTwo(x: string, y: string, text: string)
    requires HasPart(x + "\n" + y, text) && text != "" && Clean(text) && '\n' !in text
    ensures HasPart(x, text) || HasPart(y, text)
  {
    BreakBarFree();
    hide Split, Strip, Clean;
    var s := x + "\n" + y;
    assert s == x + ("\n" + y);
    SplitMerge(x, "\n" + y);
    SplitMerge("\n", y);
    SplitBarFree("\n");
    var px, py, n := Split(x), Split(y), |Split(x)| - 1;
    assert Split("\n" + y) == ["\n" + py[0]] + py[1..];
    var p :| 0 <= p < |Split(s)| && Strip(Split(s)[p]) == text;
    if p < n {
      assert Split(s)[p] == px[p];
    } else if p > n {
      assert Split(s)[p] == py[p - n];
    } else {
      assert Split(s)[p] == px[n] + ("\n" + py[0]) == px[n] + "\n" + py[0];
      StripBeside(px[n], py[0], text);
    }
  }

  lemma {:induction false} BreakBarFree()
    ensures BarFree("\n")
  {
  }

  /** A part of a text of several lines that holds a text without line break comes from one of them. */
  lemma {:induction false} PartOfLine(lines: seq<string>, text: string)
    requires lines != [] && HasPart(Content(lines), text) && text != "" && Clean(text) && '\n' !in text
    ensures exists line :: line in lines && HasPart(line, text)
  {
    hide HasPart, Clean;
    if |lines| == 1 {
      assert lines[0] in lines;
    } else {
      PartOfTwo(lines[0], Content(lines[1..]), text);
      if HasPart(lines[0], text) {
        assert lines[0] in lines;
      } else {
        PartOfLine(lines[1..], text);
        var line :| line in lines[1..] && HasPart(line, text);
        assert line in lines;
      }
    }
  }

  /** The text stands before the first bar or after the last. */
  ghost predicate AtEnd(line: string, text: string) {
    Strip(Split(line)[0]) == text || Tail(line) == text
  }

  lemma {:induction false} PartIsCellOrEnd(line: string, text: string)
    requires HasPart(line, text)
    ensures text in Cells(line) || AtEnd(line, text)
  {
    hide Split, Strip;
    var parts := Split(line);
    var p :| 0 <= p < |parts| && Strip(parts[p]) == text;
    if 0 < p < |parts| - 1 {
      assert Cells(line)[p - 1] == text;
    }
  }

  lemma {:induction false} CellIsInnerPart(line: string, text: string)
    requires text in Cells(line)
    ensures HasPart(line, text)
  {
    var p := CellIsPart(line, text);
  }

  /** A written line has nothing but cells between its bars. */
  lemma {:induction false} WrittenPart(cells: seq<string>, text: string)
    requires forall i :: 0 <= i < |cells| ==> Clean(cells[i])
    requires HasPart(Line(cells), text) && text != ""
    ensures text in Cells(Line(cells))
  {
    var all := if cells == [] then [""] else cells;
    assert Line(cells) == Line(all) by { LineOfNothing(); }
    assert Clean("");
    hide Split, Strip, Line, Clean;
    PartsOfLine(all);
    CellsOfLine(all);
    var p :| 0 <= p < |Split(Line(cells))| && Strip(Split(Line(cells))[p]) == text;
    assert StripAll(Split(Line(cells)))[p] == text;
    assert ([""] + all + [""])[p] == text;
  }

  lemma {:induction false} LineOfNothing()
    ensures Line([]) == Line([""])
  {
  }

  lemma {:induction false} EndInside(line: string, text: string)
    requires AtEnd(line, text)
    ensures Contains(line, text)
  {
    hide Split, Strip, Contains;
    var p := if Strip(Split(line)[0]) == text then 0 else |Split(line)| - 1;
    PartInside(line, p);
    StripInside(Split(line)[p]);
    ContainsTrans(line, Split(line)[p], text);
  }
}
