/**
 Election-name normalisation, and the agreement between the key an election is looked up
 by and the name it is stored under. `src/voter_api/lib/election_name_normalizer.py` and
 the name handling of `src/voter_api/services/candidate_import_service.py`.

 A name is handled as its tokens: maximal runs of word characters, maximal runs of
 whitespace, and single other characters, which is what the patterns of the source can
 tell apart. A string is determined by its tokens and determines them (`RenderTokenize`,
 `TokenizeRender`).
 */
module ElectionNames {
  import opened Prelude

  // ---------------------------------------------------------------- characters and tokens

  datatype CharClass = WordClass | SpaceClass | OtherClass

  predicate IsDigit(c: char) { '0' <= c <= '9' }

  function ClassOf(c: char): CharClass {
    if 'a' <= c <= 'z' || 'A' <= c <= 'Z' || IsDigit(c) || c == '_' then WordClass
    else if c == ' ' || '\t' <= c <= '\r' || '\U{1C}' <= c <= '\U{1F}' then SpaceClass
    else OtherClass
  }

  datatype Token = Word(text: string) | Space(run: string) | Sym(c: char) {
    function Class(): CharClass {
      if Word? then WordClass else if Space? then SpaceClass else OtherClass
    }

    function Chars(): string {
      match this
      case Word(w) => w
      case Space(r) => r
      case Sym(c) => [c]
    }

    ghost predicate Valid() {
      Chars() != "" && forall i :: 0 <= i < |Chars()| ==> ClassOf(Chars()[i]) == Class()
    }
  }

  type Tokens = seq<Token>

  /** Token sequences that come from a string: words and whitespace runs are maximal. */
  ghost predicate WellFormed(ts: Tokens) {
    && (forall i :: 0 <= i < |ts| ==> ts[i].Valid())
    && (forall i :: 0 < i < |ts| ==> ts[i].Sym? || ts[i - 1].Class() != ts[i].Class())
  }

  function TokenOf(c: char): Token {
    match ClassOf(c)
    case WordClass => Word([c])
    case SpaceClass => Space([c])
    case OtherClass => Sym(c)
  }

  /** Put one more character in front. */
  function Push(c: char, ts: Tokens): Tokens {
    if ts != [] && ts[0].Word? && ClassOf(c).WordClass? then [Word([c] + ts[0].text)] + ts[1..]
    else if ts != [] && ts[0].Space? && ClassOf(c).SpaceClass? then [Space([c] + ts[0].run)] + ts[1..]
    else [TokenOf(c)] + ts
  }

  function Tokenize(s: string): Tokens {
    if s == "" then [] else Push(s[0], Tokenize(s[1..]))
  }

  function Render(ts: Tokens): string {
    if ts == [] then "" else ts[0].Chars() + Render(ts[1..])
  }

  lemma {:induction false} RenderCons(t: Token, ts: Tokens)
    ensures Render([t] + ts) == t.Chars() + Render(ts)
  {
    assert ([t] + ts)[1..] == ts;
  }

  lemma {:induction false} PushedValid(c: char, t: Token)
    requires t.Valid()
    ensures TokenOf(c).Valid() && TokenOf(c).Class() == ClassOf(c)
    ensures t.Word? && ClassOf(c).WordClass? ==> Word([c] + t.text).Valid()
    ensures t.Space? && ClassOf(c).SpaceClass? ==> Space([c] + t.run).Valid()
  {
  }

  lemma {:induction false} PushWellFormed(c: char, ts: Tokens)
    requires WellFormed(ts)
    ensures WellFormed(Push(c, ts))
  {
    PushedValid(c, if ts == [] then TokenOf(c) else ts[0]);
    hide ClassOf, TokenOf, Token.Valid;
    forall i | 1 < i < |ts| ensures ts[i].Sym? || ts[i - 1].Class() != ts[i].Class() { }
  }

  lemma {:induction false} TokenizeWellFormed(s: string)
    ensures WellFormed(Tokenize(s))
  {
    hide WellFormed, Push;
    if s == "" {
      EmptyWellFormed();
    } else {
      TokenizeWellFormed(s[1..]);
      PushWellFormed(s[0], Tokenize(s[1..]));
    }
  }

  lemma {:induction false} EmptyWellFormed()
    ensures WellFormed([])
  {
  }

  lemma {:induction false} RenderPush(c: char, ts: Tokens)
    ensures Render(Push(c, ts)) == [c] + Render(ts)
  {
    hide ClassOf, Render;
    var now := Push(c, ts);
    if |now| == |ts| {
      RenderCons(ts[0], ts[1..]);
      RenderCons(now[0], ts[1..]);
      assert ts == [ts[0]] + ts[1..];
    } else {
      RenderCons(now[0], ts);
    }
  }

  /** A string is its tokens, written out. */
  lemma {:induction false} RenderTokenize(s: string)
    ensures Render(Tokenize(s)) == s
  {
    hide Push, Render;
    if s == "" {
      RenderNothing();
    } else {
      RenderTokenize(s[1..]);
      RenderPush(s[0], Tokenize(s[1..]));
      assert s == [s[0]] + s[1..];
    }
  }

  lemma {:induction false} RenderNothing()
    ensures Render([]) == ""
  {
  }

  lemma {:induction false} TokenizeCons(c: char, s: string)
    ensures Tokenize([c] + s) == Push(c, Tokenize(s))
  {
    hide Push;
    assert ([c] + s)[1..] == s;
  }

  lemma {:induction false} TokenizeRun(t: Token, s: string)
    requires t.Valid() && (s == "" || t.Sym? || ClassOf(s[0]) != t.Class())
    ensures Tokenize(t.Chars() + s) == [t] + Tokenize(s)
    decreases |t.Chars()|
  {
    hide Tokenize;
    var w := t.Chars();
    assert w == [w[0]] + w[1..];
    assert w + s == [w[0]] + (w[1..] + s);
    TokenizeCons(w[0], w[1..] + s);
    if |w| == 1 {
      assert w[1..] + s == s && w == [w[0]];
      TokenizeStart(s);
    } else {
      TokenizeRun(if t.Word? then Word(w[1..]) else Space(w[1..]), s);
    }
  }

  lemma {:induction false} TokenizeStart(s: string)
    ensures if s == "" then Tokenize(s) == [] else Tokenize(s) != [] && Tokenize(s)[0].Class() == ClassOf(s[0])
  {
  }

  /** Tokens read back from their own text are the same tokens. */
  lemma {:induction false} TokenizeRender(ts: Tokens)
    requires WellFormed(ts)
    ensures Tokenize(Render(ts)) == ts
  {
    if ts != [] {
      WellFormedSlice(ts, 1, |ts|);
      TokenizeRender(ts[1..]);
      TokenizeStart(Render(ts[1..]));
      TokenizeRun(ts[0], Render(ts[1..]));
    }
  }

  lemma {:induction false} WellFormedSlice(ts: Tokens, i: nat, j: nat)
    requires WellFormed(ts) && i <= j <= |ts|
    ensures WellFormed(ts[i..j])
  {
    var r := ts[i..j];
    forall k | 0 < k < |r| ensures r[k].Sym? || r[k - 1].Class() != r[k].Class() {
      assert r[k] == ts[i + k] && r[k - 1] == ts[i + k - 1];
    }
  }

  // ---------------------------------------------------------------- the library normaliser

  predicate IsMonth(w: string) {
    w in ["Jan", "Feb", "Mar", "Apr", "May", "Jun", "Jul", "Aug", "Sep", "Oct", "Nov", "Dec"]
  }

  function MonthAbbreviation(w: string): string {
    if w == "January" then "Jan" else if w == "February" then "Feb" else if w == "March" then "Mar"
    else if w == "April" then "Apr" else if w == "June" then "Jun" else if w == "July" then "Jul"
    else if w == "August" then "Aug" else if w == "September" then "Sep" else if w == "October" then "Oct"
    else if w == "November" then "Nov" else if w == "December" then "Dec" else w
  }

  function Expansion(w: string): string {
    if w == "Gen" then "General" else if w == "Prim" then "Primary"
    else if w == "Elec" then "Election" else if w == "Spec" then "Special" else w
  }

  predicate IsMarkerWord(w: string) {
    w != "" && forall i :: 0 <= i < |w| ==> w[i] in {'R', 'D', 'N', 'P', 'I'}
  }

  /** Dashes become hyphens, month names their three-letter forms. */
  function Shorten(t: Token): Token {
    match t
    case Word(w) => Word(MonthAbbreviation(w))
    case Space(_) => t
    case Sym(c) => if c == '\U{2013}' || c == '\U{2014}' then Sym('-') else t
  }

  function Expand(t: Token): Token {
    if t.Word? then Word(Expansion(t.text)) else t
  }

  predicate IsMonthToken(t: Token) {
    t.Word? && IsMonth(t.text)
  }

  predicate IsDay(t: Token) {
    t.Word? && |t.text| == 1 && IsDigit(t.text[0])
  }

  /** Month, whitespace, single digit, comma; two such places never overlap. */
  predicate DayAt(ts: Tokens, i: int) {
    0 <= i && i + 3 < |ts| && IsMonthToken(ts[i]) && ts[i + 1].Space? && IsDay(ts[i + 2]) && ts[i + 3] == Sym(',')
  }

  /** The zero-padding substitution `\1 0\2,` at every place it matches. */
  function PadDays(ts: Tokens): (r: Tokens)
    ensures |r| == |ts|
  {
    seq(|ts|, i requires 0 <= i < |ts| =>
      if DayAt(ts, i - 1) then Space(" ")
      else if DayAt(ts, i - 2) then Word("0" + ts[i].text)
      else ts[i])
  }

  function MapTokens(f: Token -> Token, ts: Tokens): (r: Tokens)
    ensures |r| == |ts|
    ensures forall i :: 0 <= i < |ts| ==> r[i] == f(ts[i])
  {
    seq(|ts|, i requires 0 <= i < |ts| => f(ts[i]))
  }

  /** The substitutions of the normaliser, before whitespace is collapsed. */
  function Rewrite(ts: Tokens): (r: Tokens)
    ensures |r| == |ts|
  {
    MapTokens(Expand, PadDays(MapTokens(Shorten, ts)))
  }

  /** `re.sub(r"\s+", " ", ...)`. */
  function Collapse(ts: Tokens): (r: Tokens)
    ensures |r| == |ts|
  {
    seq(|ts|, i requires 0 <= i < |ts| => if ts[i].Space? then Space(" ") else ts[i])
  }

  function TrimRight(ts: Tokens): Tokens {
    if ts != [] && ts[|ts| - 1].Space? then ts[..|ts| - 1] else ts
  }

  /** `str.strip()`: whitespace runs are single tokens. */
  function Trim(ts: Tokens): Tokens {
    TrimRight(if ts != [] && ts[0].Space? then ts[1..] else ts)
  }

  function Squeeze(ts: Tokens): Tokens {
    Trim(Collapse(ts))
  }

  function NormalizeTokens(ts: Tokens): Tokens {
    Squeeze(Rewrite(ts))
  }

  // ---------------------------------------------------------------- what the substitutions do

  /** A month name in full. */
  predicate FullMonth(w: string) {
    w in ["January", "February", "March", "April", "May", "June",
          "July", "August", "September", "October", "November", "December"]
  }

  /** A month name in full or by its first three letters. */
  predicate MonthWord(w: string) {
    FullMonth(w) || w in ["Jan", "Feb", "Mar", "Apr", "May", "Jun", "Jul", "Aug", "Sep", "Oct", "Nov", "Dec"]
  }

  lemma {:induction false} MonthsShorten(w: string)
    ensures MonthAbbreviation(w) == if FullMonth(w) then w[..3] else w
  {
  }

  lemma {:induction false} ShortMonths(w: string)
    ensures IsMonth(MonthAbbreviation(w)) <==> MonthWord(w)
  {
  }

  /** The token is a single digit after a month and before a comma. */
  predicate DayPlace(ts: Tokens, i: int) {
    2 <= i < |ts| - 1 && ts[i].Word? && |ts[i].text| == 1 && '0' <= ts[i].text[0] <= '9'
    && ts[i - 1].Space? && ts[i - 2].Word? && MonthWord(ts[i - 2].text) && ts[i + 1] == Sym(',')
  }

  lemma {:induction false} DaysPlaced(ts: Tokens, i: int)
    ensures DayAt(MapTokens(Shorten, ts), i - 2) <==> DayPlace(ts, i)
  {
    hide MonthAbbreviation, IsMonth, MonthWord;
    if 2 <= i < |ts| - 1 {
      if ts[i - 2].Word? {
        ShortMonths(ts[i - 2].text);
      }
      if ts[i].Word? {
        MonthAbbreviationCases(ts[i].text);
        MonthAbbreviationCases(MonthAbbreviation(ts[i].text));
      }
    }
  }

  /**
   What becomes of each token: months are cut to three letters, a single digit for a day is
   padded, four abbreviations are written out, long dashes become hyphens, white space stays
   white space, and everything else is left alone.
   */
  lemma {:induction false} RewriteMeaning(ts: Tokens, i: nat)
    requires i < |ts|
    ensures match ts[i]
      case Space(_) => Rewrite(ts)[i].Space?
      case Sym(c) => Rewrite(ts)[i] == Sym(if c == '\U{2013}' || c == '\U{2014}' then '-' else c)
      case Word(w) =>
        Rewrite(ts)[i] == Word(if FullMonth(w) then w[..3]
                               else if DayPlace(ts, i) then "0" + w
                               else if w == "Gen" then "General" else if w == "Prim" then "Primary"
                               else if w == "Elec" then "Election" else if w == "Spec" then "Special" else w)
  {
    DaysPlaced(ts, i);
    RewriteToken(ts, i);
    if ts[i].Word? {
      var w := ts[i].text;
      MonthsShorten(w);
      MonthAbbreviationCases(w);
      ShortWords(w);
      PaddedSettles(w);
      hide MonthAbbreviation, FullMonth, DayAt, IsMonth, MonthWord, DayPlace;
      var s := MapTokens(Shorten, ts);
      assert s[i] == Word(MonthAbbreviation(w));
      assert !DayAt(s, i - 1) by { NotSpaceHere(s, i); }
      assert Rewrite(ts)[i] == Expand(PadDays(s)[i]);
    }
  }

  lemma {:induction false} NotSpaceHere(s: Tokens, i: nat)
    requires i < |s| && !s[i].Space?
    ensures !DayAt(s, i - 1)
  {
    hide IsMonth;
  }

  lemma {:induction false} ShortWords(w: string)
    ensures FullMonth(w) ==> |w| >= 3 && Expansion(w[..3]) == w[..3]
    ensures |w| == 1 ==> !FullMonth(w)
  {
    if FullMonth(w) {
      MonthsShorten(w);
      TablesSettle(w);
      assert IsMonth(w[..3]) by { ShortMonths(w); }
      ExpansionCases(w[..3]);
    }
  }

  /** The tokens that are not white space. */
  function Solid(ts: Tokens): Tokens {
    Filter((t: Token) => !t.Space?, ts)
  }

  lemma {:induction false} SolidCollapse(ts: Tokens)
    ensures Solid(Collapse(ts)) == Solid(ts)
  {
    if ts != [] {
      SolidCollapse(ts[1..]);
      assert Collapse(ts)[1..] == Collapse(ts[1..]);
    }
  }

  lemma {:induction false} SolidOne(t: Token)
    ensures Solid([t]) == if t.Space? then [] else [t]
  {
    assert [t][1..] == [];
    assert Solid([]) == [];
  }

  lemma {:induction false} SolidConcat(a: Tokens, b: Tokens)
    ensures Solid(a + b) == Solid(a) + Solid(b)
  {
    FilterConcat((t: Token) => !t.Space?, a, b);
  }

  /** Collapsing and stripping loses white space only. */
  lemma {:induction false} SqueezeKeeps(ts: Tokens)
    ensures Solid(Squeeze(ts)) == Solid(ts)
  {
    SolidCollapse(ts);
    hide Solid, Collapse;
    var c := Collapse(ts);
    var l := if c != [] && c[0].Space? then c[1..] else c;
    if c != [] && c[0].Space? {
      assert c == [c[0]] + c[1..];
      SolidConcat([c[0]], c[1..]);
      SolidOne(c[0]);
    }
    if l != [] && l[|l| - 1].Space? {
      assert l == l[..|l| - 1] + [l[|l| - 1]];
      SolidConcat(l[..|l| - 1], [l[|l| - 1]]);
      SolidOne(l[|l| - 1]);
    }
  }

  // ---------------------------------------------------------------- facts about single words

  lemma {:induction false} MonthAbbreviationCases(w: string)
    ensures MonthAbbreviation(w) == w || (|w| >= 4 && IsMonth(MonthAbbreviation(w)))
    ensures IsMonth(w) ==> |w| == 3
    ensures |w| == 3 ==> MonthAbbreviation(w) == w
  {
  }

  lemma {:induction false} ExpansionCases(w: string)
    ensures Expansion(w) == w || (|w| >= 3 && Expansion(w) in ["General", "Primary", "Election", "Special"])
    ensures IsMonth(w) ==> Expansion(w) == w
  {
  }

  lemma {:induction false} ExpandedSettle(w: string)
    requires w in ["General", "Primary", "Election", "Special"]
    ensures MonthAbbreviation(w) == w && Expansion(w) == w && |w| >= 7
  {
    assert w[0] == 'G' || w[0] == 'P' || w[0] == 'E' || w[0] == 'S';
    assert w[1] == 'e' || w[1] == 'r' || w[1] == 'l' || w[1] == 'p';
    assert w[2] != 'p';
  }

  /** Neither table rewrites a word the other one or it itself produces. */
  lemma {:induction false} TablesSettle(w: string)
    ensures MonthAbbreviation(MonthAbbreviation(w)) == MonthAbbreviation(w)
    ensures Expansion(Expansion(w)) == Expansion(w)
    ensures MonthAbbreviation(w) == w ==> MonthAbbreviation(Expansion(w)) == Expansion(w)
    ensures IsMonth(Expansion(w)) ==> Expansion(w) == w
    ensures IsMonth(w) ==> Expansion(w) == w
    ensures Expansion(w) == w || (|w| >= 3 && |Expansion(w)| >= 7)
    ensures MonthAbbreviation(w) == w || (|w| >= 4 && |MonthAbbreviation(w)| == 3)
  {
    MonthAbbreviationCases(w);
    MonthAbbreviationCases(MonthAbbreviation(w));
    MonthAbbreviationCases(Expansion(w));
    ExpansionCases(w);
    hide MonthAbbreviation, Expansion, IsMonth;
    if Expansion(w) != w {
      ExpandedSettle(Expansion(w));
    }
  }

  /** One token after the substitutions: its class is kept, and a word is padded at most. */
  lemma {:induction false} RewriteShape(ts: Tokens, i: nat)
    requires i < |ts|
    ensures ts[i].Space? <==> Rewrite(ts)[i].Space?
    ensures ts[i].Sym? ==> Rewrite(ts)[i] == Shorten(ts[i])
    ensures ts[i].Word? ==>
              var s := MonthAbbreviation(ts[i].text);
              Rewrite(ts)[i] == Word(Expansion(s)) || (IsDay(Word(s)) && Rewrite(ts)[i] == Word(Expansion("0" + s)))
  {
    hide MonthAbbreviation, Expansion, IsMonth;
  }

  /** A padded day is a settled word. */
  lemma {:induction false} PaddedSettles(w: string)
    ensures var p := "0" + w;
      Expansion(p) == p && MonthAbbreviation(p) == p && !IsMonth(p) && |p| == |w| + 1 && !IsMarkerWord(p)
  {
    assert ("0" + w)[0] == '0';
  }

  /** What the three substitutions do to one token, given whether it is a padded day. */
  lemma {:induction false} RewriteToken(ts: Tokens, i: nat)
    requires i < |ts|
    ensures ts[i].Space? <==> Rewrite(ts)[i].Space?
    ensures ts[i].Word? <==> Rewrite(ts)[i].Word?
    ensures IsMonthToken(Rewrite(ts)[i]) ==> Rewrite(ts)[i] == Shorten(ts[i])
    ensures Rewrite(ts)[i].Sym? ==> Rewrite(ts)[i] == Shorten(ts[i])
    ensures IsDay(Rewrite(ts)[i]) ==> Rewrite(ts)[i] == ts[i]
    ensures Shorten(Rewrite(ts)[i]) == Rewrite(ts)[i] == Expand(Rewrite(ts)[i])
  {
    RewriteShape(ts, i);
    hide MonthAbbreviation, Expansion, IsMonth, Rewrite, IsMarkerWord;
    if ts[i].Word? {
      var w := ts[i].text;
      TablesSettle(w);
      TablesSettle(MonthAbbreviation(w));
      PaddedSettles(MonthAbbreviation(w));
    }
  }

  // ---------------------------------------------------------------- the normaliser settles

  /** Nothing is left for the substitutions to do. */
  ghost predicate Settled(ts: Tokens) {
    && (forall i :: 0 <= i < |ts| ==> Shorten(ts[i]) == ts[i] == Expand(ts[i]))
    && (forall i :: !DayAt(ts, i))
  }

  /** No outer whitespace, and single spaces inside. */
  ghost predicate Squeezed(ts: Tokens) {
    && WellFormed(ts)
    && (forall i :: 0 <= i < |ts| && ts[i].Space? ==> ts[i] == Space(" "))
    && (ts != [] ==> !ts[0].Space? && !ts[|ts| - 1].Space?)
  }

  lemma {:induction false} RewriteSettled(ts: Tokens)
    ensures Settled(Rewrite(ts))
  {
    var r := Rewrite(ts);
    hide MonthAbbreviation, Expansion, IsMonth, Shorten, Expand, Rewrite;
    forall i | 0 <= i < |r| ensures Shorten(r[i]) == r[i] == Expand(r[i]) {
      RewriteToken(ts, i);
    }
    forall i ensures !DayAt(r, i) {
      NoDayLeft(ts, i);
    }
  }

  /** A day that could still be padded would have been. */
  lemma {:induction false} NoDayLeft(ts: Tokens, i: int)
    ensures !DayAt(Rewrite(ts), i)
  {
    hide MonthAbbreviation, Expansion, IsMonth, Rewrite, Shorten, Expand;
    var r := Rewrite(ts);
    if 0 <= i && i + 3 < |r| {
      RewriteToken(ts, i);
      RewriteToken(ts, i + 1);
      RewriteToken(ts, i + 2);
      RewriteToken(ts, i + 3);
      PaddedDay(ts, i);
    }
  }

  /** A day after a shortened month is padded to two digits. */
  lemma {:induction false} PaddedDay(ts: Tokens, i: nat)
    requires i + 3 < |ts|
    ensures IsMonthToken(Shorten(ts[i])) && ts[i + 1].Space? && IsDay(Shorten(ts[i + 2])) && Shorten(ts[i + 3]) == Sym(',') ==>
              !IsDay(Rewrite(ts)[i + 2])
    ensures IsDay(ts[i + 2]) ==> Shorten(ts[i + 2]) == ts[i + 2]
  {
    var s := MapTokens(Shorten, ts);
    if ts[i + 2].Word? {
      MonthAbbreviationCases(ts[i + 2].text);
      PaddedSettles(MonthAbbreviation(ts[i + 2].text));
    }
    hide MonthAbbreviation, Expansion, IsMonth;
    assert IsMonthToken(s[i]) && s[i + 1].Space? && IsDay(s[i + 2]) && s[i + 3] == Sym(',') ==> DayAt(s, i);
  }

  lemma {:induction false} RewriteFixes(ts: Tokens)
    requires Settled(ts)
    ensures Rewrite(ts) == ts
  {
    var s := MapTokens(Shorten, ts);
    assert s == ts;
    assert PadDays(s) == ts;
  }

  lemma {:induction false} RewriteWellFormed(ts: Tokens)
    requires WellFormed(ts)
    ensures WellFormed(Rewrite(ts))
  {
    var r := Rewrite(ts);
    forall i | 0 <= i < |r| ensures r[i].Valid() && r[i].Class() == ts[i].Class() {
      RewriteToken(ts, i);
      RewriteValid(ts, i);
    }
  }

  ghost predicate AllWordChars(w: string) {
    w != "" && forall i :: 0 <= i < |w| ==> ClassOf(w[i]) == WordClass
  }

  lemma {:induction false} TableWordsValid(w: string)
    requires IsMonth(w) || w in ["General", "Primary", "Election", "Special"]
    ensures AllWordChars(w)
  {
    forall i | 0 <= i < |w| ensures ClassOf(w[i]) == WordClass {
      assert 'A' <= w[i] <= 'Z' || 'a' <= w[i] <= 'z';
    }
  }

  lemma {:induction false} TablesKeepWords(w: string)
    requires AllWordChars(w)
    ensures AllWordChars(MonthAbbreviation(w)) && AllWordChars(Expansion(w)) && AllWordChars("0" + w)
  {
    MonthAbbreviationCases(w);
    ExpansionCases(w);
    hide MonthAbbreviation, Expansion, IsMonth;
    if MonthAbbreviation(w) != w {
      TableWordsValid(MonthAbbreviation(w));
    }
    if Expansion(w) != w {
      TableWordsValid(Expansion(w));
    }
  }

  lemma {:induction false} WordValid(w: string)
    ensures Word(w).Valid() <==> AllWordChars(w)
  {
  }

  lemma {:induction false} RewriteValid(ts: Tokens, i: nat)
    requires i < |ts| && ts[i].Valid()
    ensures Rewrite(ts)[i].Valid()
  {
    hide MonthAbbreviation, Expansion, IsMonth;
    var s := MapTokens(Shorten, ts);
    var p := PadDays(s)[i];
    if ts[i].Word? {
      WordValid(ts[i].text);
      TablesKeepWords(ts[i].text);
      TablesKeepWords(s[i].text);
      assert p == s[i] || p == Word("0" + s[i].text);
      TablesKeepWords(p.text);
      WordValid(Expansion(p.text));
    }
  }

  lemma {:induction false} CollapseWellFormed(ts: Tokens)
    requires WellFormed(ts)
    ensures WellFormed(Collapse(ts))
  {
    var c := Collapse(ts);
    forall i | 0 <= i < |c| ensures c[i].Valid() && c[i].Class() == ts[i].Class() { }
  }

  /** Where the trimmed name starts; it loses one whitespace token at most on each side. */
  lemma {:induction false} TrimRightSlice(ts: Tokens)
    requires WellFormed(ts)
    ensures |TrimRight(ts)| <= |ts| && TrimRight(ts) == ts[..|TrimRight(ts)|]
    ensures var r := TrimRight(ts); r != [] ==> !r[|r| - 1].Space? && r[0] == ts[0]
    ensures WellFormed(TrimRight(ts))
  {
    WellFormedSlice(ts, 0, |TrimRight(ts)|);
    if |ts| > 1 {
      assert ts[|ts| - 1].Sym? || ts[|ts| - 2].Class() != ts[|ts| - 1].Class();
    }
  }

  lemma {:induction false} TrimSlice(ts: Tokens) returns (a: nat)
    requires WellFormed(ts)
    ensures a + |Trim(ts)| <= |ts| && Trim(ts) == ts[a..a + |Trim(ts)|]
    ensures Trim(ts) != [] ==> !Trim(ts)[0].Space? && !Trim(ts)[|Trim(ts)| - 1].Space?
    ensures WellFormed(Trim(ts))
  {
    a := if ts != [] && ts[0].Space? then 1 else 0;
    if |ts| > 1 {
      assert ts[1].Sym? || ts[0].Class() != ts[1].Class();
    }
    WellFormedSlice(ts, a, |ts|);
    hide WellFormed, TrimRight;
    TrimRightSlice(ts[a..]);
  }

  lemma {:induction false} SqueezeSqueezed(ts: Tokens) returns (a: nat)
    requires WellFormed(ts)
    ensures Squeezed(Squeeze(ts))
    ensures a + |Squeeze(ts)| <= |ts| && Squeeze(ts) == Collapse(ts)[a..a + |Squeeze(ts)|]
  {
    CollapseWellFormed(ts);
    a := TrimSlice(Collapse(ts));
    hide Trim, TrimRight, WellFormed;
  }

  /** Collapsing and stripping a squeezed name changes nothing. */
  lemma {:induction false} SqueezeFixes(ts: Tokens)
    requires Squeezed(ts)
    ensures Squeeze(ts) == ts && Trim(ts) == ts
  {
    assert Collapse(ts) == ts;
  }

  lemma {:induction false} CollapsedDay(ts: Tokens, a: nat, b: nat, i: int)
    requires a <= b <= |ts| && DayAt(Collapse(ts)[a..b], i)
    ensures DayAt(ts, a + i)
  {
    hide MonthAbbreviation, Expansion, IsMonth;
    var c := Collapse(ts);
    var y := c[a..b];
    assert y[i] == c[a + i] && y[i + 1] == c[a + i + 1] && y[i + 2] == c[a + i + 2] && y[i + 3] == c[a + i + 3];
    assert ts[a + i] == c[a + i] && ts[a + i + 2] == c[a + i + 2] && ts[a + i + 3] == c[a + i + 3];
  }

  lemma {:induction false} CollapseSettled(ts: Tokens, a: nat, b: nat)
    requires Settled(ts) && a <= b <= |ts|
    ensures Settled(Collapse(ts)[a..b])
  {
    hide MonthAbbreviation, Expansion, IsMonth, DayAt;
    var y := Collapse(ts)[a..b];
    forall i ensures !DayAt(y, i) {
      if DayAt(y, i) {
        CollapsedDay(ts, a, b, i);
      }
    }
    forall i | 0 <= i < |y| ensures Shorten(y[i]) == y[i] == Expand(y[i]) {
      assert y[i] == ts[a + i] || y[i].Space?;
    }
  }

  /** The library normaliser is idempotent. */
  lemma {:induction false} NormalizeIdempotent(ts: Tokens)
    requires WellFormed(ts)
    ensures NormalizeTokens(NormalizeTokens(ts)) == NormalizeTokens(ts)
    ensures Squeezed(NormalizeTokens(ts)) && Settled(NormalizeTokens(ts))
  {
    hide Rewrite, Squeeze, Collapse, Settled, Squeezed, WellFormed;
    var r := Rewrite(ts);
    RewriteSettled(ts);
    RewriteWellFormed(ts);
    var a := SqueezeSqueezed(r);
    var y := NormalizeTokens(ts);
    CollapseSettled(r, a, a + |y|);
    RewriteFixes(y);
    SqueezeFixes(y);
  }

  // ---------------------------------------------------------------- party markers

  /** The name ends in a marker such as `(R)`, outer whitespace aside. */
  predicate EndsWithMarker(ts: Tokens) {
    var c := TrimRight(ts);
    |c| >= 3 && c[|c| - 3] == Sym('(') && c[|c| - 2].Word? && IsMarkerWord(c[|c| - 2].text) && c[|c| - 1] == Sym(')')
  }

  /** `_PARTY_MARKER_RE.sub("", ...)`. */
  function StripMarker(ts: Tokens): Tokens {
    if EndsWithMarker(ts) then
      var c := TrimRight(ts);
      TrimRight(c[..|c| - 3])
    else ts
  }

  /** A parenthesised run of the letters R, D, N, P and I, and what follows it of white space. */
  ghost predicate IsMarker(ts: Tokens) {
    3 <= |ts| <= 4 && ts[0] == Sym('(') && ts[2] == Sym(')') && (|ts| == 4 ==> ts[3].Space?)
    && ts[1].Word? && ts[1].text != "" && forall c :: c in ts[1].text ==> c in "RDNPI"
  }

  /** A marker at the end is taken off, with the white space before it. */
  lemma {:induction false} MarkerTakenOff(head: Tokens, marker: Tokens)
    requires IsMarker(marker)
    ensures StripMarker(head + marker) == if head != [] && head[|head| - 1].Space? then head[..|head| - 1] else head
  {
    var ts := head + marker;
    var n := |head|;
    assert ts[n] == marker[0] && ts[n + 1] == marker[1] && ts[n + 2] == marker[2];
    assert |marker| == 4 ==> ts[n + 3] == marker[3];
    var c := TrimRight(ts);
    assert c == ts[..n + 3];
    assert c[..n] == head;
    forall i | 0 <= i < |marker[1].text| ensures marker[1].text[i] in {'R', 'D', 'N', 'P', 'I'} {
      assert marker[1].text[i] in "RDNPI";
    }
    assert EndsWithMarker(ts);
  }

  /** A name that does not end in a marker is left as it is. */
  lemma {:induction false} NoMarkerNothing(ts: Tokens)
    requires StripMarker(ts) != ts
    ensures exists n :: 0 <= n <= |ts| && IsMarker(ts[n..])
  {
    var c := TrimRight(ts);
    var n := |c| - 3;
    var m := ts[n..];
    assert m[0] == c[n] && m[1] == c[n + 1] && m[2] == c[n + 2];
    assert |m| == 4 ==> m[3] == ts[|ts| - 1];
    forall ch | ch in m[1].text ensures ch in "RDNPI" {
      var i :| 0 <= i < |m[1].text| && m[1].text[i] == ch;
      assert "RDNPI"[0] == 'R' && "RDNPI"[1] == 'D' && "RDNPI"[2] == 'N' && "RDNPI"[3] == 'P' && "RDNPI"[4] == 'I';
    }
    assert IsMarker(m);
  }

  function NormalizeOr(ts: Tokens): Tokens {
    var n := NormalizeTokens(ts);
    if n == [] then ts else n
  }

  /** `_normalize_election_name` before lower-casing. */
  function KeyTokens(ts: Tokens): Tokens {
    Squeeze(StripMarker(NormalizeOr(ts)))
  }

  /** The name a new election is stored under. */
  function StoredTokens(ts: Tokens): Tokens {
    NormalizeOr(Trim(StripMarker(ts)))
  }

  /** A token of a marker is rewritten neither to nor from anything else. */
  lemma {:induction false} MarkerTokens(ts: Tokens, i: nat)
    requires i < |ts|
    ensures Rewrite(ts)[i] == Sym('(') <==> ts[i] == Sym('(')
    ensures Rewrite(ts)[i] == Sym(')') <==> ts[i] == Sym(')')
    ensures Rewrite(ts)[i].Word? && IsMarkerWord(Rewrite(ts)[i].text) <==> ts[i].Word? && IsMarkerWord(ts[i].text)
  {
    RewriteShape(ts, i);
    hide Rewrite, MonthAbbreviation, Expansion, IsMarkerWord;
    if ts[i].Word? {
      var s := MonthAbbreviation(ts[i].text);
      MarkerWords(ts[i].text);
      MarkerWords(s);
      PaddedSettles(s);
      DayIsNoMarker(s);
    }
  }

  lemma {:induction false} DayIsNoMarker(w: string)
    ensures IsDay(Word(w)) ==> !IsMarkerWord(w)
  {
    if IsDay(Word(w)) {
      assert w[0] !in {'R', 'D', 'N', 'P', 'I'};
    }
  }

  lemma {:induction false} SecondLetter(w: string)
    requires |w| > 1 && w[1] !in {'R', 'D', 'N', 'P', 'I'}
    ensures !IsMarkerWord(w)
  {
  }

  lemma {:induction false} MonthIsNoMarker(w: string)
    ensures MonthAbbreviation(w) != w ==> !IsMarkerWord(w) && !IsMarkerWord(MonthAbbreviation(w))
  {
    hide IsMarkerWord, Expansion;
    if MonthAbbreviation(w) != w {
      SecondLetter(w);
      SecondLetter(MonthAbbreviation(w));
    }
  }

  lemma {:induction false} ExpandedIsNoMarker(w: string)
    ensures Expansion(w) != w ==> !IsMarkerWord(w) && !IsMarkerWord(Expansion(w))
  {
    hide IsMarkerWord, MonthAbbreviation;
    if Expansion(w) != w {
      SecondLetter(w);
      SecondLetter(Expansion(w));
    }
  }

  /** A marker word is no table word and no table word is a marker. */
  lemma {:induction false} MarkerWords(w: string)
    ensures IsMarkerWord(MonthAbbreviation(w)) <==> IsMarkerWord(w)
    ensures IsMarkerWord(Expansion(w)) <==> IsMarkerWord(w)
    ensures IsMarkerWord(w) ==> MonthAbbreviation(w) == w && Expansion(w) == w
  {
    hide IsMarkerWord, MonthAbbreviation, Expansion;
    MonthIsNoMarker(w);
    ExpandedIsNoMarker(w);
  }

  lemma {:induction false} DayInPrefix(ts: Tokens, n: nat, i: int)
    requires n <= |ts| && i < n && (n < |ts| ==> ts[n] == Sym('(') || ts[n].Space?)
    requires n + 1 < |ts| && ts[n].Space? ==> ts[n + 1] == Sym('(')
    ensures DayAt(ts[..n], i) <==> DayAt(ts, i)
  {
    hide IsMonth;
  }

  lemma {:induction false} PadPrefix(ts: Tokens, n: nat)
    requires n <= |ts| && (n < |ts| ==> ts[n] == Sym('(') || ts[n].Space?)
    requires n + 1 < |ts| && ts[n].Space? ==> ts[n + 1] == Sym('(')
    ensures PadDays(ts[..n]) == PadDays(ts)[..n]
  {
    hide DayAt;
    forall i | i < n ensures DayAt(ts[..n], i) <==> DayAt(ts, i) {
      DayInPrefix(ts, n, i);
    }
  }

  /** Cutting a name before a token that is not a comma commutes with rewriting it. */
  lemma {:induction false} RewritePrefix(ts: Tokens, n: nat)
    requires n <= |ts| && (n < |ts| ==> ts[n] == Sym('(') || ts[n].Space?)
    requires n + 1 < |ts| && ts[n].Space? ==> ts[n + 1] == Sym('(')
    ensures Rewrite(ts[..n]) == Rewrite(ts)[..n]
  {
    hide MonthAbbreviation, Expansion, PadDays;
    var a, b := MapTokens(Shorten, ts[..n]), MapTokens(Shorten, ts);
    assert a == b[..n];
    PadPrefix(b, n);
  }

  lemma {:induction false} RewriteSqueezed(ts: Tokens)
    requires Squeezed(ts)
    ensures Squeezed(Rewrite(ts)) && NormalizeTokens(ts) == Rewrite(ts)
  {
    RewriteWellFormed(ts);
    forall i | 0 <= i < |ts|
      ensures ts[i].Space? <==> Rewrite(ts)[i].Space?
      ensures ts[i].Space? ==> Rewrite(ts)[i] == Space(" ")
    {
      RewriteToken(ts, i);
    }
    SqueezeFixes(Rewrite(ts));
  }

  /** Where the trailing party marker of a squeezed name starts, its whitespace included. */
  function MarkerStart(ts: Tokens): nat
    requires EndsWithMarker(ts) && TrimRight(ts) == ts
  {
    if |ts| > 3 && ts[|ts| - 4].Space? then |ts| - 4 else |ts| - 3
  }

  lemma {:induction false} StripSqueezed(ts: Tokens)
    requires Squeezed(ts)
    ensures TrimRight(ts) == ts && (!EndsWithMarker(ts) ==> StripMarker(ts) == ts)
    ensures EndsWithMarker(ts) ==>
              var n := MarkerStart(ts);
              && n < |ts| && StripMarker(ts) == ts[..n] && Squeezed(ts[..n])
              && (ts[n] == Sym('(') || (ts[n].Space? && n + 1 < |ts| && ts[n + 1] == Sym('(')))
  {
    hide WellFormed, IsMarkerWord;
    if EndsWithMarker(ts) {
      SqueezedPrefix(ts, MarkerStart(ts));
    }
  }

  lemma {:induction false} MarkersAgree(ts: Tokens)
    requires Squeezed(ts) && Squeezed(Rewrite(ts))
    ensures EndsWithMarker(Rewrite(ts)) <==> EndsWithMarker(ts)
    ensures EndsWithMarker(ts) && TrimRight(ts) == ts && TrimRight(Rewrite(ts)) == Rewrite(ts) ==>
              MarkerStart(Rewrite(ts)) == MarkerStart(ts)
  {
    hide Rewrite, WellFormed, IsMarkerWord;
    if |ts| >= 3 {
      MarkerTokens(ts, |ts| - 3);
      MarkerTokens(ts, |ts| - 2);
      MarkerTokens(ts, |ts| - 1);
    }
    if |ts| > 3 {
      RewriteToken(ts, |ts| - 4);
    }
  }

  /** Stripping the trailing party marker commutes with the library normaliser. */
  lemma {:induction false} StoredEqualsKey(ts: Tokens)
    requires Squeezed(ts)
    ensures StoredTokens(ts) == KeyTokens(ts)
  {
    hide Rewrite, Squeezed, EndsWithMarker, StripMarker, TrimRight, Squeeze, Trim, MarkerStart, NormalizeTokens;
    RewriteSqueezed(ts);
    var y := Rewrite(ts);
    StripSqueezed(ts);
    StripSqueezed(y);
    MarkersAgree(ts);
    SqueezeFixes(ts);
    SqueezeFixes(y);
    if EndsWithMarker(ts) {
      var n := MarkerStart(ts);
      RewritePrefix(ts, n);
      RewriteSqueezed(ts[..n]);
      SqueezeFixes(ts[..n]);
      SqueezeFixes(y[..n]);
    }
  }

  lemma {:induction false} SqueezedPrefix(ts: Tokens, n: nat)
    requires Squeezed(ts) && n <= |ts| && (0 < n < |ts| ==> ts[n].Space? || !ts[n - 1].Space?)
    ensures Squeezed(ts[..n])
  {
    if 0 < n < |ts| && ts[n].Space? {
      assert ts[n - 1].Class() != ts[n].Class();
    }
    WellFormedSlice(ts, 0, n);
    assert ts[0..n] == ts[..n];
  }

  // ---------------------------------------------------------------- on strings

  function LowerChar(c: char): char {
    if 'A' <= c <= 'Z' then (c as int + 32) as char else c
  }

  function Lower(s: string): (r: string)
    ensures |r| == |s|
  {
    seq(|s|, i requires 0 <= i < |s| => LowerChar(s[i]))
  }

  /** Lower-casing changes the capitals, each to its small letter. */
  lemma {:induction false} LowerLetters(s: string, i: nat)
    requires i < |s|
    ensures if 'A' <= s[i] <= 'Z' then 'a' <= Lower(s)[i] <= 'z' && Lower(s)[i] - 'a' == s[i] - 'A' else Lower(s)[i] == s[i]
  {
  }

  /** `normalize_election_name` on a present name. */
  function LibNormalize(name: string): string {
    if name == "" then name else Render(NormalizeTokens(Tokenize(name)))
  }

  /** `re.sub(r"\s+", " ", name).strip()`. */
  function CollapseStrip(name: string): string {
    Render(Squeeze(Tokenize(name)))
  }

  function StripPartyMarker(name: string): string {
    Render(StripMarker(Tokenize(name)))
  }

  function Strip(name: string): string {
    Render(Trim(Tokenize(name)))
  }

  function LibNormalizeOr(name: string): string {
    if LibNormalize(name) == "" then name else LibNormalize(name)
  }

  /** `_normalize_election_name`: the cache key and the lookup key. */
  function LookupKey(name: string): string {
    Lower(CollapseStrip(StripPartyMarker(LibNormalizeOr(name))))
  }

  /** The name `_resolve_election` stores when it creates an election for `original`. */
  function StoredName(original: string): string {
    LibNormalizeOr(Strip(StripPartyMarker(original)))
  }

  lemma {:induction false} RenderEmpty(ts: Tokens)
    requires WellFormed(ts)
    ensures Render(ts) == "" <==> ts == []
  {
    TokenizeRender(ts);
  }

  lemma {:induction false} NormalizeNothing()
    ensures NormalizeTokens([]) == []
  {
  }

  lemma {:induction false} LibNormalizeTokens(name: string)
    ensures Tokenize(LibNormalize(name)) == NormalizeTokens(Tokenize(name))
    ensures Tokenize(LibNormalizeOr(name)) == NormalizeOr(Tokenize(name))
  {
    var ts := Tokenize(name);
    NormalizeNothing();
    TokenizeWellFormed(name);
    NormalizeIdempotent(ts);
    hide NormalizeTokens, Settled;
    RenderTokenize(name);
    TokenizeRender(NormalizeTokens(ts));
    RenderEmpty(NormalizeTokens(ts));
  }

  /** Normalising a name the library has normalised changes nothing. */
  lemma {:induction false} LibNormalizeIdempotent(name: string)
    ensures LibNormalize(LibNormalize(name)) == LibNormalize(name)
  {
    TokenizeWellFormed(name);
    NormalizeIdempotent(Tokenize(name));
    LibNormalizeTokens(name);
  }

  lemma {:induction false} CollapseStripTokens(name: string)
    ensures Tokenize(CollapseStrip(name)) == Squeeze(Tokenize(name)) && Squeezed(Tokenize(CollapseStrip(name)))
  {
    TokenizeWellFormed(name);
    var a := SqueezeSqueezed(Tokenize(name));
    TokenizeRender(Squeeze(Tokenize(name)));
  }

  lemma {:induction false} StripMarkerTokens(name: string)
    ensures Tokenize(StripPartyMarker(name)) == StripMarker(Tokenize(name))
  {
    var ts := Tokenize(name);
    TokenizeWellFormed(name);
    WellFormedSlice(ts, 0, |StripMarker(ts)|);
    assert StripMarker(ts) == ts[0..|StripMarker(ts)|];
    TokenizeRender(StripMarker(ts));
  }

  lemma {:induction false} StripTokens(name: string)
    ensures Tokenize(Strip(name)) == Trim(Tokenize(name))
  {
    TokenizeWellFormed(name);
    var a := TrimSlice(Tokenize(name));
    TokenizeRender(Trim(Tokenize(name)));
  }

  /**
   The lower-cased name under which a new election is stored is the key every later lookup
   of the same raw name computes, for every raw name.
   */
  lemma {:induction false} StoredNameMatchesLookup(raw: string)
    ensures Lower(StoredName(CollapseStrip(raw))) == LookupKey(CollapseStrip(raw))
  {
    hide StripMarker, Trim, NormalizeOr, Squeeze, Squeezed;
    var original := CollapseStrip(raw);
    var ts := Tokenize(original);
    CollapseStripTokens(raw);
    StoredEqualsKey(ts);

    StripMarkerTokens(original);
    StripTokens(StripPartyMarker(original));
    LibNormalizeTokens(Strip(StripPartyMarker(original)));
    assert Tokenize(StoredName(original)) == StoredTokens(ts);

    LibNormalizeTokens(original);
    StripMarkerTokens(LibNormalizeOr(original));
    CollapseStripTokens(StripPartyMarker(LibNormalizeOr(original)));
    var key := CollapseStrip(StripPartyMarker(LibNormalizeOr(original)));
    assert Tokenize(key) == KeyTokens(ts);

    RenderTokenize(StoredName(original));
    RenderTokenize(key);
  }

  // ---------------------------------------------------------------- the normaliser as it runs

  const MONTHS: seq<(string, string)> := [
    ("January", "Jan"), ("February", "Feb"), ("March", "Mar"), ("April", "Apr"), ("May", "May"), ("June", "Jun"),
    ("July", "Jul"), ("August", "Aug"), ("September", "Sep"), ("October", "Oct"), ("November", "Nov"), ("December", "Dec")]

  const ABBREVIATIONS: seq<(string, string)> := [
    ("Gen", "General"), ("Prim", "Primary"), ("Elec", "Election"), ("Spec", "Special")]

  /** `re.sub(rf"\b{word}\b", replacement, result)`. */
  function ReplaceWord(word: string, replacement: string, ts: Tokens): (r: Tokens)
    ensures |r| == |ts|
  {
    seq(|ts|, i requires 0 <= i < |ts| => if ts[i] == Word(word) then Word(replacement) else ts[i])
  }

  function ReplaceDashes(ts: Tokens): (r: Tokens)
    ensures |r| == |ts|
  {
    seq(|ts|, i requires 0 <= i < |ts| =>
      if ts[i] == Sym('\U{2013}') || ts[i] == Sym('\U{2014}') then Sym('-') else ts[i])
  }

  /** One word after the first `n` replacements of a table were applied in turn. */
  function AfterRows(table: seq<(string, string)>, n: nat, w: string): string
    requires n <= |table|
  {
    if n == 0 then w
    else
      var v := AfterRows(table, n - 1, w);
      if v == table[n - 1].0 then table[n - 1].1 else v
  }

  lemma {:induction false} AfterRowsMiss(table: seq<(string, string)>, n: nat, w: string)
    requires n <= |table| && forall i :: 0 <= i < n ==> table[i].0 != w
    ensures AfterRows(table, n, w) == w
  {
    if n > 0 {
      AfterRowsMiss(table, n - 1, w);
    }
  }

  lemma {:induction false} AfterRowsHit(table: seq<(string, string)>, n: nat, j: nat)
    requires j < n <= |table|
    requires forall i :: 0 <= i < j ==> table[i].0 != table[j].0
    requires forall i :: j < i < n ==> table[i].0 != table[j].1
    ensures AfterRows(table, n, table[j].0) == table[j].1
  {
    if n == j + 1 {
      AfterRowsMiss(table, j, table[j].0);
    } else {
      AfterRowsHit(table, n - 1, j);
    }
  }

  lemma {:induction false} MonthRows(w: string)
    ensures AfterRows(MONTHS, |MONTHS|, w) == MonthAbbreviation(w)
  {
    hide AfterRows;
    if j :| 0 <= j < |MONTHS| && MONTHS[j].0 == w {
      AfterRowsHit(MONTHS, |MONTHS|, j);
      assert MONTHS[j].1 == MonthAbbreviation(MONTHS[j].0);
    } else {
      AfterRowsMiss(MONTHS, |MONTHS|, w);
      assert MONTHS[0].0 != w && MONTHS[1].0 != w && MONTHS[2].0 != w && MONTHS[3].0 != w && MONTHS[5].0 != w;
      assert MONTHS[6].0 != w && MONTHS[7].0 != w && MONTHS[8].0 != w && MONTHS[9].0 != w && MONTHS[10].0 != w && MONTHS[11].0 != w;
    }
  }

  lemma {:induction false} AbbreviationRows(w: string)
    ensures AfterRows(ABBREVIATIONS, |ABBREVIATIONS|, w) == Expansion(w)
  {
    if j :| 0 <= j < |ABBREVIATIONS| && ABBREVIATIONS[j].0 == w {
      AfterRowsHit(ABBREVIATIONS, |ABBREVIATIONS|, j);
      assert ABBREVIATIONS[j].1 == Expansion(ABBREVIATIONS[j].0);
    } else {
      AfterRowsMiss(ABBREVIATIONS, |ABBREVIATIONS|, w);
      assert ABBREVIATIONS[0].0 != w && ABBREVIATIONS[1].0 != w && ABBREVIATIONS[2].0 != w && ABBREVIATIONS[3].0 != w;
    }
  }

  /** One replacement after another over the whole text is the same as all rows on each word. */
  method ReplaceTable(table: seq<(string, string)>, ts: Tokens) returns (r: Tokens)
    ensures |r| == |ts|
    ensures forall i :: 0 <= i < |ts| ==>
              r[i] == if ts[i].Word? then Word(AfterRows(table, |table|, ts[i].text)) else ts[i]
  {
    r := ts;
    for n := 0 to |table|
      invariant |r| == |ts|
      invariant forall i :: 0 <= i < |ts| ==>
                  r[i] == if ts[i].Word? then Word(AfterRows(table, n, ts[i].text)) else ts[i]
    {
      r := ReplaceWord(table[n].0, table[n].1, r);
    }
  }

  /** `normalize_election_name`: the substitutions in the order the source runs them. */
  method NormalizeElectionName(name: Option<string>) returns (r: Option<string>)
    ensures name.None? ==> r.None?
    ensures name.Some? ==> r == Some(LibNormalize(name.value))
  {
    if name.None? || name.value == "" {
      return name;
    }
    var ts := Tokenize(name.value);
    var result := ReplaceDashes(ts);
    result := ReplaceTable(MONTHS, result);
    forall i | 0 <= i < |ts| ensures result[i] == Shorten(ts[i]) {
      if ts[i].Word? {
        MonthRows(ts[i].text);
      }
    }
    assert result == MapTokens(Shorten, ts);
    var padded := PadDays(result);
    result := ReplaceTable(ABBREVIATIONS, padded);
    forall i | 0 <= i < |ts| ensures result[i] == Expand(padded[i]) {
      if padded[i].Word? {
        AbbreviationRows(padded[i].text);
      }
    }
    assert result == Rewrite(ts);
    r := Some(Render(Squeeze(result)));
  }
}
