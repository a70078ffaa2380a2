/**
 The resumable analysis run: keyset paging over eligible voters, one commit per
 batch, and counters rebuilt from the committed rows when an interrupted run is
 started again. `src/voter_api/services/analysis_service.py`.
 */
module AnalysisRun {
  import opened Prelude

  type VoterId = nat  // UUIDs; the service only compares them
  type RunId = nat

  datatype MatchStatus = Match | MismatchDistrict | MismatchPrecinct | MismatchBoth | UnableToAnalyze

  datatype Comparison = Comparison(status: MatchStatus, details: seq<string>)

  datatype ResultRow = ResultRow(status: MatchStatus, details: Option<seq<string>>)

  type Results = map<(RunId, VoterId), ResultRow>

  type KeyedRow = ((RunId, VoterId), ResultRow)

  datatype Voter = Voter(id: VoterId, presentInLatestImport: bool, hasOfficialPoint: bool, county: string)

  datatype RunStatus = Pending | Running | Completed | Failed

  datatype Counts = Counts(total: nat, matched: nat, mismatched: nat, unable: nat)

  datatype RunRow = RunRow(status: RunStatus, counts: Option<Counts>, offset: Option<nat>)

  /** `results` is keyed by the unique constraint (run, voter); `flags` is voters.has_district_mismatch. */
  datatype Tables = Tables(
    results: Results,
    flags: map<VoterId, Option<bool>>,
    run: RunRow)

  /** What stays fixed over all attempts of one run; `voters` is in primary-key order. */
  datatype Setting = Setting(
    voters: seq<Voter>,
    compare: Voter -> Comparison,
    runId: RunId,
    county: Option<string>)
  {
    ghost predicate Valid() {
      forall i, j :: 0 <= i < j < |voters| ==> voters[i].id < voters[j].id
    }

    predicate IsEligible(v: Voter) {
      && v.presentInLatestImport
      && v.hasOfficialPoint
      && (county.Some? && county.value != "" ==> v.county == county.value)
    }

    /** All eligible voters, in id order. */
    function Eligible(): seq<Voter> {
      Filter(v => IsEligible(v), voters)
    }

    /** The row `_analyze_voter` builds. */
    function Analyze(v: Voter): ResultRow {
      var c := compare(v);
      ResultRow(c.status, if c.details == [] then None else Some(c.details))
    }

    function RowFor(v: Voter): KeyedRow {
      ((runId, v.id), Analyze(v))
    }

    function Rows(vs: seq<Voter>): (rows: seq<KeyedRow>)
      ensures |rows| == |vs|
    {
      seq(|vs|, i requires 0 <= i < |vs| => RowFor(vs[i]))
    }
  }

  predicate After(v: Voter, cursor: Option<VoterId>) {
    cursor.Some? ==> v.id > cursor.value
  }

  function AfterCursor(cursor: Option<VoterId>): Voter -> bool {
    v => After(v, cursor)
  }

  /** SELECT ... WHERE eligible AND id > cursor ORDER BY id LIMIT n. */
  function Page(s: Setting, cursor: Option<VoterId>, n: nat): seq<Voter> {
    Take(Filter(v => s.IsEligible(v) && After(v, cursor), s.voters), n)
  }

  function CountStatus(c: Counts, status: MatchStatus): Counts {
    match status
    case Match => c.(total := c.total + 1, matched := c.matched + 1)
    case UnableToAnalyze => c.(total := c.total + 1, unable := c.unable + 1)
    case _ => c.(total := c.total + 1, mismatched := c.mismatched + 1)
  }

  /** The counters after the first `k` eligible voters were counted one by one. */
  function Tally(s: Setting, k: nat): (c: Counts)
    requires k <= |s.Eligible()|
    ensures c.total == k
    ensures c.total == c.matched + c.mismatched + c.unable
  {
    if k == 0 then Counts(0, 0, 0, 0)
    else CountStatus(Tally(s, k - 1), s.Analyze(s.Eligible()[k - 1]).status)
  }

  // ---------------------------------------------------------------- queries

  function VotersOf(results: Results, run: RunId): set<VoterId> {
    set k | k in results && k.0 == run :: k.1
  }

  lemma {:induction false} MaxExists(s: set<VoterId>)
    requires s != {}
    ensures exists m :: m in s && forall x :: x in s ==> x <= m
  {
    var x :| x in s;
    if s - {x} != {} {
      MaxExists(s - {x});
      var m :| m in s - {x} && forall y :: y in s - {x} ==> y <= m;
      var big := if x < m then m else x;
      assert big in s;
      assert forall y :: y in s ==> y == x || y in s - {x};
      assert forall y :: y in s ==> y <= big;
    } else {
      assert s == {x};
    }
  }

  /** ORDER BY voter_id DESC LIMIT 1. */
  function LastVoter(results: Results, run: RunId): (r: Option<VoterId>) {
    var ids := VotersOf(results, run);
    if ids == {} then None
    else
      MaxExists(ids);
      var m :| m in ids && forall x :: x in ids ==> x <= m;
      Some(m)
  }

  function RowsWith(results: Results, run: RunId, wanted: set<MatchStatus>): nat {
    |set k | k in results && k.0 == run && results[k].status in wanted|
  }

  const ALL_STATUSES := {Match, MismatchDistrict, MismatchPrecinct, MismatchBoth, UnableToAnalyze}

  /** The aggregate query that restores the counters on resume. */
  function RestoredCounts(results: Results, run: RunId): Counts {
    Counts(RowsWith(results, run, ALL_STATUSES),
           RowsWith(results, run, {Match}),
           RowsWith(results, run, {MismatchDistrict, MismatchPrecinct, MismatchBoth}),
           RowsWith(results, run, {UnableToAnalyze}))
  }

  /** INSERT ... ON CONFLICT DO NOTHING, row by row. */
  function InsertIgnoring(t: Results, rows: seq<KeyedRow>): Results
    decreases rows
  {
    if rows == [] then t
    else
      InsertIgnoring(if rows[0].0 in t then t else t[rows[0].0 := rows[0].1], rows[1..])
  }

  lemma {:induction false} InsertIgnoringSplit(t: Results, a: seq<KeyedRow>, b: seq<KeyedRow>)
    ensures InsertIgnoring(t, a + b) == InsertIgnoring(InsertIgnoring(t, a), b)
    decreases a
  {
    if a == [] {
      assert a + b == b;
    } else {
      InsertIgnoringSplit(if a[0].0 in t then t else t[a[0].0 := a[0].1], a[1..], b);
      assert (a + b)[1..] == a[1..] + b;
    }
  }

  lemma {:induction false} InsertIgnoringGrows(t: Results, rows: seq<KeyedRow>)
    ensures |t| <= |InsertIgnoring(t, rows)|
    decreases rows
  {
    if rows != [] {
      InsertIgnoringGrows(if rows[0].0 in t then t else t[rows[0].0 := rows[0].1], rows[1..]);
    }
  }

  /** The flag a result row gives its voter; NULL when the row decides nothing. */
  function FlagFor(status: MatchStatus): Option<bool> {
    match status
    case Match => Some(false)
    case UnableToAnalyze => None
    case _ => Some(true)
  }

  function UpdatedFlags(t: Tables, run: RunId): map<VoterId, Option<bool>> {
    map v | v in t.flags ::
      if (run, v) in t.results then FlagFor(t.results[(run, v)].status) else t.flags[v]
  }

  // ---------------------------------------------------------------- specification

  /** The committed results once the first `k` eligible voters are done. */
  function ResultsAfter(s: Setting, base: Results, k: nat): Results
    requires k <= |s.Eligible()|
  {
    if k == 0 then base
    else
      var v := s.Eligible()[k - 1];
      ResultsAfter(s, base, k - 1)[(s.runId, v.id) := s.Analyze(v)]
  }

  function OffsetAfter(base: Tables, k: nat): Option<nat> {
    if k == 0 then base.run.offset else Some(k)
  }

  /** The committed tables of a run that completed after `k` eligible voters. */
  function CompletedAt(s: Setting, base: Tables, k: nat): Tables
    requires k <= |s.Eligible()|
  {
    var results := ResultsAfter(s, base.results, k);
    Tables(results,
           FlagsAfter(s, base, k),
           RunRow(Completed, Some(Tally(s, k)), OffsetAfter(base, k)))
  }

  /** The end state the service promises, however often the run was interrupted. */
  function FinalTables(s: Setting, base: Tables): Tables {
    CompletedAt(s, base, |s.Eligible()|)
  }

  /** The mismatch flags once the rows of the first `k` eligible voters have been applied. */
  function FlagsAfter(s: Setting, base: Tables, k: nat): map<VoterId, Option<bool>>
    requires k <= |s.Eligible()|
  {
    UpdatedFlags(base.(results := ResultsAfter(s, base.results, k)), s.runId)
  }

  ghost predicate FreshRun(s: Setting, base: Tables) {
    && s.Valid()
    && base.run.offset.GetOr(0) == 0
    && forall k :: k in base.results ==> k.0 != s.runId
  }

  // ---------------------------------------------------------------- facts about the specification

  ghost predicate Ascending(vs: seq<Voter>) {
    forall i, j :: 0 <= i < j < |vs| ==> vs[i].id < vs[j].id
  }

  lemma {:induction false} FilterAscending(p: Voter -> bool, vs: seq<Voter>)
    requires Ascending(vs)
    ensures Ascending(Filter(p, vs))
  {
    if vs != [] {
      FilterAscending(p, vs[1..]);
      FilterMembers(p, vs[1..]);
      var rest := Filter(p, vs[1..]);
      forall i | 0 <= i < |rest| ensures vs[0].id < rest[i].id {
        assert rest[i] in vs[1..];
      }
    }
  }

  lemma {:induction false} EligibleAscending(s: Setting)
    requires s.Valid()
    ensures Ascending(s.Eligible())
  {
    FilterAscending(v => s.IsEligible(v), s.voters);
  }

  /** Filtering by "eligible and after the cursor" drops the eligible voters up to the cursor. */
  lemma {:induction false} FilterAfter(s: Setting, vs: seq<Voter>, cursor: Option<VoterId>)
    ensures Filter(v => s.IsEligible(v) && After(v, cursor), vs)
         == Filter(AfterCursor(cursor), Filter(v => s.IsEligible(v), vs))
  {
    if vs != [] {
      FilterAfter(s, vs[1..], cursor);
    }
  }

  lemma {:induction false} FilterAfterDrops(vs: seq<Voter>, k: nat)
    requires Ascending(vs) && 0 < k <= |vs|
    ensures Filter(AfterCursor(Some(vs[k - 1].id)), vs) == vs[k..]
  {
    var p := AfterCursor(Some(vs[k - 1].id));
    hide Filter;
    forall i | 0 <= i < k ensures !p(vs[..k][i]) {
      assert i < k - 1 ==> vs[i].id < vs[k - 1].id;
    }
    forall i | 0 <= i < |vs[k..]| ensures p(vs[k..][i]) {
      assert vs[k - 1].id < vs[k + i].id;
    }
    FilterSuffix(p, vs[..k], vs[k..]);
    assert vs == vs[..k] + vs[k..];
  }

  function CursorAfter(s: Setting, k: nat): Option<VoterId>
    requires k <= |s.Eligible()|
  {
    if k == 0 then None else Some(s.Eligible()[k - 1].id)
  }

  /** Keyset paging neither skips nor repeats a voter: a page is the next slice of the eligible voters. */
  lemma {:induction false} PageIsNextSlice(s: Setting, base: Tables, k: nat, n: nat)
    requires FreshRun(s, base) && k <= |s.Eligible()|
    ensures |Page(s, CursorAfter(s, k), n)| == if k + n <= |s.Eligible()| then n else |s.Eligible()| - k
    ensures Page(s, CursorAfter(s, k), n) == s.Eligible()[k..k + |Page(s, CursorAfter(s, k), n)|]
  {
    var cursor := CursorAfter(s, k);
    FilterAscending(v => s.IsEligible(v), s.voters);
    FilterAfter(s, s.voters, cursor);
    if k == 0 {
      FilterAll(AfterCursor(cursor), s.Eligible());
      assert s.Eligible()[0..] == s.Eligible();
    } else {
      FilterAfterDrops(s.Eligible(), k);
    }
  }

  lemma {:induction false} RowHeld(s: Setting, base: Tables, k: nat, i: nat)
    requires s.Valid() && i < k <= |s.Eligible()|
    ensures var key, r := (s.runId, s.Eligible()[i].id), ResultsAfter(s, base.results, k);
      key in r && r[key] == s.Analyze(s.Eligible()[i])
  {
    EligibleAscending(s);
    hide Filter, Setting.Eligible, Setting.Analyze;
    if i < k - 1 {
      RowHeld(s, base, k - 1, i);
    }
  }

  lemma {:induction false} OtherRow(s: Setting, base: Tables, k: nat, key: (RunId, VoterId))
    requires FreshRun(s, base) && k <= |s.Eligible()|
    ensures var r := ResultsAfter(s, base.results, k);
      && (key in base.results ==> key in r && r[key] == base.results[key])
      && (key in r && key !in base.results ==> exists i :: 0 <= i < k && key == (s.runId, s.Eligible()[i].id))
  {
    hide Filter, Setting.Eligible, Setting.Analyze;
    if k > 0 {
      OtherRow(s, base, k - 1, key);
    }
  }

  lemma {:induction false} ResultKeys(s: Setting, base: Tables, k: nat)
    requires FreshRun(s, base) && k <= |s.Eligible()|
    ensures forall key :: key in ResultsAfter(s, base.results, k) <==>
              key in base.results || exists i :: 0 <= i < k && key == (s.runId, s.Eligible()[i].id)
    ensures forall key :: key in base.results ==> ResultsAfter(s, base.results, k)[key] == base.results[key]
    ensures forall i :: 0 <= i < k ==>
              && (s.runId, s.Eligible()[i].id) in ResultsAfter(s, base.results, k)
              && ResultsAfter(s, base.results, k)[(s.runId, s.Eligible()[i].id)] == s.Analyze(s.Eligible()[i])
  {
    hide Filter, Setting.Eligible, Setting.Analyze, ResultsAfter;
    var e, r := s.Eligible(), ResultsAfter(s, base.results, k);
    forall i | 0 <= i < k ensures (s.runId, e[i].id) in r && r[(s.runId, e[i].id)] == s.Analyze(e[i]) {
      RowHeld(s, base, k, i);
    }
    forall key
      ensures (key in base.results ==> key in r && r[key] == base.results[key])
      ensures (key in r && key !in base.results ==> exists i :: 0 <= i < k && key == (s.runId, e[i].id))
    {
      OtherRow(s, base, k, key);
    }
  }

  /** The next eligible voter has no row yet. */
  lemma {:induction false} NextIsNew(s: Setting, base: Tables, k: nat)
    requires FreshRun(s, base) && k < |s.Eligible()|
    ensures (s.runId, s.Eligible()[k].id) !in ResultsAfter(s, base.results, k)
  {
    ResultKeys(s, base, k);
    EligibleAscending(s);
    hide Filter, ResultsAfter;
  }

  lemma {:induction false} ResultVoters(s: Setting, base: Tables, k: nat)
    requires FreshRun(s, base) && k <= |s.Eligible()|
    ensures VotersOf(ResultsAfter(s, base.results, k), s.runId) == set i | 0 <= i < k :: s.Eligible()[i].id
  {
    ResultKeys(s, base, k);
    var r := ResultsAfter(s, base.results, k);
    forall i | 0 <= i < k ensures s.Eligible()[i].id in VotersOf(r, s.runId) {
      assert (s.runId, s.Eligible()[i].id) in r;
    }
  }

  /** The cursor query finds the last voter of the committed prefix. */
  lemma {:induction false} CursorFromResults(s: Setting, base: Tables, k: nat)
    requires FreshRun(s, base) && k <= |s.Eligible()|
    ensures LastVoter(ResultsAfter(s, base.results, k), s.runId) == CursorAfter(s, k)
  {
    ResultVoters(s, base, k);
    FilterAscending(v => s.IsEligible(v), s.voters);
    var e := s.Eligible();
    var ids := VotersOf(ResultsAfter(s, base.results, k), s.runId);
    if k > 0 {
      assert e[k - 1].id in ids;
      assert forall x :: x in ids ==> x <= e[k - 1].id;
    } else {
      assert ids == {};
    }
  }

  lemma {:induction false} RowsWithStep(s: Setting, base: Tables, k: nat, wanted: set<MatchStatus>)
    requires FreshRun(s, base) && 0 < k <= |s.Eligible()|
    ensures RowsWith(ResultsAfter(s, base.results, k), s.runId, wanted)
         == RowsWith(ResultsAfter(s, base.results, k - 1), s.runId, wanted)
            + if s.Analyze(s.Eligible()[k - 1]).status in wanted then 1 else 0
  {
    NextIsNew(s, base, k - 1);
    hide Filter, FreshRun, Setting.Eligible;
    var v := s.Eligible()[k - 1];
    var key := (s.runId, v.id);
    var was := ResultsAfter(s, base.results, k - 1);
    var now := ResultsAfter(s, base.results, k);
    assert key !in was;
    var A := set q | q in was && q.0 == s.runId && was[q].status in wanted;
    var B := set q | q in now && q.0 == s.runId && now[q].status in wanted;
    if s.Analyze(v).status in wanted {
      assert B == A + {key};
    } else {
      assert B == A;
    }
  }

  lemma {:induction false} CountedByStatus(c: Counts, status: MatchStatus)
    ensures CountStatus(c, status) == Counts(
              c.total + (if status in ALL_STATUSES then 1 else 0),
              c.matched + (if status in {Match} then 1 else 0),
              c.mismatched + (if status in {MismatchDistrict, MismatchPrecinct, MismatchBoth} then 1 else 0),
              c.unable + (if status in {UnableToAnalyze} then 1 else 0))
  {
  }

  lemma {:induction false} NothingToRestore(s: Setting, base: Tables)
    requires FreshRun(s, base)
    ensures RestoredCounts(base.results, s.runId) == Counts(0, 0, 0, 0)
  {
    forall w: set<MatchStatus> ensures RowsWith(base.results, s.runId, w) == 0 {
      assert (set q | q in base.results && q.0 == s.runId && base.results[q].status in w) == {};
    }
  }

  /** Rebuilding the counters from committed rows gives what counting live would have given. */
  lemma {:induction false} RestoredCountsAgree(s: Setting, base: Tables, k: nat)
    requires FreshRun(s, base) && k <= |s.Eligible()|
    ensures RestoredCounts(ResultsAfter(s, base.results, k), s.runId) == Tally(s, k)
  {
    hide Filter, Setting.Eligible, Setting.Analyze, RowsWith, CountStatus;
    if k == 0 {
      NothingToRestore(s, base);
    } else {
      RestoredCountsAgree(s, base, k - 1);
      RowsWithStep(s, base, k, ALL_STATUSES);
      RowsWithStep(s, base, k, {Match});
      RowsWithStep(s, base, k, {MismatchDistrict, MismatchPrecinct, MismatchBoth});
      RowsWithStep(s, base, k, {UnableToAnalyze});
      CountedByStatus(Tally(s, k - 1), s.Analyze(s.Eligible()[k - 1]).status);
      hide ResultsAfter;
    }
  }

  /** What an attempt reads back before its first batch. */
  lemma {:induction false} ProgressReadBack(s: Setting, base: Tables, k: nat)
    requires FreshRun(s, base) && k <= |s.Eligible()|
    ensures var r := ResultsAfter(s, base.results, k);
      && LastVoter(r, s.runId) == CursorAfter(s, k) && RestoredCounts(r, s.runId) == Tally(s, k)
      && (CursorAfter(s, k).Some? <==> k > 0) && (k == 0 ==> Tally(s, k) == Counts(0, 0, 0, 0))
  {
    CursorFromResults(s, base, k);
    RestoredCountsAgree(s, base, k);
  }

  /** The last voter of a page is the cursor after it. */
  lemma {:induction false} PageEnd(s: Setting, k: nat, page: seq<Voter>)
    requires page != [] && k + |page| <= |s.Eligible()| && page == s.Eligible()[k..k + |page|]
    ensures CursorAfter(s, k + |page|) == Some(page[|page| - 1].id)
  {
    hide Setting.Eligible;
    assert page[|page| - 1] == s.Eligible()[k + |page| - 1];
  }

  lemma {:induction false} NextStored(s: Setting, base: Tables, k: nat)
    requires FreshRun(s, base) && k < |s.Eligible()|
    ensures var row, was := s.RowFor(s.Eligible()[k]), ResultsAfter(s, base.results, k);
      row.0 !in was && ResultsAfter(s, base.results, k + 1) == was[row.0 := row.1]
      && |ResultsAfter(s, base.results, k + 1)| == |was| + 1
  {
    NextIsNew(s, base, k);
    hide FreshRun, Setting.Eligible;
  }

  lemma {:induction false} InsertFirst(t: Results, row: KeyedRow, rest: seq<KeyedRow>)
    requires row.0 !in t
    ensures InsertIgnoring(t, [row] + rest) == InsertIgnoring(t[row.0 := row.1], rest)
  {
    assert ([row] + rest)[1..] == rest;
  }

  /** Under keyset paging the conflict clause never fires: every row of the page is inserted. */
  lemma {:induction false} FlushNeverConflicts(s: Setting, base: Tables, k: nat, n: nat)
    requires FreshRun(s, base) && k + n <= |s.Eligible()|
    ensures InsertIgnoring(ResultsAfter(s, base.results, k), s.Rows(s.Eligible()[k..k + n]))
         == ResultsAfter(s, base.results, k + n)
    ensures |ResultsAfter(s, base.results, k + n)| == |ResultsAfter(s, base.results, k)| + n
    decreases n
  {
    hide FreshRun, ResultsAfter, Setting.Eligible, Setting.RowFor;
    var e := s.Eligible();
    if n > 0 {
      NextStored(s, base, k);
      var row, rest := s.RowFor(e[k]), s.Rows(e[k + 1..k + n]);
      assert s.Rows(e[k..k + n]) == [row] + rest;
      hide Setting.Rows;
      InsertFirst(ResultsAfter(s, base.results, k), row, rest);
      hide InsertIgnoring;
      FlushNeverConflicts(s, base, k + 1, n - 1);
    }
  }

  /** What the end state means: exactly one row per eligible voter, holding that voter's own verdict. */
  lemma {:induction false} FinalRows(s: Setting, base: Tables)
    requires FreshRun(s, base)
    ensures forall v :: v in s.Eligible() ==>
              && (s.runId, v.id) in FinalTables(s, base).results
              && FinalTables(s, base).results[(s.runId, v.id)] == s.Analyze(v)
    ensures VotersOf(FinalTables(s, base).results, s.runId) == set v | v in s.Eligible() :: v.id
    ensures forall key: (RunId, VoterId) :: key.0 != s.runId ==>
              && (key in FinalTables(s, base).results <==> key in base.results)
              && (key in base.results ==> FinalTables(s, base).results[key] == base.results[key])
  {
    var e := s.Eligible();
    ResultKeys(s, base, |e|);
    ResultVoters(s, base, |e|);
    forall v | v in e
      ensures (s.runId, v.id) in FinalTables(s, base).results
      ensures FinalTables(s, base).results[(s.runId, v.id)] == s.Analyze(v)
    {
      var i :| 0 <= i < |e| && e[i] == v;
    }
    assert forall i :: 0 <= i < |e| ==> e[i] in e;
  }

  /** The recorded counts are the counts of the committed rows, and the checkpoint is their number. */
  lemma {:induction false} FinalCounts(s: Setting, base: Tables)
    requires FreshRun(s, base)
    ensures FinalTables(s, base).run.counts == Some(RestoredCounts(FinalTables(s, base).results, s.runId))
    ensures FinalTables(s, base).run.counts.value.total == |s.Eligible()|
    ensures FinalTables(s, base).run.offset.GetOr(0) == |s.Eligible()|
    ensures |FinalTables(s, base).results| == |base.results| + |s.Eligible()|
  {
    hide ResultsAfter, RestoredCounts, Setting.Eligible;
    var n := |s.Eligible()|;
    RestoredCountsAgree(s, base, n);
    FlushNeverConflicts(s, base, 0, n);
    assert ResultsAfter(s, base.results, 0) == base.results by { NothingStored(s, base.results); }
  }

  lemma {:induction false} NothingStored(s: Setting, results: Results)
    ensures ResultsAfter(s, results, 0) == results
  {
  }

  /** Applying a longer prefix of rows forgets that a shorter one was applied before. */
  lemma {:induction false} FlagsReapply(s: Setting, base: Tables, j: nat, k: nat, t: Tables)
    requires FreshRun(s, base) && j <= k <= |s.Eligible()|
    requires t.results == ResultsAfter(s, base.results, k) && t.flags == FlagsAfter(s, base, j)
    ensures UpdatedFlags(t, s.runId) == FlagsAfter(s, base, k)
  {
    ResultKeys(s, base, j);
    ResultKeys(s, base, k);
  }

  lemma {:induction false} FlagsUntouched(s: Setting, base: Tables)
    requires FreshRun(s, base)
    ensures FlagsAfter(s, base, 0) == base.flags
  {
  }

  /** Voters without a row in this run keep their flag; the others get the verdict of their row. */
  lemma {:induction false} FinalFlags(s: Setting, base: Tables, v: Voter)
    requires FreshRun(s, base) && v in s.voters && v.id in base.flags
    ensures var t := FinalTables(s, base);
      v.id in t.flags &&
      t.flags[v.id] == if s.IsEligible(v) then FlagFor(s.compare(v).status) else base.flags[v.id]
  {
    FinalRows(s, base);
    FilterMembers(v => s.IsEligible(v), s.voters);
    var t := FinalTables(s, base);
    if s.IsEligible(v) {
      assert v in s.Eligible();
    } else {
      forall w | w in s.Eligible() ensures w.id != v.id {
        var i :| 0 <= i < |s.voters| && s.voters[i] == v;
        var j :| 0 <= j < |s.voters| && s.voters[j] == w;
      }
      assert v.id !in VotersOf(t.results, s.runId);
      assert (s.runId, v.id) !in t.results;
    }
  }

  // ---------------------------------------------------------------- what a completed run says of each voter

  /**
   A voter has a row exactly when it is in the latest import, has an official point and is of
   the county asked for, if one was; the row holds its verdict, and its details unless empty.
   */
  lemma {:induction false} AnalyzedExactly(s: Setting, base: Tables, v: Voter)
    requires FreshRun(s, base) && v in s.voters
    ensures var results := FinalTables(s, base).results;
      && ((s.runId, v.id) in results
          <==> v.presentInLatestImport && v.hasOfficialPoint
               && (s.county == None || s.county == Some("") || s.county == Some(v.county)))
      && ((s.runId, v.id) in results ==>
            && results[(s.runId, v.id)].status == s.compare(v).status
            && results[(s.runId, v.id)].details == (if s.compare(v).details == [] then None else Some(s.compare(v).details)))
  {
    FinalRows(s, base);
    EligibleMembers(s);
    hide Filter, Setting.Eligible;
    if !s.IsEligible(v) {
      forall w | w in s.Eligible() ensures w.id != v.id {
        if w.id == v.id {
          SameIdSameVoter(s, v, w);
        }
      }
      assert v.id !in VotersOf(FinalTables(s, base).results, s.runId);
    }
  }

  lemma {:induction false} EligibleMembers(s: Setting)
    ensures forall v :: v in s.Eligible() <==> v in s.voters && s.IsEligible(v)
  {
    FilterMembers(v => s.IsEligible(v), s.voters);
  }

  lemma {:induction false} SameIdSameVoter(s: Setting, v: Voter, w: Voter)
    requires s.Valid() && v in s.voters && w in s.voters && v.id == w.id
    ensures v == w
  {
    var i :| 0 <= i < |s.voters| && s.voters[i] == v;
    var j :| 0 <= j < |s.voters| && s.voters[j] == w;
    assert i < j || j < i || i == j;
  }

  /** The flag of an analyzed voter: no mismatch for a match, unknown when it could not be analyzed, mismatch otherwise. */
  lemma {:induction false} FlagsMeaning(s: Setting, base: Tables, v: Voter)
    requires FreshRun(s, base) && v in s.voters && v.id in base.flags
    ensures var flags, status := FinalTables(s, base).flags, s.compare(v).status;
      && v.id in flags
      && ((s.runId, v.id) in FinalTables(s, base).results ==>
            && (flags[v.id] == Some(false) <==> status == Match)
            && (flags[v.id] == None <==> status == UnableToAnalyze)
            && (flags[v.id] == Some(true) <==> status == MismatchDistrict || status == MismatchPrecinct || status == MismatchBoth))
      && ((s.runId, v.id) !in FinalTables(s, base).results ==> flags[v.id] == base.flags[v.id])
  {
    AnalyzedExactly(s, base, v);
    FinalFlags(s, base, v);
    hide FinalTables;
  }

  predicate Mismatched(status: MatchStatus) {
    status == MismatchDistrict || status == MismatchPrecinct || status == MismatchBoth
  }

  lemma {:induction false} EveryStatus()
    ensures forall status :: status in ALL_STATUSES
  {
    forall status ensures status in ALL_STATUSES {
      assert status.Match? || status.MismatchDistrict? || status.MismatchPrecinct? || status.MismatchBoth? || status.UnableToAnalyze?;
    }
  }

  lemma {:induction false} RowsCounted(results: Results, run: RunId, wanted: set<MatchStatus>, rows: set<(RunId, VoterId)>)
    requires forall k :: k in rows <==> k in results && k.0 == run && results[k].status in wanted
    ensures RowsWith(results, run, wanted) == |rows|
  {
    assert rows == set k | k in results && k.0 == run && results[k].status in wanted;
  }

  lemma {:induction false} RowsByStatus(results: Results, run: RunId)
    ensures RowsWith(results, run, ALL_STATUSES) == |set k | k in results && k.0 == run|
    ensures RowsWith(results, run, {Match}) == |set k | k in results && k.0 == run && results[k].status == Match|
    ensures RowsWith(results, run, {UnableToAnalyze}) == |set k | k in results && k.0 == run && results[k].status == UnableToAnalyze|
    ensures RowsWith(results, run, {MismatchDistrict, MismatchPrecinct, MismatchBoth})
         == |set k | k in results && k.0 == run && Mismatched(results[k].status)|
  {
    EveryStatus();
    hide RowsWith, ALL_STATUSES;
    RowsCounted(results, run, ALL_STATUSES, set k | k in results && k.0 == run);
    RowsCounted(results, run, {Match}, set k | k in results && k.0 == run && results[k].status == Match);
    RowsCounted(results, run, {UnableToAnalyze}, set k | k in results && k.0 == run && results[k].status == UnableToAnalyze);
    RowsCounted(results, run, {MismatchDistrict, MismatchPrecinct, MismatchBoth},
                set k | k in results && k.0 == run && Mismatched(results[k].status));
  }

  /** The recorded counters of a completed run count its rows by verdict. */
  lemma {:induction false} CountsMeaning(s: Setting, base: Tables)
    requires FreshRun(s, base)
    ensures FinalTables(s, base).run.status == Completed && FinalTables(s, base).run.counts.Some?
    ensures var results, c := FinalTables(s, base).results, FinalTables(s, base).run.counts.value;
      && c.total == |set k | k in results && k.0 == s.runId|
      && c.matched == |set k | k in results && k.0 == s.runId && results[k].status == Match|
      && c.unable == |set k | k in results && k.0 == s.runId && results[k].status == UnableToAnalyze|
      && c.mismatched == |set k | k in results && k.0 == s.runId && Mismatched(results[k].status)|
  {
    FinalCounts(s, base);
    hide FinalTables, RowsWith;
    RowsByStatus(FinalTables(s, base).results, s.runId);
  }

  // ---------------------------------------------------------------- the service

  datatype Outcome = RunCompleted | RunRaised(recorded: bool) | RunKilled

  const FLUSH_SUB_BATCH := 500

  /** The awaited calls before the counters are rebuilt all go through, starting at call `tick`. */
  predicate RestoreSucceeds(schedule: Schedule, tick: nat, resumed: bool) {
    schedule(tick).Proceed? && (resumed ==> schedule(tick + 1).Proceed?)
  }

  class AnalysisService {
    const setting: Setting
    var committed: Tables
    var working: Tables
    var ticks: nat
    ghost const base: Tables  // the tables when the run was created
    ghost var done: nat       // eligible voters whose rows are committed
    ghost var flagged: nat    // how many of those rows the last flag update saw

    ghost predicate Valid()
      reads this
    {
      && FreshRun(setting, base)
      && flagged <= done <= |setting.Eligible()|
      && committed.results == ResultsAfter(setting, base.results, done)
      && committed.run.offset == OffsetAfter(base, done)
      && committed.flags == FlagsAfter(setting, base, flagged)
    }

    constructor (s: Setting, tables: Tables)
      requires FreshRun(s, tables)
      ensures Valid() && setting == s && base == tables && committed == tables && done == 0
    {
      setting, committed, working, ticks := s, tables, tables, 0;
      base, done, flagged := tables, 0, 0;
      new;
      FlagsUntouched(s, tables);
    }

    method Await(schedule: Schedule) returns (f: Fault)
      modifies `ticks
      ensures f == schedule(old(ticks)) && ticks == old(ticks) + 1
    {
      f := schedule(ticks);
      ticks := ticks + 1;
    }

    method Commit(schedule: Schedule) returns (f: Fault)
      modifies `ticks, `committed
      ensures f == schedule(old(ticks)) && ticks == old(ticks) + 1
      ensures committed == if f.Proceed? || f.applied then working else old(committed)
    {
      f := schedule(ticks);
      ticks := ticks + 1;
      if f.Proceed? || f.applied {
        committed := working;
      }
    }

    /** `_flush_results`: sub-batches change nothing but the size of each command. */
    method FlushResults(rows: seq<KeyedRow>, schedule: Schedule) returns (exit: Exit, inserted: nat)
      modifies `ticks, `working
      ensures working.run == old(working.run) && working.flags == old(working.flags)
      ensures exit.Done? ==> working.results == InsertIgnoring(old(working.results), rows)
      ensures exit.Done? ==> inserted == |working.results| - |old(working.results)|
      ensures NoFault(schedule) ==> exit.Done?
    {
      inserted := 0;
      var i := 0;
      while i < |rows|
        invariant 0 <= i <= |rows|
        invariant working.run == old(working.run) && working.flags == old(working.flags)
        invariant working.results == InsertIgnoring(old(working.results), rows[..i])
        invariant inserted == |working.results| - |old(working.results)|
      {
        var n := if |rows| - i < FLUSH_SUB_BATCH then |rows| - i else FLUSH_SUB_BATCH;
        var batch := rows[i..i + n];
        var f := Await(schedule);
        if !f.Proceed? { return ExitOf(f), inserted; }
        InsertIgnoringSplit(old(working.results), rows[..i], batch);
        assert rows[..i] + batch == rows[..i + n];
        InsertIgnoringGrows(working.results, batch);
        var after := InsertIgnoring(working.results, batch);
        inserted := inserted + |after| - |working.results|;
        working := working.(results := after);
        i := i + n;
      }
      assert rows[..i] == rows;
      exit := Done;
    }

    /** The inner loop: analyze each voter of the page and count its status. */
    method AnalyzePage(voters: seq<Voter>, start: Counts, ghost k: nat, schedule: Schedule)
      returns (exit: Exit, counts: Counts, batch: seq<KeyedRow>)
      requires k + |voters| <= |setting.Eligible()| && voters == setting.Eligible()[k..k + |voters|]
      requires start == Tally(setting, k)
      modifies `ticks
      ensures k <= counts.total <= k + |voters|
      ensures counts.total == counts.matched + counts.mismatched + counts.unable
      ensures exit.Done? ==> counts == Tally(setting, k + |voters|)
      ensures exit.Done? ==> batch == setting.Rows(voters)
      ensures NoFault(schedule) ==> exit.Done?
    {
      hide Setting.Eligible, Setting.Analyze, CountStatus, Filter;
      counts, batch := start, [];
      var i := 0;
      assert setting.Rows(voters[..0]) == [];
      while i < |voters|
        invariant 0 <= i <= |voters|
        invariant counts == Tally(setting, k + i)
        invariant batch == setting.Rows(voters[..i])
      {
        assert setting.Eligible()[k + i] == voters[i];
        assert setting.Rows(voters[..i + 1]) == setting.Rows(voters[..i]) + [setting.RowFor(voters[i])];
        var f := Await(schedule);
        if !f.Proceed? { exit := ExitOf(f); return; }
        batch := batch + [setting.RowFor(voters[i])];
        counts := CountStatus(counts, setting.Analyze(voters[i]).status);
        i := i + 1;
      }
      assert voters[..i] == voters;
      exit := Done;
    }

    /** One iteration of the batch loop after the page was read: analyze, flush, checkpoint, commit. */
    method RunBatch(voters: seq<Voter>, start: Counts, schedule: Schedule) returns (exit: Exit, counts: Counts)
      requires Valid() && working == committed
      requires done + |voters| <= |setting.Eligible()| && voters != []
      requires voters == setting.Eligible()[done..done + |voters|]
      requires start == Tally(setting, done)
      modifies `ticks, `working, `committed, `done
      ensures Valid()
      ensures done == old(done) || (done == old(done) + |voters| == counts.total)
      ensures old(done) <= counts.total <= old(done) + |voters|
      ensures counts.total == counts.matched + counts.mismatched + counts.unable
      ensures exit.Done? ==> working == committed && done == old(done) + |voters|
      ensures exit.Done? ==> counts == Tally(setting, done)
      ensures NoFault(schedule) ==> exit.Done?
    {
      hide FreshRun, ResultsAfter, InsertIgnoring, Tally, FlagsAfter, Filter;
      var batch;
      exit, counts, batch := AnalyzePage(voters, start, done, schedule);
      if !exit.Done? { return; }
      FlushNeverConflicts(setting, base, done, |voters|);
      var inserted;
      exit, inserted := FlushResults(batch, schedule);
      if !exit.Done? { return; }
      assert inserted == |batch|;
      working := working.(run := working.run.(offset := Some(counts.total)));
      var f := Commit(schedule);
      if f.Proceed? || f.applied {
        done := done + |voters|;
      }
      exit := if f.Proceed? then Done else ExitOf(f);
    }

    /** The block after the loop: summary counts, flag update, commit, refresh. */
    method CompleteRun(counts: Counts, schedule: Schedule) returns (exit: Exit)
      requires Valid() && working == committed
      requires counts == Tally(setting, done)
      modifies `ticks, `working, `committed, `flagged
      ensures Valid()
      ensures exit.Done? ==> committed == CompletedAt(setting, base, done)
      ensures NoFault(schedule) ==> exit.Done?
    {
      working := working.(run := RunRow(Completed, Some(counts), working.run.offset));
      var f := Await(schedule);
      if !f.Proceed? { exit := ExitOf(f); return; }
      FlagsReapply(setting, base, flagged, done, working);
      working := working.(flags := UpdatedFlags(working, setting.runId));
      f := Commit(schedule);
      if f.Proceed? || f.applied {
        flagged := done;
      }
      if !f.Proceed? { exit := ExitOf(f); return; }
      f := Await(schedule);
      exit := if f.Proceed? then Done else ExitOf(f);
    }

    /** On resume: the cursor and the counters, from the committed rows. */
    method RestoreProgress(schedule: Schedule) returns (exit: Exit, cursor: Option<VoterId>, counts: Counts)
      requires Valid() && working == committed
      modifies `ticks
      ensures exit.Done? <==> RestoreSucceeds(schedule, old(ticks), done > 0)
      ensures if exit.Done? then counts == Tally(setting, done) && cursor == CursorAfter(setting, done)
              else counts == Counts(0, 0, 0, 0)
      ensures schedule(old(ticks)).Raise? ==> exit.Threw? && ticks == old(ticks) + 1
    {
      hide FreshRun, ResultsAfter, FlagsAfter, Filter, LastVoter, RestoredCounts, Setting.Eligible, Tally, OffsetAfter, CursorAfter;
      ProgressReadBack(setting, base, done);
      cursor, counts := None, Counts(0, 0, 0, 0);
      var f := Await(schedule);
      if !f.Proceed? { exit := ExitOf(f); return; }
      cursor := LastVoter(working.results, setting.runId);
      if cursor.Some? {
        f := Await(schedule);
        if !f.Proceed? { exit := ExitOf(f); return; }
        counts := RestoredCounts(working.results, setting.runId);
      }
      exit := Done;
    }

    /** The batch loop and the block after it. */
    method RunPages(batchSize: nat, start: Option<VoterId>, restored: Counts, schedule: Schedule) returns (exit: Exit, counts: Counts)
      requires Valid() && working == committed
      requires restored == Tally(setting, done) && start == CursorAfter(setting, done)
      modifies this
      ensures Valid() && old(done) <= done
      ensures exit.Done? ==> committed == CompletedAt(setting, base, done)
      ensures exit.Done? && batchSize > 0 ==> done == |setting.Eligible()|
      ensures done <= counts.total <= done + batchSize
      ensures counts.total == counts.matched + counts.mismatched + counts.unable
      ensures NoFault(schedule) ==> exit.Done?
    {
      hide FreshRun, ResultsAfter, InsertIgnoring, Tally, FlagsAfter, Filter, CompletedAt, Setting.Eligible, Setting.Analyze,
        CursorAfter, Page;
      counts := restored;
      var cursor := start;
      while true
        invariant Valid() && old(done) <= done
        invariant working == committed
        invariant counts == Tally(setting, done)
        invariant cursor == CursorAfter(setting, done)
        decreases |setting.Eligible()| - done
      {
        var f := Await(schedule);
        if !f.Proceed? { exit := ExitOf(f); return; }
        PageIsNextSlice(setting, base, done, batchSize);
        var voters := Page(setting, cursor, batchSize);
        if voters == [] { break; }
        PageEnd(setting, done, voters);
        exit, counts := RunBatch(voters, counts, schedule);
        if !exit.Done? { return; }
        cursor := Some(voters[|voters| - 1].id);
      }
      exit := CompleteRun(counts, schedule);
    }

    /** The `try` block of `process_analysis_run`. */
    method RunBatches(batchSize: nat, schedule: Schedule) returns (exit: Exit, counts: Counts)
      requires Valid() && working == committed
      modifies this
      ensures Valid() && old(done) <= done
      ensures exit.Done? ==> committed == CompletedAt(setting, base, done)
      ensures exit.Done? && batchSize > 0 ==> done == |setting.Eligible()|
      ensures if RestoreSucceeds(schedule, old(ticks), old(done) > 0)
              then done <= counts.total <= done + batchSize
              else counts == Counts(0, 0, 0, 0) && done == old(done)
      ensures schedule(old(ticks)).Raise? ==> exit.Threw? && ticks == old(ticks) + 1
      ensures counts.total == counts.matched + counts.mismatched + counts.unable
      ensures NoFault(schedule) ==> exit.Done?
    {
      hide FreshRun, ResultsAfter, Tally, FlagsAfter, Filter, CompletedAt, Setting.Eligible;
      var cursor;
      exit, cursor, counts := RestoreProgress(schedule);
      if !exit.Done? { return; }
      exit, counts := RunPages(batchSize, cursor, counts, schedule);
    }

    /** `process_analysis_run`, started in a new session. */
    method Process(batchSize: nat, schedule: Schedule) returns (outcome: Outcome)
      requires Valid()
      modifies this
      ensures Valid() && old(done) <= done
      ensures outcome.RunCompleted? ==> committed == CompletedAt(setting, base, done)
      ensures outcome.RunCompleted? && batchSize > 0 ==> committed == FinalTables(setting, base)
      ensures outcome == RunRaised(true) ==>
                && committed.run.status == Failed && committed.run.counts.Some?
                && old(done) <= done
                && var c := committed.run.counts.value;
                   && c.total == c.matched + c.mismatched + c.unable
                   && (done <= c.total <= done + batchSize
                       <==> done == 0 || RestoreSucceeds(schedule, old(ticks) + 1, old(done) > 0))
                   && (!RestoreSucceeds(schedule, old(ticks) + 1, old(done) > 0) ==> c.total == 0 && done == old(done))
      ensures schedule(old(ticks)).Proceed? && schedule(old(ticks) + 1).Raise? && schedule(old(ticks) + 2).Proceed?
              ==> outcome == RunRaised(true)
      ensures NoFault(schedule) ==> outcome.RunCompleted?
    {
      hide FreshRun, ResultsAfter, InsertIgnoring, Tally, FlagsAfter, Filter;
      working := committed;
      working := working.(run := working.run.(status := Running));
      var f := Commit(schedule);
      if !f.Proceed? {
        outcome := if f.Raise? then RunRaised(false) else RunKilled;
        return;
      }
      var exit, counts;
      exit, counts := RunBatches(batchSize, schedule);
      if exit.Done? {
        outcome := RunCompleted;
      } else if exit.Died? {
        outcome := RunKilled;
      } else {
        working := committed;  // session.rollback()
        working := working.(run := RunRow(Failed, Some(counts), working.run.offset));
        f := Commit(schedule);
        outcome := if f.Kill? then RunKilled else RunRaised(f.Proceed? || f.applied);
      }
    }

    /** Any number of attempts at one run, each under its own schedule of failures. */
    method Attempts(batchSizes: seq<nat>, schedules: seq<Schedule>) returns (last: Outcome)
      requires Valid() && 0 < |batchSizes| == |schedules|
      requires forall i :: 0 <= i < |batchSizes| ==> batchSizes[i] > 0
      modifies this
      ensures Valid() && old(done) <= done
      ensures last.RunCompleted? ==> committed == FinalTables(setting, base)
    {
      hide FreshRun, ResultsAfter, InsertIgnoring, Tally, FlagsAfter, Filter;
      last := RunKilled;
      for i := 0 to |schedules|
        invariant Valid() && old(done) <= done
        invariant last.RunCompleted? ==> committed == FinalTables(setting, base)
      {
        last := Process(batchSizes[i], schedules[i]);
      }
    }

    /**
     A resumed run whose cursor query fails is recorded with total 0 although rows are
     committed: the recorded total of a failed run need not cover its committed rows.
     */
    method FailedRestoreRecordsZero(batchSize: nat) returns (outcome: Outcome)
      requires Valid() && done > 0
      modifies this
      ensures Valid() && outcome == RunRaised(true)
      ensures committed.run.status == Failed && committed.run.counts.Some?
      ensures committed.run.counts.value.total == 0 < done == old(done)
    {
      hide FreshRun, ResultsAfter, InsertIgnoring, Tally, FlagsAfter, Filter;
      var now := ticks;
      outcome := Process(batchSize, n => if n == now + 1 then Raise(false) else Proceed);
    }
  }
}
