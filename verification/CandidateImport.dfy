/**
 The checkpointed candidate import: each chunk resolves elections, drops in-chunk
 duplicates, upserts candidates and candidacies and advances the checkpoint in one
 transaction. `src/voter_api/services/candidate_import_service.py`.

 `candidates` is keyed by its unique constraint (election_id, full_name) and `candidacies`
 by (candidate_id, election_id); candidate rows without an election never conflict and are
 not part of the tables here.
 */
module CandidateImport {
  import opened Prelude
  import opened ElectionResolution
  import U = Upserts

  type CandidateKey = (Id, string)
  type CandidacyKey = (Id, Id)

  datatype Linked = Linked(id: Id, cols: U.Row)

  datatype Tables = Tables(
    elections: Elections,
    candidates: map<CandidateKey, Linked>,
    candidacies: map<CandidacyKey, Linked>)

  datatype State = State(tables: Tables, nextId: Id) {
    function ElectionDb(): Db {
      Db(tables.elections, nextId)
    }
  }

  /** One line of the JSONL file; `date` is absent when election_date is not a date. */
  datatype Line = Line(parseError: bool, date: Option<Date>, fields: map<string, string>) {
    function Field(name: string): Option<string> {
      if name in fields then Some(fields[name]) else None
    }
  }

  /** A prepared record: the id it would get if inserted, its conflict key and its columns. */
  datatype Prepared = Prepared(id: Id, election: Id, name: string, cols: U.Row) {
    function Key(): CandidateKey {
      (election, name)
    }
  }

  const SUB_BATCH := 500

  const FILING_STATUSES := {"qualified", "withdrawn", "disqualified", "write_in"}

  const CANDIDATE_UPDATES: U.UpdateSet := map[
    "filing_status" := U.Overwrite, "is_incumbent" := U.Overwrite, "import_job_id" := U.Overwrite,
    "party" := U.PreferNew, "contest_name" := U.PreferNew, "qualified_date" := U.PreferNew,
    "occupation" := U.PreferNew, "email" := U.PreferNew, "home_county" := U.PreferNew, "municipality" := U.PreferNew]

  const CANDIDACY_UPDATES: U.UpdateSet := CANDIDATE_UPDATES - {"email"}

  function RequestOf(line: Line): Request
    requires line.date.Some?
  {
    Request(line.Field("election_name").GetOr(""), line.date.value, line.Field("election_type"),
            line.Field("county"), line.Field("municipality"))
  }

  function FilingStatus(s: Option<string>): string {
    if s.Some? && s.value in FILING_STATUSES then s.value else "qualified"
  }

  function Optional(col: U.Col, v: Option<string>): U.Row {
    if v.Some? then map[col := v.value] else map[]
  }

  /** The columns of `db_record` that may be None. */
  function OptionalColumns(line: Line): U.Row {
    ContestColumns(line) + PersonColumns(line)
  }

  function ContestColumns(line: Line): U.Row {
    Optional("party", line.Field("party")) +
    Optional("contest_name", line.Field("contest_name")) +
    Optional("qualified_date", line.Field("qualified_date")) +
    Optional("occupation", line.Field("occupation"))
  }

  function PersonColumns(line: Line): U.Row {
    Optional("email", line.Field("email")) +
    Optional("home_county", line.Field("county")) +
    Optional("municipality", line.Field("municipality"))
  }

  /** The column values of `db_record`. */
  function ColumnsOf(line: Line, job: string): U.Row {
    OptionalColumns(line) +
    map["filing_status" := FilingStatus(line.Field("filing_status")),
        "is_incumbent" := line.Field("is_incumbent").GetOr("false"),
        "import_job_id" := job]
  }

  // ---------------------------------------------------------------- one chunk, as a function

  /** One line: the prepared record, or None when the line is recorded as an error. */
  function ReadLine(s: State, line: Line, job: string): (State, Option<Prepared>) {
    if line.parseError || line.date.None? then (s, None)
    else
      var (id, db) := Resolve(s.ElectionDb(), RequestOf(line));
      var after := State(s.tables.(elections := db.elections), db.nextId);
      if id.None? then (after, None)
      else (after.(nextId := after.nextId + 1),
            Some(Prepared(after.nextId, id.value, line.Field("candidate_name").GetOr(""), ColumnsOf(line, job))))
  }

  function ReadChunk(s: State, lines: seq<Line>, job: string): (State, seq<Prepared>) {
    if lines == [] then (s, [])
    else
      var (before, recs) := ReadChunk(s, lines[..|lines| - 1], job);
      var (after, rec) := ReadLine(before, lines[|lines| - 1], job);
      (after, if rec.Some? then recs + [rec.value] else recs)
  }

  /** Keep the last record of each (election, name), in order. */
  function KeepLast(recs: seq<Prepared>): seq<Prepared> {
    if recs == [] then []
    else if exists j :: 0 < j < |recs| && recs[j].Key() == recs[0].Key() then KeepLast(recs[1..])
    else [recs[0]] + KeepLast(recs[1..])
  }

  function UpsertCandidate(t: map<CandidateKey, Linked>, r: Prepared): map<CandidateKey, Linked> {
    t[r.Key() := if r.Key() in t
                 then Linked(t[r.Key()].id, U.Merge(CANDIDATE_UPDATES, t[r.Key()].cols, r.cols))
                 else Linked(r.id, r.cols)]
  }

  function UpsertCandidates(t: map<CandidateKey, Linked>, recs: seq<Prepared>): map<CandidateKey, Linked> {
    if recs == [] then t else UpsertCandidate(UpsertCandidates(t, recs[..|recs| - 1]), recs[|recs| - 1])
  }

  /** Re-importing a key keeps its id; a sparse record erases no optional column, and the others are overwritten. */
  lemma {:induction false} SparseRecordKeeps(t: map<CandidateKey, Linked>, r: Prepared, c: U.Col)
    requires r.Key() in t
    ensures var was, now := t[r.Key()], UpsertCandidate(t, r)[r.Key()];
      && now.id == was.id
      && (c in CANDIDATE_UPDATES && CANDIDATE_UPDATES[c] == U.PreferNew ==>
            U.Get(now.cols, c) == if c in r.cols then U.Get(r.cols, c) else U.Get(was.cols, c))
      && (c in CANDIDATE_UPDATES && CANDIDATE_UPDATES[c] == U.Overwrite ==> U.Get(now.cols, c) == U.Get(r.cols, c))
    ensures forall k :: k in t && k != r.Key() ==> UpsertCandidate(t, r)[k] == t[k]
  {
    var stored, excluded := t[r.Key()].cols, r.cols;
    assert c !in stored.Keys + excluded.Keys ==> U.MergedValue(CANDIDATE_UPDATES, stored, excluded, c).None?;
  }

  /** Every prepared record has a filing status the table admits: the line's own when that is legal. */
  lemma {:induction false} PreparedStatusLegal(line: Line, job: string)
    ensures var status := U.Get(ColumnsOf(line, job), "filing_status");
      && status in {Some("qualified"), Some("withdrawn"), Some("disqualified"), Some("write_in")}
      && (line.Field("filing_status") in {Some("qualified"), Some("withdrawn"), Some("disqualified"), Some("write_in")} ==>
            status == line.Field("filing_status"))
      && (line.Field("filing_status") !in {Some("qualified"), Some("withdrawn"), Some("disqualified"), Some("write_in")} ==>
            status == Some("qualified"))
  {
    hide Optional, OptionalColumns;
    assert "qualified" in FILING_STATUSES;
  }

  /** A row for the junction table: the candidate's stored id, and the id a new row would get. */
  datatype Junction = Junction(id: Id, candidate: Id, election: Id, cols: U.Row) {
    function Key(): CandidacyKey {
      (candidate, election)
    }
  }

  function JunctionOf(candidates: map<CandidateKey, Linked>, r: Prepared, id: Id): Junction
    requires r.Key() in candidates
  {
    Junction(id, candidates[r.Key()].id, r.election, r.cols - {"email"})
  }

  function UpsertCandidacy(t: map<CandidacyKey, Linked>, j: Junction): map<CandidacyKey, Linked> {
    t[j.Key() := if j.Key() in t
                 then Linked(t[j.Key()].id, U.Merge(CANDIDACY_UPDATES, t[j.Key()].cols, j.cols))
                 else Linked(j.id, j.cols)]
  }

  function Link(s: State, r: Prepared): State
    requires r.Key() in s.tables.candidates
  {
    State(s.tables.(candidacies := UpsertCandidacy(s.tables.candidacies, JunctionOf(s.tables.candidates, r, s.nextId))),
          s.nextId + 1)
  }

  function LinkAll(s: State, recs: seq<Prepared>): (r: State)
    requires forall i :: 0 <= i < |recs| ==> recs[i].Key() in s.tables.candidates
    ensures r.tables.candidates == s.tables.candidates && r.tables.elections == s.tables.elections
  {
    if recs == [] then s else Link(LinkAll(s, recs[..|recs| - 1]), recs[|recs| - 1])
  }

  lemma {:induction false} UpsertCandidatesKeys(t: map<CandidateKey, Linked>, recs: seq<Prepared>)
    ensures UpsertCandidates(t, recs).Keys == t.Keys + set r | r in recs :: r.Key()
    ensures forall k :: k in t ==> UpsertCandidates(t, recs)[k].id == t[k].id
  {
    if recs != [] {
      var init := recs[..|recs| - 1];
      UpsertCandidatesKeys(t, init);
      assert recs == init + [recs[|recs| - 1]];
    }
  }

  /** The whole chunk: resolve, de-duplicate, upsert candidates, then candidacies. */
  function ImportChunk(s: State, lines: seq<Line>, job: string): State {
    var (read, recs) := ReadChunk(s, lines, job);
    var kept := KeepLast(recs);
    var candidates := UpsertCandidates(read.tables.candidates, kept);
    UpsertCandidatesKeys(read.tables.candidates, kept);
    LinkAll(read.(tables := read.tables.(candidates := candidates)), kept)
  }

  /** The straight-through import. */
  function ImportChunks(s: State, chunks: seq<seq<Line>>, job: string): State {
    if chunks == [] then s
    else ImportChunk(ImportChunks(s, chunks[..|chunks| - 1], job), chunks[|chunks| - 1], job)
  }

  // ---------------------------------------------------------------- what a line becomes

  /** A field is what the line holds under its name, if anything. */
  lemma {:induction false} FieldRead(line: Line, name: string)
    ensures line.Field(name).Some? <==> name in line.fields
    ensures name in line.fields ==> line.Field(name) == Some(line.fields[name])
  {
  }

  /** Every column of a prepared record, and the field of the line it is taken from. */
  lemma {:induction false} PreparedColumns(line: Line, job: string, c: U.Col)
    ensures var v := U.Get(ColumnsOf(line, job), c);
      && (c in {"party", "contest_name", "qualified_date", "occupation", "email", "municipality"} ==> v == line.Field(c))
      && (c == "home_county" ==> v == line.Field("county"))
      && (c == "is_incumbent" ==> v == if line.Field(c).None? then Some("false") else line.Field(c))
      && (c == "import_job_id" ==> v == Some(job))
      && (v.Some? ==> c in {"party", "contest_name", "qualified_date", "occupation", "email", "home_county", "municipality",
                            "filing_status", "is_incumbent", "import_job_id"})
  {
    PreparedColumn(line, job, c);
    hide U.Get, ColumnsOf, FilingStatus;
  }

  /** The field a column is taken from. */
  function FieldOf(line: Line, job: string, c: U.Col): Option<string> {
    if c == "import_job_id" then Some(job)
    else if c == "is_incumbent" then Some(line.Field("is_incumbent").GetOr("false"))
    else if c == "filing_status" then Some(FilingStatus(line.Field("filing_status")))
    else if c == "home_county" then line.Field("county")
    else if c in {"party", "contest_name", "qualified_date", "occupation", "email", "municipality"} then line.Field(c)
    else None
  }

  lemma {:induction false} ContestColumnsRead(line: Line, c: U.Col)
    ensures U.Get(ContestColumns(line), c)
         == if c == "party" || c == "contest_name" || c == "qualified_date" || c == "occupation" then line.Field(c) else None
  {
    JoinedColumns(c);
    OptionalColumn(c);
    hide U.Get, Optional, Line.Field;
  }

  lemma {:induction false} PersonColumnsRead(line: Line, c: U.Col)
    ensures U.Get(PersonColumns(line), c)
         == if c == "email" || c == "municipality" then line.Field(c)
            else if c == "home_county" then line.Field("county") else None
  {
    JoinedColumns(c);
    OptionalColumn(c);
    hide U.Get, Optional, Line.Field;
  }

  lemma {:induction false} OptionalColumnsRead(line: Line, c: U.Col)
    ensures U.Get(OptionalColumns(line), c)
         == if c == "home_county" then line.Field("county")
            else if c in {"party", "contest_name", "qualified_date", "occupation", "email", "municipality"} then line.Field(c)
            else None
  {
    JoinedColumns(c);
    ContestColumnsRead(line, c);
    PersonColumnsRead(line, c);
    hide U.Get, ContestColumns, PersonColumns, Line.Field;
  }

  lemma {:induction false} PreparedColumn(line: Line, job: string, c: U.Col)
    ensures U.Get(ColumnsOf(line, job), c) == FieldOf(line, job, c)
  {
    JoinedColumns(c);
    OptionalColumnsRead(line, c);
    FixedColumns(line, job, c);
    hide U.Get, OptionalColumns, FilingStatus;
  }

  lemma {:induction false} JoinedColumns(c: U.Col)
    ensures forall a: U.Row, b: U.Row :: U.Get(a + b, c) == if U.Get(b, c).Some? then U.Get(b, c) else U.Get(a, c)
  {
  }

  lemma {:induction false} OptionalColumn(c: U.Col)
    ensures forall col, v :: U.Get(Optional(col, v), c) == if col == c then v else None
  {
  }

  lemma {:induction false} FixedColumns(line: Line, job: string, c: U.Col)
    ensures U.Get(map["filing_status" := FilingStatus(line.Field("filing_status")),
                      "is_incumbent" := line.Field("is_incumbent").GetOr("false"),
                      "import_job_id" := job], c)
         == if c == "import_job_id" then Some(job)
            else if c == "is_incumbent" then Some(line.Field("is_incumbent").GetOr("false"))
            else if c == "filing_status" then Some(FilingStatus(line.Field("filing_status"))) else None
  {
  }

  /** A line is an error exactly when it does not parse, has no date or its election is ambiguous. */
  lemma {:induction false} LineRead(s: State, line: Line, job: string)
    ensures var (after, rec) := ReadLine(s, line, job);
      if line.parseError || line.date.None? then rec.None? && after == s
      else
        var request := Request(line.Field("election_name").GetOr(""), line.date.value, line.Field("election_type"),
                               line.Field("county"), line.Field("municipality"));
        var (id, db) := Resolve(s.ElectionDb(), request);
        && after.tables == s.tables.(elections := db.elections)
        && (rec.None? <==> id.None?)
        && (rec.Some? ==> rec.value.election == id.value && rec.value.name == line.Field("candidate_name").GetOr("")
                          && rec.value.cols == ColumnsOf(line, job))
  {
    hide Resolve, ColumnsOf;
  }

  // ---------------------------------------------------------------- what an upsert writes

  /** A column the conflict clause overwrites. */
  predicate Overwritten(c: U.Col) {
    c == "filing_status" || c == "is_incumbent" || c == "import_job_id"
  }

  /** A column it keeps when the new row has none. */
  predicate Coalesced(c: U.Col) {
    c == "party" || c == "contest_name" || c == "qualified_date" || c == "occupation" || c == "home_county" || c == "municipality"
  }

  /** The stored columns after the conflict clause. */
  ghost predicate Merged(was: U.Row, r: U.Row, now: U.Row) {
    && (forall c :: Overwritten(c) ==> U.Get(now, c) == U.Get(r, c))
    && (forall c :: Coalesced(c) ==> U.Get(now, c) == if c in r then U.Get(r, c) else U.Get(was, c))
  }

  /** Importing a stored candidate: its id stays, its columns are merged; others are untouched. */
  lemma {:induction false} CandidateWritten(t: map<CandidateKey, Linked>, r: Prepared)
    ensures var now := UpsertCandidate(t, r); var k := (r.election, r.name);
      && now.Keys == t.Keys + {k}
      && (k !in t ==> now[k] == Linked(r.id, r.cols))
      && (k in t ==> now[k].id == t[k].id && Merged(t[k].cols, r.cols, now[k].cols)
                     && U.Get(now[k].cols, "email") == if "email" in r.cols then U.Get(r.cols, "email") else U.Get(t[k].cols, "email"))
      && forall l :: l in t && l != k ==> now[l] == t[l]
  {
    CandidateModes();
    hide U.Merge, Merged, CANDIDATE_UPDATES;
    var k := (r.election, r.name);
    if k in t {
      MergeReads(CANDIDATE_UPDATES, t[k].cols, r.cols);
      MergedByModes(CANDIDATE_UPDATES, t[k].cols, r.cols);
    }
  }

  ghost predicate HasModes(s: U.UpdateSet) {
    && (forall c :: Overwritten(c) ==> c in s && s[c] == U.Overwrite)
    && (forall c :: Coalesced(c) ==> c in s && s[c] == U.PreferNew)
  }

  lemma {:induction false} CandidateModes()
    ensures HasModes(CANDIDATE_UPDATES)
    ensures "email" in CANDIDATE_UPDATES && CANDIDATE_UPDATES["email"] == U.PreferNew
  {
  }

  lemma {:induction false} CandidacyModes()
    ensures HasModes(CANDIDACY_UPDATES)
  {
    CandidateModes();
    hide CANDIDATE_UPDATES;
  }

  lemma {:induction false} MergedByModes(s: U.UpdateSet, stored: U.Row, excluded: U.Row)
    requires HasModes(s)
    ensures Merged(stored, excluded, U.Merge(s, stored, excluded))
  {
    MergeReads(s, stored, excluded);
    hide U.Merge, Overwritten, Coalesced;
  }

  /** Importing a stored candidacy, likewise. */
  lemma {:induction false} CandidacyWritten(t: map<CandidacyKey, Linked>, j: Junction)
    ensures var now := UpsertCandidacy(t, j); var k := (j.candidate, j.election);
      && now.Keys == t.Keys + {k}
      && (k !in t ==> now[k] == Linked(j.id, j.cols))
      && (k in t ==> now[k].id == t[k].id && Merged(t[k].cols, j.cols, now[k].cols))
      && forall l :: l in t && l != k ==> now[l] == t[l]
  {
    CandidacyModes();
    hide U.Merge, Merged, CANDIDACY_UPDATES;
    var k := (j.candidate, j.election);
    if k in t {
      MergedByModes(CANDIDACY_UPDATES, t[k].cols, j.cols);
    }
  }

  lemma {:induction false} MergeReads(s: U.UpdateSet, stored: U.Row, excluded: U.Row)
    ensures forall c :: U.Get(U.Merge(s, stored, excluded), c) == U.MergedValue(s, stored, excluded, c)
  {
  }

  lemma {:induction false} CandidateRow(t: map<CandidateKey, Linked>, recs: seq<Prepared>, i: nat)
    requires DistinctKeys(recs) && i < |recs|
    ensures recs[i].Key() in UpsertCandidates(t, recs)
    ensures UpsertCandidates(t, recs)[recs[i].Key()] == UpsertCandidate(t, recs[i])[recs[i].Key()]
  {
    var k := |recs| - 1;
    if i < k {
      CandidateRow(t, recs[..k], i);
      assert recs[k].Key() != recs[i].Key();
    } else {
      forall r | r in recs[..k] ensures r.Key() != recs[i].Key() {
        var j :| 0 <= j < k && recs[j] == r;
      }
      CandidateUntouched(t, recs[..k], recs[i].Key());
    }
  }

  lemma {:induction false} CandidateUntouched(t: map<CandidateKey, Linked>, recs: seq<Prepared>, k: CandidateKey)
    requires forall r :: r in recs ==> r.Key() != k
    ensures k in UpsertCandidates(t, recs) <==> k in t
    ensures k in t ==> UpsertCandidates(t, recs)[k] == t[k]
  {
    if recs != [] {
      assert recs[|recs| - 1] in recs;
      CandidateUntouched(t, recs[..|recs| - 1], k);
    }
  }

  // ---------------------------------------------------------------- de-duplication

  ghost predicate DistinctKeys(recs: seq<Prepared>) {
    forall i, j :: 0 <= i < j < |recs| ==> recs[i].Key() != recs[j].Key()
  }

  function KeysOf(recs: seq<Prepared>): set<CandidateKey> {
    set r | r in recs :: r.Key()
  }

  lemma {:induction false} PrependKeys(r: Prepared, rest: seq<Prepared>)
    ensures KeysOf([r] + rest) == KeysOf(rest) + {r.Key()}
  {
    assert forall x :: x in [r] + rest <==> x == r || x in rest;
  }

  lemma {:induction false} PrependDistinct(r: Prepared, rest: seq<Prepared>)
    requires DistinctKeys(rest) && r.Key() !in KeysOf(rest)
    ensures DistinctKeys([r] + rest)
  {
    var k := [r] + rest;
    forall i, j | 0 <= i < j < |k| ensures k[i].Key() != k[j].Key() {
      assert k[j] == rest[j - 1] && rest[j - 1] in rest;
      assert i > 0 ==> k[i] == rest[i - 1];
    }
  }

  lemma {:induction false} RepeatedKey(recs: seq<Prepared>)
    requires recs != []
    ensures (exists j :: 0 < j < |recs| && recs[j].Key() == recs[0].Key()) <==> recs[0].Key() in KeysOf(recs[1..])
  {
    var rest := recs[1..];
    if j :| 0 < j < |recs| && recs[j].Key() == recs[0].Key() {
      assert rest[j - 1] == recs[j] && rest[j - 1] in rest;
    }
    if r :| r in rest && r.Key() == recs[0].Key() {
      var j :| 0 <= j < |rest| && rest[j] == r;
      assert recs[j + 1] == r;
    }
  }

  /** Keep-last leaves each key once, loses no key, and keeps the last record of it. */
  lemma {:induction false} KeepLastDistinct(recs: seq<Prepared>)
    ensures DistinctKeys(KeepLast(recs))
    ensures KeysOf(KeepLast(recs)) == KeysOf(recs)
    ensures |KeepLast(recs)| <= |recs|
  {
    hide DistinctKeys, KeysOf;
    if recs == [] {
      assert DistinctKeys(KeepLast(recs)) by { NoRecordsDistinct(); }
    } else {
      var rest := recs[1..];
      assert recs == [recs[0]] + rest;
      KeepLastDistinct(rest);
      RepeatedKey(recs);
      PrependKeys(recs[0], rest);
      if recs[0].Key() !in KeysOf(rest) {
        PrependKeys(recs[0], KeepLast(rest));
        PrependDistinct(recs[0], KeepLast(rest));
      }
    }
  }

  lemma {:induction false} NoRecordsDistinct()
    ensures DistinctKeys([])
  {
  }

  lemma {:induction false} KeepLastKeepsLast(recs: seq<Prepared>, i: nat)
    requires i < |recs| && forall j :: i < j < |recs| ==> recs[j].Key() != recs[i].Key()
    ensures recs[i] in KeepLast(recs)
  {
    if i > 0 {
      assert recs[1..][i - 1] == recs[i];
      KeepLastKeepsLast(recs[1..], i - 1);
    }
  }

  // ---------------------------------------------------------------- what one chunk keeps and establishes

  /** Ids in use were drawn from the supply; candidate ids are unique; links point at elections in the table. */
  ghost predicate Consistent(s: State) {
    && s.ElectionDb().Valid()
    && (forall k :: k in s.tables.candidates ==> k.0 in s.tables.elections && s.tables.candidates[k].id < s.nextId)
    && (forall k, l :: k in s.tables.candidates && l in s.tables.candidates && k != l ==>
          s.tables.candidates[k].id != s.tables.candidates[l].id)
    && (forall k :: k in s.tables.candidacies ==>
          k.0 < s.nextId && k.1 in s.tables.elections && s.tables.candidacies[k].id < s.nextId)
  }

  /** Record ids were drawn after `lo`, after every id in the candidates table, and are distinct. */
  ghost predicate FreshIds(s: State, lo: Id, recs: seq<Prepared>) {
    && (forall r :: r in recs ==> r.election in s.tables.elections && lo <= r.id < s.nextId)
    && (forall k :: k in s.tables.candidates ==> s.tables.candidates[k].id < lo)
    && (forall i, j :: 0 <= i < j < |recs| ==> recs[i].id != recs[j].id)
  }

  lemma {:induction false} ReadLineConsistent(s: State, line: Line, job: string)
    requires Consistent(s)
    ensures var (after, rec) := ReadLine(s, line, job);
      && Consistent(after) && s.nextId <= after.nextId
      && after.tables.candidates == s.tables.candidates && after.tables.candidacies == s.tables.candidacies
      && s.tables.elections.Keys <= after.tables.elections.Keys
      && (rec.Some? ==> rec.value.election in after.tables.elections && s.nextId <= rec.value.id < after.nextId)
  {
    hide ColumnsOf, RequestOf, Resolve, LookupName, Consistent;
    if !line.parseError && line.date.Some? {
      var r := RequestOf(line);
      ElectionsValid(s);
      ResolveMatches(s.ElectionDb(), r, "", 0);
      ResolvedIdInTable(s.ElectionDb(), r);
      GrownConsistent(s, ReadLine(s, line, job).0);
      var (id, db) := Resolve(s.ElectionDb(), r);
      assert id.Some? ==> ReadLine(s, line, job).1.value.election == id.value;
    }
  }

  lemma {:induction false} ElectionsValid(s: State)
    requires Consistent(s)
    ensures s.ElectionDb().Valid()
  {
  }

  lemma {:induction false} GrownConsistent(s: State, now: State)
    requires Consistent(s) && s.nextId <= now.nextId && s.tables.elections.Keys <= now.tables.elections.Keys
    requires forall e :: e in now.tables.elections ==> e < now.nextId
    requires now.tables.candidates == s.tables.candidates && now.tables.candidacies == s.tables.candidacies
    ensures Consistent(now)
  {
  }

  lemma {:induction false} ResolvedIdInTable(db: Db, r: Request)
    ensures var (id, after) := Resolve(db, r);
      && db.nextId <= after.nextId && db.elections.Keys <= after.elections.Keys
      && (id.Some? ==> id.value in after.elections)
  {
    hide LookupName;
    var m := Matches(db.elections, LookupName(r), r.date);
    if |m| == 1 {
      assert Only(m) in m;
    }
  }

  lemma {:induction false} FreshIdsGrow(was: State, now: State, lo: Id, recs: seq<Prepared>, rec: Option<Prepared>)
    requires FreshIds(was, lo, recs) && lo <= was.nextId <= now.nextId
    requires was.tables.elections.Keys <= now.tables.elections.Keys && was.tables.candidates == now.tables.candidates
    requires rec.Some? ==> rec.value.election in now.tables.elections && was.nextId <= rec.value.id < now.nextId
    ensures FreshIds(now, lo, if rec.Some? then recs + [rec.value] else recs)
  {
    if rec.Some? {
      forall i | 0 <= i < |recs| ensures recs[i].id < was.nextId {
        assert recs[i] in recs;
      }
    }
  }

  lemma {:induction false} ReadChunkConsistent(s: State, lines: seq<Line>, job: string)
    requires Consistent(s)
    ensures var (after, recs) := ReadChunk(s, lines, job);
      && Consistent(after) && s.nextId <= after.nextId && FreshIds(after, s.nextId, recs)
      && after.tables.candidates == s.tables.candidates && after.tables.candidacies == s.tables.candidacies
      && |recs| <= |lines|
  {
    if lines != [] {
      var init := lines[..|lines| - 1];
      ReadChunkConsistent(s, init, job);
      ReadLineConsistent(ReadChunk(s, init, job).0, lines[|lines| - 1], job);
      hide ReadLine, Consistent, FreshIds;
      var (before, recs) := ReadChunk(s, init, job);
      var (after, rec) := ReadLine(before, lines[|lines| - 1], job);
      FreshIdsGrow(before, after, s.nextId, recs, rec);
    } else {
      assert FreshIds(s, s.nextId, []);
    }
  }

  lemma {:induction false} KeepLastFresh(s: State, lo: Id, recs: seq<Prepared>)
    requires FreshIds(s, lo, recs)
    ensures FreshIds(s, lo, KeepLast(recs))
    ensures forall r :: r in KeepLast(recs) ==> r in recs
  {
    if recs != [] {
      assert forall r :: r in recs <==> r == recs[0] || r in recs[1..];
      KeepLastFresh(s, lo, recs[1..]);
      var k := KeepLast(recs[1..]);
      forall i | 0 <= i < |k| ensures k[i].id != recs[0].id {
        assert k[i] in recs[1..];
        var j :| 0 <= j < |recs[1..]| && recs[1..][j] == k[i];
        assert recs[j + 1] == k[i];
      }
    }
  }

  ghost predicate UniqueIds(t: map<CandidateKey, Linked>) {
    forall k, l :: k in t && l in t && k != l ==> t[k].id != t[l].id
  }

  lemma {:induction false} UpsertedIds(t: map<CandidateKey, Linked>, recs: seq<Prepared>, k: CandidateKey)
    requires k in UpsertCandidates(t, recs) && !(k in t && UpsertCandidates(t, recs)[k].id == t[k].id)
    ensures exists i :: 0 <= i < |recs| && UpsertCandidates(t, recs)[k].id == recs[i].id
  {
    if recs != [] {
      var init, last := recs[..|recs| - 1], recs[|recs| - 1];
      var was, now := UpsertCandidates(t, init), UpsertCandidates(t, recs);
      hide UpsertCandidates;
      if k in was && now[k].id == was[k].id {
        UpsertedIds(t, init, k);
        var i :| 0 <= i < |init| && was[k].id == init[i].id;
        assert recs[i].id == now[k].id;
      } else {
        assert now[k].id == recs[|recs| - 1].id by { UpsertedStep(t, recs, k); }
      }
    }
  }

  lemma {:induction false} UpsertedStep(t: map<CandidateKey, Linked>, recs: seq<Prepared>, k: CandidateKey)
    requires recs != [] && k in UpsertCandidates(t, recs)
    ensures var was, now := UpsertCandidates(t, recs[..|recs| - 1]), UpsertCandidates(t, recs);
      if k in was then now[k].id == was[k].id else k == recs[|recs| - 1].Key() && now[k].id == recs[|recs| - 1].id
  {
  }

  /** Upserting records with distinct keys and fresh ids keeps candidate ids unique. */
  lemma {:induction false} UpsertCandidatesConsistent(s: State, lo: Id, t: map<CandidateKey, Linked>, recs: seq<Prepared>)
    requires FreshIds(s, lo, recs) && t == s.tables.candidates && UniqueIds(t)
    ensures UniqueIds(UpsertCandidates(t, recs))
    ensures forall k :: k in UpsertCandidates(t, recs) ==>
              (k in t && UpsertCandidates(t, recs)[k].id == t[k].id)
              || exists i :: 0 <= i < |recs| && UpsertCandidates(t, recs)[k].id == recs[i].id
  {
    hide UpsertCandidates;
    if recs == [] {
      assert UpsertCandidates(t, []) == t by { NothingInserted(t); }
    } else {
      var init, last := recs[..|recs| - 1], recs[|recs| - 1];
      assert FreshIds(s, lo, init) by {
        assert forall r :: r in init ==> r in recs;
      }
      UpsertCandidatesConsistent(s, lo, t, init);
      var was, now := UpsertCandidates(t, init), UpsertCandidates(t, recs);
      assert last in recs;
      forall k | k in was ensures was[k].id != last.id {
        if k in t && was[k].id == t[k].id {
          assert was[k].id < lo;
        } else {
          var i :| 0 <= i < |init| && was[k].id == init[i].id;
          assert recs[i] == init[i];
        }
      }
      hide FreshIds;
      forall k | k in now
        ensures if k in was then now[k].id == was[k].id else k == last.Key() && now[k].id == last.id
        ensures !(k in t && now[k].id == t[k].id) ==> exists i :: 0 <= i < |recs| && now[k].id == recs[i].id
      {
        UpsertedStep(t, recs, k);
        if !(k in t && now[k].id == t[k].id) {
          UpsertedIds(t, recs, k);
        }
      }
    }
  }

  lemma {:induction false} NothingInserted(t: map<CandidateKey, Linked>)
    ensures UpsertCandidates(t, []) == t
  {
  }

  function LinkKey(s: State, r: Prepared): CandidacyKey
    requires r.Key() in s.tables.candidates
  {
    (s.tables.candidates[r.Key()].id, r.election)
  }

  lemma {:induction false} LinkConsistent(s: State, r: Prepared)
    requires Consistent(s) && r.Key() in s.tables.candidates
    ensures Consistent(Link(s, r))
    ensures Link(s, r).tables.candidacies.Keys == s.tables.candidacies.Keys + {LinkKey(s, r)}
  {
    hide U.Merge;
  }

  lemma {:induction false} LinkAllConsistent(s: State, recs: seq<Prepared>)
    requires Consistent(s) && forall r :: r in recs ==> r.Key() in s.tables.candidates
    ensures Consistent(LinkAll(s, recs)) && LinkAll(s, recs).nextId == s.nextId + |recs|
    ensures LinkAll(s, recs).tables.candidacies.Keys == s.tables.candidacies.Keys + set r | r in recs :: LinkKey(s, r)
  {
    hide Consistent, UpsertCandidacy;
    if recs != [] {
      var init, last := recs[..|recs| - 1], recs[|recs| - 1];
      assert forall r :: r in recs <==> r in init || r == last;
      LinkAllConsistent(s, init);
      LinkConsistent(LinkAll(s, init), last);
      assert LinkKey(LinkAll(s, init), last) == LinkKey(s, last);
    }
  }

  /** Distinct (election, name) keys give distinct junction keys: no statement touches a candidacy twice. */
  lemma {:induction false} LinkKeysDistinct(s: State, recs: seq<Prepared>, i: nat, j: nat)
    requires Consistent(s) && DistinctKeys(recs) && i < j < |recs|
    requires forall r :: r in recs ==> r.Key() in s.tables.candidates
    ensures LinkKey(s, recs[i]) != LinkKey(s, recs[j])
  {
  }

  ghost function AfterCandidates(s: State, lines: seq<Line>, job: string): State {
    var (read, recs) := ReadChunk(s, lines, job);
    read.(tables := read.tables.(candidates := UpsertCandidates(read.tables.candidates, KeepLast(recs))))
  }

  lemma {:induction false} AfterCandidatesConsistent(s: State, lines: seq<Line>, job: string)
    requires Consistent(s)
    ensures Consistent(AfterCandidates(s, lines, job))
    ensures forall r :: r in ReadChunk(s, lines, job).1 ==> r.Key() in AfterCandidates(s, lines, job).tables.candidates
    ensures forall r :: r in KeepLast(ReadChunk(s, lines, job).1) ==> r in ReadChunk(s, lines, job).1
  {
    var (read, recs) := ReadChunk(s, lines, job);
    ReadChunkConsistent(s, lines, job);
    KeepLastFresh(read, s.nextId, recs);
    KeepLastDistinct(recs);
    var kept := KeepLast(recs);
    var t := read.tables.candidates;
    UpsertCandidatesConsistent(read, s.nextId, t, kept);
    UpsertCandidatesKeys(t, kept);
    var now := UpsertCandidates(t, kept);
    forall k | k in now ensures k.0 in read.tables.elections && now[k].id < read.nextId {
      if k !in t {
        assert exists r :: r in kept && r.Key() == k;
      }
      if !(k in t && now[k].id == t[k].id) {
        var i :| 0 <= i < |kept| && now[k].id == kept[i].id;
        assert kept[i] in kept;
      }
    }
    forall r | r in recs ensures r.Key() in now {
      assert r.Key() in KeysOf(recs);
    }
  }

  lemma {:induction false} ImportChunkSteps(s: State, lines: seq<Line>, job: string)
    ensures forall r :: r in KeepLast(ReadChunk(s, lines, job).1) ==>
              r.Key() in AfterCandidates(s, lines, job).tables.candidates
    ensures ImportChunk(s, lines, job) == LinkAll(AfterCandidates(s, lines, job), KeepLast(ReadChunk(s, lines, job).1))
  {
    var (read, recs) := ReadChunk(s, lines, job);
    UpsertCandidatesKeys(read.tables.candidates, KeepLast(recs));
  }

  /**
   After a chunk every valid record of it, duplicates included, has a candidate under its
   (election, name) and a candidacy of that candidate's stored id in that election.
   */
  lemma {:induction false} EveryRecordLinked(s: State, lines: seq<Line>, job: string, r: Prepared)
    requires Consistent(s) && r in ReadChunk(s, lines, job).1
    ensures var after := ImportChunk(s, lines, job).tables;
      && r.election in after.elections && r.Key() in after.candidates
      && (after.candidates[r.Key()].id, r.election) in after.candidacies
    ensures Consistent(ImportChunk(s, lines, job))
  {
    hide ReadChunk, KeepLast, UpsertCandidates, LinkAll, ImportChunk, DistinctKeys;
    var recs := ReadChunk(s, lines, job).1;
    var kept := KeepLast(recs);
    var mid := AfterCandidates(s, lines, job);
    AfterCandidatesConsistent(s, lines, job);
    ImportChunkSteps(s, lines, job);
    LinkAllConsistent(mid, kept);
    KeepLastDistinct(recs);
    assert r.Key() in KeysOf(recs);
    var q :| q in kept && q.Key() == r.Key();
    assert LinkKey(mid, q) in LinkAll(mid, kept).tables.candidacies;
  }

  lemma {:induction false} LinkUntouched(s: State, recs: seq<Prepared>, k: CandidacyKey)
    requires forall r :: r in recs ==> r.Key() in s.tables.candidates && LinkKey(s, r) != k
    ensures LinkAll(s, recs).nextId == s.nextId + |recs|
    ensures k in LinkAll(s, recs).tables.candidacies <==> k in s.tables.candidacies
    ensures k in s.tables.candidacies ==> LinkAll(s, recs).tables.candidacies[k] == s.tables.candidacies[k]
  {
    if recs != [] {
      assert recs[|recs| - 1] in recs;
      LinkUntouched(s, recs[..|recs| - 1], k);
    }
  }

  lemma {:induction false} LinkRow(s: State, recs: seq<Prepared>, i: nat)
    requires Consistent(s) && DistinctKeys(recs) && i < |recs|
    requires forall r :: r in recs ==> r.Key() in s.tables.candidates
    ensures LinkKey(s, recs[i]) in LinkAll(s, recs).tables.candidacies
    ensures LinkAll(s, recs).tables.candidacies[LinkKey(s, recs[i])]
         == UpsertCandidacy(s.tables.candidacies, JunctionOf(s.tables.candidates, recs[i], s.nextId + i))[LinkKey(s, recs[i])]
  {
    hide Consistent;
    var k := |recs| - 1;
    var init := recs[..k];
    assert forall r :: r in init ==> r in recs;
    if i < k {
      LinkRow(s, init, i);
      LinkKeysDistinct(s, recs, i, k);
    } else {
      forall r | r in init ensures LinkKey(s, r) != LinkKey(s, recs[i]) {
        var j :| 0 <= j < k && recs[j] == r;
        LinkKeysDistinct(s, recs, j, k);
      }
      LinkUntouched(s, init, LinkKey(s, recs[i]));
    }
  }

  /**
   What a chunk writes for each record kept: the candidate and its candidacy hold the record's
   columns, merged into the stored ones where there were any, and keep their stored ids.
   */
  lemma {:induction false} ChunkWrites(s: State, lines: seq<Line>, job: string, r: Prepared)
    requires Consistent(s) && r in KeepLast(ReadChunk(s, lines, job).1)
    ensures var was, now := s.tables, ImportChunk(s, lines, job).tables; var k := (r.election, r.name);
      && k in now.candidates && (now.candidates[k].id, r.election) in now.candidacies
      && (k !in was.candidates ==> now.candidates[k] == Linked(r.id, r.cols))
      && (k in was.candidates ==>
            now.candidates[k].id == was.candidates[k].id && Merged(was.candidates[k].cols, r.cols, now.candidates[k].cols))
      && (var l := (now.candidates[k].id, r.election);
          if l in was.candidacies then
            now.candidacies[l].id == was.candidacies[l].id
            && Merged(was.candidacies[l].cols, r.cols - {"email"}, now.candidacies[l].cols)
          else now.candidacies[l].cols == r.cols - {"email"})
  {
    hide ReadChunk, KeepLast, UpsertCandidates, LinkAll, ImportChunk, UpsertCandidate, UpsertCandidacy, Merged;
    var recs := ReadChunk(s, lines, job).1;
    var kept, mid := KeepLast(recs), AfterCandidates(s, lines, job);
    AfterCandidatesConsistent(s, lines, job);
    ImportChunkSteps(s, lines, job);
    ReadChunkConsistent(s, lines, job);
    KeepLastDistinct(recs);
    var i :| 0 <= i < |kept| && kept[i] == r;
    CandidateRow(s.tables.candidates, kept, i);
    CandidateWritten(s.tables.candidates, r);
    LinkRow(mid, kept, i);
    CandidacyWritten(mid.tables.candidacies, JunctionOf(mid.tables.candidates, r, mid.nextId + i));
  }

  lemma {:induction false} ImportChunkConsistent(s: State, lines: seq<Line>, job: string)
    requires Consistent(s)
    ensures Consistent(ImportChunk(s, lines, job))
  {
    AfterCandidatesConsistent(s, lines, job);
    ImportChunkSteps(s, lines, job);
    LinkAllConsistent(AfterCandidates(s, lines, job), KeepLast(ReadChunk(s, lines, job).1));
  }

  // ---------------------------------------------------------------- equality up to fresh ids

  ghost predicate CarriesElections(ren: map<Id, Id>, a: Tables, b: Tables) {
    forall e :: e in a.elections ==> e in ren && ren[e] in b.elections && b.elections[ren[e]] == a.elections[e]
  }

  ghost predicate CarriesCandidates(ren: map<Id, Id>, a: Tables, b: Tables) {
    forall k :: k in a.candidates ==>
      && k.0 in ren && a.candidates[k].id in ren
      && (ren[k.0], k.1) in b.candidates
      && b.candidates[(ren[k.0], k.1)] == Linked(ren[a.candidates[k].id], a.candidates[k].cols)
  }

  ghost predicate CarriesCandidacies(ren: map<Id, Id>, a: Tables, b: Tables) {
    forall k :: k in a.candidacies ==>
      && k.0 in ren && k.1 in ren && a.candidacies[k].id in ren
      && (ren[k.0], ren[k.1]) in b.candidacies
      && b.candidacies[(ren[k.0], ren[k.1])] == Linked(ren[a.candidacies[k].id], a.candidacies[k].cols)
  }

  /** `ren` carries every row of `a` to the same row of `b`, ids renamed. */
  ghost predicate Carries(ren: map<Id, Id>, a: State, b: State) {
    && CarriesElections(ren, a.tables, b.tables)
    && CarriesCandidates(ren, a.tables, b.tables)
    && CarriesCandidacies(ren, a.tables, b.tables)
  }

  ghost predicate Inverse(ren: map<Id, Id>, inv: map<Id, Id>) {
    forall x :: x in ren ==> ren[x] in inv && inv[ren[x]] == x
  }

  /** The tables of `a` and `b` are equal up to the one-to-one renaming `ren` of ids, whose inverse is `inv`. */
  ghost predicate SameUpToIds(ren: map<Id, Id>, inv: map<Id, Id>, a: State, b: State) {
    && Inverse(ren, inv) && Inverse(inv, ren)
    && (forall x :: x in ren ==> x < a.nextId)
    && (forall x :: x in inv ==> x < b.nextId)
    && Carries(ren, a, b) && Carries(inv, b, a)
  }

  /** `wide` renames every id that `ren` renames, in the same way. */
  ghost predicate Extends(ren: map<Id, Id>, wide: map<Id, Id>) {
    forall x :: x in ren ==> x in wide && wide[x] == ren[x]
  }

  lemma {:induction false} AddPair(ren: map<Id, Id>, inv: map<Id, Id>, x: Id, y: Id)
    requires Inverse(ren, inv) && Inverse(inv, ren) && x !in ren && y !in inv
    ensures Inverse(ren[x := y], inv[y := x]) && Inverse(inv[y := x], ren[x := y])
  {
  }

  lemma {:induction false} NothingRenamed(s: State) returns (id: map<Id, Id>)
    requires Consistent(s)
    ensures SameUpToIds(id, id, s, s) && forall x :: 0 <= x < s.nextId ==> x in id && id[x] == x
  {
    id := IdentityBelow(s.nextId);
  }

  function IdentityBelow(n: nat): (id: map<Id, Id>)
    ensures forall x :: x in id <==> 0 <= x < n
    ensures forall x :: x in id ==> id[x] == x
  {
    if n == 0 then map[] else IdentityBelow(n - 1)[n - 1 := n - 1]
  }

  /** Sets in one-to-one correspondence are empty together and singletons together. */
  lemma {:induction false} SizesCarried(ren: map<Id, Id>, inv: map<Id, Id>, A: set<Id>, B: set<Id>)
    requires forall x :: x in A ==> x in ren && ren[x] in B && ren[x] in inv && inv[ren[x]] == x
    requires forall y :: y in B ==> y in inv && inv[y] in A && inv[y] in ren && ren[inv[y]] == y
    ensures |A| == 0 <==> |B| == 0
    ensures forall x :: A == {x} ==> x in ren && B == {ren[x]}
    ensures |A| == 1 <==> |B| == 1
  {
    forall x | A == {x} ensures x in ren && B == {ren[x]} {
      assert x in A;
    }
    forall y | B == {y} ensures y in inv && A == {inv[y]} {
      assert y in B;
    }
    assert A == {} <==> B == {} by {
      if x :| x in A { assert ren[x] in B; }
      if y :| y in B { assert inv[y] in A; }
    }
    if |A| == 1 {
      SingletonElements(A);
    }
    if |B| == 1 {
      SingletonElements(B);
    }
  }

  lemma {:induction false} MatchesCarried(ren: map<Id, Id>, inv: map<Id, Id>, a: State, b: State, name: string, date: Date)
    requires SameUpToIds(ren, inv, a, b)
    ensures var A, B := Matches(a.tables.elections, name, date), Matches(b.tables.elections, name, date);
      && (|A| == 0 <==> |B| == 0)
      && (forall x :: A == {x} ==> x in ren && B == {ren[x]})
      && (|A| == 1 <==> |B| == 1)
  {
    var A, B := Matches(a.tables.elections, name, date), Matches(b.tables.elections, name, date);
    forall x | x in A ensures x in ren && ren[x] in B && ren[x] in inv && inv[ren[x]] == x { }
    forall y | y in B ensures y in inv && inv[y] in A && inv[y] in ren && ren[inv[y]] == y { }
    hide SameUpToIds, Matches;
    SizesCarried(ren, inv, A, B);
  }

  function WithElections(s: State, db: Db): State {
    State(s.tables.(elections := db.elections), db.nextId)
  }

  /** Both states get the same election under corresponding ids, new or already there. */
  lemma {:induction false} PutElection(ren: map<Id, Id>, inv: map<Id, Id>, a: State, b: State, x: Id, y: Id, e: Election, na: Id, nb: Id)
    requires Carries(ren, a, b) && Inverse(ren, inv) && Inverse(inv, ren)
    requires (x in ren && ren[x] == y) || (x !in ren && y !in inv)
    ensures Carries(ren[x := y], WithElections(a, Db(a.tables.elections[x := e], na)),
                    WithElections(b, Db(b.tables.elections[y := e], nb)))
  {
    var wide := ren[x := y];
    var now, after := WithElections(a, Db(a.tables.elections[x := e], na)), WithElections(b, Db(b.tables.elections[y := e], nb));
    assert CarriesElections(wide, now.tables, after.tables) by {
      forall f | f in a.tables.elections && f != x ensures ren[f] != y {
        assert inv[ren[f]] == f;
      }
    }
    LinksCarriedWider(ren, wide, a.tables, b.tables);
    LinksCarriedAlike(wide, a.tables, b.tables, now.tables, after.tables);
  }

  lemma {:induction false} LinksCarriedWider(ren: map<Id, Id>, wide: map<Id, Id>, a: Tables, b: Tables)
    requires CarriesCandidates(ren, a, b) && CarriesCandidacies(ren, a, b) && Extends(ren, wide)
    ensures CarriesCandidates(wide, a, b) && CarriesCandidacies(wide, a, b)
  {
  }

  lemma {:induction false} LinksCarriedAlike(ren: map<Id, Id>, a: Tables, b: Tables, c: Tables, d: Tables)
    requires CarriesCandidates(ren, a, b) && CarriesCandidacies(ren, a, b)
    requires c.candidates == a.candidates && c.candidacies == a.candidacies && d.candidates == b.candidates && d.candidacies == b.candidacies
    ensures CarriesCandidates(ren, c, d) && CarriesCandidacies(ren, c, d)
  {
  }

  /** Resolving the same request in two states that agree up to ids agrees up to ids. */
  lemma {:induction false} ResolveRenamed(ren: map<Id, Id>, inv: map<Id, Id>, a: State, b: State, r: Request)
    returns (ren': map<Id, Id>, inv': map<Id, Id>)
    requires SameUpToIds(ren, inv, a, b)
    ensures var (x, da), (y, db) := Resolve(a.ElectionDb(), r), Resolve(b.ElectionDb(), r);
      && SameUpToIds(ren', inv', WithElections(a, da), WithElections(b, db))
      && (x.Some? <==> y.Some?) && (x.Some? ==> x.value in ren' && ren'[x.value] == y.value)
    ensures Extends(ren, ren')
  {
    var name := LookupName(r);
    hide LookupName, Backfilled, NewElection, Carries;
    MatchesCarried(ren, inv, a, b, name, r.date);
    var A, B := Matches(a.tables.elections, name, r.date), Matches(b.tables.elections, name, r.date);
    if |A| == 0 {
      ren', inv' := ren[a.nextId := b.nextId], inv[b.nextId := a.nextId];
      AddPair(ren, inv, a.nextId, b.nextId);
      PutElection(ren, inv, a, b, a.nextId, b.nextId, NewElection(r), a.nextId + 1, b.nextId + 1);
      PutElection(inv, ren, b, a, b.nextId, a.nextId, NewElection(r), b.nextId + 1, a.nextId + 1);
    } else if |A| == 1 {
      ren', inv' := ren, inv;
      var x := Only(A);
      assert x in A && B == {ren[x]} && Only(B) == ren[x];
      CarriedElection(ren, a, b, x);
      var e := Backfilled(a.tables.elections[x], r);
      PutElection(ren, inv, a, b, x, ren[x], e, a.nextId, b.nextId);
      PutElection(inv, ren, b, a, ren[x], x, e, b.nextId, a.nextId);
      assert ren[x := ren[x]] == ren && inv[ren[x] := x] == inv;
    } else {
      ren', inv' := ren, inv;
      assert WithElections(a, a.ElectionDb()) == a && WithElections(b, b.ElectionDb()) == b;
    }
  }

  lemma {:induction false} CarriedElection(ren: map<Id, Id>, a: State, b: State, x: Id)
    requires Carries(ren, a, b) && x in a.tables.elections
    ensures x in ren && ren[x] in b.tables.elections && b.tables.elections[ren[x]] == a.tables.elections[x]
  {
  }

  /** The same record up to ids. */
  ghost predicate SameRecord(ren: map<Id, Id>, p: Prepared, q: Prepared) {
    p.id in ren && p.election in ren && q == Prepared(ren[p.id], ren[p.election], p.name, p.cols)
  }

  ghost predicate SameRecords(ren: map<Id, Id>, ps: seq<Prepared>, qs: seq<Prepared>) {
    |ps| == |qs| && forall i :: 0 <= i < |ps| ==> SameRecord(ren, ps[i], qs[i])
  }

  lemma {:induction false} CarriesExtends(ren: map<Id, Id>, wide: map<Id, Id>, a: State, b: State, na: Id, nb: Id)
    requires Carries(ren, a, b) && Extends(ren, wide)
    ensures Carries(wide, a.(nextId := na), b.(nextId := nb))
  {
  }

  /** Drawing an id in both states extends the renaming. */
  lemma {:induction false} DrawId(ren: map<Id, Id>, inv: map<Id, Id>, a: State, b: State) returns (ren': map<Id, Id>, inv': map<Id, Id>)
    requires SameUpToIds(ren, inv, a, b)
    ensures SameUpToIds(ren', inv', a.(nextId := a.nextId + 1), b.(nextId := b.nextId + 1))
    ensures Extends(ren, ren') && a.nextId in ren' && ren'[a.nextId] == b.nextId
  {
    ren', inv' := ren[a.nextId := b.nextId], inv[b.nextId := a.nextId];
    AddPair(ren, inv, a.nextId, b.nextId);
    CarriesExtends(ren, ren', a, b, a.nextId + 1, b.nextId + 1);
    CarriesExtends(inv, inv', b, a, b.nextId + 1, a.nextId + 1);
    hide Carries;
  }

  lemma {:induction false} ExtendsSelf(ren: map<Id, Id>)
    ensures Extends(ren, ren)
  {
  }

  lemma {:induction false} ExtendsKeeps(ren: map<Id, Id>, mid: map<Id, Id>, wide: map<Id, Id>, x: Id)
    requires Extends(ren, mid) && Extends(mid, wide) && x in mid
    ensures Extends(ren, wide) && x in wide && wide[x] == mid[x]
  {
  }

  lemma {:induction false} SameRecordsExtends(ren: map<Id, Id>, wide: map<Id, Id>, ps: seq<Prepared>, qs: seq<Prepared>)
    requires SameRecords(ren, ps, qs) && Extends(ren, wide)
    ensures SameRecords(wide, ps, qs)
  {
    forall i | 0 <= i < |ps| ensures SameRecord(wide, ps[i], qs[i]) {
      assert SameRecord(ren, ps[i], qs[i]);
    }
  }

  lemma {:induction false} SameRecordsAppend(ren: map<Id, Id>, ps: seq<Prepared>, qs: seq<Prepared>, p: Option<Prepared>, q: Option<Prepared>)
    requires SameRecords(ren, ps, qs) && (p.Some? <==> q.Some?) && (p.Some? ==> SameRecord(ren, p.value, q.value))
    ensures SameRecords(ren, if p.Some? then ps + [p.value] else ps, if q.Some? then qs + [q.value] else qs)
  {
    hide SameRecord;
  }

  lemma {:induction false} ExtendsTrans(ren: map<Id, Id>, mid: map<Id, Id>, wide: map<Id, Id>)
    requires Extends(ren, mid) && Extends(mid, wide)
    ensures Extends(ren, wide)
  {
  }

  lemma {:induction false} ReadLineRenamed(ren: map<Id, Id>, inv: map<Id, Id>, a: State, b: State, line: Line, job: string)
    returns (ren': map<Id, Id>, inv': map<Id, Id>)
    requires SameUpToIds(ren, inv, a, b)
    ensures var (a', p), (b', q) := ReadLine(a, line, job), ReadLine(b, line, job);
      && SameUpToIds(ren', inv', a', b')
      && (p.Some? <==> q.Some?) && (p.Some? ==> SameRecord(ren', p.value, q.value))
    ensures Extends(ren, ren')
  {
    hide SameUpToIds, Extends, Resolve, ColumnsOf, RequestOf;
    if line.parseError || line.date.None? {
      ren', inv' := ren, inv;
      ExtendsSelf(ren);
    } else {
      var r := RequestOf(line);
      var ren1, inv1 := ResolveRenamed(ren, inv, a, b, r);
      var (x, da) := Resolve(a.ElectionDb(), r);
      var (y, db) := Resolve(b.ElectionDb(), r);
      ren', inv' := ren1, inv1;
      if x.Some? {
        ren', inv' := DrawId(ren1, inv1, WithElections(a, da), WithElections(b, db));
        ExtendsKeeps(ren, ren1, ren', x.value);
      }
    }
  }

  lemma {:induction false} ReadChunkRenamed(ren: map<Id, Id>, inv: map<Id, Id>, a: State, b: State, lines: seq<Line>, job: string)
    returns (ren': map<Id, Id>, inv': map<Id, Id>)
    requires SameUpToIds(ren, inv, a, b)
    ensures var (a', ps), (b', qs) := ReadChunk(a, lines, job), ReadChunk(b, lines, job);
      SameUpToIds(ren', inv', a', b') && SameRecords(ren', ps, qs)
    ensures Extends(ren, ren')
  {
    hide SameUpToIds, ReadLine, SameRecords, Extends;
    ren', inv' := ren, inv;
    if lines == [] {
      ExtendsSelf(ren);
      NoRecords(ren);
    } else {
      var init, line := lines[..|lines| - 1], lines[|lines| - 1];
      var mid, inv1 := ReadChunkRenamed(ren, inv, a, b, init, job);
      var (a1, ps) := ReadChunk(a, init, job);
      var (b1, qs) := ReadChunk(b, init, job);
      ren', inv' := ReadLineRenamed(mid, inv1, a1, b1, line, job);
      ExtendsTrans(ren, mid, ren');
      SameRecordsExtends(mid, ren', ps, qs);
      SameRecordsAppend(ren', ps, qs, ReadLine(a1, line, job).1, ReadLine(b1, line, job).1);
    }
  }

  lemma {:induction false} NoRecords(ren: map<Id, Id>)
    ensures SameRecords(ren, [], [])
  {
  }

  lemma {:induction false} KeepLastRenamed(ren: map<Id, Id>, inv: map<Id, Id>, ps: seq<Prepared>, qs: seq<Prepared>)
    requires Inverse(ren, inv) && SameRecords(ren, ps, qs)
    ensures SameRecords(ren, KeepLast(ps), KeepLast(qs))
  {
    if ps != [] {
      KeepLastRenamed(ren, inv, ps[1..], qs[1..]);
      forall j | 0 < j < |ps| ensures ps[j].Key() == ps[0].Key() <==> qs[j].Key() == qs[0].Key() {
        assert SameRecord(ren, ps[j], qs[j]) && SameRecord(ren, ps[0], qs[0]);
        assert inv[ren[ps[j].election]] == ps[j].election && inv[ren[ps[0].election]] == ps[0].election;
      }
    }
  }

  function WithCandidates(s: State, t: map<CandidateKey, Linked>): State {
    s.(tables := s.tables.(candidates := t))
  }

  function WithCandidacies(s: State, t: map<CandidacyKey, Linked>): State {
    s.(tables := s.tables.(candidacies := t))
  }

  lemma {:induction false} PutCandidate(ren: map<Id, Id>, inv: map<Id, Id>, a: State, b: State, k: CandidateKey, id: Id, cols: U.Row)
    requires Carries(ren, a, b) && Inverse(ren, inv) && k.0 in ren && id in ren
    ensures Carries(ren, WithCandidates(a, a.tables.candidates[k := Linked(id, cols)]),
                    WithCandidates(b, b.tables.candidates[(ren[k.0], k.1) := Linked(ren[id], cols)]))
  {
    forall l | l in a.tables.candidates && l != k ensures (ren[l.0], l.1) != (ren[k.0], k.1) {
      assert inv[ren[l.0]] == l.0 && inv[ren[k.0]] == k.0;
    }
  }

  lemma {:induction false} CandidacyPut(ren: map<Id, Id>, inv: map<Id, Id>, a: Tables, b: Tables, k: CandidacyKey, id: Id, cols: U.Row)
    requires CarriesCandidacies(ren, a, b) && Inverse(ren, inv) && k.0 in ren && k.1 in ren && id in ren
    ensures CarriesCandidacies(ren, a.(candidacies := a.candidacies[k := Linked(id, cols)]),
                               b.(candidacies := b.candidacies[(ren[k.0], ren[k.1]) := Linked(ren[id], cols)]))
  {
    forall l | l in a.candidacies && l != k ensures (ren[l.0], ren[l.1]) != (ren[k.0], ren[k.1]) {
      RenamedApart(ren, inv, l, k);
    }
  }

  lemma {:induction false} RenamedApart(ren: map<Id, Id>, inv: map<Id, Id>, l: CandidacyKey, k: CandidacyKey)
    requires Inverse(ren, inv) && l.0 in ren && l.1 in ren && k.0 in ren && k.1 in ren && l != k
    ensures (ren[l.0], ren[l.1]) != (ren[k.0], ren[k.1])
  {
    assert inv[ren[l.0]] == l.0 && inv[ren[k.0]] == k.0;
    assert inv[ren[l.1]] == l.1 && inv[ren[k.1]] == k.1;
    assert l == (l.0, l.1) && k == (k.0, k.1);
  }

  lemma {:induction false} PutCandidacy(ren: map<Id, Id>, inv: map<Id, Id>, a: State, b: State, k: CandidacyKey, id: Id, cols: U.Row)
    requires Carries(ren, a, b) && Inverse(ren, inv) && k.0 in ren && k.1 in ren && id in ren
    ensures Carries(ren, WithCandidacies(a, a.tables.candidacies[k := Linked(id, cols)]),
                    WithCandidacies(b, b.tables.candidacies[(ren[k.0], ren[k.1]) := Linked(ren[id], cols)]))
  {
    CandidacyPut(ren, inv, a.tables, b.tables, k, id, cols);
    hide CarriesCandidacies, Inverse;
  }

  /** Corresponding records find corresponding candidates, or none in both tables. */
  lemma {:induction false} CandidateCarried(ren: map<Id, Id>, inv: map<Id, Id>, a: State, b: State, p: Prepared, q: Prepared)
    requires SameUpToIds(ren, inv, a, b) && SameRecord(ren, p, q)
    ensures p.Key() in a.tables.candidates <==> q.Key() in b.tables.candidates
    ensures p.Key() in a.tables.candidates ==>
              && a.tables.candidates[p.Key()].id in ren
              && b.tables.candidates[q.Key()] == Linked(ren[a.tables.candidates[p.Key()].id], a.tables.candidates[p.Key()].cols)
    ensures SameRecord(inv, q, p)
  {
    assert inv[ren[p.election]] == p.election && inv[ren[p.id]] == p.id;
    if q.Key() in b.tables.candidates {
      assert (inv[q.election], q.name) in a.tables.candidates;
    }
  }

  lemma {:induction false} UpsertCandidateRenamed(ren: map<Id, Id>, inv: map<Id, Id>, a: State, b: State, p: Prepared, q: Prepared)
    requires SameUpToIds(ren, inv, a, b) && SameRecord(ren, p, q)
    ensures SameUpToIds(ren, inv, WithCandidates(a, UpsertCandidate(a.tables.candidates, p)),
                        WithCandidates(b, UpsertCandidate(b.tables.candidates, q)))
  {
    CandidateCarried(ren, inv, a, b, p, q);
    var now := UpsertCandidate(a.tables.candidates, p)[p.Key()];
    hide Carries;
    var id := if p.Key() in a.tables.candidates then a.tables.candidates[p.Key()].id else p.id;
    assert inv[ren[id]] == id && inv[ren[p.election]] == p.election;
    PutCandidate(ren, inv, a, b, p.Key(), id, now.cols);
    PutCandidate(inv, ren, b, a, q.Key(), ren[id], now.cols);
  }

  lemma {:induction false} UpsertCandidatesRenamed(ren: map<Id, Id>, inv: map<Id, Id>, a: State, b: State, ps: seq<Prepared>, qs: seq<Prepared>)
    requires SameUpToIds(ren, inv, a, b) && SameRecords(ren, ps, qs)
    ensures SameUpToIds(ren, inv, WithCandidates(a, UpsertCandidates(a.tables.candidates, ps)),
                        WithCandidates(b, UpsertCandidates(b.tables.candidates, qs)))
  {
    if ps == [] {
      assert WithCandidates(a, a.tables.candidates) == a && WithCandidates(b, b.tables.candidates) == b;
    } else {
      var pi, qi := ps[..|ps| - 1], qs[..|qs| - 1];
      UpsertCandidatesRenamed(ren, inv, a, b, pi, qi);
      var a1 := WithCandidates(a, UpsertCandidates(a.tables.candidates, pi));
      var b1 := WithCandidates(b, UpsertCandidates(b.tables.candidates, qi));
      hide SameUpToIds, UpsertCandidate;
      assert SameRecord(ren, ps[|ps| - 1], qs[|qs| - 1]);
      UpsertCandidateRenamed(ren, inv, a1, b1, ps[|ps| - 1], qs[|qs| - 1]);
    }
  }

  lemma {:induction false} CandidacyCarried(ren: map<Id, Id>, inv: map<Id, Id>, a: State, b: State, k: CandidacyKey)
    requires SameUpToIds(ren, inv, a, b) && k.0 in ren && k.1 in ren
    ensures k in a.tables.candidacies <==> (ren[k.0], ren[k.1]) in b.tables.candidacies
    ensures k in a.tables.candidacies ==>
              && a.tables.candidacies[k].id in ren
              && b.tables.candidacies[(ren[k.0], ren[k.1])]
                 == Linked(ren[a.tables.candidacies[k].id], a.tables.candidacies[k].cols)
  {
    assert inv[ren[k.0]] == k.0 && inv[ren[k.1]] == k.1;
    if (ren[k.0], ren[k.1]) in b.tables.candidacies {
      assert (inv[ren[k.0]], inv[ren[k.1]]) in a.tables.candidacies;
    }
  }

  lemma {:induction false} SetCandidacyRenamed(ren: map<Id, Id>, inv: map<Id, Id>, a: State, b: State, k: CandidacyKey, id: Id, cols: U.Row)
    requires SameUpToIds(ren, inv, a, b) && k.0 in ren && k.1 in ren && id in ren
    ensures SameUpToIds(ren, inv, WithCandidacies(a, a.tables.candidacies[k := Linked(id, cols)]),
                        WithCandidacies(b, b.tables.candidacies[(ren[k.0], ren[k.1]) := Linked(ren[id], cols)]))
  {
    hide Carries;
    assert inv[ren[id]] == id && inv[ren[k.0]] == k.0 && inv[ren[k.1]] == k.1;
    PutCandidacy(ren, inv, a, b, k, id, cols);
    PutCandidacy(inv, ren, b, a, (ren[k.0], ren[k.1]), ren[id], cols);
  }

  lemma {:induction false} LinkRenamed(ren: map<Id, Id>, inv: map<Id, Id>, a: State, b: State, p: Prepared, q: Prepared)
    returns (ren': map<Id, Id>, inv': map<Id, Id>)
    requires SameUpToIds(ren, inv, a, b) && SameRecord(ren, p, q) && p.Key() in a.tables.candidates
    ensures q.Key() in b.tables.candidates
    ensures SameUpToIds(ren', inv', Link(a, p), Link(b, q)) && Extends(ren, ren')
  {
    hide Carries, SameUpToIds, Inverse;
    CandidateCarried(ren, inv, a, b, p, q);
    ren', inv' := DrawId(ren, inv, a, b);
    var a1, b1 := a.(nextId := a.nextId + 1), b.(nextId := b.nextId + 1);
    var k := LinkKey(a, p);
    assert LinkKey(b, q) == (ren[k.0], ren[k.1]);
    CandidacyCarried(ren', inv', a1, b1, k);
    var now := UpsertCandidacy(a.tables.candidacies, JunctionOf(a.tables.candidates, p, a.nextId))[k];
    SetCandidacyRenamed(ren', inv', a1, b1, k, now.id, now.cols);
  }

  lemma {:induction false} LinkAllRenamed(ren: map<Id, Id>, inv: map<Id, Id>, a: State, b: State, ps: seq<Prepared>, qs: seq<Prepared>)
    returns (ren': map<Id, Id>, inv': map<Id, Id>)
    requires SameUpToIds(ren, inv, a, b) && SameRecords(ren, ps, qs)
    requires forall i :: 0 <= i < |ps| ==> ps[i].Key() in a.tables.candidates
    requires forall i :: 0 <= i < |qs| ==> qs[i].Key() in b.tables.candidates
    ensures SameUpToIds(ren', inv', LinkAll(a, ps), LinkAll(b, qs)) && Extends(ren, ren')
  {
    hide SameUpToIds, Link, Extends, SameRecord;
    ren', inv' := ren, inv;
    if ps == [] {
      ExtendsSelf(ren);
    } else {
      var pi, qi := ps[..|ps| - 1], qs[..|qs| - 1];
      var p, q := ps[|ps| - 1], qs[|qs| - 1];
      var ren1, inv1 := LinkAllRenamed(ren, inv, a, b, pi, qi);
      SameRecordsExtends(ren, ren1, ps, qs);
      ren', inv' := LinkRenamed(ren1, inv1, LinkAll(a, pi), LinkAll(b, qi), p, q);
      ExtendsTrans(ren, ren1, ren');
    }
  }

  lemma {:induction false} InverseOf(ren: map<Id, Id>, inv: map<Id, Id>, a: State, b: State)
    requires SameUpToIds(ren, inv, a, b)
    ensures Inverse(ren, inv)
  {
  }

  /** A chunk imported into two states that agree up to ids leaves states that agree up to ids. */
  lemma {:induction false} ImportChunkRenamed(ren: map<Id, Id>, inv: map<Id, Id>, a: State, b: State, lines: seq<Line>, job: string)
    returns (ren': map<Id, Id>, inv': map<Id, Id>)
    requires SameUpToIds(ren, inv, a, b)
    ensures SameUpToIds(ren', inv', ImportChunk(a, lines, job), ImportChunk(b, lines, job)) && Extends(ren, ren')
  {
    hide SameUpToIds, ReadChunk, KeepLast, UpsertCandidates, LinkAll, ImportChunk, SameRecords, Inverse, Extends;
    var ren1, inv1 := ReadChunkRenamed(ren, inv, a, b, lines, job);
    var (a1, ps) := ReadChunk(a, lines, job);
    var (b1, qs) := ReadChunk(b, lines, job);
    InverseOf(ren1, inv1, a1, b1);
    KeepLastRenamed(ren1, inv1, ps, qs);
    UpsertCandidatesRenamed(ren1, inv1, a1, b1, KeepLast(ps), KeepLast(qs));
    ImportChunkSteps(a, lines, job);
    ImportChunkSteps(b, lines, job);
    ren', inv' := LinkAllRenamed(ren1, inv1, AfterCandidates(a, lines, job), AfterCandidates(b, lines, job), KeepLast(ps), KeepLast(qs));
    ExtendsTrans(ren, ren1, ren');
  }
}
