/**
 The upsert-by-id import family: elections, election events, candidacies and persons.
 `_upsert_*_batch` and `import_*` in `src/voter_api/services/{election,election_event,candidacy,candidate}_import_service.py`.
 Rows are column maps in which a NULL column is absent; server defaults and NOT NULL are not modelled.
 */
module Upserts {
  import opened Prelude

  type Id = nat
  type Col = string
  type Value = string
  type Row = map<Col, Value>
  type Table = map<Id, Row>

  /** A prepared record: its keys are the dictionary's keys, and a key may hold None. */
  datatype Record = Record(id: Id, cols: map<Col, Option<Value>>)

  /** excluded.c, COALESCE(table.c, excluded.c) and COALESCE(excluded.c, table.c). */
  datatype Mode = Overwrite | KeepOld | PreferNew

  type UpdateSet = map<Col, Mode>

  datatype Kind = Elections | Events | Candidacies | Persons

  const SUB_BATCH := 500

  const EXCLUDED: set<Col> := {"id", "created_at"}

  const CURATED: set<Col> := {"election_type", "status"}

  const CANDIDACY_OVERWRITE: set<Col> := {"filing_status", "is_incumbent", "ballot_order"}

  const CANDIDACY_COALESCE: set<Col> :=
    {"party", "contest_name", "qualified_date", "occupation", "home_county", "municipality", "sos_ballot_option_id"}

  const PERSON_COALESCE: set<Col> :=
    {"bio", "photo_url", "email", "home_county", "municipality", "external_ids"}

  /** The columns a statement would update, given all keys of the file, and how. */
  function UpdateSetFor(kind: Kind, keys: set<Col>): UpdateSet {
    match kind
    case Elections => map c | c in keys - EXCLUDED :: if c in CURATED then KeepOld else Overwrite
    case Events => map c | c in keys - EXCLUDED :: Overwrite
    case Candidacies =>
      (map c | c in CANDIDACY_COALESCE * keys :: PreferNew) + (map c | c in CANDIDACY_OVERWRITE :: Overwrite)
    case Persons =>
      (map c | c in PERSON_COALESCE * keys :: PreferNew) + (map c | c in {"full_name"} * keys :: Overwrite)
  }

  function AllKeys(rs: seq<Record>): set<Col> {
    set r, c | r in rs && c in r.cols :: c
  }

  function Get(row: Row, c: Col): Option<Value> {
    if c in row then Some(row[c]) else None
  }

  function RowOf(r: Record): Row {
    map c | c in r.cols && r.cols[c].Some? :: r.cols[c].value
  }

  function MergedValue(s: UpdateSet, stored: Row, excluded: Row, c: Col): Option<Value> {
    if c !in s then Get(stored, c)
    else match s[c]
      case Overwrite => Get(excluded, c)
      case KeepOld => if c in stored then Get(stored, c) else Get(excluded, c)
      case PreferNew => if c in excluded then Get(excluded, c) else Get(stored, c)
  }

  function Merge(s: UpdateSet, stored: Row, excluded: Row): Row {
    map c | c in stored.Keys + excluded.Keys && MergedValue(s, stored, excluded, c).Some? :: MergedValue(s, stored, excluded, c).value
  }

  /** INSERT ... ON CONFLICT (id) DO UPDATE for one row. */
  function UpsertOne(s: UpdateSet, t: Table, r: Record): Table {
    t[r.id := if r.id in t then Merge(s, t[r.id], RowOf(r)) else RowOf(r)]
  }

  /** The update set used for each record. */
  type Policy = Record -> UpdateSet

  /** The one statement of a file: every record is merged under the union of keys. */
  function FilePolicy(kind: Kind, rs: seq<Record>): Policy {
    var s := UpdateSetFor(kind, AllKeys(rs));
    r => s
  }

  /** Each record under its own keys. */
  function SinglePolicy(kind: Kind): Policy {
    (r: Record) => UpdateSetFor(kind, r.cols.Keys)
  }

  /** Records applied one at a time. */
  function ApplyAll(s: Policy, t: Table, rs: seq<Record>): Table
    decreases rs
  {
    if rs == [] then t else ApplyAll(s, UpsertOne(s(rs[0]), t, rs[0]), rs[1..])
  }

  ghost predicate DistinctIds(rs: seq<Record>) {
    forall i, j :: 0 <= i < j < |rs| ==> rs[i].id != rs[j].id
  }

  function IdsOf(rs: seq<Record>): (ids: seq<Id>)
    ensures |ids| == |rs|
  {
    seq(|rs|, i requires 0 <= i < |rs| => rs[i].id)
  }

  // ---------------------------------------------------------------- the fold

  lemma {:induction false} ApplyAllSplit(s: Policy, t: Table, a: seq<Record>, b: seq<Record>)
    ensures ApplyAll(s, t, a + b) == ApplyAll(s, ApplyAll(s, t, a), b)
    decreases a
  {
    if a == [] {
      assert a + b == b;
    } else {
      assert (a + b)[0] == a[0] && (a + b)[1..] == a[1..] + b;
      ApplyAllSplit(s, UpsertOne(s(a[0]), t, a[0]), a[1..], b);
    }
  }

  lemma {:induction false} ApplyAllKeys(s: Policy, t: Table, rs: seq<Record>)
    ensures ApplyAll(s, t, rs).Keys == t.Keys + set r | r in rs :: r.id
    decreases rs
  {
    if rs != [] {
      ApplyAllKeys(s, UpsertOne(s(rs[0]), t, rs[0]), rs[1..]);
      assert forall r :: r in rs <==> r == rs[0] || r in rs[1..];
    }
  }

  lemma {:induction false} ApplyAllUntouched(s: Policy, t: Table, rs: seq<Record>, id: Id)
    requires forall r :: r in rs ==> r.id != id
    ensures id in ApplyAll(s, t, rs) <==> id in t
    ensures id in t ==> ApplyAll(s, t, rs)[id] == t[id]
    decreases rs
  {
    if rs != [] {
      assert rs[0] in rs;
      ApplyAllUntouched(s, UpsertOne(s(rs[0]), t, rs[0]), rs[1..], id);
    }
  }

  /** With distinct ids each row is decided by its own record alone. */
  lemma {:induction false} ApplyAllRow(s: Policy, t: Table, rs: seq<Record>, i: nat)
    requires DistinctIds(rs) && i < |rs|
    ensures rs[i].id in ApplyAll(s, t, rs)
    ensures ApplyAll(s, t, rs)[rs[i].id] == UpsertOne(s(rs[i]), t, rs[i])[rs[i].id]
    decreases rs
  {
    var t1 := UpsertOne(s(rs[0]), t, rs[0]);
    if i == 0 {
      forall r | r in rs[1..] ensures r.id != rs[0].id {
        var j :| 0 <= j < |rs[1..]| && rs[1..][j] == r;
        assert rs[j + 1] == r;
      }
      ApplyAllUntouched(s, t1, rs[1..], rs[0].id);
    } else {
      assert rs[1..][i - 1] == rs[i];
      ApplyAllRow(s, t1, rs[1..], i - 1);
    }
  }

  // ---------------------------------------------------------------- counts

  /** The dry run's `would_insert`: records whose id is not in the table. */
  function WouldInsert(t: Table, rs: seq<Record>): (n: nat)
    ensures n <= |rs|
  {
    if rs == [] then 0 else (if rs[0].id in t then 0 else 1) + WouldInsert(t, rs[1..])
  }

  function Inserted(s: Policy, t: Table, rs: seq<Record>): int {
    |ApplyAll(s, t, rs)| - |t|
  }

  /** No id outside the table occurs in two records. */
  ghost predicate NoNewIdTwice(t: Table, rs: seq<Record>) {
    forall i, j :: 0 <= i < j < |rs| && rs[i].id == rs[j].id ==> rs[i].id in t
  }

  lemma {:induction false} WouldInsertAfter(s: Policy, t: Table, r: Record, rs: seq<Record>)
    ensures WouldInsert(UpsertOne(s(r), t, r), rs) <= WouldInsert(t, rs)
    ensures r.id !in t ==>
              (WouldInsert(UpsertOne(s(r), t, r), rs) == WouldInsert(t, rs) <==> forall j :: 0 <= j < |rs| ==> rs[j].id != r.id)
    ensures r.id in t ==> WouldInsert(UpsertOne(s(r), t, r), rs) == WouldInsert(t, rs)
  {
    if rs != [] {
      WouldInsertAfter(s, t, r, rs[1..]);
      if forall j :: 0 <= j < |rs[1..]| ==> rs[1..][j].id != r.id {
        assert forall j :: 0 < j < |rs| ==> rs[j] == rs[1..][j - 1];
      } else {
        var j :| 0 <= j < |rs[1..]| && rs[1..][j].id == r.id;
        assert rs[j + 1].id == r.id;
      }
    }
  }

  lemma {:induction false} InsertedStep(s: Policy, t: Table, rs: seq<Record>)
    requires rs != []
    ensures var t1 := UpsertOne(s(rs[0]), t, rs[0]);
      Inserted(s, t, rs) == (if rs[0].id in t then 0 else 1) + Inserted(s, t1, rs[1..])
  {
    var r := rs[0];
    var t1 := UpsertOne(s(r), t, r);
    hide UpsertOne;
    assert t1.Keys == t.Keys + {r.id} by {
      UpsertedKeys(s(r), t, r);
    }
    assert |t1| == |t1.Keys| && |t| == |t.Keys|;
  }

  lemma {:induction false} UpsertedKeys(s: UpdateSet, t: Table, r: Record)
    ensures UpsertOne(s, t, r).Keys == t.Keys + {r.id}
  {
  }

  /** No new id is listed twice when neither the first record's is repeated nor any of the rest's. */
  lemma {:induction false} NoNewIdTwiceStep(t: Table, t1: Table, rs: seq<Record>)
    requires rs != [] && t1.Keys == t.Keys + {rs[0].id}
    ensures NoNewIdTwice(t, rs) <==>
              (rs[0].id in t || forall j :: 0 <= j < |rs[1..]| ==> rs[1..][j].id != rs[0].id) && NoNewIdTwice(t1, rs[1..])
  {
    var rest := rs[1..];
    assert forall j :: 0 < j < |rs| ==> rs[j] == rest[j - 1];
    if NoNewIdTwice(t, rs) {
      forall i, j | 0 <= i < j < |rest| && rest[i].id == rest[j].id ensures rest[i].id in t1 {
        assert rs[i + 1].id == rs[j + 1].id;
      }
      forall j | 0 <= j < |rest| && rest[j].id == rs[0].id ensures rs[0].id in t {
        assert rs[j + 1].id == rs[0].id;
      }
    } else {
      var i, j :| 0 <= i < j < |rs| && rs[i].id == rs[j].id && rs[i].id !in t;
      assert rest[j - 1].id == rs[i].id;
      if i > 0 {
        assert rest[i - 1].id == rest[j - 1].id;
      }
    }
  }

  /** The dry run predicts the insert count exactly when no new id is listed twice, and never too low. */
  lemma {:induction false} DryRunAgrees(s: Policy, t: Table, rs: seq<Record>)
    ensures 0 <= Inserted(s, t, rs) <= WouldInsert(t, rs) <= |rs|
    ensures Inserted(s, t, rs) == WouldInsert(t, rs) <==> NoNewIdTwice(t, rs)
    decreases rs
  {
    hide UpsertOne, NoNewIdTwice;
    if rs == [] {
      NothingListed(s, t);
    } else {
      var r, rest := rs[0], rs[1..];
      var t1 := UpsertOne(s(r), t, r);
      UpsertedKeys(s(r), t, r);
      InsertedStep(s, t, rs);
      hide Inserted;
      DryRunAgrees(s, t1, rest);
      WouldInsertAfter(s, t, r, rest);
      NoNewIdTwiceStep(t, t1, rs);
    }
  }

  lemma {:induction false} NothingListed(s: Policy, t: Table)
    ensures Inserted(s, t, []) == 0 && NoNewIdTwice(t, [])
  {
  }

  // ---------------------------------------------------------------- importing a file twice

  lemma {:induction false} MergeTwice(s: UpdateSet, stored: Row, excluded: Row)
    ensures Merge(s, Merge(s, stored, excluded), excluded) == Merge(s, stored, excluded)
    ensures Merge(s, excluded, excluded) == excluded
  {
  }

  /** Importing the same file again changes no row and inserts nothing. */
  lemma {:induction false} ReimportChangesNothing(s: Policy, t: Table, rs: seq<Record>)
    requires DistinctIds(rs)
    ensures ApplyAll(s, ApplyAll(s, t, rs), rs) == ApplyAll(s, t, rs)
    ensures Inserted(s, ApplyAll(s, t, rs), rs) == 0 == WouldInsert(ApplyAll(s, t, rs), rs)
  {
    var once := ApplyAll(s, t, rs);
    var twice := ApplyAll(s, once, rs);
    ApplyAllKeys(s, t, rs);
    ApplyAllKeys(s, once, rs);
    forall id | id in once ensures twice[id] == once[id] {
      if r :| r in rs && r.id == id {
        var i :| 0 <= i < |rs| && rs[i] == r;
        ApplyAllRow(s, t, rs, i);
        ApplyAllRow(s, once, rs, i);
        MergeTwice(s(rs[i]), if id in t then t[id] else RowOf(r), RowOf(r));
      } else {
        ApplyAllUntouched(s, once, rs, id);
      }
    }
    assert twice == once;
    DryRunAgrees(s, once, rs);
    WouldInsertNothing(once, rs);
  }

  lemma {:induction false} WouldInsertNothing(t: Table, rs: seq<Record>)
    requires forall r :: r in rs ==> r.id in t
    ensures WouldInsert(t, rs) == 0
  {
    if rs != [] {
      assert rs[0] in rs;
      WouldInsertNothing(t, rs[1..]);
    }
  }

  // ---------------------------------------------------------------- one file against one record per file

  /** The file's statement erases column `c` of the stored row, which the record does not mention. */
  predicate Erases(kind: Kind, t: Table, rs: seq<Record>, r: Record, c: Col) {
    && r in rs && r.id in t && c in t[r.id]
    && c in UpdateSetFor(kind, AllKeys(rs)) && UpdateSetFor(kind, AllKeys(rs))[c] == Overwrite
    && c !in UpdateSetFor(kind, r.cols.Keys)
  }

  lemma {:induction false} MoreKeysSameModes(kind: Kind, own: set<Col>, keys: set<Col>)
    requires own <= keys
    ensures forall c :: c in UpdateSetFor(kind, own) ==>
              c in UpdateSetFor(kind, keys) && UpdateSetFor(kind, own)[c] == UpdateSetFor(kind, keys)[c]
    ensures forall c :: c in UpdateSetFor(kind, keys) && c !in UpdateSetFor(kind, own) ==> c !in own
  {
  }

  /** Two update sets merge a record differently exactly when one erases a column the other leaves alone. */
  lemma {:induction false} MergeWithMore(own: UpdateSet, wide: UpdateSet, stored: Row, excluded: Row)
    requires forall c :: c in own ==> c in wide && own[c] == wide[c]
    requires forall c :: c in wide && c !in own ==> c !in excluded
    ensures Merge(own, stored, excluded) == Merge(wide, stored, excluded)
            <==> forall c :: c in stored && c in wide && c !in own ==> wide[c] != Overwrite
  {
    var a, b := Merge(own, stored, excluded), Merge(wide, stored, excluded);
    if c :| c in stored && c in wide && c !in own && wide[c] == Overwrite {
      assert c in a && c !in b;
    } else {
      assert forall c :: MergedValue(own, stored, excluded, c) == MergedValue(wide, stored, excluded, c);
    }
  }

  lemma {:induction false} MergeOwnKeys(kind: Kind, t: Table, rs: seq<Record>, r: Record)
    requires r in rs
    ensures UpsertOne(SinglePolicy(kind)(r), t, r)[r.id] == UpsertOne(FilePolicy(kind, rs)(r), t, r)[r.id]
            <==> forall c :: !Erases(kind, t, rs, r, c)
  {
    MoreKeysSameModes(kind, r.cols.Keys, AllKeys(rs));
    var own, wide := UpdateSetFor(kind, r.cols.Keys), UpdateSetFor(kind, AllKeys(rs));
    assert forall c :: c in wide && c !in own ==> c !in RowOf(r);
    hide UpdateSetFor, Merge, AllKeys;
    if r.id in t {
      MergeWithMore(own, wide, t[r.id], RowOf(r));
      forall c ensures Erases(kind, t, rs, r, c) <==> c in t[r.id] && c in wide && wide[c] == Overwrite && c !in own { }
    } else {
      forall c ensures !Erases(kind, t, rs, r, c) { }
    }
  }

  /**
   Importing a file equals importing its records one file at a time exactly when no column is
   erased: union-of-keys normalisation writes NULL over columns that only other records mention.
   */
  lemma {:induction false} FileEqualsSingleRecords(kind: Kind, t: Table, rs: seq<Record>)
    requires DistinctIds(rs)
    ensures ApplyAll(FilePolicy(kind, rs), t, rs) == ApplyAll(SinglePolicy(kind), t, rs)
            <==> forall r, c :: !Erases(kind, t, rs, r, c)
  {
    var a, b := ApplyAll(FilePolicy(kind, rs), t, rs), ApplyAll(SinglePolicy(kind), t, rs);
    ApplyAllKeys(FilePolicy(kind, rs), t, rs);
    ApplyAllKeys(SinglePolicy(kind), t, rs);
    hide UpdateSetFor, AllKeys, ApplyAll, UpsertOne, FilePolicy, SinglePolicy;
    forall i | 0 <= i < |rs|
      ensures a[rs[i].id] == b[rs[i].id] <==> forall c :: !Erases(kind, t, rs, rs[i], c)
    {
      ApplyAllRow(FilePolicy(kind, rs), t, rs, i);
      ApplyAllRow(SinglePolicy(kind), t, rs, i);
      MergeOwnKeys(kind, t, rs, rs[i]);
    }
    if r, c :| Erases(kind, t, rs, r, c) {
      var i :| 0 <= i < |rs| && rs[i] == r;
    } else {
      forall id | id in a ensures b[id] == a[id] {
        if r :| r in rs && r.id == id {
          var i :| 0 <= i < |rs| && rs[i] == r;
        } else {
          ApplyAllUntouched(FilePolicy(kind, rs), t, rs, id);
          ApplyAllUntouched(SinglePolicy(kind), t, rs, id);
        }
      }
      assert a == b;
    }
  }

  /** What an accepted file leaves: without updatable columns it is skipped as a whole. */
  function WrittenFile(kind: Kind, t: Table, rs: seq<Record>): Table {
    if UpdateSetFor(kind, AllKeys(rs)) == map[] then t else ApplyAll(FilePolicy(kind, rs), t, rs)
  }

  /** Each record in a file of its own. */
  function WrittenSingly(kind: Kind, t: Table, rs: seq<Record>): Table
    decreases rs
  {
    if rs == [] then t else WrittenSingly(kind, WrittenFile(kind, t, [rs[0]]), rs[1..])
  }

  predicate Skipped(kind: Kind, r: Record) {
    UpdateSetFor(kind, r.cols.Keys) == map[]
  }

  lemma {:induction false} WrittenAlone(kind: Kind, t: Table, r: Record)
    ensures WrittenFile(kind, t, [r]) == if Skipped(kind, r) then t else UpsertOne(SinglePolicy(kind)(r), t, r)
  {
    assert r in [r] && forall x :: x in [r] ==> x == r;
    assert AllKeys([r]) == r.cols.Keys;
    hide UpdateSetFor, UpsertOne, AllKeys;
    var s := FilePolicy(kind, [r]);
    assert [r][1..] == [];
    ApplyNothing(s, UpsertOne(s(r), t, r));
  }

  lemma {:induction false} UpsertNothing(t: Table, r: Record)
    requires r.id in t
    ensures UpsertOne(map[], t, r) == t
  {
    assert Merge(map[], t[r.id], RowOf(r)) == t[r.id];
  }

  /** When no skipped record is new, skipping makes no difference. */
  lemma {:induction false} SkippingStored(kind: Kind, t: Table, rs: seq<Record>)
    requires forall r :: r in rs && Skipped(kind, r) ==> r.id in t
    ensures WrittenSingly(kind, t, rs) == ApplyAll(SinglePolicy(kind), t, rs)
    decreases rs
  {
    if rs != [] {
      var r := rs[0];
      assert r in rs;
      WrittenAlone(kind, t, r);
      UpsertedKeys(SinglePolicy(kind)(r), t, r);
      if Skipped(kind, r) {
        UpsertNothing(t, r);
      }
      hide UpdateSetFor, UpsertOne, WrittenFile;
      SkippingStored(kind, UpsertOne(SinglePolicy(kind)(r), t, r), rs[1..]);
    }
  }

  /** A skipped record never inserts its row. */
  lemma {:induction false} SkippedAbsent(kind: Kind, t: Table, rs: seq<Record>, id: Id)
    requires id !in t && forall r :: r in rs && r.id == id ==> Skipped(kind, r)
    ensures id !in WrittenSingly(kind, t, rs)
    decreases rs
  {
    if rs != [] {
      var r := rs[0];
      assert r in rs;
      WrittenAlone(kind, t, r);
      UpsertedKeys(SinglePolicy(kind)(r), t, r);
      hide Skipped, UpsertOne, WrittenFile;
      SkippedAbsent(kind, WrittenFile(kind, t, [r]), rs[1..], id);
    }
  }

  lemma {:induction false} SkippedFile(kind: Kind, t: Table, rs: seq<Record>)
    requires forall r :: r in rs ==> Skipped(kind, r)
    ensures WrittenSingly(kind, t, rs) == t
    decreases rs
  {
    if rs != [] {
      assert rs[0] in rs;
      WrittenAlone(kind, t, rs[0]);
      hide Skipped, UpsertOne, WrittenFile;
      SkippedFile(kind, t, rs[1..]);
    }
  }

  lemma {:induction false} MemberSkipped(kind: Kind, rs: seq<Record>, r: Record)
    requires r in rs && UpdateSetFor(kind, AllKeys(rs)) == map[]
    ensures Skipped(kind, r)
  {
    MoreKeysSameModes(kind, r.cols.Keys, AllKeys(rs));
    hide UpdateSetFor, AllKeys;
    assert UpdateSetFor(kind, r.cols.Keys) == map[];
  }

  /** No new record is skipped when it is alone in its file. */
  predicate NoNewSkipped(kind: Kind, t: Table, rs: seq<Record>) {
    forall r :: r in rs && Skipped(kind, r) ==> r.id in t
  }

  /**
   A file equals its records in files of their own exactly when it is skipped as a whole, or
   it erases no column and none of its new records has no updatable column.
   */
  lemma {:induction false} FileEqualsSingleFiles(kind: Kind, t: Table, rs: seq<Record>)
    requires DistinctIds(rs)
    ensures WrittenFile(kind, t, rs) == WrittenSingly(kind, t, rs)
        <==> UpdateSetFor(kind, AllKeys(rs)) == map[]
             || (NoNewSkipped(kind, t, rs) && forall r, c :: !Erases(kind, t, rs, r, c))
  {
    hide UpdateSetFor, AllKeys, ApplyAll, UpsertOne, FilePolicy, SinglePolicy, Skipped, Erases, DistinctIds, WrittenSingly;
    if UpdateSetFor(kind, AllKeys(rs)) == map[] {
      forall r | r in rs ensures Skipped(kind, r) {
        MemberSkipped(kind, rs, r);
      }
      SkippedFile(kind, t, rs);
    } else if NoNewSkipped(kind, t, rs) {
      SkippingStored(kind, t, rs);
      FileEqualsSingleRecords(kind, t, rs);
    } else {
      var r :| r in rs && Skipped(kind, r) && r.id !in t;
      OneOfId(rs, r);
      SkippedAbsent(kind, t, rs, r.id);
      ApplyAllKeys(FilePolicy(kind, rs), t, rs);
      assert r.id in set x | x in rs :: x.id;
    }
  }

  lemma {:induction false} OneOfId(rs: seq<Record>, r: Record)
    requires DistinctIds(rs) && r in rs
    ensures forall x :: x in rs && x.id == r.id ==> x == r
  {
    forall x | x in rs && x.id == r.id ensures x == r {
      var i :| 0 <= i < |rs| && rs[i] == r;
      var j :| 0 <= j < |rs| && rs[j] == x;
      assert i < j || j < i || i == j;
    }
  }

  /** Candidacies never lose a column this way: their overwritten columns do not depend on the file. */
  lemma {:induction false} CandidacyFilesEqualSingleRecords(t: Table, rs: seq<Record>)
    requires DistinctIds(rs)
    ensures ApplyAll(FilePolicy(Candidacies, rs), t, rs) == ApplyAll(SinglePolicy(Candidacies), t, rs)
  {
    FileEqualsSingleRecords(Candidacies, t, rs);
    forall r, c ensures !Erases(Candidacies, t, rs, r, c) {
      assert c in CANDIDACY_OVERWRITE ==> c in UpdateSetFor(Candidacies, r.cols.Keys);
    }
  }

  /** An election record as the service prepares it: the columns with defaults are always there. */
  function Prepared(name: Value, county: Option<Value>): (cols: map<Col, Option<Value>>)
  {
    var cols := map["name" := Some(name), "election_date" := Some("2026-05-19"), "district" := Some(name),
                    "source" := Some("manual"), "creation_method" := Some("manual"), "status" := Some("active"),
                    "election_type" := Some("general")];
    if county.Some? then cols["eligible_county" := county] else cols
  }

  /** Two elections in one file: the second one's county is erased because only the first record mentions it. */
  lemma {:induction false} UnionOfKeysErases(t: Table, rs: seq<Record>)
    requires t == map[2 := RowOf(Record(2, Prepared("B", Some("BIBB"))))]
    requires rs == [Record(1, Prepared("A", Some("COBB"))), Record(2, Prepared("B", None))]
    ensures ApplyAll(FilePolicy(Elections, rs), t, rs) != ApplyAll(SinglePolicy(Elections), t, rs)
    ensures ValueOf(t, 2, "eligible_county") == Some("BIBB")
    ensures ValueOf(ApplyAll(FilePolicy(Elections, rs), t, rs), 2, "eligible_county") == None
  {
    assert rs[0] in rs && rs[1] in rs;
    CountyOnlyInFirst("eligible_county");
    hide Prepared;
    assert "eligible_county" in rs[0].cols && "eligible_county" !in rs[1].cols;
    assert Erases(Elections, t, rs, rs[1], "eligible_county");
    FileEqualsSingleRecords(Elections, t, rs);
    ApplyAllRow(FilePolicy(Elections, rs), t, rs, 1);
  }

  lemma {:induction false} CountyOnlyInFirst(c: Col)
    requires c == "eligible_county"
    ensures c in Prepared("A", Some("COBB")) && c !in Prepared("B", None)
    ensures c in Prepared("B", Some("BIBB")) && Prepared("B", Some("BIBB"))[c] == Some("BIBB")
    ensures c !in EXCLUDED && c !in CURATED
  {
  }

  // ---------------------------------------------------------------- columns over many imports

  function ValueOf(t: Table, id: Id, c: Col): Option<Value> {
    if id in t then Get(t[id], c) else None
  }

  function Or(a: Option<Value>, b: Option<Value>): Option<Value> {
    if a.Some? then a else b
  }

  /** The values a record sequence supplies for column `c` of `id`, last first. */
  function LastNonNull(rs: seq<Record>, id: Id, c: Col): Option<Value> {
    if rs == [] then None
    else Or(LastNonNull(rs[1..], id, c), if rs[0].id == id then Get(RowOf(rs[0]), c) else None)
  }

  function FirstNonNull(rs: seq<Record>, id: Id, c: Col): Option<Value> {
    if rs == [] then None
    else Or(if rs[0].id == id then Get(RowOf(rs[0]), c) else None, FirstNonNull(rs[1..], id, c))
  }

  function ImportFiles(kind: Kind, t: Table, files: seq<seq<Record>>): Table
    decreases files
  {
    if files == [] then t
    else ImportFiles(kind, WrittenFile(kind, t, files[0]), files[1..])
  }

  function Concat(files: seq<seq<Record>>): seq<Record> {
    if files == [] then [] else files[0] + Concat(files[1..])
  }

  lemma {:induction false} LastNonNullConcat(a: seq<Record>, b: seq<Record>, id: Id, c: Col)
    ensures LastNonNull(a + b, id, c) == Or(LastNonNull(b, id, c), LastNonNull(a, id, c))
  {
    if a == [] {
      assert a + b == b;
    } else {
      assert (a + b)[0] == a[0] && (a + b)[1..] == a[1..] + b;
      LastNonNullConcat(a[1..], b, id, c);
    }
  }

  lemma {:induction false} FirstNonNullConcat(a: seq<Record>, b: seq<Record>, id: Id, c: Col)
    ensures FirstNonNull(a + b, id, c) == Or(FirstNonNull(a, id, c), FirstNonNull(b, id, c))
  {
    if a == [] {
      assert a + b == b;
    } else {
      assert (a + b)[0] == a[0] && (a + b)[1..] == a[1..] + b;
      FirstNonNullConcat(a[1..], b, id, c);
    }
  }

  /** In one file, a column merged as PreferNew (or not mentioned at all) ends as its last non-null value. */
  lemma {:induction false} PreferNewFile(s: Policy, t: Table, rs: seq<Record>, id: Id, c: Col)
    requires forall r :: r in rs ==> if c in s(r) then s(r)[c] == PreferNew else c !in r.cols
    ensures ValueOf(ApplyAll(s, t, rs), id, c) == Or(LastNonNull(rs, id, c), ValueOf(t, id, c))
    decreases rs
  {
    if rs != [] {
      assert rs[0] in rs;
      PreferNewFile(s, UpsertOne(s(rs[0]), t, rs[0]), rs[1..], id, c);
    }
  }

  lemma {:induction false} KeepOldFile(s: Policy, t: Table, rs: seq<Record>, id: Id, c: Col)
    requires forall r :: r in rs ==> if c in s(r) then s(r)[c] == KeepOld else c !in r.cols
    ensures ValueOf(ApplyAll(s, t, rs), id, c) == Or(ValueOf(t, id, c), FirstNonNull(rs, id, c))
    decreases rs
  {
    if rs != [] {
      assert rs[0] in rs;
      KeepOldFile(s, UpsertOne(s(rs[0]), t, rs[0]), rs[1..], id, c);
    }
  }

  /** A file without updatable columns says nothing about an updatable column. */
  lemma {:induction false} NothingSaid(rs: seq<Record>, id: Id, c: Col)
    requires forall r :: r in rs ==> c !in r.cols
    ensures LastNonNull(rs, id, c) == None && FirstNonNull(rs, id, c) == None
  {
    if rs != [] {
      assert rs[0] in rs;
      NothingSaid(rs[1..], id, c);
    }
  }

  ghost predicate Coalesced(kind: Kind, c: Col) {
    match kind
    case Candidacies =>
      c in {"party", "contest_name", "qualified_date", "occupation", "home_county", "municipality", "sos_ballot_option_id"}
    case Persons => c in {"bio", "photo_url", "email", "home_county", "municipality", "external_ids"}
    case _ => false
  }

  lemma {:induction false} CoalescedMode(kind: Kind, keys: set<Col>, c: Col)
    requires Coalesced(kind, c)
    ensures if c in keys then c in UpdateSetFor(kind, keys) && UpdateSetFor(kind, keys)[c] == PreferNew
            else c !in UpdateSetFor(kind, keys)
  {
    assert c !in CANDIDACY_OVERWRITE && c != "full_name";
  }

  lemma {:induction false} CuratedMode(keys: set<Col>, c: Col)
    requires c == "status" || c == "election_type"
    ensures if c in keys then c in UpdateSetFor(Elections, keys) && UpdateSetFor(Elections, keys)[c] == KeepOld
            else c !in UpdateSetFor(Elections, keys)
  {
    assert c !in EXCLUDED;
  }

  /** The same for a file as it is written. */
  lemma {:induction false} CoalescedFile(kind: Kind, t: Table, rs: seq<Record>, id: Id, c: Col)
    requires Coalesced(kind, c)
    ensures ValueOf(WrittenFile(kind, t, rs), id, c) == Or(LastNonNull(rs, id, c), ValueOf(t, id, c))
  {
    CoalescedMode(kind, AllKeys(rs), c);
    assert c !in AllKeys(rs) ==> forall r :: r in rs ==> c !in r.cols;
    hide UpdateSetFor, AllKeys, ApplyAll, LastNonNull, Coalesced;
    if UpdateSetFor(kind, AllKeys(rs)) == map[] {
      NothingSaid(rs, id, c);
    } else {
      PreferNewFile(FilePolicy(kind, rs), t, rs, id, c);
    }
  }

  lemma {:induction false} CuratedFile(t: Table, rs: seq<Record>, id: Id, c: Col)
    requires c == "status" || c == "election_type"
    ensures ValueOf(WrittenFile(Elections, t, rs), id, c) == Or(ValueOf(t, id, c), FirstNonNull(rs, id, c))
  {
    CuratedMode(AllKeys(rs), c);
    assert c !in AllKeys(rs) ==> forall r :: r in rs ==> c !in r.cols;
    hide UpdateSetFor, AllKeys, ApplyAll, FirstNonNull;
    if UpdateSetFor(Elections, AllKeys(rs)) == map[] {
      NothingSaid(rs, id, c);
    } else {
      KeepOldFile(FilePolicy(Elections, rs), t, rs, id, c);
    }
  }

  /** Over any imports a candidacy or person COALESCE column holds the last non-null value ever imported. */
  lemma {:induction false} CoalesceColumnHoldsLast(kind: Kind, t: Table, files: seq<seq<Record>>, id: Id, c: Col)
    requires Coalesced(kind, c)
    ensures ValueOf(ImportFiles(kind, t, files), id, c) == Or(LastNonNull(Concat(files), id, c), ValueOf(t, id, c))
    decreases files
  {
    if files != [] {
      hide WrittenFile, LastNonNull, ValueOf, Coalesced;
      CoalescedFile(kind, t, files[0], id, c);
      CoalesceColumnHoldsLast(kind, WrittenFile(kind, t, files[0]), files[1..], id, c);
      LastNonNullConcat(files[0], Concat(files[1..]), id, c);
    }
  }

  /** An election's curated columns never change once set: they hold the first non-null value. */
  lemma {:induction false} CuratedColumnHoldsFirst(t: Table, files: seq<seq<Record>>, id: Id, c: Col)
    requires c == "status" || c == "election_type"
    ensures ValueOf(ImportFiles(Elections, t, files), id, c) == Or(ValueOf(t, id, c), FirstNonNull(Concat(files), id, c))
    decreases files
  {
    if files != [] {
      hide WrittenFile, FirstNonNull, ValueOf;
      CuratedFile(t, files[0], id, c);
      CuratedColumnHoldsFirst(WrittenFile(Elections, t, files[0]), files[1..], id, c);
      FirstNonNullConcat(files[0], Concat(files[1..]), id, c);
    }
  }

  /** The columns whose new value always replaces the stored one. */
  predicate Replaced(kind: Kind, c: Col) {
    match kind
    case Elections => c != "id" && c != "created_at" && c != "status" && c != "election_type"
    case Events => c != "id" && c != "created_at"
    case Candidacies => c == "filing_status" || c == "is_incumbent" || c == "ballot_order"
    case Persons => c == "full_name"
  }

  lemma {:induction false} ReplacedMode(kind: Kind, keys: set<Col>, c: Col)
    requires Replaced(kind, c)
    ensures if c in keys || kind == Candidacies then c in UpdateSetFor(kind, keys) && UpdateSetFor(kind, keys)[c] == Overwrite
            else c !in UpdateSetFor(kind, keys)
  {
  }

  /** What one statement does to a replaced column of the row of its record. */
  lemma {:induction false} ReplacedOne(s: UpdateSet, t: Table, r: Record, c: Col)
    ensures c in s && s[c] == Overwrite ==> ValueOf(UpsertOne(s, t, r), r.id, c) == if c in r.cols then r.cols[c] else None
    ensures c !in s && c !in r.cols ==> ValueOf(UpsertOne(s, t, r), r.id, c) == ValueOf(t, r.id, c)
  {
  }

  function RecordOf(rs: seq<Record>, id: Id): Option<Record> {
    if rs == [] then None
    else if rs[|rs| - 1].id == id then Some(rs[|rs| - 1])
    else RecordOf(rs[..|rs| - 1], id)
  }

  lemma {:induction false} RecordOfMember(rs: seq<Record>, id: Id)
    ensures RecordOf(rs, id).Some? ==> RecordOf(rs, id).value in rs && RecordOf(rs, id).value.id == id
    ensures RecordOf(rs, id).None? ==> forall r :: r in rs ==> r.id != id
  {
    if rs != [] {
      RecordOfMember(rs[..|rs| - 1], id);
      assert forall r :: r in rs <==> r in rs[..|rs| - 1] || r == rs[|rs| - 1];
    }
  }

  /** The column after one file: the record's value if the file writes it, NULL included, else as it was. */
  function Replacement(kind: Kind, was: Option<Value>, rs: seq<Record>, id: Id, c: Col): Option<Value> {
    match RecordOf(rs, id)
    case None => was
    case Some(r) => if c in r.cols then r.cols[c] else if kind == Candidacies || c in AllKeys(rs) then None else was
  }

  /** A replaced column holds what the file says of the row, NULL where only other records of the file mention it. */
  lemma {:induction false} ReplacedFile(kind: Kind, t: Table, rs: seq<Record>, id: Id, c: Col)
    requires DistinctIds(rs) && Replaced(kind, c)
    ensures ValueOf(WrittenFile(kind, t, rs), id, c) == Replacement(kind, ValueOf(t, id, c), rs, id, c)
  {
    RecordOfMember(rs, id);
    ReplacedMode(kind, AllKeys(rs), c);
    var s := UpdateSetFor(kind, AllKeys(rs));
    if RecordOf(rs, id).Some? {
      var r := RecordOf(rs, id).value;
      var i :| 0 <= i < |rs| && rs[i] == r;
      assert c in r.cols ==> c in AllKeys(rs);
      hide UpdateSetFor, AllKeys, ApplyAll, UpsertOne, DistinctIds, RecordOf;
      if s != map[] {
        ApplyAllRow(FilePolicy(kind, rs), t, rs, i);
        ReplacedOne(s, t, r, c);
      }
    } else {
      hide UpdateSetFor, AllKeys, ApplyAll;
      ApplyAllUntouched(FilePolicy(kind, rs), t, rs, id);
    }
  }

  function LastReplacement(kind: Kind, was: Option<Value>, files: seq<seq<Record>>, id: Id, c: Col): Option<Value>
    decreases files
  {
    if files == [] then was else LastReplacement(kind, Replacement(kind, was, files[0], id, c), files[1..], id, c)
  }

  /** Over any files a replaced column holds what the last file that writes it says. */
  lemma {:induction false} ReplacedColumnHoldsLast(kind: Kind, t: Table, files: seq<seq<Record>>, id: Id, c: Col)
    requires Replaced(kind, c) && forall k :: 0 <= k < |files| ==> DistinctIds(files[k])
    ensures ValueOf(ImportFiles(kind, t, files), id, c) == LastReplacement(kind, ValueOf(t, id, c), files, id, c)
    decreases files
  {
    if files != [] {
      hide WrittenFile, ValueOf, Replacement, Replaced, DistinctIds;
      ReplacedFile(kind, t, files[0], id, c);
      ReplacedColumnHoldsLast(kind, WrittenFile(kind, t, files[0]), files[1..], id, c);
    }
  }

  /** A record's own value is in the table after its file, whatever was there. */
  lemma {:induction false} RecordWritten(kind: Kind, t: Table, rs: seq<Record>, i: nat, c: Col)
    requires DistinctIds(rs) && i < |rs| && c in rs[i].cols && Replaced(kind, c)
    ensures ValueOf(WrittenFile(kind, t, rs), rs[i].id, c) == rs[i].cols[c]
  {
    var id := rs[i].id;
    ReplacedFile(kind, t, rs, id, c);
    RecordOfMember(rs, id);
    OneOfId(rs, rs[i]);
    assert rs[i] in rs;
    hide WrittenFile, ValueOf, Replaced, DistinctIds, RecordOf;
  }

  /** Every other column of a stored row stays as it is: id and created_at, and what no conflict clause names. */
  lemma {:induction false} ColumnsKept(kind: Kind, t: Table, rs: seq<Record>, id: Id, c: Col)
    requires id in t && !Replaced(kind, c) && !Coalesced(kind, c)
    requires kind == Elections ==> c != "status" && c != "election_type"
    ensures ValueOf(WrittenFile(kind, t, rs), id, c) == ValueOf(t, id, c)
  {
    UnnamedColumn(kind, AllKeys(rs), c);
    hide UpdateSetFor, AllKeys, Replaced, Coalesced;
    UnnamedKept(FilePolicy(kind, rs), t, rs, id, c);
  }

  lemma {:induction false} UnnamedColumn(kind: Kind, keys: set<Col>, c: Col)
    requires !Replaced(kind, c) && !Coalesced(kind, c)
    requires kind == Elections ==> c != "status" && c != "election_type"
    ensures c !in UpdateSetFor(kind, keys)
  {
  }

  lemma {:induction false} UnnamedKept(s: Policy, t: Table, rs: seq<Record>, id: Id, c: Col)
    requires id in t && forall r :: r in rs ==> c !in s(r)
    ensures id in ApplyAll(s, t, rs) && ValueOf(ApplyAll(s, t, rs), id, c) == ValueOf(t, id, c)
    decreases rs
  {
    if rs != [] {
      assert rs[0] in rs;
      UnnamedKept(s, UpsertOne(s(rs[0]), t, rs[0]), rs[1..], id, c);
    }
  }

  // ---------------------------------------------------------------- the other unique indexes

  datatype UniqueKey = UniqueKey(index: string, first: Value, second: Value)

  function KeyOver(index: string, row: Row, first: Col, second: Col): set<UniqueKey> {
    if first in row && second in row then {UniqueKey(index, row[first], row[second])} else {}
  }

  /** The entries of a row in the unique indexes beside its id; NULL columns never clash. */
  function KeysOf(kind: Kind, row: Row): set<UniqueKey> {
    match kind
    case Elections =>
      (if "deleted_at" in row then {} else KeyOver("uq_election_name_date", row, "name", "election_date"))
      + KeyOver("uq_election_feed_ballot_item", row, "data_source_url", "ballot_item_id")
    case Events => KeyOver("uq_election_event_date_type", row, "event_date", "event_type")
    case Candidacies => KeyOver("uq_candidacy_candidate_election", row, "candidate_id", "election_id")
    case Persons => KeyOver("uq_candidate_election_name", row, "election_id", "full_name")
  }

  /** Both rows have the two columns, with the same values. */
  predicate Agree(a: Row, b: Row, x: Col, y: Col) {
    x in a && x in b && a[x] == b[x] && y in a && y in b && a[y] == b[y]
  }

  /** Two rows share an index entry exactly when they agree on the columns of an index that covers both. */
  lemma {:induction false} IndexClash(kind: Kind, a: Row, b: Row)
    ensures KeysOf(kind, a) * KeysOf(kind, b) != {}
        <==> match kind
             case Elections =>
               (Agree(a, b, "name", "election_date") && "deleted_at" !in a && "deleted_at" !in b)
               || Agree(a, b, "data_source_url", "ballot_item_id")
             case Events => Agree(a, b, "event_date", "event_type")
             case Candidacies => Agree(a, b, "candidate_id", "election_id")
             case Persons => Agree(a, b, "election_id", "full_name")
  {
    var shared := KeysOf(kind, a) * KeysOf(kind, b);
    if k :| k in shared {
      assert k in KeysOf(kind, a) && k in KeysOf(kind, b);
    }
    if Agree(a, b, "name", "election_date") && "deleted_at" !in a && "deleted_at" !in b && kind == Elections {
      assert UniqueKey("uq_election_name_date", a["name"], a["election_date"]) in shared;
    }
    if Agree(a, b, "data_source_url", "ballot_item_id") && kind == Elections {
      assert UniqueKey("uq_election_feed_ballot_item", a["data_source_url"], a["ballot_item_id"]) in shared;
    }
    if Agree(a, b, "event_date", "event_type") && kind == Events {
      assert UniqueKey("uq_election_event_date_type", a["event_date"], a["event_type"]) in shared;
    }
    if Agree(a, b, "candidate_id", "election_id") && kind == Candidacies {
      assert UniqueKey("uq_candidacy_candidate_election", a["candidate_id"], a["election_id"]) in shared;
    }
    if Agree(a, b, "election_id", "full_name") && kind == Persons {
      assert UniqueKey("uq_candidate_election_name", a["election_id"], a["full_name"]) in shared;
    }
  }

  /** No other row has an index entry of this one. */
  predicate RowFits(kind: Kind, t: Table, id: Id)
    requires id in t
  {
    forall other :: other in t && other != id ==> KeysOf(kind, t[other]) * KeysOf(kind, t[id]) == {}
  }

  ghost predicate Unique(kind: Kind, t: Table) {
    forall id :: id in t ==> RowFits(kind, t, id)
  }

  /** The indexes are checked as each row is written. */
  predicate RowsFit(kind: Kind, s: Policy, t: Table, rs: seq<Record>)
    decreases rs
  {
    rs == [] ||
    (var t1 := UpsertOne(s(rs[0]), t, rs[0]); RowFits(kind, t1, rs[0].id) && RowsFit(kind, s, t1, rs[1..]))
  }

  lemma {:induction false} WriteKeepsUnique(kind: Kind, t: Table, t1: Table, id: Id)
    requires Unique(kind, t) && id in t1 && t1.Keys == t.Keys + {id}
    requires forall other :: other in t && other != id ==> t1[other] == t[other]
    ensures Unique(kind, t1) <==> RowFits(kind, t1, id)
  {
    hide KeysOf;
    if RowFits(kind, t1, id) {
      forall a, b | a in t1 && b in t1 && b != a ensures KeysOf(kind, t1[b]) * KeysOf(kind, t1[a]) == {} {
        if b == id {
          assert KeysOf(kind, t1[a]) * KeysOf(kind, t1[id]) == {};
        } else if a != id {
          assert RowFits(kind, t, a);
        }
      }
    }
  }

  lemma {:induction false} UpsertOthers(s: UpdateSet, t: Table, r: Record)
    ensures forall other :: other in t && other != r.id ==> UpsertOne(s, t, r)[other] == t[other]
  {
  }

  /** The rows of a file fit exactly when the unique indexes hold after each of its prefixes. */
  lemma {:induction false} FitIffPrefixesUnique(kind: Kind, s: Policy, t: Table, rs: seq<Record>)
    requires Unique(kind, t)
    ensures RowsFit(kind, s, t, rs) <==> forall i :: 0 <= i <= |rs| ==> Unique(kind, ApplyAll(s, t, rs[..i]))
    decreases rs
  {
    hide Unique, RowFits, UpsertOne;
    assert rs[..0] == [];
    if rs == [] {
      assert forall i :: 0 <= i <= |rs| ==> rs[..i] == [];
    } else {
      var t1 := UpsertOne(s(rs[0]), t, rs[0]);
      UpsertOthers(s(rs[0]), t, rs[0]);
      UpsertedKeys(s(rs[0]), t, rs[0]);
      WriteKeepsUnique(kind, t, t1, rs[0].id);
      PrefixesAfterFirst(s, t, rs);
      assert ApplyAll(s, t1, rs[1..][..0]) == t1;
      if Unique(kind, t1) {
        FitIffPrefixesUnique(kind, s, t1, rs[1..]);
        if forall i :: 0 <= i <= |rs| ==> Unique(kind, ApplyAll(s, t, rs[..i])) {
          forall i | 0 <= i <= |rs[1..]| ensures Unique(kind, ApplyAll(s, t1, rs[1..][..i])) {
            assert Unique(kind, ApplyAll(s, t, rs[..i + 1]));
          }
        }
        if RowsFit(kind, s, t1, rs[1..]) {
          forall i | 0 <= i <= |rs| ensures Unique(kind, ApplyAll(s, t, rs[..i])) {
            if i > 0 {
              assert Unique(kind, ApplyAll(s, t1, rs[1..][..i - 1]));
            }
          }
        }
      } else {
        assert ApplyAll(s, t, rs[..1]) == t1;
      }
    }
  }

  lemma {:induction false} PrefixesAfterFirst(s: Policy, t: Table, rs: seq<Record>)
    requires rs != []
    ensures forall i :: 0 <= i < |rs| ==>
              ApplyAll(s, t, rs[..i + 1]) == ApplyAll(s, UpsertOne(s(rs[0]), t, rs[0]), rs[1..][..i])
  {
    hide UpsertOne;
    forall i | 0 <= i < |rs|
      ensures ApplyAll(s, t, rs[..i + 1]) == ApplyAll(s, UpsertOne(s(rs[0]), t, rs[0]), rs[1..][..i])
    {
      assert rs[..i + 1][0] == rs[0] && rs[..i + 1][1..] == rs[1..][..i];
    }
  }

  /** So an accepted file leaves the indexes unique. */
  lemma {:induction false} FitKeepsUnique(kind: Kind, s: Policy, t: Table, rs: seq<Record>)
    requires Unique(kind, t) && RowsFit(kind, s, t, rs)
    ensures Unique(kind, ApplyAll(s, t, rs))
  {
    hide Unique, RowsFit, ApplyAll;
    FitIffPrefixesUnique(kind, s, t, rs);
    assert rs[..|rs|] == rs;
  }

  lemma {:induction false} RowsFitSplit(kind: Kind, s: Policy, t: Table, a: seq<Record>, b: seq<Record>)
    ensures RowsFit(kind, s, t, a + b) <==> RowsFit(kind, s, t, a) && RowsFit(kind, s, ApplyAll(s, t, a), b)
    decreases a
  {
    hide UpsertOne, RowFits;
    if a == [] {
      assert a + b == b;
    } else {
      assert (a + b)[0] == a[0] && (a + b)[1..] == a[1..] + b;
      UpsertedKeys(s(a[0]), t, a[0]);
      RowsFitSplit(kind, s, UpsertOne(s(a[0]), t, a[0]), a[1..], b);
    }
  }

  lemma {:induction false} RowsFitUnmoved(kind: Kind, s: Policy, t: Table, rs: seq<Record>)
    requires Unique(kind, t) && forall i :: 0 <= i < |rs| ==> UpsertOne(s(rs[i]), t, rs[i]) == t
    ensures RowsFit(kind, s, t, rs)
    decreases rs
  {
    hide UpsertOne;
    if rs != [] {
      UpsertedKeys(s(rs[0]), t, rs[0]);
      RowsFitUnmoved(kind, s, t, rs[1..]);
    }
  }

  lemma {:induction false} RowReapplied(s: Policy, t: Table, rs: seq<Record>, i: nat)
    requires DistinctIds(rs) && i < |rs|
    ensures UpsertOne(s(rs[i]), ApplyAll(s, t, rs), rs[i]) == ApplyAll(s, t, rs)
  {
    ApplyAllRow(s, t, rs, i);
    var r := rs[i];
    hide ApplyAll, Merge;
    MergeTwice(s(r), if r.id in t then t[r.id] else RowOf(r), RowOf(r));
  }

  /** A file that was accepted is accepted when it is imported again. */
  lemma {:induction false} ReimportAccepted(kind: Kind, s: Policy, t: Table, rs: seq<Record>)
    requires DistinctIds(rs) && Unique(kind, t) && RowsFit(kind, s, t, rs)
    ensures RowsFit(kind, s, ApplyAll(s, t, rs), rs)
  {
    FitKeepsUnique(kind, s, t, rs);
    hide Unique, RowsFit, ApplyAll, UpsertOne;
    forall i | 0 <= i < |rs| ensures UpsertOne(s(rs[i]), ApplyAll(s, t, rs), rs[i]) == ApplyAll(s, t, rs) {
      RowReapplied(s, t, rs, i);
    }
    RowsFitUnmoved(kind, s, ApplyAll(s, t, rs), rs);
  }

  function Named(name: Value): Row {
    map["name" := name, "election_date" := "2026-05-19"]
  }

  function Naming(id: Id, name: Value): Record {
    Record(id, map["name" := Some(name), "election_date" := Some("2026-05-19")])
  }

  function TwoNames(a: Value, b: Value): Table {
    map[1 := Named(a), 2 := Named(b)]
  }

  function Exchange(): seq<Record> {
    [Naming(1, "B"), Naming(2, "A")]
  }

  function NameKey(name: Value): UniqueKey {
    UniqueKey("uq_election_name_date", name, "2026-05-19")
  }

  lemma {:induction false} NamedKeys(name: Value)
    ensures KeysOf(Elections, Named(name)) == {NameKey(name)}
  {
  }

  lemma {:induction false} ExchangeColumns()
    ensures forall c :: c in {"name", "election_date"} ==>
              c in UpdateSetFor(Elections, AllKeys(Exchange())) && UpdateSetFor(Elections, AllKeys(Exchange()))[c] == Overwrite
  {
    var r := Exchange()[0];
    assert r in Exchange();
    assert "name" in r.cols && "election_date" in r.cols;
    assert "name" !in CURATED && "election_date" !in CURATED && "name" !in EXCLUDED && "election_date" !in EXCLUDED;
  }

  lemma {:induction false} RenamedRow(s: UpdateSet, t: Table, id: Id, name: Value)
    requires forall c :: c in {"name", "election_date"} ==> c in s && s[c] == Overwrite
    requires id in t && t[id].Keys == {"name", "election_date"}
    ensures UpsertOne(s, t, Naming(id, name)) == t[id := Named(name)]
  {
    assert RowOf(Naming(id, name)) == Named(name);
    assert Merge(s, t[id], Named(name)) == Named(name);
  }

  lemma {:induction false} TwoNamesUnique(a: Value, b: Value)
    requires a != b
    ensures Unique(Elections, TwoNames(a, b))
    ensures !RowFits(Elections, TwoNames(b, b), 1)
  {
    NamedKeys(a);
    NamedKeys(b);
    hide KeysOf, Named;
    var t := TwoNames(b, b);
    assert 2 in t && NameKey(b) in KeysOf(Elections, t[2]) * KeysOf(Elections, t[1]);
  }

  lemma {:induction false} TwoRows(kind: Kind, s: Policy, t: Table, r1: Record, r2: Record)
    ensures ApplyAll(s, t, [r1, r2]) == UpsertOne(s(r2), UpsertOne(s(r1), t, r1), r2)
    ensures RowsFit(kind, s, t, [r1, r2]) ==> RowFits(kind, UpsertOne(s(r1), t, r1), r1.id)
  {
    hide UpsertOne, RowFits;
    UpsertedKeys(s(r1), t, r1);
    assert [r1, r2][1..] == [r2] && [r2][1..] == [];
    var t1 := UpsertOne(s(r1), t, r1);
    assert ApplyAll(s, t, [r1, r2]) == ApplyAll(s, t1, [r2]);
    assert ApplyAll(s, t1, [r2]) == ApplyAll(s, UpsertOne(s(r2), t1, r2), []);
  }

  lemma {:induction false} ExchangeSteps(s: Policy)
    requires s == FilePolicy(Elections, Exchange())
    ensures UpsertOne(s(Naming(1, "B")), TwoNames("A", "B"), Naming(1, "B")) == TwoNames("B", "B")
    ensures UpsertOne(s(Naming(2, "A")), TwoNames("B", "B"), Naming(2, "A")) == TwoNames("B", "A")
  {
    ExchangeColumns();
    hide UpdateSetFor, UpsertOne;
    RenamedRow(s(Naming(1, "B")), TwoNames("A", "B"), 1, "B");
    RenamedRow(s(Naming(2, "A")), TwoNames("B", "B"), 2, "A");
    hide Named;
    assert TwoNames("A", "B")[1 := Named("B")] == TwoNames("B", "B");
    assert TwoNames("B", "B")[2 := Named("A")] == TwoNames("B", "A");
  }

  lemma {:induction false} ExchangeIds()
    ensures DistinctIds(Exchange()) && Naming(1, "B").id == 1
  {
  }

  /** A file that exchanges the names of two elections is rejected although its end state would be unique. */
  lemma {:induction false} ExchangeRejected()
    ensures var s, t := FilePolicy(Elections, Exchange()), TwoNames("A", "B");
      && DistinctIds(Exchange()) && Unique(Elections, t) && !RowsFit(Elections, s, t, Exchange())
      && ApplyAll(s, t, Exchange()) == TwoNames("B", "A") && Unique(Elections, TwoNames("B", "A"))
  {
    hide UpdateSetFor, FilePolicy, Unique, RowFits, UpsertOne, Named, RowsFit, ApplyAll, DistinctIds, Naming, TwoNames;
    var s := FilePolicy(Elections, Exchange());
    ExchangeIds();
    ExchangeSteps(s);
    TwoNamesUnique("A", "B");
    TwoNamesUnique("B", "A");
    TwoRows(Elections, s, TwoNames("A", "B"), Naming(1, "B"), Naming(2, "A"));
  }

  // ---------------------------------------------------------------- the service

  /** `dict.fromkeys(all_keys) | r`. */
  function Normalized(r: Record, keys: set<Col>): Record {
    r.(cols := map c | c in keys + r.cols.Keys :: if c in r.cols then r.cols[c] else None)
  }

  function NormalizedAll(rs: seq<Record>, keys: set<Col>): (n: seq<Record>)
    ensures |n| == |rs|
  {
    seq(|rs|, i requires 0 <= i < |rs| => Normalized(rs[i], keys))
  }

  /** Padding records with None keys changes neither the rows they insert nor the ids they touch. */
  lemma {:induction false} NormalizedSameEffect(kind: Kind, file: seq<Record>, t: Table, rs: seq<Record>, keys: set<Col>)
    ensures ApplyAll(FilePolicy(kind, file), t, NormalizedAll(rs, keys)) == ApplyAll(FilePolicy(kind, file), t, rs)
    decreases rs
  {
    if rs != [] {
      var n := NormalizedAll(rs, keys);
      assert RowOf(n[0]) == RowOf(rs[0]);
      assert n[1..] == NormalizedAll(rs[1..], keys);
      NormalizedSameEffect(kind, file, UpsertOne(FilePolicy(kind, file)(rs[0]), t, rs[0]), rs[1..], keys);
    }
  }

  lemma {:induction false} NormalizedSameFit(kind: Kind, file: seq<Record>, t: Table, rs: seq<Record>, keys: set<Col>)
    ensures RowsFit(kind, FilePolicy(kind, file), t, NormalizedAll(rs, keys)) <==> RowsFit(kind, FilePolicy(kind, file), t, rs)
    decreases rs
  {
    if rs != [] {
      var n := NormalizedAll(rs, keys);
      assert RowOf(n[0]) == RowOf(rs[0]);
      assert n[1..] == NormalizedAll(rs[1..], keys);
      NormalizedSameFit(kind, file, UpsertOne(FilePolicy(kind, file)(rs[0]), t, rs[0]), rs[1..], keys);
    }
  }

  lemma {:induction false} NormalizedSameIds(rs: seq<Record>, keys: set<Col>)
    ensures StatementAccepted(IdsOf(NormalizedAll(rs, keys))) <==> DistinctIds(rs)
  {
    AcceptedIffDistinct(IdsOf(NormalizedAll(rs, keys)));
    var ids := IdsOf(NormalizedAll(rs, keys));
    assert forall i :: 0 <= i < |rs| ==> ids[i] == rs[i].id;
  }

  /** Every statement of the file touches each row at most once. */
  ghost predicate StatementsDistinct(rs: seq<Record>) {
    if |rs| <= SUB_BATCH then DistinctIds(rs)
    else DistinctIds(rs[..SUB_BATCH]) && StatementsDistinct(rs[SUB_BATCH..])
  }

  lemma {:induction false} ApplyNothing(s: Policy, t: Table)
    ensures ApplyAll(s, t, []) == t
  {
  }

  lemma {:induction false} FitsNothing(kind: Kind, s: Policy, t: Table)
    ensures RowsFit(kind, s, t, [])
  {
  }

  lemma {:induction false} FirstStatement(rs: seq<Record>, n: nat)
    requires n == if |rs| < SUB_BATCH then |rs| else SUB_BATCH
    ensures StatementsDistinct(rs) <==> DistinctIds(rs[..n]) && StatementsDistinct(rs[n..])
  {
    assert |rs| <= SUB_BATCH ==> rs[..n] == rs && rs[n..] == [];
  }

  /** Every statement lists distinct ids exactly when no two records of one block of 500 have the same id. */
  lemma {:induction false} DistinctByBlocks(rs: seq<Record>)
    ensures StatementsDistinct(rs) <==> BlocksDistinct(rs)
    decreases |rs|
  {
    if |rs| > 500 {
      DistinctByBlocks(rs[500..]);
      IdBlocks(rs);
    } else if |rs| == 500 {
      assert forall i :: 0 <= i < 500 ==> i / 500 == 0;
    } else {
      assert forall i :: 0 <= i < |rs| ==> i / 500 == 0;
    }
  }

  ghost predicate BlocksDistinct(rs: seq<Record>) {
    forall i, j :: 0 <= i < j < |rs| && i / 500 == j / 500 ==> rs[i].id != rs[j].id
  }

  lemma {:induction false} IdBlocks(rs: seq<Record>)
    requires |rs| > 500
    ensures BlocksDistinct(rs) <==> DistinctIds(rs[..500]) && BlocksDistinct(rs[500..])
  {
    var first, rest := rs[..500], rs[500..];
    if BlocksDistinct(rs) {
      forall i, j | 0 <= i < j < 500 ensures first[i].id != first[j].id {
        assert first[i] == rs[i] && first[j] == rs[j] && i / 500 == 0 == j / 500;
      }
      forall i, j | 0 <= i < j < |rest| && i / 500 == j / 500 ensures rest[i].id != rest[j].id {
        assert rest[i] == rs[500 + i] && rest[j] == rs[500 + j];
        assert (500 + i) / 500 == i / 500 + 1 && (500 + j) / 500 == j / 500 + 1;
      }
    }
    if DistinctIds(first) && BlocksDistinct(rest) {
      forall i, j | 0 <= i < j < |rs| && i / 500 == j / 500 ensures rs[i].id != rs[j].id {
        if j < 500 {
          assert first[i] == rs[i] && first[j] == rs[j];
        } else {
          assert i >= 500;
          assert rest[i - 500] == rs[i] && rest[j - 500] == rs[j];
          assert (i - 500) / 500 == i / 500 - 1 && (j - 500) / 500 == j / 500 - 1;
        }
      }
    }
  }

  lemma {:induction false} DistinctFileStatements(rs: seq<Record>)
    requires DistinctIds(rs)
    ensures StatementsDistinct(rs)
  {
    if |rs| > SUB_BATCH {
      DistinctFileStatements(rs[SUB_BATCH..]);
    }
  }

  datatype Summary = Summary(inserted: nat, updated: nat)

  class UpsertStore {
    var rows: Table

    constructor (t: Table)
      ensures rows == t
    {
      rows := t;
    }

    /** One INSERT ... ON CONFLICT (id) DO UPDATE statement; false when PostgreSQL rejects it. */
    method Execute(kind: Kind, s: Policy, batch: seq<Record>) returns (ok: bool)
      modifies this
      ensures ok == (StatementAccepted(IdsOf(batch)) && RowsFit(kind, s, old(rows), batch))
      ensures rows == if ok then ApplyAll(s, old(rows), batch) else old(rows)
    {
      ok := StatementAccepted(IdsOf(batch)) && RowsFit(kind, s, rows, batch);
      if ok {
        rows := ApplyAll(s, rows, batch);
      }
    }

    method CollectKeys(records: seq<Record>) returns (keys: set<Col>)
      ensures keys == AllKeys(records)
    {
      keys := {};
      for i := 0 to |records|
        invariant keys == AllKeys(records[..i])
      {
        assert records[..i + 1] == records[..i] + [records[i]];
        keys := keys + records[i].cols.Keys;
      }
      assert records[..|records|] == records;
    }

    /** One sub-batch of the loop: pad, execute, count inserted and updated rows. */
    method UpsertSubBatch(kind: Kind, file: seq<Record>, keys: set<Col>, batch: seq<Record>) returns (ok: bool, inserted: nat, updated: nat)
      requires Unique(kind, rows)
      modifies this
      ensures ok <==> DistinctIds(batch) && RowsFit(kind, FilePolicy(kind, file), old(rows), batch)
      ensures Unique(kind, rows)
      ensures rows == if ok then ApplyAll(FilePolicy(kind, file), old(rows), batch) else old(rows)
      ensures ok ==> inserted == |rows| - |old(rows)| && inserted + updated == |batch|
    {
      hide UpdateSetFor, StatementAccepted, ApplyAll, Unique, RowsFit, FilePolicy;
      NormalizedSameIds(batch, keys);
      NormalizedSameFit(kind, file, rows, batch, keys);
      NormalizedSameEffect(kind, file, rows, batch, keys);
      DryRunAgrees(FilePolicy(kind, file), rows, batch);
      var size := |rows|;
      ok := Execute(kind, FilePolicy(kind, file), NormalizedAll(batch, keys));
      inserted, updated := 0, 0;
      if ok {
        FitKeepsUnique(kind, FilePolicy(kind, file), old(rows), batch);
        inserted := |rows| - size;
        updated := |batch| - inserted;
      }
    }

    /** The sub-batch loop; a rejected statement undoes the whole transaction. */
    method UpsertStatements(kind: Kind, records: seq<Record>, keys: set<Col>) returns (r: Option<Summary>)
      requires Unique(kind, rows)
      modifies this
      ensures r.None? ==> rows == old(rows)
      ensures r.Some? <==> StatementsDistinct(records) && RowsFit(kind, FilePolicy(kind, records), old(rows), records)
      ensures Unique(kind, rows)
      ensures r.Some? ==>
                && rows == ApplyAll(FilePolicy(kind, records), old(rows), records)
                && r.value.inserted == |rows| - |old(rows)|
                && r.value.inserted + r.value.updated == |records|
    {
      hide UpdateSetFor, FilePolicy, ApplyAll, Unique, RowsFit;
      var before := rows;
      var total, inserted, updated := 0, 0, 0;
      assert records[..0] == [] && records[0..] == records;
      ApplyNothing(FilePolicy(kind, records), rows);
      FitsNothing(kind, FilePolicy(kind, records), rows);
      while total < |records|
        invariant total <= |records|
        invariant rows == ApplyAll(FilePolicy(kind, records), before, records[..total])
        invariant inserted == |rows| - |before| && inserted + updated == total
        invariant StatementsDistinct(records) <==> StatementsDistinct(records[total..])
        invariant RowsFit(kind, FilePolicy(kind, records), before, records[..total]) && Unique(kind, rows)
      {
        var n := if |records| - total < SUB_BATCH then |records| - total else SUB_BATCH;
        var batch := records[total..total + n];
        FirstStatement(records[total..], n);
        assert records[total..][..n] == batch && records[total..][n..] == records[total + n..];
        assert records[..total] + batch == records[..total + n];
        RowsFitSplit(kind, FilePolicy(kind, records), before, records[..total], batch);
        RowsFitSplit(kind, FilePolicy(kind, records), before, records[..total + n], records[total + n..]);
        assert records[..total + n] + records[total + n..] == records;
        var ok, i, u := UpsertSubBatch(kind, records, keys, batch);
        if !ok {
          rows := before;
          return None;
        }
        ApplyAllSplit(FilePolicy(kind, records), before, records[..total], batch);
        inserted, updated := inserted + i, updated + u;
        total := total + n;
      }
      assert records[..total] == records && records[total..] == [];
      r := Some(Summary(inserted, updated));
    }

    /**
     `_upsert_*_batch` inside its transaction. Succeeds exactly when there is something to
     update, no statement lists an id twice and every row fits the other unique indexes as it
     is written, and then has applied the records in order.
     A person file without updatable columns is skipped as a whole.
     */
    method UpsertBatch(kind: Kind, records: seq<Record>) returns (r: Option<Summary>)
      requires Unique(kind, rows)
      modifies this
      ensures r.None? ==> rows == old(rows)
      ensures r.Some? <==>
                records == [] ||
                (if UpdateSetFor(kind, AllKeys(records)) == map[] then kind == Persons
                 else StatementsDistinct(records) && RowsFit(kind, FilePolicy(kind, records), old(rows), records))
      ensures Unique(kind, rows)
      ensures r.Some? ==> rows == WrittenFile(kind, old(rows), records)
      ensures r.Some? && UpdateSetFor(kind, AllKeys(records)) != map[] ==>
                && rows == ApplyAll(FilePolicy(kind, records), old(rows), records)
                && r.value.inserted == Inserted(FilePolicy(kind, records), old(rows), records)
                && r.value.inserted + r.value.updated == |records|
      ensures r.Some? && UpdateSetFor(kind, AllKeys(records)) == map[] ==> rows == old(rows) && r.value == Summary(0, 0)
    {
      hide UpdateSetFor, FilePolicy, Unique, RowsFit;
      if records == [] {
        return Some(Summary(0, 0));
      }
      var keys := CollectKeys(records);
      if UpdateSetFor(kind, keys) == map[] {
        return if kind == Persons then Some(Summary(0, 0)) else None;
      }
      r := UpsertStatements(kind, records, keys);
    }

    /** The dry run's counting pass. */
    method DryRun(records: seq<Record>) returns (r: Summary)
      ensures r.inserted == WouldInsert(rows, records) && r.inserted + r.updated == |records|
    {
      var wouldInsert := 0;
      for i := 0 to |records|
        invariant wouldInsert + WouldInsert(rows, records[i..]) == WouldInsert(rows, records)
        invariant wouldInsert <= i
      {
        assert records[i..][0] == records[i] && records[i..][1..] == records[i + 1..];
        if records[i].id !in rows {
          wouldInsert := wouldInsert + 1;
        }
      }
      r := Summary(wouldInsert, |records| - wouldInsert);
    }
  }
}