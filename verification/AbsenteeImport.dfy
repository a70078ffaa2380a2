/**
 The absentee ballot import, the second user of the chunk checkpoint.
 `src/voter_api/services/absentee_service.py`, lines 88-243.

 The unique index is on voter, application date and COALESCE(ballot_style, ''). A null date
 never conflicts, so undated rows are kept beside the keyed ones. Row ids, to which nothing
 refers, are left out.
 */
module AbsenteeImport {
  import opened Prelude
  import opened ImportJobs
  import U = Upserts

  type Date = int

  datatype Record = Record(voter: string, date: Option<Date>, style: Option<string>, cols: U.Row)

  /** A parsed line: a record, or None for a parse error. */
  type Line = Option<Record>

  datatype Key = Key(voter: string, date: Date, style: string)

  /** On conflict every column outside the key is overwritten; the stored style stays. */
  datatype Stored = Stored(style: Option<string>, cols: U.Row)

  datatype Table = Table(dated: map<Key, Stored>, undated: seq<Record>) {
    function Size(): nat {
      |dated| + |undated|
    }
  }

  const SUB_BATCH := 400

  function KeyOf(r: Record): Option<Key> {
    if r.date.None? then None else Some(Key(r.voter, r.date.value, r.style.GetOr("")))
  }

  /** Two records conflict exactly when both are dated and voter, date and ballot style, "" for none, are the same. */
  lemma {:induction false} ConflictKeys(r: Record, s: Record)
    ensures KeyOf(r).Some? <==> r.date.Some?
    ensures KeyOf(r).Some? ==>
              (KeyOf(r) == KeyOf(s)
               <==> s.date == r.date && s.voter == r.voter
                    && (s.style == r.style || (s.style in {None, Some("")} && r.style in {None, Some("")})))
  {
  }

  function UpsertOne(t: Table, r: Record): Table {
    match KeyOf(r)
    case None => t.(undated := t.undated + [r])
    case Some(k) => t.(dated := t.dated[k := Stored(if k in t.dated then t.dated[k].style else r.style, r.cols)])
  }

  function UpsertAll(t: Table, rs: seq<Record>): Table {
    if rs == [] then t else UpsertOne(UpsertAll(t, rs[..|rs| - 1]), rs[|rs| - 1])
  }

  /** The conflict keys of one statement. */
  function DatedKeys(rs: seq<Record>): seq<Key> {
    if rs == [] then []
    else DatedKeys(rs[..|rs| - 1]) + match KeyOf(rs[|rs| - 1]) case None => [] case Some(k) => [k]
  }

  /** The records of the lines that parse. */
  function ValidRecords(lines: seq<Line>): (rs: seq<Record>)
    ensures |rs| <= |lines|
  {
    if lines == [] then []
    else ValidRecords(lines[..|lines| - 1]) + match lines[|lines| - 1] case None => [] case Some(r) => [r]
  }

  /** Every statement of the chunk is accepted: no sub-batch touches a row twice. */
  predicate ChunkAccepted(rs: seq<Record>)
    decreases |rs|
  {
    rs == [] || (StatementAccepted(DatedKeys(Prelude.Take(rs, SUB_BATCH))) && (|rs| > SUB_BATCH ==> ChunkAccepted(rs[SUB_BATCH..])))
  }

  function ImportChunks(t: Table, chunks: seq<seq<Line>>): Table {
    if chunks == [] then t else UpsertAll(ImportChunks(t, chunks[..|chunks| - 1]), ValidRecords(chunks[|chunks| - 1]))
  }

  lemma {:induction false} UpsertAllSplit(t: Table, a: seq<Record>, b: seq<Record>)
    ensures UpsertAll(t, a + b) == UpsertAll(UpsertAll(t, a), b)
  {
    if b == [] {
      assert a + b == a;
    } else {
      var k := |b| - 1;
      UpsertAllSplit(t, a, b[..k]);
      assert (a + b)[..|a| + k] == a + b[..k];
    }
  }

  lemma {:induction false} UpsertAllGrows(t: Table, rs: seq<Record>)
    ensures t.Size() <= UpsertAll(t, rs).Size() <= t.Size() + |rs|
  {
    if rs != [] {
      UpsertAllGrows(t, rs[..|rs| - 1]);
    }
  }

  /** Accepting a chunk, one sub-batch at a time. */
  lemma {:induction false} ChunkAcceptedStep(rs: seq<Record>, i: nat, n: nat)
    requires i < |rs| && n == if |rs| - i < SUB_BATCH then |rs| - i else SUB_BATCH
    ensures ChunkAccepted(rs[i..]) <==> StatementAccepted(DatedKeys(rs[i..i + n])) && ChunkAccepted(rs[i + n..])
  {
    hide StatementAccepted;
    assert rs[i..i + n] == Prelude.Take(rs[i..], SUB_BATCH) && rs[i..][n..] == rs[i + n..];
  }

  lemma {:induction false} DatedKeysMembers(rs: seq<Record>, k: Key)
    ensures k in DatedKeys(rs) <==> exists r :: r in rs && KeyOf(r) == Some(k)
  {
    if rs != [] {
      var init, last := rs[..|rs| - 1], rs[|rs| - 1];
      DatedKeysMembers(init, k);
      assert forall r :: r in rs <==> r in init || r == last;
    }
  }

  /** No two of the records conflict. */
  ghost predicate NoConflict(rs: seq<Record>) {
    forall i, j :: 0 <= i < j < |rs| && KeyOf(rs[i]).Some? ==> KeyOf(rs[i]) != KeyOf(rs[j])
  }

  lemma {:induction false} DatedKeysDistinct(rs: seq<Record>)
    ensures Distinct(DatedKeys(rs)) <==> NoConflict(rs)
  {
    if rs != [] {
      var n := |rs| - 1;
      var init, last := rs[..n], rs[n];
      DatedKeysDistinct(init);
      DatedKeysLast(rs);
      if KeyOf(last).Some? {
        DatedKeysMembers(init, KeyOf(last).value);
        DistinctSnoc(DatedKeys(init), KeyOf(last).value);
      }
      assert DatedKeys(init) + [] == DatedKeys(init);
      hide DatedKeys;
      NoConflictSnoc(init, last);
      assert rs == init + [last];
    }
  }

  lemma {:induction false} DatedKeysLast(rs: seq<Record>)
    requires rs != []
    ensures DatedKeys(rs) == DatedKeys(rs[..|rs| - 1]) + match KeyOf(rs[|rs| - 1]) case None => [] case Some(k) => [k]
  {
  }

  lemma {:induction false} DistinctSnoc(keys: seq<Key>, k: Key)
    ensures Distinct(keys + [k]) <==> Distinct(keys) && k !in keys
  {
    var all := keys + [k];
    if Distinct(all) {
      forall i, j | 0 <= i < j < |keys| ensures keys[i] != keys[j] {
        assert all[i] == keys[i] && all[j] == keys[j];
      }
      forall i | 0 <= i < |keys| ensures keys[i] != k {
        assert all[i] == keys[i] && all[|keys|] == k;
      }
    }
  }

  lemma {:induction false} NoConflictSnoc(init: seq<Record>, last: Record)
    ensures NoConflict(init + [last]) <==> NoConflict(init) && (KeyOf(last).Some? ==> forall r :: r in init ==> KeyOf(r) != KeyOf(last))
  {
    hide KeyOf;
    var rs := init + [last];
    if NoConflict(rs) {
      forall i, j | 0 <= i < j < |init| && KeyOf(init[i]).Some? ensures KeyOf(init[i]) != KeyOf(init[j]) {
        assert rs[i] == init[i] && rs[j] == init[j];
      }
      forall r | r in init && KeyOf(last).Some? ensures KeyOf(r) != KeyOf(last) {
        var i :| 0 <= i < |init| && init[i] == r;
        assert rs[i] == r && rs[|init|] == last;
      }
    } else {
      var i, j :| 0 <= i < j < |rs| && KeyOf(rs[i]).Some? && KeyOf(rs[i]) == KeyOf(rs[j]);
      assert rs[i] == init[i] && init[i] in init;
      assert j < |init| ==> rs[j] == init[j];
    }
  }

  /** A chunk is accepted exactly when no two records of one block of 400 conflict. */
  lemma {:induction false} AcceptedByBlocks(rs: seq<Record>)
    ensures ChunkAccepted(rs) <==> NoBlockConflict(rs)
    decreases |rs|
  {
    hide KeyOf, DatedKeys, StatementAccepted, NoConflict, NoBlockConflict;
    var n := if |rs| < 400 then |rs| else 400;
    var first, rest := rs[..n], rs[n..];
    if rs != [] {
      ChunkAcceptedStep(rs, 0, n);
      assert rs[0..] == rs && rs[0..0 + n] == first && rs[0 + n..] == rest;
      AcceptedIffDistinct(DatedKeys(first));
      DatedKeysDistinct(first);
      AcceptedByBlocks(rest);
      Blocks(rs, n);
    } else {
      NothingConflicts();
    }
  }

  lemma {:induction false} NothingConflicts()
    ensures NoBlockConflict([])
  {
  }

  /** The blocks of a chunk are its first block and those of the rest. */
  ghost predicate NoBlockConflict(rs: seq<Record>) {
    forall i, j :: 0 <= i < j < |rs| && i / 400 == j / 400 && KeyOf(rs[i]).Some? ==> KeyOf(rs[i]) != KeyOf(rs[j])
  }

  lemma {:induction false} Blocks(rs: seq<Record>, n: nat)
    requires n == if |rs| < 400 then |rs| else 400
    ensures NoBlockConflict(rs) <==> NoConflict(rs[..n]) && NoBlockConflict(rs[n..])
  {
    hide KeyOf;
    var first, rest := rs[..n], rs[n..];
    if NoBlockConflict(rs) {
      forall i, j | 0 <= i < j < |first| && KeyOf(first[i]).Some? ensures KeyOf(first[i]) != KeyOf(first[j]) {
        assert first[i] == rs[i] && first[j] == rs[j] && i / 400 == 0 == j / 400;
      }
      forall i, j | 0 <= i < j < |rest| && i / 400 == j / 400 && KeyOf(rest[i]).Some? ensures KeyOf(rest[i]) != KeyOf(rest[j]) {
        assert rest[i] == rs[n + i] && rest[j] == rs[n + j];
        assert n == 400 && (n + i) / 400 == i / 400 + 1 && (n + j) / 400 == j / 400 + 1;
      }
    }
    if NoConflict(first) && NoBlockConflict(rest) {
      forall i, j | 0 <= i < j < |rs| && i / 400 == j / 400 && KeyOf(rs[i]).Some? ensures KeyOf(rs[i]) != KeyOf(rs[j]) {
        if j < n {
          assert first[i] == rs[i] && first[j] == rs[j];
        } else {
          assert n == 400 && i >= 400;
          assert rest[i - n] == rs[i] && rest[j - n] == rs[j];
          assert (i - n) / 400 == i / 400 - 1 && (j - n) / 400 == j / 400 - 1;
        }
      }
    }
  }

  lemma {:induction false} NothingToUpsert(t: Table)
    ensures UpsertAll(t, []) == t && ChunkAccepted([])
  {
  }

  // ---------------------------------------------------------------- what an import leaves

  function LastCols(rs: seq<Record>, k: Key): Option<U.Row> {
    if rs == [] then None
    else if KeyOf(rs[|rs| - 1]) == Some(k) then Some(rs[|rs| - 1].cols)
    else LastCols(rs[..|rs| - 1], k)
  }

  /** The ballot style of the first record of the key. */
  function FirstStyle(rs: seq<Record>, k: Key): Option<string> {
    if rs == [] then None
    else if LastCols(rs[..|rs| - 1], k).None? && KeyOf(rs[|rs| - 1]) == Some(k) then rs[|rs| - 1].style
    else FirstStyle(rs[..|rs| - 1], k)
  }

  /** The same, read from the front: no earlier record has the key. */
  lemma {:induction false} FirstStyleIsFirst(rs: seq<Record>, k: Key, i: nat)
    requires i < |rs| && KeyOf(rs[i]) == Some(k) && forall j :: 0 <= j < i ==> KeyOf(rs[j]) != Some(k)
    ensures FirstStyle(rs, k) == rs[i].style
  {
    var n := |rs| - 1;
    if i < n {
      FirstStyleIsFirst(rs[..n], k, i);
      KeyHasCols(rs[..n], k, i);
    } else {
      NoKeyNoCols(rs[..n], k);
    }
  }

  /** And the columns are those of the last record of the key. */
  lemma {:induction false} LastColsIsLast(rs: seq<Record>, k: Key, i: nat)
    requires i < |rs| && KeyOf(rs[i]) == Some(k) && forall j :: i < j < |rs| ==> KeyOf(rs[j]) != Some(k)
    ensures LastCols(rs, k) == Some(rs[i].cols)
  {
    if i < |rs| - 1 {
      LastColsIsLast(rs[..|rs| - 1], k, i);
    }
  }

  lemma {:induction false} KeyHasCols(rs: seq<Record>, k: Key, i: nat)
    requires i < |rs| && KeyOf(rs[i]) == Some(k)
    ensures LastCols(rs, k).Some?
  {
    if i < |rs| - 1 {
      KeyHasCols(rs[..|rs| - 1], k, i);
    }
  }

  lemma {:induction false} NoKeyNoCols(rs: seq<Record>, k: Key)
    requires forall j :: 0 <= j < |rs| ==> KeyOf(rs[j]) != Some(k)
    ensures LastCols(rs, k).None?
  {
    if rs != [] {
      NoKeyNoCols(rs[..|rs| - 1], k);
    }
  }

  function Undated(rs: seq<Record>): seq<Record> {
    if rs == [] then [] else Undated(rs[..|rs| - 1]) + if rs[|rs| - 1].date.None? then [rs[|rs| - 1]] else []
  }

  /** Each key holds the last record's columns and its first style; every undated record is one more row. */
  lemma {:induction false} UpsertAllLeaves(t: Table, rs: seq<Record>, k: Key)
    ensures var after := UpsertAll(t, rs);
      && (k in after.dated <==> k in t.dated || LastCols(rs, k).Some?)
      && (LastCols(rs, k).Some? ==> k in after.dated && after.dated[k].cols == LastCols(rs, k).value)
      && (LastCols(rs, k).None? && k in t.dated ==> after.dated[k] == t.dated[k])
      && (k in t.dated ==> after.dated[k].style == t.dated[k].style)
      && (k !in t.dated && LastCols(rs, k).Some? ==> after.dated[k].style == FirstStyle(rs, k))
      && after.undated == t.undated + Undated(rs)
  {
    if rs != [] {
      UpsertAllLeaves(t, rs[..|rs| - 1], k);
    }
  }

  /** Importing the same records again changes no dated row but repeats every undated one. */
  lemma {:induction false} ReimportRepeatsUndated(t: Table, rs: seq<Record>)
    ensures var once := UpsertAll(t, rs); var twice := UpsertAll(once, rs);
      twice.dated == once.dated && twice.undated == once.undated + Undated(rs)
  {
    var once := UpsertAll(t, rs);
    var twice := UpsertAll(once, rs);
    forall k ensures (k in twice.dated <==> k in once.dated) && (k in once.dated ==> twice.dated[k] == once.dated[k]) {
      UpsertAllLeaves(t, rs, k);
      UpsertAllLeaves(once, rs, k);
    }
    UpsertAllLeaves(once, rs, Key("", 0, ""));
  }

  // ---------------------------------------------------------------- the service

  datatype Store = Store(table: Table, job: Job)

  function LineCount(chunks: seq<seq<Line>>): nat {
    if chunks == [] then 0 else LineCount(chunks[..|chunks| - 1]) + |chunks[|chunks| - 1]|
  }

  function ErrorCount(chunks: seq<seq<Line>>): nat {
    if chunks == [] then 0
    else ErrorCount(chunks[..|chunks| - 1]) + |chunks[|chunks| - 1]| - |ValidRecords(chunks[|chunks| - 1])|
  }

  lemma {:induction false} OneMoreChunk(chunks: seq<seq<Line>>, idx: nat)
    requires idx < |chunks|
    ensures LineCount(chunks[..idx + 1]) == LineCount(chunks[..idx]) + |chunks[idx]|
    ensures ErrorCount(chunks[..idx + 1]) == ErrorCount(chunks[..idx]) + |chunks[idx]| - |ValidRecords(chunks[idx])|
  {
    hide ValidRecords;
    assert chunks[..idx + 1][..idx] == chunks[..idx];
  }

  class AbsenteeService {
    const chunks: seq<seq<Line>>
    var committed: Store
    var working: Store
    var ticks: nat
    ghost const base: Table

    /** What is committed is exactly the straight-through import up to the checkpoint. */
    ghost predicate Sound()
      reads this
    {
      committed.job.offset <= |chunks| && committed.table == ImportChunks(base, chunks[..committed.job.offset])
    }

    /** The chunks still to come each fit their statements. */
    ghost predicate RestAccepted()
      reads this
    {
      forall i :: committed.job.offset <= i < |chunks| ==> ChunkAccepted(ValidRecords(chunks[i]))
    }

    constructor (chunks: seq<seq<Line>>, t: Table)
      ensures Sound() && this.chunks == chunks && base == t && committed == Store(t, Job(Pending, 0, None))
    {
      this.chunks, base, ticks := chunks, t, 0;
      committed, working := Store(t, Job(Pending, 0, None)), Store(t, Job(Pending, 0, None));
    }

    method Await(schedule: Schedule) returns (f: Fault)
      modifies `ticks
      ensures f == schedule(old(ticks)) && ticks == old(ticks) + 1
    {
      f := schedule(ticks);
      ticks := ticks + 1;
    }

    method Commit(schedule: Schedule) returns (f: Fault)
      modifies `ticks, `committed
      ensures f == schedule(old(ticks)) && ticks == old(ticks) + 1
      ensures committed == if f.Proceed? || f.applied then working else old(committed)
    {
      f := schedule(ticks);
      ticks := ticks + 1;
      if f.Proceed? || f.applied {
        committed := working;
      }
    }

    /** `_upsert_absentee_batch`. */
    method UpsertBatch(rs: seq<Record>, schedule: Schedule) returns (exit: Exit, inserted: nat, updated: nat)
      modifies `ticks, `working
      ensures exit.Done? ==>
                && working == old(working).(table := UpsertAll(old(working.table), rs))
                && inserted + updated == |rs| && inserted == working.table.Size() - old(working.table.Size())
      ensures exit.Done? ==> ChunkAccepted(rs)
      ensures NoFault(schedule) && ChunkAccepted(rs) ==> exit.Done?
      ensures old(ticks) <= ticks
    {
      hide UpsertAll, ChunkAccepted, NoFault, DatedKeys, StatementAccepted;
      NoFaultProceeds(schedule);
      NothingToUpsert(working.table);
      inserted, updated := 0, 0;
      var i := 0;
      assert rs[..0] == [] && rs[0..] == rs;
      while i < |rs|
        invariant 0 <= i <= |rs| && old(ticks) <= ticks
        invariant working == old(working).(table := UpsertAll(old(working.table), rs[..i]))
        invariant inserted + updated == i && inserted == working.table.Size() - old(working.table.Size())
        invariant ChunkAccepted(rs) <==> ChunkAccepted(rs[i..])
      {
        var n := if |rs| - i < SUB_BATCH then |rs| - i else SUB_BATCH;
        var batch := rs[i..i + n];
        ChunkAcceptedStep(rs, i, n);
        var f := Await(schedule);
        if !f.Proceed? { exit := ExitOf(f); return; }
        if !StatementAccepted(DatedKeys(batch)) { exit := Threw; return; }
        assert rs[..i] + batch == rs[..i + n];
        UpsertAllSplit(old(working.table), rs[..i], batch);
        UpsertAllGrows(working.table, batch);
        var was := working.table;
        working := working.(table := UpsertAll(was, batch));
        var k := working.table.Size() - was.Size();
        inserted, updated, i := inserted + k, updated + n - k, i + n;
      }
      assert rs[..i] == rs && rs[i..] == [];
      exit := Done;
    }

    /** The record loop: parse errors are counted, the others collected. */
    method Collect(lines: seq<Line>) returns (rs: seq<Record>, errors: nat)
      ensures rs == ValidRecords(lines) && errors == |lines| - |rs|
    {
      rs, errors := [], 0;
      for i := 0 to |lines|
        invariant rs == ValidRecords(lines[..i]) && errors == i - |rs|
      {
        assert lines[..i + 1][..i] == lines[..i];
        if lines[i].Some? {
          rs := rs + [lines[i].value];
        } else {
          errors := errors + 1;
        }
      }
      assert lines[..|lines|] == lines;
    }

    /** One chunk with its checkpoint, in one transaction. */
    method ImportNext(schedule: Schedule) returns (exit: Exit, errors: nat, inserted: nat, updated: nat)
      requires Sound() && working == committed && committed.job.offset < |chunks|
      modifies this
      ensures Sound() && old(committed.job.offset) <= committed.job.offset <= old(committed.job.offset) + 1
      ensures committed.job == old(committed.job).(offset := committed.job.offset)
      ensures committed.job.offset > old(committed.job.offset) ==> ChunkAccepted(ValidRecords(chunks[old(committed.job.offset)]))
      ensures exit.Done? ==> working == committed && committed.job.offset == old(committed.job.offset) + 1
      ensures exit.Done? ==> var lines := chunks[old(committed.job.offset)];
                errors == |lines| - |ValidRecords(lines)| && inserted + updated == |ValidRecords(lines)|
                && inserted == committed.table.Size() - old(committed.table.Size())
      ensures NoFault(schedule) && ChunkAccepted(ValidRecords(chunks[old(committed.job.offset)])) ==> exit.Done?
      ensures old(ticks) <= ticks
    {
      hide UpsertAll, ValidRecords, ChunkAccepted, NoFault;
      inserted, updated := 0, 0;
      var k := committed.job.offset;
      var rs;
      rs, errors := Collect(chunks[k]);
      exit, inserted, updated := UpsertBatch(rs, schedule);
      if !exit.Done? { return; }
      assert chunks[..k + 1][..k] == chunks[..k];
      working := working.(job := working.job.(offset := k + 1));
      var f := Commit(schedule);
      exit := if f.Proceed? then Done else ExitOf(f);
      assert NoFault(schedule) ==> f.Proceed? by { NoFaultProceeds(schedule); }
    }

    /** The chunk loop; chunks below the checkpoint are skipped. */
    method RunChunks(schedule: Schedule) returns (exit: Exit, total: nat, errors: nat, inserted: nat, updated: nat)
      requires Sound() && working == committed
      modifies this
      ensures Sound() && old(committed.job.offset) <= committed.job.offset
      ensures committed.job == old(committed.job).(offset := committed.job.offset)
      ensures exit.Done? ==> working == committed && committed.job.offset == |chunks| && old(RestAccepted())
      ensures exit.Done? ==>
                && total == LineCount(chunks) - LineCount(chunks[..old(committed.job.offset)])
                && errors == ErrorCount(chunks) - ErrorCount(chunks[..old(committed.job.offset)])
                && total == errors + inserted + updated
                && inserted == committed.table.Size() - old(committed.table.Size())
      ensures NoFault(schedule) && old(RestAccepted()) ==> exit.Done?
      ensures old(ticks) <= ticks
    {
      hide ImportChunks, ValidRecords, ChunkAccepted, NoFault, LineCount, ErrorCount;
      total, errors, inserted, updated := 0, 0, 0, 0;
      var start := committed.job.offset;
      for idx := 0 to |chunks|
        invariant Sound() && working == committed && old(ticks) <= ticks
        invariant committed.job == old(committed.job).(offset := if idx < start then start else idx)
        invariant forall i :: start <= i < idx ==> ChunkAccepted(ValidRecords(chunks[i]))
        invariant inserted == committed.table.Size() - old(committed.table.Size())
        invariant idx <= start ==> total == 0 && errors == 0 && inserted + updated == 0
        invariant start <= idx ==> total == LineCount(chunks[..idx]) - LineCount(chunks[..start])
                                   && errors == ErrorCount(chunks[..idx]) - ErrorCount(chunks[..start])
                                   && total == errors + inserted + updated
      {
        var f := Await(schedule);
        if !f.Proceed? {
          exit := ExitOf(f);
          NoFaultProceeds(schedule);
          return;
        }
        if start <= idx {
          OneMoreChunk(chunks, idx);
          var e, n, u;
          exit, e, n, u := ImportNext(schedule);
          if !exit.Done? { return; }
          total, errors, inserted, updated := total + |chunks[idx]|, errors + e, inserted + n, updated + u;
        }
      }
      assert chunks[..|chunks|] == chunks;
      exit := Done;
    }

    /**
     One call of `process_absentee_import`. Without faults it completes exactly when no
     statement of the remaining chunks touches a row twice; there is no de-duplication here.
     */
    method Process(schedule: Schedule) returns (exit: Exit)
      requires Sound()
      modifies this
      ensures Sound() && old(committed.job.offset) <= committed.job.offset
      ensures exit.Done? ==>
                && committed.table == ImportChunks(base, chunks)
                && committed.job.offset == |chunks| && committed.job.status == Completed && committed.job.counts.Some?
                && var c := committed.job.counts.value;
                   && c.total == c.failed + c.succeeded && c.succeeded == c.inserted + c.updated
                   && c.total == LineCount(chunks) - LineCount(chunks[..old(committed.job.offset)])
                   && c.failed == ErrorCount(chunks) - ErrorCount(chunks[..old(committed.job.offset)])
                   && c.inserted == committed.table.Size() - old(committed.table.Size())
      ensures old(ticks) < ticks && (exit.Threw? && schedule(ticks - 1).Proceed? ==> committed.job.status == Failed)
      ensures exit.Done? ==> old(RestAccepted())
      ensures NoFault(schedule) && old(RestAccepted()) ==> exit.Done?
    {
      hide ImportChunks, LineCount, ErrorCount, ChunkAccepted, NoFault;
      ghost var accepted := RestAccepted();
      assert NoFault(schedule) ==> schedule(ticks).Proceed? by { NoFaultProceeds(schedule); }
      working := committed.(job := committed.job.(status := Running));
      var f := Commit(schedule);
      if !f.Proceed? { exit := ExitOf(f); return; }
      var total, errors, inserted, updated;
      exit, total, errors, inserted, updated := RunChunks(schedule);
      if exit.Done? {
        assert chunks[..|chunks|] == chunks;
        assert NoFault(schedule) ==> schedule(ticks).Proceed? by { NoFaultProceeds(schedule); }
        working := working.(job := working.job.(status := Completed, counts := Some(JobCounts(total, inserted + updated, errors, inserted, updated))));
        f := Commit(schedule);
        exit := if f.Proceed? then Done else ExitOf(f);
      }
      if exit.Threw? {
        working := committed.(job := committed.job.(status := Failed));
        f := Commit(schedule);
        if f.Kill? { exit := Died; }
      }
    }

    /** Any number of attempts until one completes: the table of the straight-through import. */
    method Attempts(schedules: seq<Schedule>) returns (completed: bool)
      requires Sound()
      modifies this
      ensures Sound() && (completed ==> committed.table == ImportChunks(base, chunks))
      ensures (exists i :: 0 <= i < |schedules| && NoFault(schedules[i])) && old(RestAccepted()) ==> completed
    {
      hide ImportChunks, NoFault, ChunkAccepted, LineCount, ErrorCount;
      completed := false;
      ghost var start := committed.job.offset;
      for i := 0 to |schedules|
        invariant Sound() && start <= committed.job.offset
        invariant old(RestAccepted()) ==> forall j :: 0 <= j < i ==> !NoFault(schedules[j])
      {
        var exit := Process(schedules[i]);
        if exit.Done? {
          completed := true;
          return;
        }
      }
    }
  }

  lemma {:induction false} NoFaultProceeds(schedule: Schedule)
    ensures NoFault(schedule) ==> forall n :: schedule(n).Proceed?
  {
  }
}
