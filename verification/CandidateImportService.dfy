/**
 `process_candidate_import` as it runs: chunks skipped by the checkpoint, one transaction
 per chunk, an election cache that starts empty in every attempt, and failures or process
 deaths at any awaited call.
 */
module CandidateImportService {
  import opened Prelude
  import opened ImportJobs
  import opened ElectionResolution
  import opened CandidateImport

  datatype Store = Store(tables: Tables, job: Job)

  function KeySeq(recs: seq<Prepared>): (keys: seq<CandidateKey>)
    ensures |keys| == |recs|
  {
    seq(|recs|, i requires 0 <= i < |recs| => recs[i].Key())
  }

  function JunctionKeys(rows: seq<Junction>): (keys: seq<CandidacyKey>)
    ensures |keys| == |rows|
  {
    seq(|rows|, i requires 0 <= i < |rows| => rows[i].Key())
  }

  function UpsertCandidacies(t: map<CandidacyKey, Linked>, rows: seq<Junction>): map<CandidacyKey, Linked> {
    if rows == [] then t else UpsertCandidacy(UpsertCandidacies(t, rows[..|rows| - 1]), rows[|rows| - 1])
  }

  lemma {:induction false} NothingLinked(t: map<CandidacyKey, Linked>)
    ensures UpsertCandidacies(t, []) == t
  {
  }

  lemma {:induction false} NoFaultHere(schedule: Schedule)
    ensures NoFault(schedule) ==> forall n :: schedule(n).Proceed?
  {
  }

  lemma {:induction false} KeySeqDistinct(recs: seq<Prepared>)
    requires DistinctKeys(recs)
    ensures StatementAccepted(KeySeq(recs))
  {
    AcceptedIffDistinct(KeySeq(recs));
  }

  lemma {:induction false} UpsertCandidatesSplit(t: map<CandidateKey, Linked>, a: seq<Prepared>, b: seq<Prepared>)
    ensures UpsertCandidates(t, a + b) == UpsertCandidates(UpsertCandidates(t, a), b)
  {
    if b == [] {
      assert a + b == a;
    } else {
      var init := b[..|b| - 1];
      UpsertCandidatesSplit(t, a, init);
      assert (a + b)[..|a + b| - 1] == a + init;
    }
  }

  lemma {:induction false} UpsertCandidaciesSplit(t: map<CandidacyKey, Linked>, a: seq<Junction>, b: seq<Junction>)
    ensures UpsertCandidacies(t, a + b) == UpsertCandidacies(UpsertCandidacies(t, a), b)
  {
    if b == [] {
      assert a + b == a;
    } else {
      var init := b[..|b| - 1];
      UpsertCandidaciesSplit(t, a, init);
      assert (a + b)[..|a + b| - 1] == a + init;
    }
  }

  /** Junction rows in record order, ids drawn one after another. */
  function Junctions(s: State, recs: seq<Prepared>): (rows: seq<Junction>)
    requires forall r :: r in recs ==> r.Key() in s.tables.candidates
    ensures |rows| == |recs|
  {
    seq(|recs|, i requires 0 <= i < |recs| => JunctionOf(s.tables.candidates, recs[i], s.nextId + i))
  }

  /** Linking record by record is upserting the junction rows. */
  lemma {:induction false} LinkAllIsUpsert(s: State, recs: seq<Prepared>)
    requires forall r :: r in recs ==> r.Key() in s.tables.candidates
    ensures LinkAll(s, recs)
         == State(s.tables.(candidacies := UpsertCandidacies(s.tables.candidacies, Junctions(s, recs))), s.nextId + |recs|)
  {
    if recs != [] {
      var init := recs[..|recs| - 1];
      assert forall r :: r in init ==> r in recs;
      LinkAllIsUpsert(s, init);
      assert Junctions(s, recs)[..|recs| - 1] == Junctions(s, init);
      assert recs[|recs| - 1] in recs;
    }
  }

  ghost predicate DistinctJunctions(rows: seq<Junction>) {
    forall i, j :: 0 <= i < j < |rows| ==> rows[i].Key() != rows[j].Key()
  }

  lemma {:induction false} JunctionsDistinct(s: State, recs: seq<Prepared>)
    requires Consistent(s) && DistinctKeys(recs) && forall r :: r in recs ==> r.Key() in s.tables.candidates
    ensures DistinctJunctions(Junctions(s, recs))
  {
    hide Consistent, DistinctKeys;
    var rows := Junctions(s, recs);
    forall i | 0 <= i < |recs| ensures recs[i] in recs && rows[i].Key() == LinkKey(s, recs[i]) { }
    forall i, j | 0 <= i < j < |rows| ensures rows[i].Key() != rows[j].Key() {
      LinkKeysDistinct(s, recs, i, j);
    }
  }

  lemma {:induction false} JunctionSliceAccepted(rows: seq<Junction>, i: nat, j: nat)
    requires DistinctJunctions(rows) && i <= j <= |rows|
    ensures StatementAccepted(JunctionKeys(rows[i..j]))
  {
    AcceptedIffDistinct(JunctionKeys(rows[i..j]));
  }

  lemma {:induction false} UpsertCandidatesGrows(t: map<CandidateKey, Linked>, recs: seq<Prepared>)
    ensures |t| <= |UpsertCandidates(t, recs)| <= |t| + |recs|
  {
    if recs != [] {
      UpsertCandidatesGrows(t, recs[..|recs| - 1]);
    }
  }

  lemma {:induction false} KeysStored(t: map<CandidateKey, Linked>, recs: seq<Prepared>)
    ensures forall i :: 0 <= i < |recs| ==> recs[i].Key() in UpsertCandidates(t, recs)
  {
    UpsertCandidatesKeys(t, recs);
    hide UpsertCandidates;
    forall i | 0 <= i < |recs| ensures recs[i].Key() in UpsertCandidates(t, recs) {
      assert recs[i] in recs;
    }
  }

  /** `ids` are the stored candidate ids of the records, in order. */
  ghost predicate StoredIds(t: map<CandidateKey, Linked>, recs: seq<Prepared>, ids: seq<Id>) {
    |ids| == |recs| && forall i :: 0 <= i < |recs| ==> recs[i].Key() in t && ids[i] == t[recs[i].Key()].id
  }

  /**
   From `was` to `now` exactly the records were upserted: `ids` are their stored ids in order,
   and the counts tell new rows from updated ones.
   */
  ghost predicate CandidatesUpserted(was: Store, now: Store, recs: seq<Prepared>, inserted: nat, updated: nat, ids: seq<Id>) {
    && now == was.(tables := was.tables.(candidates := UpsertCandidates(was.tables.candidates, recs)))
    && inserted + updated == |recs|
    && inserted == |now.tables.candidates| - |was.tables.candidates|
    && StoredIds(now.tables.candidates, recs, ids)
  }

  lemma {:induction false} StoredIdsAppend(was: map<CandidateKey, Linked>, now: map<CandidateKey, Linked>, a: seq<Prepared>, b: seq<Prepared>, ids: seq<Id>, more: seq<Id>)
    requires StoredIds(was, a, ids) && StoredIds(now, b, more)
    requires forall k :: k in was ==> k in now && now[k].id == was[k].id
    ensures StoredIds(now, a + b, ids + more)
  {
  }

  lemma {:induction false} CandidatesUpsertedAppend(was: Store, mid: Store, now: Store, a: seq<Prepared>, b: seq<Prepared>,
                                 i: nat, u: nat, ids: seq<Id>, j: nat, v: nat, more: seq<Id>)
    requires CandidatesUpserted(was, mid, a, i, u, ids) && CandidatesUpserted(mid, now, b, j, v, more)
    ensures CandidatesUpserted(was, now, a + b, i + j, u + v, ids + more)
  {
    UpsertCandidatesSplit(was.tables.candidates, a, b);
    UpsertCandidatesKeys(mid.tables.candidates, b);
    hide UpsertCandidates;
    assert now.tables.candidates == UpsertCandidates(mid.tables.candidates, b);
    StoredIdsAppend(mid.tables.candidates, now.tables.candidates, a, b, ids, more);
    hide StoredIds;
  }

  lemma {:induction false} NothingUpserted(was: Store)
    ensures CandidatesUpserted(was, was, [], 0, 0, [])
  {
  }

  lemma {:induction false} DistinctSlice(recs: seq<Prepared>, i: nat, j: nat)
    requires DistinctKeys(recs) && i <= j <= |recs|
    ensures DistinctKeys(recs[i..j])
  {
  }

  /** A record is kept exactly when its key does not come again. */
  lemma {:induction false} KeepLastStep(recs: seq<Prepared>, i: nat)
    requires i < |recs|
    ensures (forall j :: i < j < |recs| ==> recs[j].Key() != recs[i].Key()) ==>
              KeepLast(recs[i..]) == [recs[i]] + KeepLast(recs[i + 1..])
    ensures (exists j :: i < j < |recs| && recs[j].Key() == recs[i].Key()) ==> KeepLast(recs[i..]) == KeepLast(recs[i + 1..])
  {
    var rest := recs[i..];
    assert rest[1..] == recs[i + 1..] && rest[0] == recs[i];
    if j :| i < j < |recs| && recs[j].Key() == recs[i].Key() {
      assert rest[j - i] == recs[j];
    }
  }

  lemma {:induction false} KeepLastNothing(recs: seq<Prepared>)
    ensures KeepLast(recs[|recs|..]) == []
  {
  }

  /** Lines read, lines recorded as errors, and records written after dropping duplicates. */
  datatype Tally = Tally(lines: nat, failed: nat, written: nat) {
    function Plus(t: Tally): Tally {
      Tally(lines + t.lines, failed + t.failed, written + t.written)
    }
  }

  lemma {:induction false} ReadChunkLength(s: State, lines: seq<Line>, job: string)
    ensures |ReadChunk(s, lines, job).1| <= |lines|
  {
    if lines != [] {
      ReadChunkLength(s, lines[..|lines| - 1], job);
    }
  }

  function ChunkTally(s: State, lines: seq<Line>, job: string): Tally {
    var recs := ReadChunk(s, lines, job).1;
    ReadChunkLength(s, lines, job);
    Tally(|lines|, |lines| - |recs|, |KeepLast(recs)|)
  }

  /** The tally of chunks `first` up to `last` of the straight-through import. */
  function RunTally(base: State, chunks: seq<seq<Line>>, job: string, first: nat, last: nat): Tally
    requires first <= last <= |chunks|
    decreases last
  {
    if first == last then Tally(0, 0, 0)
    else RunTally(base, chunks, job, first, last - 1).Plus(ChunkTally(ImportChunks(base, chunks[..last - 1], job), chunks[last - 1], job))
  }

  /** Where the checkpoint stands when the loop reaches chunk `idx` of an attempt that started at `start`. */
  function Reached(start: nat, idx: nat): nat {
    if idx < start then start else idx
  }

  /** What chunk `idx` adds to the tally: nothing when it is skipped. */
  function StepTally(base: State, chunks: seq<seq<Line>>, job: string, start: nat, idx: nat): Tally
    requires idx < |chunks|
  {
    if idx < start then Tally(0, 0, 0) else ChunkTally(ImportChunks(base, chunks[..idx], job), chunks[idx], job)
  }

  lemma {:induction false} NothingTallied(base: State, chunks: seq<seq<Line>>, job: string, start: nat)
    requires start <= |chunks|
    ensures RunTally(base, chunks, job, start, Reached(start, 0)) == Tally(0, 0, 0)
  {
  }

  lemma {:induction false} RunTallyNext(base: State, chunks: seq<seq<Line>>, job: string, first: nat, last: nat)
    requires first <= last < |chunks|
    ensures RunTally(base, chunks, job, first, last + 1)
         == RunTally(base, chunks, job, first, last).Plus(ChunkTally(ImportChunks(base, chunks[..last], job), chunks[last], job))
  {
    hide ChunkTally, ImportChunks, Tally.Plus;
  }

  /** Each chunk adds its lines, those of them that became no record, and the records left after de-duplication. */
  lemma {:induction false} RunTallyMeaning(base: State, chunks: seq<seq<Line>>, job: string, first: nat, last: nat)
    requires first <= last < |chunks|
    ensures var was, now := RunTally(base, chunks, job, first, last), RunTally(base, chunks, job, first, last + 1);
      var recs := ReadChunk(ImportChunks(base, chunks[..last], job), chunks[last], job).1;
      && now.lines == was.lines + |chunks[last]|
      && now.failed == was.failed + |chunks[last]| - |recs|
      && now.written == was.written + |KeepLast(recs)|
    ensures RunTally(base, chunks, job, first, first) == Tally(0, 0, 0)
  {
    hide ImportChunks, ReadChunk, KeepLast;
    RunTallyNext(base, chunks, job, first, last);
    ReadChunkLength(ImportChunks(base, chunks[..last], job), chunks[last], job);
  }

  lemma {:induction false} RunTallySteps(base: State, chunks: seq<seq<Line>>, job: string, start: nat, idx: nat)
    requires start <= |chunks| && idx < |chunks|
    ensures RunTally(base, chunks, job, start, Reached(start, idx + 1))
         == RunTally(base, chunks, job, start, Reached(start, idx)).Plus(StepTally(base, chunks, job, start, idx))
  {
    hide ChunkTally, ImportChunks, RunTally;
    if idx >= start {
      RunTallyNext(base, chunks, job, start, idx);
    }
  }

  /** States that agree up to ids tally a chunk alike. */
  lemma {:induction false} ChunkTallyRenamed(ren: map<Id, Id>, inv: map<Id, Id>, a: State, b: State, lines: seq<Line>, job: string)
    requires SameUpToIds(ren, inv, a, b)
    ensures ChunkTally(a, lines, job) == ChunkTally(b, lines, job)
  {
    var ren1, inv1 := ReadChunkRenamed(ren, inv, a, b, lines, job);
    hide Carries, ReadChunk, KeepLast;
    KeepLastRenamed(ren1, inv1, ReadChunk(a, lines, job).1, ReadChunk(b, lines, job).1);
  }

  /** Ids drawn and then lost with a rolled-back transaction do no harm. */
  lemma {:induction false} MoreIds(ren: map<Id, Id>, inv: map<Id, Id>, a: State, b: State, n: Id)
    requires SameUpToIds(ren, inv, a, b) && Consistent(b) && b.nextId <= n
    ensures SameUpToIds(ren, inv, a, b.(nextId := n)) && Consistent(b.(nextId := n))
  {
  }

  /** After staging: the tables, ids and tally of `ImportChunk`. */
  lemma {:induction false} StagedIsImportChunk(s: State, mid: State, lines: seq<Line>, job: string)
    requires Consistent(s) && mid == AfterCandidates(s, lines, job)
    ensures var kept := KeepLast(ReadChunk(s, lines, job).1);
      && DistinctKeys(kept) && Consistent(mid)
      && (forall r :: r in kept ==> r.Key() in mid.tables.candidates)
      && ImportChunk(s, lines, job)
         == State(mid.tables.(candidacies := UpsertCandidacies(mid.tables.candidacies, Junctions(mid, kept))), mid.nextId + |kept|)
      && DistinctJunctions(Junctions(mid, kept))
  {
    var kept := KeepLast(ReadChunk(s, lines, job).1);
    KeepLastDistinct(ReadChunk(s, lines, job).1);
    AfterCandidatesConsistent(s, lines, job);
    ImportChunkSteps(s, lines, job);
    hide ReadChunk, KeepLast, UpsertCandidates, LinkAll, ImportChunk, UpsertCandidacies, Consistent, Junctions, DistinctJunctions;
    LinkAllIsUpsert(mid, kept);
    JunctionsDistinct(mid, kept);
  }

  /** A chunk imported after `k` chunks extends the agreement, up to ids, by that chunk. */
  lemma {:induction false} AgreementGrows(ren: map<Id, Id>, inv: map<Id, Id>, base: State, b: State, chunks: seq<seq<Line>>, k: nat, job: string)
    returns (ren': map<Id, Id>, inv': map<Id, Id>)
    requires k < |chunks| && Consistent(b) && SameUpToIds(ren, inv, ImportChunks(base, chunks[..k], job), b)
    ensures var after := ImportChunk(b, chunks[k], job);
      Consistent(after) && SameUpToIds(ren', inv', ImportChunks(base, chunks[..k + 1], job), after)
    ensures Extends(ren, ren')
    ensures ChunkTally(b, chunks[k], job) == ChunkTally(ImportChunks(base, chunks[..k], job), chunks[k], job)
  {
    hide ImportChunk, SameUpToIds, Consistent, ChunkTally, Extends;
    var straight := ImportChunks(base, chunks[..k], job);
    assert chunks[..k + 1][..k] == chunks[..k];
    ChunkTallyRenamed(ren, inv, straight, b, chunks[k], job);
    ImportChunkConsistent(b, chunks[k], job);
    ren', inv' := ImportChunkRenamed(ren, inv, straight, b, chunks[k], job);
  }

  class ImportService {
    const chunks: seq<seq<Line>>
    const jobId: string
    var committed: Store
    var working: Store
    var nextId: Id
    var ticks: nat
    ghost const base: State
    ghost var ren: map<Id, Id>
    ghost var inv: map<Id, Id>

    /** The straight-through import of the first `k` chunks. */
    ghost function Straight(k: nat): State
      requires k <= |chunks|
    {
      ImportChunks(base, chunks[..k], jobId)
    }

    /** What is committed is the straight-through import up to the checkpoint, up to the ids it drew. */
    ghost predicate Valid()
      reads `committed, `nextId, `ren, `inv
    {
      && committed.job.offset <= |chunks|
      && Consistent(State(committed.tables, nextId))
      && SameUpToIds(ren, inv, Straight(committed.job.offset), State(committed.tables, nextId))
      && KeepsOldIds()
    }

    ghost predicate KeepsOldIds()
      reads `ren
    {
      forall x :: 0 <= x < base.nextId ==> x in ren && ren[x] == x
    }

    constructor (chunks: seq<seq<Line>>, jobId: string, s: State)
      requires Consistent(s)
      ensures Valid() && this.chunks == chunks && this.jobId == jobId && base == s
      ensures committed == Store(s.tables, Job(Pending, 0, None))
    {
      this.chunks, this.jobId := chunks, jobId;
      committed := Store(s.tables, Job(Pending, 0, None));
      working := Store(s.tables, Job(Pending, 0, None));
      nextId, ticks, base := s.nextId, 0, s;
      ren, inv := map[], map[];
      new;
      ghost var id := NothingRenamed(s);
      ren, inv := id, id;
    }

    method Await(schedule: Schedule) returns (f: Fault)
      modifies `ticks
      ensures f == schedule(old(ticks)) && ticks == old(ticks) + 1
    {
      f := schedule(ticks);
      ticks := ticks + 1;
    }

    method Commit(schedule: Schedule) returns (f: Fault)
      modifies `ticks, `committed
      ensures f == schedule(old(ticks)) && ticks == old(ticks) + 1
      ensures committed == if f.Proceed? || f.applied then working else old(committed)
    {
      f := schedule(ticks);
      ticks := ticks + 1;
      if f.Proceed? || f.applied {
        committed := working;
      }
    }

    /** One iteration of the record loop. */
    method ReadRecord(line: Line, resolver: ElectionResolver, schedule: Schedule) returns (exit: Exit, rec: Option<Prepared>)
      requires resolver.Valid()
      modifies `ticks, resolver
      ensures resolver.Valid() && old(resolver.nextId) <= resolver.nextId
      ensures exit.Done? ==>
                (ReadState(resolver), rec) == ReadLine(old(ReadState(resolver)), line, jobId)
      ensures NoFault(schedule) ==> exit.Done?
      ensures old(ticks) <= ticks
    {
      hide Resolve, ColumnsOf, RequestOf, CacheCoherent;
      rec := None;
      if !line.parseError && line.date.Some? {
        var f := Await(schedule);
        if !f.Proceed? { exit := ExitOf(f); return; }
        ResolvedIdInTable(resolver.Value(), RequestOf(line));
        var election := resolver.ResolveElection(RequestOf(line));
        if election.Some? {
          var id := resolver.DrawId();
          rec := Some(Prepared(id, election.value, line.Field("candidate_name").GetOr(""), ColumnsOf(line, jobId)));
        }
      }
      exit := Done;
    }

    /** The working tables as the resolver sees them. */
    ghost function ReadState(resolver: ElectionResolver): State
      reads `working, resolver
    {
      State(working.tables.(elections := resolver.elections), resolver.nextId)
    }

    /** The record loop of one chunk: errors are counted, elections resolved through the cache. */
    method ReadRecords(lines: seq<Line>, resolver: ElectionResolver, schedule: Schedule)
      returns (exit: Exit, recs: seq<Prepared>, errors: nat)
      requires resolver.Valid()
      modifies `ticks, resolver
      ensures resolver.Valid() && old(resolver.nextId) <= resolver.nextId
      ensures exit.Done? ==>
                (ReadState(resolver), recs) == ReadChunk(old(ReadState(resolver)), lines, jobId)
      ensures exit.Done? ==> errors + |recs| == |lines|
      ensures NoFault(schedule) ==> exit.Done?
      ensures old(ticks) <= ticks
    {
      hide ReadLine;
      recs, errors := [], 0;
      for i := 0 to |lines|
        invariant resolver.Valid() && old(resolver.nextId) <= resolver.nextId
        invariant (ReadState(resolver), recs) == ReadChunk(old(ReadState(resolver)), lines[..i], jobId)
        invariant errors + |recs| == i && old(ticks) <= ticks
      {
        assert lines[..i + 1][..i] == lines[..i];
        var rec;
        exit, rec := ReadRecord(lines[i], resolver, schedule);
        if !exit.Done? { return; }
        if rec.Some? {
          recs := recs + [rec.value];
        } else {
          errors := errors + 1;
        }
      }
      assert lines[..|lines|] == lines;
      exit := Done;
    }

    /** The `seen` dictionary: the last index of each key. */
    method LastIndices(recs: seq<Prepared>) returns (seen: map<CandidateKey, nat>)
      ensures forall j :: 0 <= j < |recs| ==> recs[j].Key() in seen && j <= seen[recs[j].Key()]
      ensures forall k :: k in seen ==> seen[k] < |recs| && recs[seen[k]].Key() == k
    {
      seen := map[];
      for i := 0 to |recs|
        invariant forall k :: k in seen ==> seen[k] < i && recs[seen[k]].Key() == k
        invariant forall j :: 0 <= j < i ==> recs[j].Key() in seen && j <= seen[recs[j].Key()]
      {
        seen := seen[recs[i].Key() := i];
      }
    }

    /** Keep the records at the indices in `seen`, in ascending order. */
    method Deduplicate(recs: seq<Prepared>) returns (kept: seq<Prepared>)
      ensures kept == KeepLast(recs)
    {
      hide KeepLast;
      var seen := LastIndices(recs);
      kept := [];
      assert recs[0..] == recs;
      for i := 0 to |recs|
        invariant kept + KeepLast(recs[i..]) == KeepLast(recs)
      {
        KeepLastStep(recs, i);
        if seen[recs[i].Key()] == i {
          ConcatAssoc(kept, [recs[i]], KeepLast(recs[i + 1..]));
          kept := kept + [recs[i]];
        } else {
          assert recs[seen[recs[i].Key()]].Key() == recs[i].Key();
        }
      }
      KeepLastNothing(recs);
    }

    /** One INSERT ... ON CONFLICT statement on candidates, with its RETURNING rows. */
    method CandidateStatement(batch: seq<Prepared>, schedule: Schedule)
      returns (exit: Exit, inserted: nat, updated: nat, ids: seq<Id>)
      requires DistinctKeys(batch)
      modifies `ticks, `working
      ensures exit.Done? ==> CandidatesUpserted(old(working), working, batch, inserted, updated, ids)
      ensures NoFault(schedule) ==> exit.Done?
      ensures old(ticks) <= ticks
    {
      hide UpsertCandidates, DistinctKeys, StatementAccepted, KeySeq;
      inserted, updated, ids := 0, 0, [];
      var f := Await(schedule);
      if !f.Proceed? { exit := ExitOf(f); return; }
      KeySeqDistinct(batch);
      if !StatementAccepted(KeySeq(batch)) { exit := Threw; return; }
      var t := working.tables.candidates;
      UpsertCandidatesGrows(t, batch);
      KeysStored(t, batch);
      var now := UpsertCandidates(t, batch);
      ids := seq(|batch|, j requires 0 <= j < |batch| => now[batch[j].Key()].id);
      inserted := |now| - |t|;
      updated := |batch| - inserted;
      working := working.(tables := working.tables.(candidates := now));
      exit := Done;
    }

    /** `_upsert_candidate_batch`: stored ids in input order, and the insert and update counts. */
    method UpsertCandidateBatch(recs: seq<Prepared>, schedule: Schedule)
      returns (exit: Exit, inserted: nat, updated: nat, ids: seq<Id>)
      requires DistinctKeys(recs)
      modifies `ticks, `working
      ensures exit.Done? ==> CandidatesUpserted(old(working), working, recs, inserted, updated, ids)
      ensures NoFault(schedule) ==> exit.Done?
      ensures old(ticks) <= ticks
    {
      hide CandidatesUpserted, DistinctKeys;
      inserted, updated, ids := 0, 0, [];
      NothingUpserted(working);
      var i := 0;
      while i < |recs|
        invariant 0 <= i <= |recs| && old(ticks) <= ticks
        invariant CandidatesUpserted(old(working), working, recs[..i], inserted, updated, ids)
      {
        var n := if |recs| - i < SUB_BATCH then |recs| - i else SUB_BATCH;
        DistinctSlice(recs, i, i + n);
        ghost var mid := working;
        var k, u, more;
        exit, k, u, more := CandidateStatement(recs[i..i + n], schedule);
        if !exit.Done? { return; }
        CandidatesUpsertedAppend(old(working), mid, working, recs[..i], recs[i..i + n], inserted, updated, ids, k, u, more);
        assert recs[..i] + recs[i..i + n] == recs[..i + n];
        inserted, updated, ids, i := inserted + k, updated + u, ids + more, i + n;
      }
      assert recs[..i] == recs;
      exit := Done;
    }

    /** The lookup from record key to stored candidate id. */
    method ResolvedIds(recs: seq<Prepared>, ids: seq<Id>) returns (lookup: map<CandidateKey, Id>)
      requires StoredIds(working.tables.candidates, recs, ids)
      ensures forall i :: 0 <= i < |recs| ==>
                recs[i].Key() in lookup && lookup[recs[i].Key()] == working.tables.candidates[recs[i].Key()].id
    {
      lookup := map[];
      for i := 0 to |recs|
        invariant forall k :: k in lookup ==> k in working.tables.candidates && lookup[k] == working.tables.candidates[k].id
        invariant forall j :: 0 <= j < i ==> recs[j].Key() in lookup
      {
        lookup := lookup[recs[i].Key() := ids[i]];
      }
    }

    /** The candidacy rows of the chunk: the lookup never misses. */
    method BuildJunctions(recs: seq<Prepared>, ids: seq<Id>, resolver: ElectionResolver) returns (rows: seq<Junction>)
      requires resolver.Valid() && StoredIds(working.tables.candidates, recs, ids)
      modifies resolver`nextId
      ensures resolver.Valid() && resolver.nextId == old(resolver.nextId) + |recs|
      ensures forall r :: r in recs ==> r.Key() in working.tables.candidates
      ensures rows == Junctions(State(working.tables, old(resolver.nextId)), recs)
    {
      hide CacheCoherent;
      var lookup := ResolvedIds(recs, ids);
      hide StoredIds;
      rows := [];
      for i := 0 to |recs|
        invariant resolver.Valid() && resolver.nextId == old(resolver.nextId) + i && |rows| == i
        invariant forall j :: 0 <= j < i ==>
                    rows[j] == JunctionOf(working.tables.candidates, recs[j], old(resolver.nextId) + j)
      {
        var id := resolver.DrawId();
        rows := rows + [Junction(id, lookup[recs[i].Key()], recs[i].election, recs[i].cols - {"email"})];
      }
    }

    /** `_upsert_candidacy_batch`. */
    method UpsertCandidacyBatch(rows: seq<Junction>, schedule: Schedule) returns (exit: Exit)
      requires DistinctJunctions(rows)
      modifies `ticks, `working
      ensures exit.Done? ==>
                working == old(working).(tables := old(working.tables).(candidacies := UpsertCandidacies(old(working.tables.candidacies), rows)))
      ensures NoFault(schedule) ==> exit.Done?
      ensures old(ticks) <= ticks
    {
      hide DistinctJunctions, JunctionKeys, StatementAccepted, UpsertCandidacies, NoFault;
      NoFaultHere(schedule);
      var i := 0;
      assert rows[..0] == [];
      NothingLinked(working.tables.candidacies);
      while i < |rows|
        invariant 0 <= i <= |rows| && old(ticks) <= ticks
        invariant working == old(working).(tables := old(working.tables).(candidacies := UpsertCandidacies(old(working.tables.candidacies), rows[..i])))
      {
        var n := if |rows| - i < SUB_BATCH then |rows| - i else SUB_BATCH;
        var batch := rows[i..i + n];
        var f := Await(schedule);
        if !f.Proceed? { exit := ExitOf(f); return; }
        JunctionSliceAccepted(rows, i, i + n);
        if !StatementAccepted(JunctionKeys(batch)) { exit := Threw; return; }
        UpsertCandidaciesSplit(old(working.tables.candidacies), rows[..i], batch);
        assert rows[..i] + batch == rows[..i + n];
        working := working.(tables := working.tables.(candidacies := UpsertCandidacies(working.tables.candidacies, batch)));
        i := i + n;
      }
      assert rows[..i] == rows;
      exit := Done;
    }

    /** The session's tables and the id supply, as one state. */
    ghost function Staged(resolver: ElectionResolver): State
      reads `working, resolver
    {
      State(working.tables, resolver.nextId)
    }

    ghost predicate InStep(resolver: ElectionResolver)
      reads `working, resolver
    {
      resolver.Valid() && resolver.elections == working.tables.elections
    }

    /** Everything one chunk does before its commit. */
    method StageChunk(lines: seq<Line>, resolver: ElectionResolver, schedule: Schedule)
      returns (exit: Exit, errors: nat, inserted: nat, updated: nat)
      requires InStep(resolver) && Consistent(Staged(resolver))
      modifies `ticks, `working, resolver
      ensures resolver.Valid() && old(resolver.nextId) <= resolver.nextId
      ensures exit.Done? ==>
                && InStep(resolver) && working.job == old(working.job)
                && Staged(resolver) == ImportChunk(old(Staged(resolver)), lines, jobId)
                && ChunkTally(old(Staged(resolver)), lines, jobId) == Tally(|lines|, errors, inserted + updated)
                && inserted == |working.tables.candidates| - |old(working.tables.candidates)|
      ensures NoFault(schedule) ==> exit.Done?
      ensures old(ticks) <= ticks
    {
      hide ReadChunk, KeepLast, UpsertCandidates, ImportChunk, Consistent, UpsertCandidacies, Junctions, CacheCoherent,
           DistinctJunctions, DistinctKeys, StoredIds;
      errors, inserted, updated := 0, 0, 0;
      ghost var s := Staged(resolver);
      assert ReadState(resolver) == s;
      var recs, kept, ids, rows;
      exit, recs, errors := ReadRecords(lines, resolver, schedule);
      if !exit.Done? { return; }
      working := working.(tables := working.tables.(elections := resolver.elections));
      kept := Deduplicate(recs);
      KeepLastDistinct(recs);
      exit, inserted, updated, ids := UpsertCandidateBatch(kept, schedule);
      if !exit.Done? { return; }
      ghost var mid := Staged(resolver);
      assert mid == AfterCandidates(s, lines, jobId);
      StagedIsImportChunk(s, mid, lines, jobId);
      rows := BuildJunctions(kept, ids, resolver);
      exit := UpsertCandidacyBatch(rows, schedule);
    }

    /** What is committed stays right when the rest of an attempt is lost, ids drawn included. */
    method LoseIds(n: Id)
      requires Valid() && nextId <= n
      modifies `nextId
      ensures Valid() && nextId == n
    {
      MoreIds(ren, inv, Straight(committed.job.offset), State(committed.tables, nextId), n);
      hide SameUpToIds, Consistent;
      nextId := n;
    }

    ghost predicate Ready(resolver: ElectionResolver)
      reads `committed, `working, `nextId, `ren, `inv, resolver
    {
      && Valid() && InStep(resolver) && resolver.nextId == nextId
      && working == committed
    }

    /** One chunk and its commit; the checkpoint moves in the same transaction. */
    method ImportNext(resolver: ElectionResolver, schedule: Schedule)
      returns (exit: Exit, errors: nat, inserted: nat, updated: nat)
      requires Ready(resolver) && committed.job.offset < |chunks|
      modifies this, resolver
      ensures Valid() && old(nextId) <= nextId
      ensures old(committed.job.offset) <= committed.job.offset <= old(committed.job.offset) + 1
      ensures committed.job == old(committed.job).(offset := committed.job.offset)
      ensures exit.Done? ==>
                && Ready(resolver) && committed.job.offset == old(committed.job.offset) + 1
                && Tally(|chunks[old(committed.job.offset)]|, errors, inserted + updated)
                   == ChunkTally(Straight(old(committed.job.offset)), chunks[old(committed.job.offset)], jobId)
                && inserted == |committed.tables.candidates| - |old(committed.tables.candidates)|
      ensures NoFault(schedule) ==> exit.Done?
      ensures old(ticks) <= ticks
    {
      hide ImportChunk, ImportChunks, SameUpToIds, Consistent, ChunkTally, CacheCoherent;
      ghost var s := Staged(resolver);
      ghost var k := committed.job.offset;
      ghost var ren', inv' := AgreementGrows(ren, inv, base, s, chunks, k, jobId);
      exit, errors, inserted, updated := StageChunk(chunks[committed.job.offset], resolver, schedule);
      if !exit.Done? { LoseIds(resolver.nextId); return; }
      working := working.(job := working.job.(offset := working.job.offset + 1));
      var f := Commit(schedule);
      if f.Proceed? || f.applied {
        ren, inv := ren', inv';
        nextId := resolver.nextId;
      } else {
        LoseIds(resolver.nextId);
      }
      exit := if f.Proceed? then Done else ExitOf(f);
    }

    /** `election_cache = {}`. */
    method StartAttempt() returns (resolver: ElectionResolver)
      requires Valid() && working == committed
      ensures fresh(resolver) && Ready(resolver) && resolver.cache == map[]
    {
      hide SameUpToIds, ImportChunks, KeepsOldIds;
      resolver := new ElectionResolver(Db(committed.tables.elections, nextId));
    }

    /** One turn of the chunk loop: read the next chunk, and skip it below the checkpoint. */
    method NextChunk(start: nat, idx: nat, resolver: ElectionResolver, schedule: Schedule)
      returns (exit: Exit, lines: nat, errors: nat, inserted: nat, updated: nat)
      requires Ready(resolver) && idx < |chunks| && committed.job.offset == Reached(start, idx)
      modifies this, resolver
      ensures Valid() && old(committed.job.offset) <= committed.job.offset
      ensures committed.job == old(committed.job).(offset := committed.job.offset)
      ensures exit.Done? ==>
                && Ready(resolver) && committed.job.offset == Reached(start, idx + 1)
                && Tally(lines, errors, inserted + updated) == StepTally(base, chunks, jobId, start, idx)
                && inserted == |committed.tables.candidates| - |old(committed.tables.candidates)|
      ensures NoFault(schedule) ==> exit.Done?
      ensures old(ticks) <= ticks
    {
      hide SameUpToIds, Consistent, ChunkTally, ImportChunks, InStep, KeepsOldIds;
      lines, errors, inserted, updated := 0, 0, 0, 0;
      var f := Await(schedule);
      if !f.Proceed? { exit := ExitOf(f); return; }
      exit := Done;
      if start <= idx {
        lines := |chunks[idx]|;
        exit, errors, inserted, updated := ImportNext(resolver, schedule);
      }
    }

    /** The chunk loop of one attempt, with a new election cache. */
    method RunChunks(schedule: Schedule) returns (exit: Exit, total: nat, errors: nat, inserted: nat, updated: nat)
      requires Valid() && working == committed
      modifies this
      ensures Valid() && old(committed.job.offset) <= committed.job.offset
      ensures committed.job == old(committed.job).(offset := committed.job.offset)
      ensures exit.Done? ==>
                && working == committed && committed.job.offset == |chunks|
                && Tally(total, errors, inserted + updated)
                   == RunTally(base, chunks, jobId, old(committed.job.offset), |chunks|)
                && inserted == |committed.tables.candidates| - |old(committed.tables.candidates)|
      ensures NoFault(schedule) ==> exit.Done?
      ensures old(ticks) <= ticks
    {
      hide RunTally, StepTally, InStep, SameUpToIds, Consistent, KeepsOldIds, ImportChunks;
      total, errors, inserted, updated := 0, 0, 0, 0;
      var start := committed.job.offset;
      NothingTallied(base, chunks, jobId, start);
      var resolver := StartAttempt();
      for idx := 0 to |chunks|
        invariant Ready(resolver) && start <= |chunks| && old(ticks) <= ticks
        invariant committed.job == old(committed.job).(offset := Reached(start, idx))
        invariant Tally(total, errors, inserted + updated) == RunTally(base, chunks, jobId, start, Reached(start, idx))
        invariant inserted == |committed.tables.candidates| - |old(committed.tables.candidates)|
      {
        RunTallySteps(base, chunks, jobId, start, idx);
        var l, e, i, u;
        exit, l, e, i, u := NextChunk(start, idx, resolver, schedule);
        if !exit.Done? { return; }
        total, errors, inserted, updated := total + l, errors + e, inserted + i, updated + u;
      }
      exit := Done;
    }

    /** One call of `process_candidate_import` on the job. */
    method Process(schedule: Schedule) returns (exit: Exit)
      requires Valid()
      modifies this
      ensures Valid() && old(committed.job.offset) <= committed.job.offset
      ensures exit.Done? ==>
                && committed.job.offset == |chunks| && committed.job.status == Completed && committed.job.counts.Some?
                && var c := committed.job.counts.value;
                   && Tally(c.total, c.failed, c.succeeded) == RunTally(base, chunks, jobId, old(committed.job.offset), |chunks|)
                   && c.succeeded == c.inserted + c.updated
                   && c.inserted == |committed.tables.candidates| - |old(committed.tables.candidates)|
      ensures old(ticks) < ticks && (exit.Threw? && schedule(ticks - 1).Proceed? ==> committed.job.status == Failed)
      ensures NoFault(schedule) ==> exit.Done?
    {
      hide RunTally, SameUpToIds, Consistent, ImportService.Straight, ImportService.KeepsOldIds;
      working := committed.(job := committed.job.(status := Running));
      var f := Commit(schedule);
      if !f.Proceed? { exit := ExitOf(f); return; }
      var total, errors, inserted, updated;
      exit, total, errors, inserted, updated := RunChunks(schedule);
      if exit.Done? {
        var counts := JobCounts(total, inserted + updated, errors, inserted, updated);
        working := working.(job := working.job.(status := Completed, counts := Some(counts)));
        f := Commit(schedule);
        exit := if f.Proceed? then Done else ExitOf(f);
      }
      if exit.Threw? {
        working := committed.(job := committed.job.(status := Failed));
        f := Commit(schedule);
        if f.Kill? { exit := Died; }
      }
    }

    /**
     Any number of attempts, each failing or dying anywhere, until one completes: the tables
     are those of the straight-through import up to the ids drawn, and rows that were there
     before keep their ids.
     */
    method Attempts(schedules: seq<Schedule>) returns (completed: bool)
      requires Valid()
      modifies this
      ensures Valid()
      ensures completed ==>
                && SameUpToIds(ren, inv, ImportChunks(base, chunks, jobId), State(committed.tables, nextId))
                && (forall x :: 0 <= x < base.nextId ==> x in ren && ren[x] == x)
                && committed.job.status == Completed
      ensures (exists i :: 0 <= i < |schedules| && NoFault(schedules[i])) ==> completed
    {
      hide SameUpToIds, Consistent, RunTally, ImportChunks;
      completed := false;
      for i := 0 to |schedules|
        invariant Valid()
        invariant forall j :: 0 <= j < i ==> !NoFault(schedules[j])
      {
        var exit := Process(schedules[i]);
        if exit.Done? {
          assert chunks[..|chunks|] == chunks;
          completed := true;
          return;
        }
      }
    }
  }
}
