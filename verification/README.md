# Voter API: a verified model of its stateful cores

The Voter API keeps voter, election and candidate data for Georgia in PostgreSQL. This project
models the parts of it where state is carried over many steps, and proves what those parts
promise. It is one Dafny module per component:

| module | what it models |
|---|---|
| `AnalysisRun` | the location analysis run: keyset paging, one commit per batch, counters rebuilt on resume |
| `ElectionNames` | the election name normaliser, exactly, on words, whitespace runs and single symbols |
| `ElectionResolution` | find, create or backfill an election, behind a memo cache |
| `CandidateImport` | one chunk of the candidate import as a function, and equality of tables up to fresh ids |
| `CandidateImportService` | the checkpointed import itself, under any schedule of failures and restarts |
| `AbsenteeImport` | the same checkpoint protocol without de-duplication |
| `Upserts` | the upsert-by-id family: elections, election events, candidacies, persons |
| `TotpLogin` | lockout, replay check and recovery codes of the two-factor login |
| `ResetAndInvite` | password reset tokens and user invites |
| `RateLimit` | the sliding-window rate limiter |
| `RegistrationMigration` | the migration that strips leading zeros from registration numbers |
| `Agenda` | gap-ordered agenda items and their reordering |
| `TaskRunner` | the semaphore-bounded task runner, as interleaved steps |
| `MarkdownText` | markdown table lines: splitting at bars, stripping, joining, words in lines |
| `FormatMigration` | the markdown table rewriter and the metadata migrations |
| `ImportJobs` | the job row of a chunked import |
| `Prelude` | sequences, options, PostgreSQL's rule on rows touched twice, failures at awaited calls |

`dafny verify dfyconfig.toml` checks all of it.

## How the code is modelled

Tables are maps keyed by their unique constraints. A session is a pair of stores, `committed` and
`working`; commit copies one to the other and rollback copies back. Each service whose methods
change fields is a class with those fields, and each of its methods is proved equal to a function
of the old state; the properties are proved about the functions, for every input or every run.

A `Schedule` says what the environment does at each awaited call: proceed, raise, or kill the
process. A COMMIT that fails may have taken effect or not. A rerun starts from the committed
store, in a new session, with empty caches. Fresh UUIDs are numbers from a supply that is never
rewound, so ids drawn by a lost transaction stay lost.

`INSERT ... ON CONFLICT DO UPDATE` is rejected when one statement lists a key twice. In the
upsert-by-id family the other unique indexes are checked as each row is written.

## Where the code does not do what it or its documentation says

The model follows the code. These points came out of the proofs; each has a lemma.

- A failed analysis run records 0 voters when its resume queries failed, although rows are
  committed. The recorded total lies between the committed rows and one batch more exactly when
  nothing is committed or the counters could be restored (`AnalysisService.Process`,
  `FailedRestoreRecordsZero`).
- Padding all records of a file to the union of their keys writes NULL over columns a record does
  not mention. A file equals its records in files of their own exactly when it is skipped as a
  whole, or it erases no column in this way and no new record lacks updatable columns
  (`FileEqualsSingleFiles`, `UnionOfKeysErases`). Candidacies are immune.
- The dry run predicts the number of inserts exactly when no new id is listed twice (`DryRunAgrees`).
- `reorder_items` is described as atomic, but the unique index is checked at every flushed row. It
  succeeds exactly when no item takes the order of one that is flushed later. On an agenda whose
  orders are already 10, 20, ..., every real reorder fails (`DenseAgendaCannotBeReordered`,
  `SwapRejected`). A check at commit would accept every complete request (`ReorderedListing`).
- Section 5.2 of RFC 6238 lets a code be accepted once. The replay check refuses a valid code
  exactly when it is the last code accepted since enrolment and that was at most 30 seconds ago;
  every other valid code is accepted, also one accepted before (`ReplayedExactly`,
  `AcceptedTwice`).
- Failed confirmations of an enrolment count towards no lockout, however many there are
  (`ConfirmationsUncounted`).
- The model class of recovery codes says exactly ten rows per user. Confirming twice adds ten more
  (`RecoveryCodesConserved`).
- The rate limiter takes the wall clock. On clocks that step back by at most `d` its bound holds
  exactly when `d` is not positive or the limit is one (`BoundedOnClockIff`); for a higher limit
  any step back can let one request too many into a window (`BackwardClock`).
- An upsert that exchanges the names of two elections is rejected, although the state it asks for
  is unique (`ExchangeRejected`).
- A county file that begins with its metadata table gets no version row (`MetadataAtTop`). A file
  that does not mention "Format Version" is recognised after its migration exactly when its
  metadata table stands below the first line (`UnversionedMulti`).
- The positions of the Email and Website cells are counted in the header without its empty cells,
  and used in the rows with them. The rows lose their Email and Website cells exactly when no empty
  header cell stands left of either column, as far as the rows reach (`ColumnsDropped`,
  `EmptyHeaderCellShifts`).
- What follows the last bar of a row is not read as a cell. A rewritten row keeps every non-empty
  cell outside the two positions exactly when nothing follows its last bar, or what follows stands
  at one of them (`RewrittenRowWhole`, `WholeIffNoTail`). Without its closing bar a row of up to
  seven columns is not rewritten at all, and a longer one loses its last cell (`UnclosedRow`).
- The header always loses its Email and Website cells, but rows only from seven cells on: in tables
  of three to six columns the rows keep two cells more than the header (`RowAndHeaderAgree`).
- The table rewriter loses the line after a candidate header when that line does not start with a
  bar (`LineLost`). In files without header-like rows, lines are kept exactly when each header that
  is not the last line is followed by a bar (`RegularLinesKept`).
- The absentee import does not de-duplicate: a sub-batch that lists a key twice fails its chunk at
  every attempt (`AbsenteeService.Process`). Rows without an application date never conflict, so
  re-importing a file repeats them (`ReimportRepeatsUndated`).
- A row "0" of voter_history gives way to a row with an empty number in the same election, and the
  empty number is left as it is, whereas the library function maps it to "0" (`EmptyNumberWins`).

## Model

| member | source | states |
|---|---|---|
| `AnalysisRun.PageIsNextSlice` | src/voter_api/services/analysis_service.py:108-125 | with the cursor at the k-th eligible voter, the query returns exactly the next voters in id order, at most one batch of them |
| `AnalysisRun.CursorFromResults` | src/voter_api/services/analysis_service.py:78-85 | the cursor read back from committed results is the last voter of the committed prefix, or none |
| `AnalysisRun.RestoredCountsAgree` | src/voter_api/services/analysis_service.py:87-103 | counters rebuilt from committed rows equal the counters an uninterrupted run would have at that point |
| `AnalysisRun.FlushNeverConflicts` | src/voter_api/services/analysis_service.py:239-271 | under keyset paging ON CONFLICT DO NOTHING never fires: as many rows are added as the batch has |
| `AnalysisRun.FinalRows` | src/voter_api/services/analysis_service.py:108-162 | the end state holds exactly one row per eligible voter with that voter's own verdict, and other runs' rows are unchanged |
| `AnalysisRun.FinalCounts` | src/voter_api/services/analysis_service.py:156-162 | the recorded counts are the counts of the committed rows and the checkpoint is their number |
| `AnalysisRun.FinalFlags` | src/voter_api/services/analysis_service.py:164-180 | a voter's mismatch flag is the verdict of this run's row, and unchanged without one |
| `AnalysisRun.AnalyzedExactly` | src/voter_api/services/analysis_service.py:111-233 | after a completed run a voter has a row exactly when it is in the latest import, has an official point and is of the county asked for, if any; the row holds its status and its details unless empty |
| `AnalysisRun.FlagsMeaning` | src/voter_api/services/analysis_service.py:164-180 | the flag of an analyzed voter is false exactly for a match, NULL exactly when it could not be analyzed, and true for the three mismatches; other voters keep theirs |
| `AnalysisRun.CountsMeaning` | src/voter_api/services/analysis_service.py:140-162 | the recorded counters count the rows of the run by verdict |
| `AnalysisRun.FlagsReapply` | src/voter_api/services/analysis_service.py:164-180 | applying the flags of a longer prefix forgets that a shorter one was applied by an earlier attempt |
| `AnalysisRun.AnalysisService.FlushResults` | src/voter_api/services/analysis_service.py:255-271 | sub-batches together insert what one statement would, and the returned count is the growth of the table |
| `AnalysisRun.AnalysisService.AnalyzePage` | src/voter_api/services/analysis_service.py:130-143 | the rows built are those of the page in order and the counters count each voter once by status |
| `AnalysisRun.AnalysisService.RestoreProgress` | src/voter_api/services/analysis_service.py:77-106 | counters and cursor are those of the committed prefix exactly when both queries go through |
| `AnalysisRun.AnalysisService.RunBatch` | src/voter_api/services/analysis_service.py:130-154 | a batch is committed with its checkpoint as a whole or not at all, and the invariant survives either way |
| `AnalysisRun.AnalysisService.Process` | src/voter_api/services/analysis_service.py:48-202 | a completed call leaves the end state; a failed one records a total within one batch of the committed rows exactly when nothing is committed or the restore went through |
| `AnalysisRun.AnalysisService.Attempts` | src/voter_api/services/analysis_service.py:48-202 | after any failures and restarts, a completed run has the tables of one uninterrupted run |
| `AnalysisRun.AnalysisService.FailedRestoreRecordsZero` | src/voter_api/services/analysis_service.py:191-198 | a resumed run whose cursor query fails is recorded with total 0 although rows are committed |
| `ElectionNames.RenderTokenize` | src/voter_api/lib/election_name_normalizer.py:29-71 | splitting a name into words, whitespace runs and symbols loses nothing |
| `ElectionNames.TokenizeRender` | src/voter_api/lib/election_name_normalizer.py:29-71 | tokens read back from their own text are the same tokens |
| `ElectionNames.RewriteSettled` | src/voter_api/lib/election_name_normalizer.py:31-68 | after the substitutions no dash, month, day or abbreviation is left that any of them would change |
| `ElectionNames.NormalizeIdempotent` | src/voter_api/lib/election_name_normalizer.py:29-71 | the normaliser is idempotent on token sequences, and its results are settled and single-spaced |
| `ElectionNames.LibNormalizeIdempotent` | src/voter_api/lib/election_name_normalizer.py:10-71 | the normaliser is idempotent on strings |
| `ElectionNames.NormalizeElectionName` | src/voter_api/lib/election_name_normalizer.py:10-71 | the two replacement loops, run row by row over the whole text, compute the token-level normaliser; empty and absent names pass through |
| `ElectionNames.RewriteMeaning` | src/voter_api/lib/election_name_normalizer.py:31-68 | months become their first three letters, a single digit between month and comma gets a zero, four abbreviations are written out, long dashes become hyphens, and nothing else changes |
| `ElectionNames.SqueezeKeeps` | src/voter_api/lib/election_name_normalizer.py:70-71 | collapsing and stripping loses white space only |
| `ElectionNames.MarkerTakenOff` | src/voter_api/services/candidate_import_service.py:22-23 | a run of the letters R, D, N, P and I in parentheses at the end is taken off, with the white space around it |
| `ElectionNames.NoMarkerNothing` | src/voter_api/services/candidate_import_service.py:22-23 | only a name that ends in such a marker is changed |
| `ElectionNames.ReplaceTable` | src/voter_api/lib/election_name_normalizer.py:50-68 | replacing the rows of a table one after another over the whole text equals replacing each word by all rows |
| `ElectionNames.RewritePrefix` | src/voter_api/services/candidate_import_service.py:48-51 | cutting a name before a party marker commutes with the substitutions |
| `ElectionNames.StoredEqualsKey` | src/voter_api/services/candidate_import_service.py:48-52 | stripping the party marker before or after normalising gives the same name |
| `ElectionNames.StoredNameMatchesLookup` | src/voter_api/services/candidate_import_service.py:114-146 | for every raw name the lower-cased stored name equals the lookup and cache key |
| `ElectionResolution.NewElectionMatches` | src/voter_api/services/candidate_import_service.py:139-160 | a newly created election is found by the request that created it |
| `ElectionResolution.ResolveMatches` | src/voter_api/services/candidate_import_service.py:114-166 | one resolution adds its election to its own name and date only, and keeps the matches of every other name and date |
| `ElectionResolution.ResolveFinds` | src/voter_api/services/candidate_import_service.py:121-166 | the answer is the one live row of the date and lower-cased name; several are an error, and without one a row is created under a new id; other rows are untouched |
| `ElectionResolution.ResolveBackfills` | src/voter_api/services/candidate_import_service.py:128-136 | a found row gains the upper-cased county and the municipality of the request where it had none, and changes in nothing else |
| `ElectionResolution.ResolveCreates` | src/voter_api/services/candidate_import_service.py:139-162 | a created row is live, of the date and normalised name, with the given name as source, "general" for a missing type and the county upper-cased |
| `ElectionResolution.ResolveTotal` | src/voter_api/services/candidate_import_service.py:122-136 | with at most one live row per lower-cased name and date, resolution always finds an id and keeps that uniqueness |
| `ElectionResolution.InsertKeepsUniqueIndex` | src/voter_api/services/candidate_import_service.py:146-162 | creating an election never violates the unique index on name and date of live rows |
| `ElectionResolution.CacheStaysCoherent` | src/voter_api/services/candidate_import_service.py:130-165 | every cache entry keeps naming the only match, already backfilled for its county and municipality |
| `ElectionResolution.SameIdIffSameKey` | src/voter_api/services/candidate_import_service.py:114-166 | two lookups of any sequence return the same id exactly when normalised name and date agree |
| `ElectionResolution.ResolvedStays` | src/voter_api/services/candidate_import_service.py:122-166 | once resolved, a name and date keep their single live row through all later lookups |
| `ElectionResolution.ElectionResolver.ResolveElection` | src/voter_api/services/candidate_import_service.py:83-166 | with the cache, a lookup returns the id and leaves the table, backfill included, that it would without |
| `ElectionResolution.ElectionResolver.ResolveEach` | src/voter_api/services/candidate_import_service.py:83-166 | the cache is transparent over any sequence of lookups |
| `CandidateImport.KeepLastDistinct` | src/voter_api/services/candidate_import_service.py:479-483 | de-duplication leaves each (election, name) once and loses none |
| `CandidateImport.KeepLastKeepsLast` | src/voter_api/services/candidate_import_service.py:479-483 | the record kept for a key is its last one |
| `CandidateImport.PreparedStatusLegal` | src/voter_api/services/candidate_import_service.py:435-445 | every prepared record has a filing status the table admits, the line's own when that is legal |
| `CandidateImport.SparseRecordKeeps` | src/voter_api/services/candidate_import_service.py:195-215 | re-importing a key keeps its stored id, a sparse record erases no optional column, and other candidates are untouched |
| `CandidateImport.CandidateWritten` | src/voter_api/services/candidate_import_service.py:195-222 | importing a stored candidate keeps its id, overwrites filing status, incumbency and job, keeps each of seven columns the record lacks, and touches no other; a new one is stored as it is |
| `CandidateImport.CandidacyWritten` | src/voter_api/services/candidate_import_service.py:314-331 | likewise for a candidacy, with six such columns |
| `CandidateImport.ChunkWrites` | src/voter_api/services/candidate_import_service.py:479-520 | after a chunk the candidate and candidacy of every record kept hold its columns, merged in this way into those stored before |
| `CandidateImport.PreparedColumns` | src/voter_api/services/candidate_import_service.py:435-463 | each column of a prepared record is taken from its own field of the line |
| `CandidateImport.LineRead` | src/voter_api/services/candidate_import_service.py:385-453 | a line is an error exactly when it does not parse, has no date or its election is ambiguous; otherwise the record is of the election resolved from its own fields |
| `CandidateImport.UpsertCandidatesKeys` | src/voter_api/services/candidate_import_service.py:195-249 | the upsert adds exactly the imported keys and never changes a stored id |
| `CandidateImport.LinkKeysDistinct` | src/voter_api/services/candidate_import_service.py:297-333 | distinct candidate keys give distinct candidacy keys, so no statement touches a candidacy twice |
| `CandidateImport.EveryRecordLinked` | src/voter_api/services/candidate_import_service.py:479-520 | after a chunk every valid record, duplicates included, has a candidate and a candidacy of that candidate's stored id in that election |
| `CandidateImport.ImportChunkConsistent` | src/voter_api/services/candidate_import_service.py:367-536 | a chunk keeps candidate ids unique, every id from the supply, and every candidate and candidacy in an election of the table |
| `CandidateImport.ResolveRenamed` | src/voter_api/services/candidate_import_service.py:83-166 | resolving the same request in two databases equal up to ids gives corresponding ids and databases equal up to ids |
| `CandidateImport.ImportChunkRenamed` | src/voter_api/services/candidate_import_service.py:367-536 | importing a chunk into two databases equal up to ids leaves them equal up to ids, old correspondences kept |
| `CandidateImportService.LinkAllIsUpsert` | src/voter_api/services/candidate_import_service.py:494-520 | linking record by record is upserting the built candidacy rows |
| `CandidateImportService.RunTallyMeaning` | src/voter_api/services/candidate_import_service.py:367-532 | each chunk adds its lines, those that became no record, and the records left after de-duplication to the counts |
| `CandidateImportService.ImportService.ReadRecords` | src/voter_api/services/candidate_import_service.py:375-477 | the record loop, through the cache, prepares what uncached resolution would; each line is an error or a record |
| `CandidateImportService.ImportService.Deduplicate` | src/voter_api/services/candidate_import_service.py:479-483 | the index dictionary and the sort keep the last record of each key, in order |
| `CandidateImportService.ImportService.UpsertCandidateBatch` | src/voter_api/services/candidate_import_service.py:169-249 | sub-batches equal one record-by-record upsert; stored ids come back in input order; inserted + updated is the number of records |
| `CandidateImportService.ImportService.BuildJunctions` | src/voter_api/services/candidate_import_service.py:489-518 | the id lookup never misses, and the rows point at stored candidate ids |
| `CandidateImportService.ImportService.UpsertCandidacyBatch` | src/voter_api/services/candidate_import_service.py:297-333 | sub-batches of candidacy rows equal one upsert, and none is rejected |
| `CandidateImportService.ImportService.StageChunk` | src/voter_api/services/candidate_import_service.py:367-520 | what one chunk does before its commit is the chunk function, and its counts are the lines read, the lines in error and the records left after de-duplication |
| `CandidateImportService.ImportService.ImportNext` | src/voter_api/services/candidate_import_service.py:534-536 | a chunk and its checkpoint are committed together or not at all, and the committed tables stay those of the straight-through import up to ids |
| `CandidateImportService.ImportService.Process` | src/voter_api/services/candidate_import_service.py:336-576 | a completed call has imported every chunk; its counts are those the straight-through import has on the chunks this call processed |
| `CandidateImportService.ImportService.Attempts` | src/voter_api/services/candidate_import_service.py:336-576 | after any failures and restarts, the final elections, candidates and candidacies equal the straight-through import's up to fresh ids, old rows keeping theirs |
| `AbsenteeImport.UpsertAllLeaves` | src/voter_api/services/absentee_service.py:110-127 | each key ends with the last record's columns and its first ballot style; every undated record is one more row |
| `AbsenteeImport.ConflictKeys` | src/voter_api/services/absentee_service.py:113-122 | two records conflict exactly when both are dated and voter, date and ballot style, "" for none, agree |
| `AbsenteeImport.AcceptedByBlocks` | src/voter_api/services/absentee_service.py:110-122 | a chunk is accepted exactly when no two records of one block of 400 conflict |
| `AbsenteeImport.ReimportRepeatsUndated` | src/voter_api/services/absentee_service.py:113-122 | importing again changes no dated row and repeats every undated one |
| `AbsenteeImport.AbsenteeService.UpsertBatch` | src/voter_api/services/absentee_service.py:88-135 | sub-batches equal one upsert, and fail exactly when one of them lists a key twice |
| `AbsenteeImport.AbsenteeService.Process` | src/voter_api/services/absentee_service.py:138-243 | total = failed + succeeded over the chunks processed; without faults the call completes exactly when no remaining statement lists a key twice |
| `AbsenteeImport.AbsenteeService.Attempts` | src/voter_api/services/absentee_service.py:138-243 | after any failures and restarts a completed import has the table of the straight-through import |
| `Upserts.ApplyAllRow` | src/voter_api/services/election_import_service.py:63-93 | with distinct ids each row is decided by its own record alone |
| `Upserts.NormalizedSameEffect` | src/voter_api/services/election_import_service.py:54-59 | padding records with None keys changes neither what they insert nor what they update under the file's statement |
| `Upserts.FileEqualsSingleRecords` | src/voter_api/services/election_import_service.py:52-80 | a file equals its records upserted one at a time, each under its own keys, exactly when the statement erases no column |
| `Upserts.FileEqualsSingleFiles` | src/voter_api/services/candidate_import_service.py:641-690 | a file equals its records in files of their own exactly when it is skipped as a whole, or it erases no column and none of its new records has no updatable column |
| `Upserts.CandidacyFilesEqualSingleRecords` | src/voter_api/services/candidacy_import_service.py:54-79 | for candidacies the two are always equal |
| `Upserts.UnionOfKeysErases` | src/voter_api/services/election_import_service.py:54-171 | a file of prepared records in which another record's key erases a stored county |
| `Upserts.FitIffPrefixesUnique` | src/voter_api/models/election.py:99-125 | the rows of a file fit the other unique indexes one by one exactly when those indexes hold after every prefix of the file |
| `Upserts.FitKeepsUnique` | src/voter_api/models/election_event.py:51-51 | an accepted file leaves every unique index in force |
| `Upserts.ReimportAccepted` | src/voter_api/models/candidacy.py:78-79 | a file with distinct ids that was accepted is accepted again |
| `Upserts.ExchangeRejected` | src/voter_api/models/election.py:99-105 | a file that exchanges the names of two elections is rejected although its end state would be unique |
| `Upserts.DryRunAgrees` | src/voter_api/services/election_import_service.py:204-217 | the dry run never predicts too few inserts, and predicts them exactly when no new id is listed twice |
| `Upserts.ReimportChangesNothing` | src/voter_api/services/election_event_import_service.py:43-74 | importing the same file again changes no row and inserts none |
| `Upserts.CoalesceColumnHoldsLast` | src/voter_api/services/candidacy_import_service.py:66-79 | over any imports a candidacy or person COALESCE column holds the last non-null value ever imported, or its initial one |
| `Upserts.CuratedColumnHoldsFirst` | src/voter_api/services/election_import_service.py:68-80 | an election's status and type never change once non-null |
| `Upserts.RecordWritten` | src/voter_api/services/election_event_import_service.py:54-61 | with distinct ids every replaced column a record carries ends as its value, NULL included: all of an event's but id and created_at, an election's without status and type, three of a candidacy's, a person's name |
| `Upserts.ReplacedFile` | src/voter_api/services/election_import_service.py:52-80 | a replaced column a record does not carry becomes NULL when the file's statement names it, and stays otherwise |
| `Upserts.ReplacedColumnHoldsLast` | src/voter_api/services/election_import_service.py:52-80 | over any files such a column holds what the last file that writes it says |
| `Upserts.ColumnsKept` | src/voter_api/services/candidacy_import_service.py:66-79 | the columns no conflict clause names stay as they are in a stored row |
| `Upserts.IndexClash` | src/voter_api/models/election.py:99-125 | two rows clash exactly when they agree on both columns of a unique index that covers both |
| `Upserts.DistinctByBlocks` | src/voter_api/services/election_import_service.py:63-83 | every statement lists distinct ids exactly when no two records of one block of 500 have the same |
| `Upserts.UpsertStore.UpsertSubBatch` | src/voter_api/services/election_import_service.py:63-92 | one sub-batch is accepted exactly when its ids are distinct and each row fits the other unique indexes as it is written; then inserted + updated is its size and the indexes stay unique |
| `Upserts.UpsertStore.UpsertBatch` | src/voter_api/services/candidate_import_service.py:622-690 | the import succeeds exactly when no statement lists an id twice and every row fits the other unique indexes, or a person file has nothing to update; it then equals the fold over the records, inserted + updated is their number, and a failed one changes nothing |
| `Upserts.UpsertStore.DryRun` | src/voter_api/services/election_event_import_service.py:157-170 | the two predicted counts add up to the number of records |
| `TotpLogin.RunSound` | src/voter_api/services/auth_service.py:171-191 | in every reachable state fewer than the maximum of failures are counted, and none while locked |
| `TotpLogin.LoginGranted` | src/voter_api/services/auth_service.py:85-205 | a login gets in exactly when the first factor holds and, for a verified credential, a code is given, the key is set and the code passes: an unused recovery code when longer than six characters, else one that is valid, not just used, with the account unlocked |
| `TotpLogin.GrantedLeaves` | src/voter_api/services/auth_service.py:129-201 | an accepted code leaves no failures and no lock, and is remembered or used up |
| `TotpLogin.LoginRefused` | src/voter_api/services/auth_service.py:85-191 | each refusal has exactly its own reason; only a wrong six-digit code leaves a trace, one more failure or a lock of the configured minutes |
| `TotpLogin.AccountAfter` | src/voter_api/services/auth_service.py:753-866 | what enrolment, confirmation, removal and unlocking leave of the account, and when a confirmation succeeds |
| `TotpLogin.FailureBound` | src/voter_api/services/auth_service.py:142-191 | from any reachable state, a stretch of length T without accepted login, unlock or re-enrolment has at most M * (floor(T / L) + 1) failed login verifications |
| `TotpLogin.ConfirmationsUncounted` | src/voter_api/services/auth_service.py:820-822 | any number of failed confirmations leaves the account as it is and counts no failure |
| `TotpLogin.BoundReached` | src/voter_api/services/auth_service.py:142-191 | the bound is attained: over n full lockouts M * (n + 1) failures do happen |
| `TotpLogin.BurstLocks` | src/voter_api/services/auth_service.py:171-184 | the failures left before the limit are all counted and the last one locks the account and resets the counter |
| `TotpLogin.RunMemory` | src/voter_api/services/auth_service.py:194-197 | after every run the credential holds exactly the last code accepted since enrolment or removal, and its time |
| `TotpLogin.ReplayedExactly` | src/voter_api/services/auth_service.py:159-197 | after any run a valid code is refused as replayed exactly when it is the last code accepted, at most 30 seconds ago; otherwise it is accepted |
| `TotpLogin.ReplaySpacing` | src/voter_api/services/auth_service.py:159-197 | two acceptances of one code with no other code accepted between are more than 30 seconds apart, across recovery logins, lockouts and unlocks |
| `TotpLogin.AcceptedTwice` | src/voter_api/services/auth_service.py:159-169 | a code is accepted again after a different one at once, and by itself after 31 seconds |
| `TotpLogin.RedeemUsesOne` | src/voter_api/services/auth_service.py:129-133 | a recovery login uses up exactly one row of its code and none of another |
| `TotpLogin.RecoveryCodesConserved` | src/voter_api/services/auth_service.py:111-135 | over any run without re-enrolment unused rows plus recovery logins equal unused rows before plus codes handed out, per code and in all; ten rows per confirmation; used rows stay used |
| `TotpLogin.RedeemedAtMostAsIssued` | src/voter_api/services/auth_service.py:795-838 | since enrolment a code is redeemed at most as often as it was handed out, and there are ten rows per confirmation |
| `TotpLogin.TotpService.RedeemRecoveryCode` | src/voter_api/services/auth_service.py:113-133 | the loop marks the first unused matching row of that user, and reports whether there was one |
| `TotpLogin.TotpService.AuthenticateUser` | src/voter_api/services/auth_service.py:61-205 | the branches of the login compute the step function of the run theorems, for one user only |
| `TotpLogin.TotpService.EnrollTotp` | src/voter_api/services/auth_service.py:753-792 | enrolment discards credential and codes and leaves an unverified credential |
| `TotpLogin.TotpService.ConfirmTotp` | src/voter_api/services/auth_service.py:795-838 | a valid code verifies the credential and adds ten unused rows, also when it was verified before; an invalid one changes nothing |
| `TotpLogin.TotpService.DisableTotp` | src/voter_api/services/auth_service.py:841-851 | credential and codes of that user are gone, other users unchanged |
| `TotpLogin.TotpService.UnlockTotp` | src/voter_api/services/auth_service.py:854-866 | lock and counter are cleared, the remembered code stays |
| `TotpLogin.TotpService.RecoveryCodeCount` | src/voter_api/services/auth_service.py:869-885 | the count is the number of unused rows |
| `ResetAndInvite.RunSound` | src/voter_api/services/auth_service.py:335-688 | in every reachable state a user has at most one reset token, of an existing user, and emails, usernames and invite tokens are unique |
| `ResetAndInvite.ResetRequested` | src/voter_api/services/auth_service.py:353-406 | a known user without a reset in the configured minutes gets a token for 24 hours in place of all earlier ones, when the mail is delivered |
| `ResetAndInvite.ResetConfirmed` | src/voter_api/services/auth_service.py:433-456 | a token sets the password exactly when it is stored, unused, unexpired and its user exists, and is then used up |
| `ResetAndInvite.InviteRequested` | src/voter_api/services/auth_service.py:490-526 | an invite is sent exactly when no user has the email and the mail is delivered |
| `ResetAndInvite.ResendRequested` | src/voter_api/services/auth_service.py:590-625 | exactly a pending invite is sent again, expired or not |
| `ResetAndInvite.InviteAccepted` | src/voter_api/services/auth_service.py:650-688 | a pending, unexpired invite creates its user exactly when username and email are free |
| `ResetAndInvite.Removed` | src/voter_api/services/auth_service.py:556-570 | a cancelled invite and a deleted user with its tokens are gone, and nothing else |
| `ResetAndInvite.ResetsSpaced` | src/voter_api/services/auth_service.py:361-373 | tokens issued to one user are at least the rate limit apart, whatever happens between |
| `ResetAndInvite.ResetGoesToOwner` | src/voter_api/services/auth_service.py:353-406 | a reset goes to the one user with the requested email, replaces that user's tokens only, and otherwise leaves every token |
| `ResetAndInvite.ResetTokenLifetime` | src/voter_api/services/auth_service.py:415-456 | a token changes only the password of the user it was sent to, and only within 24 hours |
| `ResetAndInvite.ResetTokenSpent` | src/voter_api/services/auth_service.py:436-455 | a token that changed a password, or that a newer one replaced, never changes one again |
| `ResetAndInvite.PasswordsChangeByToken` | src/voter_api/services/auth_service.py:447-456 | of all these operations only a confirmed reset changes an existing user's row, and only the password |
| `ResetAndInvite.InviteSentRow` | src/voter_api/services/auth_service.py:467-625 | a sent or resent invite is pending under its new token for seven days, with the email and role it was asked for |
| `ResetAndInvite.InviteCreatesOneUser` | src/voter_api/services/auth_service.py:628-688 | each invite creates at most one user, however often it is resent |
| `ResetAndInvite.UserCreatedRow` | src/voter_api/services/auth_service.py:650-688 | the invite was pending and unexpired, the new user has its email and role, and the invite is closed |
| `ResetAndInvite.ResentTokenDead` | src/voter_api/services/auth_service.py:573-625 | after an invite is resent its previous token never creates a user |
| `ResetAndInvite.InviteTokenLifetime` | src/voter_api/services/auth_service.py:603-664 | an invite token creates a user for its own invite only, and only within seven days of being sent |
| `ResetAndInvite.TokenService.RequestPasswordReset` | src/voter_api/services/auth_service.py:335-412 | unknown email, rate limit, failed delivery and success, each with its whole new state |
| `ResetAndInvite.TokenService.ConfirmPasswordReset` | src/voter_api/services/auth_service.py:415-461 | invalid, used, expired and valid tokens, each with its whole new state |
| `ResetAndInvite.TokenService.SendInvite` | src/voter_api/services/auth_service.py:467-526 | a registered email or failed delivery persists nothing |
| `ResetAndInvite.TokenService.Resend` | src/voter_api/services/auth_service.py:573-625 | an accepted or missing invite or failed delivery leaves the invite as it was |
| `ResetAndInvite.TokenService.Accept` | src/voter_api/services/auth_service.py:628-688 | a taken username or email, or an invalid or expired token, changes nothing |
| `RateLimit.KeptIsRecent` | src/voter_api/api/middleware.py:118-131 | the pruned list is the recent end of the full record of passed requests |
| `RateLimit.PassesIffRoom` | src/voter_api/api/middleware.py:115-132 | a request passes exactly when fewer than the limit of its client's requests passed in (now - 60, now] |
| `RateLimit.UnlimitedPasses` | src/voter_api/api/middleware.py:115-116 | without a positive limit every request passes |
| `RateLimit.WindowBound` | src/voter_api/api/middleware.py:115-132 | no half-open window of 60 seconds holds more than the limit of passed requests of one client |
| `RateLimit.BackwardClock` | src/voter_api/api/middleware.py:118-122 | under any limit of two or more, one step back of the clock by any amount up to a minute lets one request more than the limit into a window |
| `RateLimit.BoundedOnClockIff` | src/voter_api/api/middleware.py:115-132 | the bound holds on every clock that steps back by at most d exactly when d is not positive or the limit is one |
| `RateLimit.OneAtATime` | src/voter_api/api/middleware.py:115-132 | under a limit of one no window holds two passed requests, on any clock |
| `RateLimit.BoundedOnAnyClockIffOne` | src/voter_api/api/middleware.py:115-132 | the bound holds for all arrival times, in any order, exactly when the limit is one |
| `RateLimit.RateLimitMiddleware.Dispatch` | src/voter_api/api/middleware.py:104-133 | under any interleaving each client is served as if it were alone |
| `RegistrationMigration.RewriteIsNormalize` | src/voter_api/lib/normalize.py:24-24 | the SQL rewrite equals the library's normalisation exactly on non-empty numbers |
| `RegistrationMigration.NormalizeMeaning` | src/voter_api/lib/normalize.py:8-24 | zeros and the empty number become "0", every other number loses its leading zeros and nothing else |
| `RegistrationMigration.CollideMeaning` | alembic/versions/030_normalize_voter_registration_numbers.py:66-84 | voters collide exactly when two of them have numbers that differ in leading zeros at most |
| `RegistrationMigration.DeleteLeavesOnePerClass` | alembic/versions/030_normalize_voter_registration_numbers.py:36-46 | after the DELETE no two rows of one election differ only in leading zeros |
| `RegistrationMigration.ClassSurvives` | alembic/versions/030_normalize_voter_registration_numbers.py:36-46 | every class of numbers keeps a row, one with the shortest number |
| `RegistrationMigration.UpdateKeepsUnique` | alembic/versions/030_normalize_voter_registration_numbers.py:49-58 | in whatever order the UPDATE visits the rows, the unique key holds after each |
| `RegistrationMigration.EachKeySurvivesOnce` | alembic/versions/030_normalize_voter_registration_numbers.py:36-58 | every normalised key present before is present exactly once afterwards, and non-empty numbers are normalised |
| `RegistrationMigration.MigrationIdempotent` | alembic/versions/030_normalize_voter_registration_numbers.py:30-58 | migrating again changes nothing |
| `RegistrationMigration.JoinsAfterwards` | alembic/versions/030_normalize_voter_registration_numbers.py:30-94 | afterwards non-empty numbers of the two tables join exactly when they differ in leading zeros only |
| `RegistrationMigration.EmptyNumberWins` | alembic/versions/030_normalize_voter_registration_numbers.py:36-58 | an empty number displaces a row "0" of the same election and is not rewritten |
| `RegistrationMigration.Migration.Upgrade` | alembic/versions/030_normalize_voter_registration_numbers.py:30-94 | the migration raises exactly when voter numbers collide, changing nothing; otherwise both tables are rewritten without a violation |
| `Agenda.ListingUnique` | src/voter_api/services/agenda_item_service.py:33-61 | the listing by display order is determined by the table |
| `Agenda.ListingHolds` | src/voter_api/services/agenda_item_service.py:51-59 | the listing holds each item of the meeting that is not deleted, once, and nothing else |
| `Agenda.CompleteMeaning` | src/voter_api/services/agenda_item_service.py:283-302 | a request is complete exactly when it names each item of the listing once |
| `Agenda.ReorderedListing` | src/voter_api/services/agenda_item_service.py:304-313 | a reorder makes the listing exactly the given ids at orders 10, 20, ..., keeps every other field and item, and keeps orders distinct, so a check at commit would accept every complete request |
| `Agenda.DenseAgendaCannotBeReordered` | src/voter_api/services/agenda_item_service.py:304-308 | when the orders are already 10, 20, ..., the flush accepts only the order the items are in |
| `Agenda.SwapRejected` | src/voter_api/services/agenda_item_service.py:261-308 | two items at 10 and 20 cannot be swapped |
| `Agenda.NoLaterHolder` | src/voter_api/services/agenda_item_service.py:304-308 | a flushed row clashes exactly when a later one still holds its new order |
| `Agenda.AppendedLast` | src/voter_api/services/agenda_item_service.py:147-169 | an item with a higher order than all others comes last in the listing, the rest unchanged |
| `Agenda.AgendaService.CreateItem` | src/voter_api/services/agenda_item_service.py:125-177 | without an order the item goes strictly last; with one it is refused exactly when the order is taken; a refusal changes nothing; orders stay distinct and non-negative |
| `Agenda.AgendaService.DeleteItem` | src/voter_api/services/agenda_item_service.py:215-258 | exactly an active item of the meeting is marked deleted |
| `Agenda.AgendaService.Flush` | src/voter_api/services/agenda_item_service.py:304-308 | the row-by-row flush succeeds exactly when no item takes the order of one flushed later, and then reaches the requested state |
| `Agenda.AgendaService.ReorderItems` | src/voter_api/services/agenda_item_service.py:261-313 | succeeds exactly for an existing meeting, a complete request and a flush without clash; otherwise nothing changes |
| `Agenda.AgendaService.ListItems` | src/voter_api/services/agenda_item_service.py:33-61 | the listing holds exactly the active items, by strictly increasing order |
| `TaskRunner.RunSound` | src/voter_api/core/background.py:67-107 | in every interleaving held and free permits add up to two, at most two coroutines run, statuses match, and no permit lies free while a waiter is forgotten |
| `TaskRunner.NeverStuck` | src/voter_api/core/background.py:93-104 | while a job is unfinished some step is possible |
| `TaskRunner.RunInOrder` | src/voter_api/core/background.py:67-95 | in every interleaving permits go to the waiters in the order in which they arrived |
| `TaskRunner.RunOnward` | src/voter_api/core/background.py:91-104 | over any run a status only moves PENDING, RUNNING, then COMPLETED or FAILED, and stays there |
| `TaskRunner.RunOutcome` | src/voter_api/core/background.py:96-104 | over any run a job becomes COMPLETED exactly by its coroutine returning and FAILED exactly by its raising |
| `TaskRunner.TwoAtATime` | src/voter_api/core/background.py:67-79 | running coroutines, grants and free permits are two in all |
| `TaskRunner.PerformOnward` | src/voter_api/core/background.py:91-104 | a step advances the status of its own job by one stage at most and no other status |
| `TaskRunner.StartsOnce` | src/voter_api/core/background.py:93-98 | each coroutine starts at most once, and exactly those started run or have run |
| `TaskRunner.InProcessTaskRunner.SubmitTask` | src/voter_api/core/background.py:82-107 | a submitted job is PENDING and not started |
| `TaskRunner.InProcessTaskRunner.BeginTask` | src/voter_api/core/background.py:93-96 | a job enters when a permit is free and nobody queues, and queues otherwise |
| `TaskRunner.InProcessTaskRunner.ResumeTask` | src/voter_api/core/background.py:93-98 | a granted waiter leaves the queue, hands on what is free and starts its coroutine |
| `TaskRunner.InProcessTaskRunner.FinishTask` | src/voter_api/core/background.py:96-104 | the result fixes the status and the permit goes to the first waiter |
| `FormatMigration.LinesKept` | src/voter_api/cli/convert_cmd.py:381-448 | the line count is kept exactly when the scanner drops no line; then each line goes to its own place, treated by its kind alone |
| `FormatMigration.RegularLinesKept` | src/voter_api/cli/convert_cmd.py:423-428 | in files without header-like rows the line count is kept exactly when each header but a last line is followed by a line starting with a bar |
| `FormatMigration.LineLost` | src/voter_api/cli/convert_cmd.py:423-430 | a line that follows a header without a bar is missing from the result |
| `FormatMigration.ReduceEmits` | src/voter_api/cli/convert_cmd.py:395-446 | the scanner treats each line by its place alone: outside, header, separator or row of a table |
| `FormatMigration.TableReduced` | src/voter_api/cli/convert_cmd.py:398-444 | a table is its header, a separator starting with a bar and the rows up to the first line that is none; each is rewritten by the header's columns, and the lines after it are scanned anew |
| `FormatMigration.LinesBefore` | src/voter_api/cli/convert_cmd.py:395-446 | lines before the first table are copied |
| `FormatMigration.HeaderMeaning` | src/voter_api/cli/convert_cmd.py:399-399 | a line opens a table exactly when it has a bar and mentions Candidate, Email and Website |
| `FormatMigration.RowMeaning` | src/voter_api/cli/convert_cmd.py:432-432 | a line is a row exactly when it starts with a bar and has more than white space after it |
| `MarkdownText.CellsOfLine` | src/voter_api/cli/convert_cmd.py:436-440 | reading back a written row gives the cells it was written from |
| `MarkdownText.UnterminatedCell` | src/voter_api/cli/convert_cmd.py:436-437 | a text after the last bar of a written row is not among its cells, and the cells are all the row holds exactly when that text is blank |
| `MarkdownText.WholeIffNoTail` | src/voter_api/cli/convert_cmd.py:436-437 | for every line that starts with a bar, the cells read from it are all it holds, empty ones aside, exactly when nothing follows its last bar |
| `FormatMigration.RowProjected` | src/voter_api/cli/convert_cmd.py:431-441 | a row of seven or more cells reads back without the two positions taken from the header, as far as it reaches them |
| `FormatMigration.ColumnsDropped` | src/voter_api/cli/convert_cmd.py:400-441 | the rows of n cells, n at least seven, lose the cells of the header's Email and Website columns exactly when no empty header cell stands left of either, or the position taken lies beyond the row |
| `FormatMigration.EmptyHeaderCellShifts` | src/voter_api/cli/convert_cmd.py:400-441 | under a header with an empty second cell the rows lose status and email and keep the website |
| `FormatMigration.HeaderProjected` | src/voter_api/cli/convert_cmd.py:401-420 | the new header reads back as the old cells without Email and Website, in order, with Qualified renamed |
| `FormatMigration.HeaderRead` | src/voter_api/cli/convert_cmd.py:401-420 | a header reads back without its first cells Email and Website, whichever it has, and with Qualified renamed |
| `FormatMigration.SeparatorRead` | src/voter_api/cli/convert_cmd.py:423-428 | a separator reads back without the two positions taken from the header |
| `FormatMigration.RowKept` | src/voter_api/cli/convert_cmd.py:438-442 | a written row is kept as it is exactly when it has fewer than seven cells, the header lacks a column, or the row reaches neither position |
| `FormatMigration.RewrittenRowWhole` | src/voter_api/cli/convert_cmd.py:436-440 | a rewritten row keeps every non-empty cell outside the two positions exactly when nothing follows its last bar, or what follows stands at one of the two positions |
| `FormatMigration.RowPartsAreAll` | src/voter_api/cli/convert_cmd.py:436-437 | the cells of a row and the text after its last bar are together all it holds, empty ones aside |
| `FormatMigration.UnclosedRow` | src/voter_api/cli/convert_cmd.py:436-442 | without its closing bar a row of up to seven cells is kept as it is, and a longer one reads back without its last cell and the two positions |
| `FormatMigration.RowAndHeaderAgree` | src/voter_api/cli/convert_cmd.py:410-442 | a rewritten row has as many cells as its rewritten header exactly when the table has seven columns or more |
| `FormatMigration.RowNotHeader` | src/voter_api/cli/convert_cmd.py:431-442 | a rewritten row is not taken for a header when its line was not |
| `FormatMigration.SeparatorNotHeader` | src/voter_api/cli/convert_cmd.py:423-428 | a rewritten separator is not taken for a header when its line was not |
| `FormatMigration.ReduceIdempotent` | src/voter_api/cli/convert_cmd.py:381-448 | for tables with one Email cell and no header-like row, reducing twice is reducing once |
| `MarkdownText.MatchesIffCell` | src/voter_api/cli/convert_cmd.py:176-178 | the version pattern matches in a line exactly when "Format Version" is one of its cells |
| `FormatMigration.VersionRowSurvives` | src/voter_api/cli/convert_cmd.py:297-326 | the inserted version row survives the table reduction wherever it was inserted |
| `FormatMigration.SingleAndOverviewMigrated` | src/voter_api/cli/convert_cmd.py:225-326 | a migrated overview or single-contest file is recognised as migrated, whatever it held |
| `FormatMigration.MultiMigrated` | src/voter_api/cli/convert_cmd.py:345-378 | a migrated county file is recognised when its metadata table is not on the first line |
| `MarkdownText.LineCellInContent` | src/voter_api/cli/convert_cmd.py:176-178 | a line that matches the version pattern makes the text match |
| `MarkdownText.PartOfLine` | src/voter_api/cli/convert_cmd.py:176-178 | a stripped part of the text that has no line break is a stripped part of one of its lines |
| `FormatMigration.ReducedRecognised` | src/voter_api/cli/convert_cmd.py:381-448 | some line of a reduced file matches the pattern exactly when some line has "Format Version" where the reduction keeps it; the file is recognised then, and only then unless a line has these words before its first or after its last bar |
| `FormatMigration.MultiRecognised` | src/voter_api/cli/convert_cmd.py:345-378 | a migrated county file has a matching line exactly when its metadata table is below the first line, or a line or an inferred seat line keeps such a cell; it is recognised then, and only then unless a line has the words before its first or after its last bar |
| `FormatMigration.MatchAcrossBreak` | src/voter_api/cli/convert_cmd.py:176-178 | the pattern matches across a line break |
| `FormatMigration.UnversionedMulti` | src/voter_api/cli/convert_cmd.py:345-378 | when neither the lines mention "Format Version" nor the inferred seats of its headings "Version", a migrated county file is recognised exactly when its metadata table is below the first line |
| `FormatMigration.MetadataAtTop` | src/voter_api/cli/convert_cmd.py:345-358 | a county file that starts with its metadata table stays unrecognised |
| `FormatMigration.SingleLayout` | src/voter_api/cli/convert_cmd.py:294-326 | the five rows go below the separator of the metadata table, or into a new table below the title |
| `FormatMigration.OverviewLayout` | src/voter_api/cli/convert_cmd.py:253-273 | an overview gains its metadata section at the place found |
| `FormatMigration.MultiLayout` | src/voter_api/cli/convert_cmd.py:351-358 | a county file gains two rows below the separator of a metadata table that is not at the top |
| `FormatMigration.SeatsBelowHeadings` | src/voter_api/cli/convert_cmd.py:360-376 | below each contest heading stand an empty line and the body and seat inferred from its text |
| `FormatMigration.StrictMetaMeaning` | src/voter_api/cli/convert_cmd.py:346-349 | the county test wants the whole heading of the metadata table |
| `FormatMigration.LooseMetaMeaning` | src/voter_api/cli/convert_cmd.py:289-292 | the single-contest test wants its two words, the first after a bar |
| `FormatMigration.SectionMeaning` | src/voter_api/cli/convert_cmd.py:246-251 | a section starts with two hashes, or is a table line that mentions Date |
| `FormatMigration.ReduceCandidateTableColumns` | src/voter_api/cli/convert_cmd.py:381-448 | the index-driven loops compute the line-by-line scanner |
| `FormatMigration.MigrateMultiContest` | src/voter_api/cli/convert_cmd.py:329-378 | the first matching line is taken for the metadata table, and every contest heading gets its body and seat |
| `FormatMigration.MigrateSingleContest` | src/voter_api/cli/convert_cmd.py:276-326 | the first matching line is taken for the metadata table, and the result is recognised as migrated |
| `FormatMigration.MigrateOverviewFile` | src/voter_api/cli/convert_cmd.py:225-273 | the metadata goes before the first section or date table after the title, or after the title |
| `Prelude.AcceptedIffDistinct` | src/voter_api/services/candidate_import_service.py:208-224 | a statement is accepted by PostgreSQL's rule exactly when its conflict keys are distinct |

## Left out

- Geometry, the spatial comparator, geocoding, mail delivery, password hashing and the TOTP library: their results are inputs.
- SHA-256 is taken to be injective, and random tokens and UUIDs never to repeat.
- Text: names, filenames and markdown are ASCII; lower and upper case are ASCII mappings.
- `_prepare_record` and the parsers: records arrive prepared, lines parsed or marked as errors.
- Server defaults, NOT NULL, CHECK and foreign-key constraints of the upserted tables: every column is optional, and a row is refused for its unique indexes only.
- Chunks, and so the file and the batch size, are the same in all attempts of an import, although the checkpoint is a chunk index and a rerun could be given others.
- Candidate website links and candidate rows without an election: they are not in the tables of the candidate import.
- A database error inside election resolution is caught and recorded by the source, but leaves the transaction unusable, so the model lets it fail the chunk.
- Contents of `error_log`, log messages and timestamps such as started_at.
- Counters of a resumed import restart at zero in the source; they are stated per call only.
- The time of a reset row is the time of the request, not the start of its transaction.
- Other writers of users, elections and voters between the modelled calls; sessions run one after another.
- Client address detection behind proxies: the limiter is given the address.
- Agenda children: the soft delete of attachments and video embeds, item updates and child counts.
- Cancellation of background tasks and several event loops; the semaphore is the one of Python 3.13.
- `_extract_metadata_value`, `_write_metadata_value`, file type detection and body or seat inference.
- FormatMigration.ReducedRecognised: where a line has the words "Format Version" before its first or after its last bar, it is not said whether they match together with a bar of a neighbouring line.
- FormatMigration.MultiRecognised: the same for the lines of a county file.
- Agenda.AgendaService.CreateItem: takes orders that the request schema admits, which are not negative.
- Passkeys, sessions and JWT, list and filter queries, the other migrations, seeding and publishing: they would add easy members.
