/** The job row of a chunked import. `src/voter_api/models/import_job.py`, lines 16-39. */
module ImportJobs {
  import opened Prelude

  datatype JobStatus = Pending | Running | Completed | Failed

  datatype JobCounts = JobCounts(total: nat, succeeded: nat, failed: nat, inserted: nat, updated: nat)

  /** `offset` is the checkpoint: the number of chunks committed. */
  datatype Job = Job(status: JobStatus, offset: nat, counts: Option<JobCounts>)
}
