/**
  The recruiter's table of their own jobs: a search box narrows it by title
  or company name, and a delete action guarded against repeated clicks.
*/
module AdminJobsTable {
  import opened Wrappers
  import opened Text
  import opened Seqs

  /** A row of the table: the job's id, title and company name, any of the last two possibly missing. */
  datatype AdminJob = AdminJob(id: string, title: Option<string>, companyName: Option<string>)

  /** `job?.title?.toLowerCase().includes(t) || job?.company?.name?.toLowerCase().includes(t)`, with `t` the lower-cased text. */
  predicate Hit(job: AdminJob, text: string) {
    || (job.title.Some? && Contains(Lower(job.title.value), Lower(text)))
    || (job.companyName.Some? && Contains(Lower(job.companyName.value), Lower(text)))
  }

  /** The rows shown: the filter keeps every row while the search text is falsy, else the rows it hits. */
  function FilteredJobs(allAdminJobs: seq<AdminJob>, searchText: Option<string>): seq<AdminJob> {
    Keep(allAdminJobs, job => !Given(searchText) || Hit(job, searchText.value))
  }

  /**
    Without search text the table shows every row in order; with it, exactly the
    rows whose title or company name contains the text, ignoring case, in order.
  */
  lemma FilteredJobsExactly(allAdminJobs: seq<AdminJob>, searchText: Option<string>)
    ensures !Given(searchText) ==> FilteredJobs(allAdminJobs, searchText) == allAdminJobs
    ensures Given(searchText) ==>
      && IsSubsequence(FilteredJobs(allAdminJobs, searchText), allAdminJobs)
      && forall job :: multiset(FilteredJobs(allAdminJobs, searchText))[job]
          == if Hit(job, searchText.value) then multiset(allAdminJobs)[job] else 0
  {
    var keep := job => !Given(searchText) || Hit(job, searchText.value);
    KeepExactly(allAdminJobs, keep);
    if !Given(searchText) {
      KeepAll(allAdminJobs, keep);
    }
  }

  /** A row with neither title nor company name is hidden by any search. */
  lemma UntitledRowsHidden(job: AdminJob, searchText: Option<string>)
    requires job.title.None? && job.companyName.None?
    requires Given(searchText)
    ensures FilteredJobs([job], searchText) == []
  {
    assert !Hit(job, searchText.value);
    assert [job][1..] == [];
  }

  /** White space is not trimmed: the search " " hides a row titled "dev" of company "acme". */
  lemma SpaceIsASearch()
    ensures FilteredJobs([AdminJob("1", Some("dev"), Some("acme"))], Some(" ")) == []
  {
    var job := AdminJob("1", Some("dev"), Some("acme"));
    assert Lower(" ") == " " && Lower("dev") == "dev" && Lower("acme") == "acme";
    assert !Contains("dev", " ") by {
      forall i | 0 <= i <= |"dev"| ensures !OccursAt("dev", " ", i) {
        if i < 3 { assert "dev"[i..i + 1][0] != ' '; }
      }
    }
    assert !Contains("acme", " ") by {
      forall i | 0 <= i <= |"acme"| ensures !OccursAt("acme", " ", i) {
        if i < 4 { assert "acme"[i..i + 1][0] != ' '; }
      }
    }
    assert !Hit(job, " ");
    assert [job][1..] == [];
  }

  /** What the delete request came back with. */
  datatype DeleteReply =
    | Succeeded     // the answer's `success` flag is set
    | Unsuccessful  // an answer without `success`
    | Failed        // the request threw

  /** The delete action's state: the job being deleted, and the `deleteJobById` actions sent to the store. */
  class DeleteGuard {
    var deletingJobId: Option<string>
    var dispatched: seq<string>

    constructor ()
      ensures deletingJobId == None && dispatched == []
    {
      deletingJobId := None;
      dispatched := [];
    }

    /**
      A click on the delete action of `jobId`. It is ignored while that job is
      being deleted; otherwise `confirmed` is the answer to the confirmation
      dialog, and a yes marks the job as being deleted (the request goes out).
    */
    method Click(jobId: string, confirmed: bool) returns (started: bool)
      modifies this
      ensures started <==> old(deletingJobId) != Some(jobId) && confirmed
      ensures deletingJobId == if started then Some(jobId) else old(deletingJobId)
      ensures dispatched == old(dispatched)
    {
      started := false;
      if deletingJobId == Some(jobId) {
        return;
      }
      if !confirmed {
        return;
      }
      deletingJobId := Some(jobId);
      started := true;
    }

    /** The request for `jobId` came back: on success the store is told to drop the job; in every case the mark is cleared. */
    method Finish(jobId: string, reply: DeleteReply)
      modifies this
      ensures deletingJobId == None
      ensures dispatched == old(dispatched) + (if reply == Succeeded then [jobId] else [])
    {
      if reply == Succeeded {
        dispatched := dispatched + [jobId];
      }
      deletingJobId := None;
    }
  }

  /**
    The mark holds one job only: while `a` is being deleted a click on another
    job `b` goes through, and when `a` comes back the mark is cleared although
    `b` is still being deleted, so `b` can be clicked again.
  */
  method OverlappingDeletes(guard: DeleteGuard, a: string, b: string) returns (again: bool)
    requires a != b && guard.deletingJobId == None
    modifies guard
    ensures again && guard.deletingJobId == Some(b)
  {
    var first := guard.Click(a, true);
    var second := guard.Click(b, true);
    guard.Finish(a, Failed);
    again := guard.Click(b, true);
  }
}
