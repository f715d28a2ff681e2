/**
  The job list page: it shows the jobs of the client store, narrowed by the
  store's `searchedQuery` to those whose title, description or location
  contains it, ignoring case.
*/
module JobsView {
  import opened Wrappers
  import opened Text
  import opened Seqs

  /** A job of the client store, as the server sent it; the searched fields may be missing. */
  datatype ListedJob = ListedJob(id: string, title: Option<string>, description: Option<string>, location: Option<string>)

  /** The store's `searchedQuery`: missing, a string, or an object (the filter card publishes one). */
  datatype Query = Nullish | QueryString(s: string) | QueryObject

  /** `String(searchedQuery || '')`: missing is "", an object converts to "[object Object]". */
  function QueryText(q: Query): string {
    match q
    case Nullish => ""
    case QueryString(s) => s
    case QueryObject => "[object Object]"
  }

  /** `String(field || '').toLowerCase()`. */
  function FieldText(f: Option<string>): string {
    Lower(f.GetOr(""))
  }

  /** The lower-cased query occurs in the job's lower-cased title, description or location. */
  predicate Mentions(job: ListedJob, query: string) {
    || Contains(FieldText(job.title), query)
    || Contains(FieldText(job.description), query)
    || Contains(FieldText(job.location), query)
  }

  /** The list the page shows: everything for a blank query, else the jobs that mention the (untrimmed) query. */
  function VisibleJobs(allJobs: seq<ListedJob>, searched: Query): seq<ListedJob> {
    var query := Lower(QueryText(searched));
    if Trim(query) != "" then Keep(allJobs, job => Mentions(job, query)) else allJobs
  }

  /**
    A blank query (missing, empty or white space only) shows the list as it is;
    any other query shows, in their order, exactly the jobs that mention it,
    each as often as it occurs in the list.
  */
  lemma VisibleJobsExactly(allJobs: seq<ListedJob>, searched: Query)
    ensures IsBlank(QueryText(searched)) ==> VisibleJobs(allJobs, searched) == allJobs
    ensures !IsBlank(QueryText(searched)) ==>
      var query := Lower(QueryText(searched));
      && IsSubsequence(VisibleJobs(allJobs, searched), allJobs)
      && forall job :: multiset(VisibleJobs(allJobs, searched))[job]
          == if Mentions(job, query) then multiset(allJobs)[job] else 0
  {
    var query := Lower(QueryText(searched));
    LowerIdempotentKeepsSpace(QueryText(searched));
    TrimEmptyIffBlank(query);
    KeepExactly(allJobs, job => Mentions(job, query));
  }

  /** A missing query and an empty store give the obvious lists. */
  lemma NullishAndEmpty(allJobs: seq<ListedJob>, searched: Query)
    ensures VisibleJobs(allJobs, Nullish) == allJobs
    ensures VisibleJobs([], searched) == []
  {
    assert Lower("") == "";
  }

  /** A missing field reads as "", which contains no non-empty query; a job missing all three is hidden by any non-blank query. */
  lemma MissingFieldsNeverMatch(job: ListedJob, f: Option<string>, searched: Query)
    ensures f.None? ==> forall q :: q != "" ==> !Contains(FieldText(f), q)
    ensures job.title.None? && job.description.None? && job.location.None? && !IsBlank(QueryText(searched))
        ==> VisibleJobs([job], searched) == []
  {
    assert FieldText(None) == "";
    forall q | q != "" ensures !Contains("", q) {
      ContainsEmpty("", q);
    }
    var query := Lower(QueryText(searched));
    LowerIdempotentKeepsSpace(QueryText(searched));
    TrimEmptyIffBlank(query);
    if !IsBlank(QueryText(searched)) {
      assert query != "";
      ContainsEmpty("", query);
      if job.title.None? && job.description.None? && job.location.None? {
        assert !Mentions(job, query);
        assert [job][1..] == [];
      }
    }
  }

  /** The query is trimmed only for the blank test: " dev" does not find a job titled "dev". */
  lemma QueryNotTrimmedForMatching()
    ensures VisibleJobs([ListedJob("1", Some("dev"), None, None)], QueryString(" dev")) == []
  {
    var query := Lower(" dev");
    assert query == " dev";
    assert Trim(query) != "" by {
      TrimEmptyIffBlank(query);
      assert !IsSpace(query[1]);
    }
    assert !Contains("dev", query);
    ContainsEmpty("", query);
  }

  /** An object as query, such as the filter card's selection, becomes "[object object]": only a job mentioning that text stays. */
  lemma ObjectQueryHidesJobs(allJobs: seq<ListedJob>)
    ensures forall job :: job in VisibleJobs(allJobs, QueryObject) <==> job in allJobs && Mentions(job, "[object object]")
  {
    var query := Lower(QueryText(QueryObject));
    assert query == "[object object]";
    TrimEmptyIffBlank(query);
    assert !IsSpace(query[0]);
    forall job ensures job in VisibleJobs(allJobs, QueryObject) <==> job in allJobs && Mentions(job, query) {
      KeepMembership(allJobs, j => Mentions(j, query), job);
    }
  }
}
