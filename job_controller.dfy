/**
  The job handlers of the server: creating, listing, updating and deleting
  job postings. The document collection is a map from job id to record,
  held by the `JobStore` class; each handler is a method on it that returns
  the outcome it answers with (whose HTTP status is `StatusCode`).
*/
module JobController {
  import opened Wrappers
  import opened Text

  type JobId = nat
  type UserId = string

  /** A request-body value that a handler reads as a number: JSON may carry it as text or as a number. */
  datatype Value = Undefined | Null | Str(s: string) | Num(n: int)

  /** JavaScript truthiness of such a value: `undefined`, `null`, `""` and `0` are falsy. */
  predicate Truthy(v: Value) {
    match v
    case Undefined => false
    case Null => false
    case Str(s) => s != ""
    case Num(n) => n != 0
  }

  /** The result of JavaScript's `Number(...)`, with integers standing for the finite numbers. */
  datatype JsNumber = NaN | Finite(value: int)

  /** A number that passes `!(isNaN(x) || x <= 0)`. */
  predicate IsPositive(x: JsNumber) {
    x.Finite? && x.value > 0
  }

  /** Value of a run of decimal digits. */
  function DigitsValue(d: string): nat
    requires AllDigits(d)
    decreases |d|
  {
    if d == [] then 0 else 10 * DigitsValue(d[..|d| - 1]) + (d[|d| - 1] as int - '0' as int)
  }

  /** A non-empty run of decimal digits read as a number; anything else is NaN. */
  function ParseDigits(d: string): JsNumber {
    if d != [] && AllDigits(d) then Finite(DigitsValue(d)) else NaN
  }

  /** `Number` of an already trimmed string: empty is 0, otherwise an optional sign and decimal digits. */
  function ParseNumber(t: string): JsNumber {
    if t == [] then Finite(0)
    else if t[0] == '-' then
      (match ParseDigits(t[1..]) case NaN => NaN case Finite(v) => Finite(-v))
    else if t[0] == '+' then ParseDigits(t[1..])
    else ParseDigits(t)
  }

  /** JavaScript's `Number(v)`: `undefined` is NaN, `null` is 0, text is trimmed and parsed. */
  function ToNumber(v: Value): JsNumber {
    match v
    case Undefined => NaN
    case Null => Finite(0)
    case Num(n) => Finite(n)
    case Str(s) => ParseNumber(Trim(s))
  }

  /** The decimal spelling of `n`, as a client would send it. */
  function Decimal(n: nat): (r: string)
    ensures r != [] && AllDigits(r)
    decreases n
  {
    (if n < 10 then "" else Decimal(n / 10)) + [(n % 10 + '0' as int) as char]
  }

  /** The digits of `Decimal(n)` are worth `n`. */
  lemma {:induction false} DecimalValue(n: nat)
    ensures DigitsValue(Decimal(n)) == n
    decreases n
  {
    var d := Decimal(n);
    if n >= 10 {
      DecimalValue(n / 10);
    }
    assert d[..|d| - 1] == (if n < 10 then "" else Decimal(n / 10));
  }

  /** `Number` reads a run of digits, signed or not, as its value. */
  lemma NumberOfDigits(d: string)
    requires d != [] && AllDigits(d)
    ensures ToNumber(Str(d)) == Finite(DigitsValue(d))
    ensures ToNumber(Str("-" + d)) == Finite(-(DigitsValue(d) as int))
  {
    assert IsDigit(d[0]) && IsDigit(d[|d| - 1]);
    TrimOfTrimmed(d);
    var m := "-" + d;
    assert m[0] == '-' && m[|m| - 1] == d[|d| - 1] && m[1..] == d;
    TrimOfTrimmed(m);
  }

  /** Reading back the decimal spelling of a number gives the number, with or without a minus sign. */
  lemma NumberOfDecimal(n: nat)
    ensures ToNumber(Str(Decimal(n))) == Finite(n)
    ensures ToNumber(Str("-" + Decimal(n))) == Finite(-(n as int))
  {
    DecimalValue(n);
    NumberOfDigits(Decimal(n));
  }

  /** The fields of a create or update request, as the JSON body carries them. */
  datatype JobBody = JobBody(
    title: Option<string>,
    description: Option<string>,
    requirements: Option<string>,
    salary: Value,
    location: Option<string>,
    jobType: Option<string>,
    experience: Option<string>,
    position: Value,
    companyId: Option<string>)

  /** A stored job posting. `position` is kept as the request gave it, because update stores it uncoerced. */
  datatype Job = Job(
    title: string,
    description: string,
    requirements: seq<string>,
    salary: JsNumber,
    location: string,
    jobType: string,
    experienceLevel: string,
    position: Value,
    company: string,
    createdBy: UserId,
    createdAt: int)

  /** What a handler answers. */
  datatype Outcome =
    | Created(id: JobId)
    | Updated(id: JobId)
    | Deleted
    | MissingFields
    | InvalidSalary
    | InvalidPosition
    | NotFound

  /** The HTTP status of each answer. */
  function StatusCode(o: Outcome): int {
    match o
    case Created(_) => 201
    case Updated(_) => 200
    case Deleted => 200
    case MissingFields => 400
    case InvalidSalary => 400
    case InvalidPosition => 400
    case NotFound => 404
  }

  /** The presence test of create: seven text fields truthy, salary and position merely not `undefined`. */
  predicate PostFieldsPresent(b: JobBody) {
    && Given(b.title) && Given(b.description) && Given(b.requirements)
    && b.salary != Undefined
    && Given(b.location) && Given(b.jobType) && Given(b.experience)
    && b.position != Undefined
    && Given(b.companyId)
  }

  /** The presence test of update: all nine fields truthy, so a numeric 0 salary or position is missing. */
  predicate UpdateFieldsTruthy(b: JobBody) {
    && Given(b.title) && Given(b.description) && Given(b.requirements)
    && Truthy(b.salary)
    && Given(b.location) && Given(b.jobType) && Given(b.experience)
    && Truthy(b.position)
    && Given(b.companyId)
  }

  /** `requirements.split(",").map(req => req.trim())`. */
  function NormalizeRequirements(raw: string): seq<string> {
    var parts := Split(raw, ',');
    seq(|parts|, k requires 0 <= k < |parts| => Trim(parts[k]))
  }

  /** Create's checks in their order, and the record it stores when they pass. */
  function CheckPost(b: JobBody, userId: UserId, now: int): Result<Job, Outcome> {
    if !PostFieldsPresent(b) then Failure(MissingFields)
    else
      var salary := ToNumber(b.salary);
      var position := ToNumber(b.position);
      if !IsPositive(salary) then Failure(InvalidSalary)
      else if !IsPositive(position) then Failure(InvalidPosition)
      else Success(Job(
        b.title.value, b.description.value, NormalizeRequirements(b.requirements.value),
        salary, b.location.value, b.jobType.value, Trim(b.experience.value),
        Num(position.value), b.companyId.value, userId, now))
  }

  /** Create answers 400 "missing" exactly when a required field is absent, and then stores nothing. */
  lemma PostMissingFields(b: JobBody, userId: UserId, now: int)
    ensures CheckPost(b, userId, now) == Failure(MissingFields) <==> !PostFieldsPresent(b)
  {
  }

  /** With every field present, salary is checked before position, each for being a positive number. */
  lemma PostNumberChecks(b: JobBody, userId: UserId, now: int)
    requires PostFieldsPresent(b)
    ensures CheckPost(b, userId, now) == Failure(InvalidSalary) <==> !IsPositive(ToNumber(b.salary))
    ensures CheckPost(b, userId, now) == Failure(InvalidPosition)
        <==> IsPositive(ToNumber(b.salary)) && !IsPositive(ToNumber(b.position))
    ensures CheckPost(b, userId, now).Success?
        <==> IsPositive(ToNumber(b.salary)) && IsPositive(ToNumber(b.position))
  {
  }

  /**
    The stored requirements: one token per comma-separated piece of the input,
    each the trimmed piece, holding no comma and no surrounding white space.
  */
  lemma PostRequirementsNormalized(raw: string)
    ensures |NormalizeRequirements(raw)| == Count(raw, ',') + 1
    ensures forall k :: 0 <= k < |NormalizeRequirements(raw)| ==>
      && NormalizeRequirements(raw)[k] == Trim(Split(raw, ',')[k])
      && ',' !in NormalizeRequirements(raw)[k]
      && IsTrimmed(NormalizeRequirements(raw)[k])
  {
    var parts := Split(raw, ',');
    var r := NormalizeRequirements(raw);
    forall k | 0 <= k < |r| ensures ',' !in r[k] && IsTrimmed(r[k]) {
      var i, j := TrimCutsOnlySpace(parts[k]);
      assert r[k] == parts[k][i..j];
      assert ',' !in parts[k];
    }
  }

  /** The record create stores: the input fields, normalised, owned by the requester. */
  lemma PostRecord(b: JobBody, userId: UserId, now: int)
    requires CheckPost(b, userId, now).Success?
    ensures var job := CheckPost(b, userId, now).value;
      && b.title == Some(job.title) && b.description == Some(job.description)
      && b.location == Some(job.location) && b.jobType == Some(job.jobType)
      && job.requirements == NormalizeRequirements(b.requirements.value)
      && job.experienceLevel == Trim(b.experience.value)
      && job.salary == ToNumber(b.salary) && job.salary.value > 0
      && job.position.Num? && Finite(job.position.n) == ToNumber(b.position) && job.position.n > 0
      && b.companyId == Some(job.company)
      && job.createdBy == userId && job.createdAt == now
  {
  }

  /** Update splits "Node, SQL , Docker" into pieces that keep their spaces. */
  lemma RequirementsScenarioUpdate()
    ensures Split("Node, SQL , Docker", ',') == ["Node", " SQL ", " Docker"]
  {
    var pieces := ["Node", " SQL ", " Docker"];
    assert Join(pieces[2..], ',') == " Docker";
    assert Join(pieces[1..], ',') == " SQL , Docker";
    assert Join(pieces, ',') == "Node, SQL , Docker";
    SplitJoin(pieces, ',');
  }

  /** Create stores "Node, SQL , Docker" as the three trimmed tokens. */
  lemma RequirementsScenarioCreate()
    ensures NormalizeRequirements("Node, SQL , Docker") == ["Node", "SQL", "Docker"]
  {
    ScenarioTokensTrim();
    RequirementsScenarioUpdate();
    NormalizeThreePieces("Node, SQL , Docker", "Node", " SQL ", " Docker");
  }

  /** Normalising an input that splits into three pieces trims each piece. */
  lemma NormalizeThreePieces(raw: string, a: string, b: string, c: string)
    requires Split(raw, ',') == [a, b, c]
    ensures NormalizeRequirements(raw) == [Trim(a), Trim(b), Trim(c)]
  {
  }

  /** The three pieces of the scenario, trimmed. */
  lemma ScenarioTokensTrim()
    ensures Trim("Node") == "Node" && Trim(" SQL ") == "SQL" && Trim(" Docker") == "Docker"
  {
    assert IsTrimmed("SQL") && IsTrimmed("Docker") && IsTrimmed("Node") && IsBlank(" ");
    TrimAround(" ", "SQL", " ");
    assert " " + "SQL" + " " == " SQL ";
    TrimAround(" ", "Docker", "");
    assert " " + "Docker" + "" == " Docker";
    TrimOfTrimmed("Node");
  }

  /** Create and update disagree on numbers: a numeric 0 passes create's presence test but not update's, and update lets a non-positive text salary through. */
  lemma UpdateChecksDifferFromCreate(b: JobBody)
    requires PostFieldsPresent(b)
    ensures b.salary == Num(0) ==> !UpdateFieldsTruthy(b) && CheckPost(b, "", 0) == Failure(InvalidSalary)
    ensures b.salary == Str("-" + Decimal(5)) && Truthy(b.position)
        ==> UpdateFieldsTruthy(b) && ToNumber(b.salary) == Finite(-5)
  {
    NumberOfDecimal(5);
  }

  /** A job together with its id, as a listing returns it. */
  datatype Entry = Entry(id: JobId, job: Job)

  /** The entries of `jobs` whose id is in `ids` and whose record satisfies `keep`. */
  ghost function EntriesWhere(jobs: map<JobId, Job>, ids: set<JobId>, keep: Job -> bool): set<Entry> {
    set id | id in ids && id in jobs && keep(jobs[id]) :: Entry(id, jobs[id])
  }

  /** The listing's search: the keyword occurs in the title or in the description, ignoring case. */
  predicate KeywordMatch(job: Job, keyword: string) {
    Contains(Lower(job.title), Lower(keyword)) || Contains(Lower(job.description), Lower(keyword))
  }

  /** The empty keyword matches every job. */
  lemma EmptyKeywordMatchesAll(jobs: map<JobId, Job>)
    ensures EntriesWhere(jobs, jobs.Keys, job => KeywordMatch(job, "")) == EntriesWhere(jobs, jobs.Keys, job => true)
  {
    forall job: Job ensures KeywordMatch(job, "") {
      ContainsEmpty(Lower(job.title), "");
    }
  }

  /** Newest first: `createdAt` never increases along the list. */
  predicate NewestFirst(list: seq<Entry>) {
    forall i, j :: 0 <= i < j < |list| ==> list[i].job.createdAt >= list[j].job.createdAt
  }

  /** Insert `e` into a newest-first list, keeping it newest first. */
  function InsertNewest(list: seq<Entry>, e: Entry): (r: seq<Entry>)
    requires NewestFirst(list)
    ensures NewestFirst(r)
    ensures multiset(r) == multiset(list) + multiset{e}
    decreases |list|
  {
    if list == [] || list[0].job.createdAt <= e.job.createdAt then [e] + list
    else
      var rest := InsertNewest(list[1..], e);
      HeadStaysNewest(list, e, rest);
      [list[0]] + rest
  }

  /** Putting back the newest head in front of the rest, with `e` inserted into it, keeps the order. */
  lemma HeadStaysNewest(list: seq<Entry>, e: Entry, rest: seq<Entry>)
    requires list != [] && NewestFirst(list) && NewestFirst(rest)
    requires list[0].job.createdAt > e.job.createdAt
    requires multiset(rest) == multiset(list[1..]) + multiset{e}
    ensures NewestFirst([list[0]] + rest)
    ensures multiset([list[0]] + rest) == multiset(list) + multiset{e}
  {
    forall k | 0 <= k < |rest| ensures list[0].job.createdAt >= rest[k].job.createdAt {
      assert rest[k] in multiset(rest);
      if rest[k] != e {
        assert rest[k] in multiset(list[1..]);
        var j :| 0 <= j < |list[1..]| && list[1..][j] == rest[k];
        assert list[j + 1] == rest[k];
      }
    }
    assert list == [list[0]] + list[1..];
  }

  /** One more id looked at: its entry joins the set exactly when it is kept. */
  lemma EntriesStep(jobs: map<JobId, Job>, ids: set<JobId>, id: JobId, keep: Job -> bool)
    requires id in jobs && id !in ids
    ensures multiset(EntriesWhere(jobs, ids + {id}, keep))
        == multiset(EntriesWhere(jobs, ids, keep)) + (if keep(jobs[id]) then multiset{Entry(id, jobs[id])} else multiset{})
  {
    var before := EntriesWhere(jobs, ids, keep);
    var after := EntriesWhere(jobs, ids + {id}, keep);
    if keep(jobs[id]) {
      assert after == before + {Entry(id, jobs[id])};
      assert Entry(id, jobs[id]) !in before;
    } else {
      assert after == before;
    }
  }

  /** The collection of job postings. */
  class JobStore {
    var jobs: map<JobId, Job>
    var nextId: JobId

    /** Every stored id was handed out before, so the next one is fresh. */
    ghost predicate Valid()
      reads this
    {
      forall id :: id in jobs ==> id < nextId
    }

    constructor ()
      ensures Valid() && jobs == map[] && nextId == 0
    {
      jobs := map[];
      nextId := 0;
    }

    /** `postJob`: check, then insert one record under a fresh id. */
    method PostJob(body: JobBody, userId: UserId, now: int) returns (res: Outcome)
      requires Valid()
      modifies this
      ensures Valid()
      ensures StatusCode(res) == if CheckPost(body, userId, now).Failure? then 400 else 201
      ensures CheckPost(body, userId, now).Failure? ==>
        && res == CheckPost(body, userId, now).error
        && jobs == old(jobs) && nextId == old(nextId)
      ensures CheckPost(body, userId, now).Success? ==>
        && res == Created(old(nextId))
        && old(nextId) !in old(jobs)
        && jobs == old(jobs)[old(nextId) := CheckPost(body, userId, now).value]
        && |jobs| == |old(jobs)| + 1
    {
      var checked := CheckPost(body, userId, now);
      if checked.Failure? {
        res := checked.error;
        return;
      }
      var id := nextId;
      jobs := jobs[id := checked.value];
      nextId := nextId + 1;
      res := Created(id);
    }

    /** `getAllJobs`: the jobs matching the keyword (missing means empty), newest first; always 200. */
    method GetAllJobs(keyword: Option<string>) returns (status: int, list: seq<Entry>)
      ensures status == 200
      ensures multiset(list) == multiset(EntriesWhere(jobs, jobs.Keys, job => KeywordMatch(job, keyword.GetOr(""))))
      ensures NewestFirst(list)
    {
      var kw := keyword.GetOr("");
      var keep := job => KeywordMatch(job, kw);
      var remaining := jobs.Keys;
      list := [];
      while remaining != {}
        invariant remaining <= jobs.Keys
        invariant multiset(list) == multiset(EntriesWhere(jobs, jobs.Keys - remaining, keep))
        invariant NewestFirst(list)
        decreases remaining
      {
        var id :| id in remaining;
        EntriesStep(jobs, jobs.Keys - remaining, id, keep);
        assert jobs.Keys - (remaining - {id}) == (jobs.Keys - remaining) + {id};
        if keep(jobs[id]) {
          list := InsertNewest(list, Entry(id, jobs[id]));
        }
        remaining := remaining - {id};
      }
      status := 200;
    }

    /** `getAdminJobs`: the jobs created by the requester, in no particular order; always 200. */
    method GetAdminJobs(adminId: UserId) returns (status: int, list: seq<Entry>)
      ensures status == 200
      ensures multiset(list) == multiset(EntriesWhere(jobs, jobs.Keys, (job: Job) => job.createdBy == adminId))
    {
      var keep := (job: Job) => job.createdBy == adminId;
      var remaining := jobs.Keys;
      list := [];
      while remaining != {}
        invariant remaining <= jobs.Keys
        invariant multiset(list) == multiset(EntriesWhere(jobs, jobs.Keys - remaining, keep))
        decreases remaining
      {
        var id :| id in remaining;
        EntriesStep(jobs, jobs.Keys - remaining, id, keep);
        assert jobs.Keys - (remaining - {id}) == (jobs.Keys - remaining) + {id};
        if keep(jobs[id]) {
          list := list + [Entry(id, jobs[id])];
        }
        remaining := remaining - {id};
      }
      status := 200;
    }

    /** `deleteJob`: 404 and no change for an unknown id; otherwise that one job is removed. */
    method DeleteJob(id: JobId) returns (res: Outcome)
      requires Valid()
      modifies this
      ensures Valid() && nextId == old(nextId)
      ensures StatusCode(res) == if id in old(jobs) then 200 else 404
      ensures id !in old(jobs) ==> res == NotFound && jobs == old(jobs)
      ensures id in old(jobs) ==> res == Deleted && jobs == old(jobs) - {id} && |jobs| == |old(jobs)| - 1
    {
      if id !in jobs {
        res := NotFound;
        return;
      }
      jobs := jobs - {id};
      res := Deleted;
    }

    /**
      `updateJob`: 400 unless all nine fields are truthy, 404 for an unknown id,
      otherwise every field of that one record is overwritten and ownership passes to the requester.
    */
    method UpdateJob(id: JobId, body: JobBody, userId: UserId) returns (res: Outcome)
      requires Valid()
      modifies this
      ensures Valid() && nextId == old(nextId)
      ensures StatusCode(res) == if !UpdateFieldsTruthy(body) then 400 else if id !in old(jobs) then 404 else 200
      ensures !UpdateFieldsTruthy(body) ==> res == MissingFields && jobs == old(jobs)
      ensures UpdateFieldsTruthy(body) && id !in old(jobs) ==> res == NotFound && jobs == old(jobs)
      ensures UpdateFieldsTruthy(body) && id in old(jobs) ==>
        && res == Updated(id)
        && jobs.Keys == old(jobs).Keys
        && (forall other :: other in old(jobs) && other != id ==> jobs[other] == old(jobs)[other])
        && Some(jobs[id].title) == body.title
        && Some(jobs[id].description) == body.description
        && jobs[id].requirements == Split(body.requirements.value, ',')
        && jobs[id].salary == ToNumber(body.salary)
        && Some(jobs[id].location) == body.location
        && Some(jobs[id].jobType) == body.jobType
        && Some(jobs[id].experienceLevel) == body.experience
        && jobs[id].position == body.position
        && Some(jobs[id].company) == body.companyId
        && jobs[id].createdBy == userId
        && jobs[id].createdAt == old(jobs)[id].createdAt
    {
      if !UpdateFieldsTruthy(body) {
        res := MissingFields;
        return;
      }
      if id !in jobs {
        res := NotFound;
        return;
      }
      var job := jobs[id];
      job := job.(title := body.title.value);
      job := job.(description := body.description.value);
      job := job.(requirements := Split(body.requirements.value, ','));
      job := job.(salary := ToNumber(body.salary));
      job := job.(location := body.location.value);
      job := job.(jobType := body.jobType.value);
      job := job.(experienceLevel := body.experience.value);
      job := job.(position := body.position);
      job := job.(company := body.companyId.value);
      job := job.(createdBy := userId);
      jobs := jobs[id := job];
      res := Updated(id);
    }
  }

  /** Deleting the same id twice: the second answer is always 404. */
  method DeleteTwice(store: JobStore, id: JobId) returns (first: Outcome, second: Outcome)
    requires store.Valid()
    modifies store
    ensures first == (if id in old(store.jobs) then Deleted else NotFound)
    ensures second == NotFound
    ensures store.jobs == old(store.jobs) - {id}
  {
    first := store.DeleteJob(id);
    second := store.DeleteJob(id);
  }
}
