/**
 * Record normalization: descending `result.results.results.jobs` and mapping each
 * upstream job to the eight-field record the route persists and returns.
 */
module Normalize {
  import opened Wrappers
  import opened JsValue
  import opened Errors

  /** The record built for one upstream job. Every field except `tag` is whatever JavaScript
      value the fallback rules produce; `title`, `workType`, `location`, `salary` and
      `listingDate` are copied as found and may be `undefined`. */
  datatype Job = Job(
    title: Value,
    companyName: Value,
    workType: Value,
    location: Value,
    salary: Value,
    benefit: Value,
    listingDate: Value,
    tag: string)

  /** `result.results.results.jobs`, which must be an array for `.map` to exist on it. */
  function JobsOf(root: Value): (r: Result<seq<Value>, Error>)
    ensures r.Success? <==>
      && root.Obj? && "results" in root.fields
      && root.fields["results"].Obj? && "results" in root.fields["results"].fields
      && root.fields["results"].fields["results"].Obj?
      && "jobs" in root.fields["results"].fields["results"].fields
      && root.fields["results"].fields["results"].fields["jobs"].Arr?
    ensures r.Success? ==> r.value == root.fields["results"].fields["results"].fields["jobs"].items
    ensures r.Failure? ==> r.error == SchemaShapeError
  {
    match Access(root, "results")
    case None => Failure(SchemaShapeError)
    case Some(outer) =>
      match Access(outer, "results")
      case None => Failure(SchemaShapeError)
      case Some(inner) =>
        match Access(inner, "jobs")
        case Some(Arr(jobs)) => Success(jobs)
        case _ => Failure(SchemaShapeError)
  }

  /** The arrow function passed to `.map`. Reading `title` of a nullish job, or `label`
      of a nullish `jobLocation`, throws; every other read tolerates absence. */
  function NormalizeJob(job: Value, tag: string): (r: Result<Job, Error>)
    ensures r.Failure? <==> Nullish(job) || Nullish(Get(job, "jobLocation"))
    ensures Nullish(job) ==> r.error == JobFieldError("title")
    ensures !Nullish(job) && Nullish(Get(job, "jobLocation")) ==> r.error == JobFieldError("label")
    ensures r.Success? ==>
      var out := r.value;
      var company := Get(job, "companyName");
      var description := OptionalAccess(Get(job, "advertiser"), "description");
      var bullets := Get(job, "bulletPoints");
      // copied verbatim
      && out.title == Get(job, "title")
      && out.workType == Get(job, "workType")
      && out.location == Get(Get(job, "jobLocation"), "label")
      && out.salary == Get(job, "salary")
      && out.listingDate == Get(job, "listingDate")
      // the company name falls back to the advertiser's description, then to ""
      && (Truthy(company) ==> out.companyName == company)
      && (!Truthy(company) && Truthy(description) ==> out.companyName == description)
      && (!Truthy(company) && !Truthy(description) ==> out.companyName == Str(""))
      // the benefits fall back to an empty array
      && (Truthy(bullets) ==> out.benefit == bullets)
      && (!Truthy(bullets) ==> out.benefit == Arr([]))
      // the tag is the route's, never the upstream's
      && out.tag == tag
  {
    match Access(job, "title")
    case None => Failure(JobFieldError("title"))
    case Some(title) =>
      var companyName := Or(Or(Get(job, "companyName"), OptionalAccess(Get(job, "advertiser"), "description")), Str(""));
      match Access(Get(job, "jobLocation"), "label")
      case None => Failure(JobFieldError("label"))
      case Some(location) =>
        Success(Job(
          title,
          companyName,
          Get(job, "workType"),
          location,
          Get(job, "salary"),
          Or(Get(job, "bulletPoints"), Arr([])),
          Get(job, "listingDate"),
          tag))
  }

  /** `jobs.map(...)`: all or nothing, stopping at the first job whose normalization throws. */
  function NormalizeAll(jobs: seq<Value>, tag: string): (r: Result<seq<Job>, Error>)
    ensures r.Success? <==> forall i :: 0 <= i < |jobs| ==> NormalizeJob(jobs[i], tag).Success?
    ensures r.Success? ==>
      && |r.value| == |jobs|
      && forall i :: 0 <= i < |jobs| ==> NormalizeJob(jobs[i], tag) == Success(r.value[i])
    ensures r.Failure? ==>
      exists k :: 0 <= k < |jobs| && NormalizeJob(jobs[k], tag) == Failure(r.error)
        && forall i :: 0 <= i < k ==> NormalizeJob(jobs[i], tag).Success?
    decreases |jobs|
  {
    if jobs == [] then Success([])
    else
      match NormalizeJob(jobs[0], tag)
      case Failure(e) => Failure(e)
      case Success(first) =>
        match NormalizeAll(jobs[1..], tag)
        case Failure(e) => Failure(e)
        case Success(rest) => Success([first] + rest)
  }

  /** Mapping over a single job yields its one record. */
  lemma NormalizeAllOne(job: Value, tag: string, record: Job)
    requires NormalizeJob(job, tag) == Success(record)
    ensures NormalizeAll([job], tag) == Success([record])
  {
    var jobs := [job];
    assert jobs[0] == job && jobs[1..] == [];
    assert NormalizeAll(jobs[1..], tag) == Success([]);
    assert [record] + [] == [record];
  }

  /** Normalization keeps the count and order of the upstream jobs and stamps every record with the tag. */
  lemma NormalizeAllKeepsOrderAndTag(jobs: seq<Value>, tag: string)
    requires NormalizeAll(jobs, tag).Success?
    ensures |NormalizeAll(jobs, tag).value| == |jobs|
    ensures forall i :: 0 <= i < |jobs| ==>
      var out := NormalizeAll(jobs, tag).value[i];
      out.tag == tag && out.title == Get(jobs[i], "title") && out.listingDate == Get(jobs[i], "listingDate")
  {
    var out := NormalizeAll(jobs, tag).value;
    forall i | 0 <= i < |jobs|
      ensures out[i].tag == tag && out[i].title == Get(jobs[i], "title") && out[i].listingDate == Get(jobs[i], "listingDate")
    {
      assert NormalizeJob(jobs[i], tag) == Success(out[i]);
    }
  }

  /** The `allowNull: false` columns of the jobs table: a record with any of them
      null or undefined is rejected by the store. */
  predicate Storable(job: Job) {
    && !Nullish(job.title)
    && !Nullish(job.companyName)
    && !Nullish(job.workType)
    && !Nullish(job.location)
    && !Nullish(job.salary)
    && !Nullish(job.benefit)
  }

  /** The fallbacks guarantee the company name and the benefits are defined, so a normalized
      record is storable exactly when the verbatim fields it needs are defined. */
  lemma NormalizedStorableIff(job: Value, tag: string)
    requires NormalizeJob(job, tag).Success?
    ensures !Nullish(NormalizeJob(job, tag).value.companyName)
    ensures Truthy(NormalizeJob(job, tag).value.benefit)
    ensures Storable(NormalizeJob(job, tag).value) <==>
      && !Nullish(Get(job, "title"))
      && !Nullish(Get(job, "workType"))
      && !Nullish(Get(Get(job, "jobLocation"), "label"))
      && !Nullish(Get(job, "salary"))
  {
    var cn := Get(job, "companyName");
    var desc := OptionalAccess(Get(job, "advertiser"), "description");
    if !Truthy(cn) && !Truthy(desc) {
      assert NormalizeJob(job, tag).value.companyName == Str("");
    }
  }
  /** An empty `companyName` is falsy, so the advertiser's description is used instead. */
  lemma CompanyNameFromAdvertiser(tag: string)
    ensures
      var job := Obj(map[
        "companyName" := Str(""),
        "advertiser" := Obj(map["description" := Str("Acme")]),
        "jobLocation" := Obj(map["label" := Str("Jakarta")])]);
      NormalizeJob(job, tag).Success? && NormalizeJob(job, tag).value.companyName == Str("Acme")
  {
    var job := Obj(map[
      "companyName" := Str(""),
      "advertiser" := Obj(map["description" := Str("Acme")]),
      "jobLocation" := Obj(map["label" := Str("Jakarta")])]);
    assert Get(job, "jobLocation") == Obj(map["label" := Str("Jakarta")]);
    assert Get(job, "companyName") == Str("");
    assert OptionalAccess(Get(job, "advertiser"), "description") == Str("Acme");
  }

  /** With no company name and no advertiser at all, `?.` yields `undefined` and the name becomes "". */
  lemma CompanyNameWithoutAdvertiser(tag: string)
    ensures
      var job := Obj(map["jobLocation" := Obj(map["label" := Str("Jakarta")])]);
      NormalizeJob(job, tag).Success? && NormalizeJob(job, tag).value.companyName == Str("")
  {
    var job := Obj(map["jobLocation" := Obj(map["label" := Str("Jakarta")])]);
    assert Get(job, "jobLocation") == Obj(map["label" := Str("Jakarta")]);
    assert Get(job, "companyName") == Undefined;
    assert OptionalAccess(Get(job, "advertiser"), "description") == Undefined;
  }

  /** A job without `salary` normalizes without error, yet the record has an undefined
      `salary` that the store's not-null constraint rejects. */
  lemma MissingSalaryIsUnstorable(tag: string)
    ensures
      var job := Obj(map[
        "title" := Str("Software Engineer"),
        "workType" := Str("Full-time"),
        "jobLocation" := Obj(map["label" := Str("Jakarta")])]);
      NormalizeJob(job, tag).Success? && NormalizeJob(job, tag).value.salary == Undefined
        && !Storable(NormalizeJob(job, tag).value)
  {
  }
}
