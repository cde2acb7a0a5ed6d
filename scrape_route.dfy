/**
 * The `/scrape/:tag` route: fetch, carve, parse, descend to the jobs, normalize,
 * then persist with `bulkCreate` and answer, all or nothing.
 */
module ScrapeRoute {
  import opened Wrappers
  import opened JsText
  import opened JsValue
  import opened Errors
  import opened Carving
  import opened Normalize

  const UrlPrefix: string := "https://id.jobstreet.com/id/"
  const UrlSuffix: string := "-jobs"

  /** The listing page requested for a tag; the tag is used verbatim. */
  function SearchUrl(tag: string): (url: string)
    ensures |url| == |UrlPrefix| + |tag| + |UrlSuffix|
    ensures url[..|UrlPrefix|] == UrlPrefix && url[|url| - |UrlSuffix|..] == UrlSuffix
    ensures url[|UrlPrefix|..|UrlPrefix| + |tag|] == tag
  {
    UrlPrefix + tag + UrlSuffix
  }

  /** Different tags request different pages. */
  lemma SearchUrlInjective(a: string, b: string)
    requires SearchUrl(a) == SearchUrl(b)
    ensures a == b
  {
    assert |a| == |b|;
    assert a == SearchUrl(a)[|UrlPrefix|..|UrlPrefix| + |a|];
  }

  /** What the request and the markup selection deliver: the text of the
      `[data-automation=server-state]` element, or a network or status failure. */
  datatype Fetch = Page(serverState: string) | NetworkFailure

  /** `JSON.parse`, given as an arbitrary partial function: `None` is a SyntaxError. */
  function Parse(parse: string -> Option<Value>, text: string): (r: Result<Value, Error>)
    ensures r.Failure? <==> parse(text).None?
    ensures r.Success? ==> r.value == parse(text).value
    ensures r.Failure? ==> r.error == PayloadParseError
  {
    match parse(text)
    case None => Failure(PayloadParseError)
    case Some(root) => Success(root)
  }

  /** The upstream jobs array one run reaches: `scrapeData` followed by `.results.results.jobs`. */
  function UpstreamJobs(fetched: Fetch, parse: string -> Option<Value>): (r: Result<seq<Value>, Error>)
    ensures fetched.NetworkFailure? ==> r == Failure(FetchError)
    ensures fetched.Page? && !Contains(fetched.serverState, Marker) ==> r == Failure(MarkerNotFound)
    ensures fetched.Page? && Contains(fetched.serverState, Marker) ==>
      var text := Carve(fetched.serverState).value;
      && (parse(text).None? ==> r == Failure(PayloadParseError))
      && (parse(text).Some? ==> r == JobsOf(parse(text).value))
  {
    match fetched
    case NetworkFailure => Failure(FetchError)
    case Page(serverState) =>
      var text :- Carve(serverState);
      var root :- Parse(parse, text);
      JobsOf(root)
  }

  /** One scrape run, as the list the route hands on or the error that aborts it. */
  function Scrape(tag: string, fetched: Fetch, parse: string -> Option<Value>): (r: Result<seq<Job>, Error>)
    ensures UpstreamJobs(fetched, parse).Failure? ==> r == Failure(UpstreamJobs(fetched, parse).error)
    ensures r.Success? ==>
      && UpstreamJobs(fetched, parse).Success?
      && var upstream := UpstreamJobs(fetched, parse).value;
      && |r.value| == |upstream|
      && forall i :: 0 <= i < |upstream| ==> NormalizeJob(upstream[i], tag) == Success(r.value[i]) && r.value[i].tag == tag
    ensures UpstreamJobs(fetched, parse).Success? ==>
      (r.Success? <==> forall i :: 0 <= i < |UpstreamJobs(fetched, parse).value| ==>
         NormalizeJob(UpstreamJobs(fetched, parse).value[i], tag).Success?)
    ensures UpstreamJobs(fetched, parse).Success? && r.Failure? ==>
      var upstream := UpstreamJobs(fetched, parse).value;
      exists k :: 0 <= k < |upstream| && NormalizeJob(upstream[k], tag) == Failure(r.error)
        && forall i :: 0 <= i < k ==> NormalizeJob(upstream[i], tag).Success?
  {
    var jobs :- UpstreamJobs(fetched, parse);
    NormalizeAll(jobs, tag)
  }

  const ScrapeFailureMessage: string := "Error occurred while scraping the site"

  /** The handler's answer: 200 with the records as JSON, or 500 with a fixed text. */
  datatype Response = JobsJson(jobs: seq<Job>) | ServerError(message: string)

  function Status(response: Response): int {
    if response.JobsJson? then 200 else 500
  }

  /** What one request does: the list handed to `Job.bulkCreate` (if it is called) and the response.
      Whether the store accepts the batch is the store's decision, given as a parameter. */
  datatype RouteRun = RouteRun(bulkCreated: Option<seq<Job>>, response: Response)

  function HandleScrape(tag: string, fetched: Fetch, parse: string -> Option<Value>, storeAccepts: bool): (run: RouteRun)
    ensures Scrape(tag, fetched, parse).Failure? ==> run.bulkCreated == None
    ensures Scrape(tag, fetched, parse).Success? ==> run.bulkCreated == Some(Scrape(tag, fetched, parse).value)
    ensures Status(run.response) == 200 <==> Scrape(tag, fetched, parse).Success? && storeAccepts
    ensures run.response.JobsJson? ==> run.bulkCreated == Some(run.response.jobs)
    ensures run.response.ServerError? ==> run.response.message == ScrapeFailureMessage
  {
    match Scrape(tag, fetched, parse)
    case Failure(_) => RouteRun(None, ServerError(ScrapeFailureMessage))
    case Success(jobs) => RouteRun(Some(jobs), if storeAccepts then JobsJson(jobs) else ServerError(ScrapeFailureMessage))
  }

  /** A network failure answers 500 and never reaches the store. */
  lemma NetworkFailureWritesNothing(tag: string, parse: string -> Option<Value>, storeAccepts: bool)
    ensures HandleScrape(tag, NetworkFailure, parse, storeAccepts) == RouteRun(None, ServerError(ScrapeFailureMessage))
  {
  }

  /** The upstream job of the route's test suite. */
  function SuiteJob(): Value {
    Obj(map[
      "title" := Str("Software Engineer"),
      "companyName" := Str("Tech Company"),
      "workType" := Str("Full-time"),
      "jobLocation" := Obj(map["label" := Str("Jakarta")]),
      "salary" := Str("5000 USD"),
      "bulletPoints" := Arr([Str("Good pay"), Str("Flexible hours")]),
      "listingDate" := Str("2024-09-17T00:00:00Z")])
  }

  function SuitePayload(): Value {
    Obj(map["results" := Obj(map["results" := Obj(map["jobs" := Arr([SuiteJob()])])])])
  }

  /** The record the test suite expects for tag `java`. */
  function SuiteRecord(): Job {
    Job(
      Str("Software Engineer"), Str("Tech Company"), Str("Full-time"), Str("Jakarta"), Str("5000 USD"),
      Arr([Str("Good pay"), Str("Flexible hours")]), Str("2024-09-17T00:00:00Z"), "java")
  }

  /** The properties of the suite's job that normalization reads. */
  lemma SuiteJobFields()
    ensures !Nullish(SuiteJob())
    ensures Get(SuiteJob(), "title") == Str("Software Engineer")
    ensures Get(SuiteJob(), "companyName") == Str("Tech Company")
    ensures Get(SuiteJob(), "workType") == Str("Full-time")
    ensures Get(SuiteJob(), "jobLocation") == Obj(map["label" := Str("Jakarta")])
    ensures Get(SuiteJob(), "salary") == Str("5000 USD")
    ensures Get(SuiteJob(), "bulletPoints") == Arr([Str("Good pay"), Str("Flexible hours")])
    ensures Get(SuiteJob(), "listingDate") == Str("2024-09-17T00:00:00Z")
  {
  }

  lemma SuiteJobNormalizes()
    ensures NormalizeJob(SuiteJob(), "java") == Success(SuiteRecord())
  {
    SuiteJobFields();
    assert Get(Obj(map["label" := Str("Jakarta")]), "label") == Str("Jakarta");
  }

  /** The suite's payload holds one job, which normalizes to the expected record. */
  lemma SuitePayloadNormalizes()
    ensures JobsOf(SuitePayload()) == Success([SuiteJob()])
    ensures NormalizeAll([SuiteJob()], "java") == Success([SuiteRecord()])
  {
    SuiteJobNormalizes();
    NormalizeAllOne(SuiteJob(), "java", SuiteRecord());
  }

  /** `n` spaces, the indentation of the suite's page. */
  function Spaces(n: nat): string {
    seq(n, _ => ' ')
  }

  /** Indentation holds nothing but spaces. */
  lemma SpacesOnly(n: nat)
    ensures forall c :: c in Spaces(n) ==> c == ' '
  {
  }

  /** The strings of a list, one after another. */
  function Concat(pieces: seq<string>): string {
    if pieces == [] then "" else pieces[0] + Concat(pieces[1..])
  }

  /** Holds neither `;` nor `_`, the characters the carving examples keep out of the object. */
  predicate CarveNeutral(s: string) {
    ';' !in s && '_' !in s
  }

  /** Strings free of `;` and `_` concatenate to one free of them. */
  lemma {:induction false} ConcatNeutral(pieces: seq<string>)
    requires forall i :: 0 <= i < |pieces| ==> CarveNeutral(pieces[i])
    ensures CarveNeutral(Concat(pieces))
    decreases |pieces|
  {
    if pieces != [] {
      ConcatNeutral(pieces[1..]);
    }
  }

  /** The object literal of the suite's server-state script (__tests__/jobRoutes.test.js:28-42),
      from its opening brace to the indentation before `};`, in short pieces, one source line a row. */
  function SuiteObjectChunks(): seq<string> {
    ["{\n"]
    + [Spaces(14), "\"results\": ", "{\n"]
    + [Spaces(16), "\"results\": ", "{\n"]
    + [Spaces(18), "\"jobs\": ", "[{\n"]
    + [Spaces(20), "\"title\": ", "\"Software ", "Engineer\",\n"]
    + [Spaces(20), "\"companyName", "\": ", "\"Tech ", "Company\",\n"]
    + [Spaces(20), "\"workType\": ", "\"Full-time\"", ",\n"]
    + [Spaces(20), "\"jobLocation", "\": ", "{\"label\": ", "\"Jakarta\"", "},\n"]
    + [Spaces(20), "\"salary\": ", "\"5000 USD\"", ",\n"]
    + [Spaces(20), "\"bulletPoint", "s\": ", "[\"Good pay\"", ", ", "\"Flexible ", "hours\"", "],\n"]
    + [Spaces(20), "\"listingDate", "\": ", "\"2024-09-17", "T00:00:00Z\"", "\n"]
    + [Spaces(18), "}]\n"]
    + [Spaces(16), "}\n"]
    + [Spaces(14), "}\n"]
    + [Spaces(12)]
  }

  /** The text of the suite's `[data-automation=server-state]` element
      (__tests__/jobRoutes.test.js:27-43): everything between the script's tags. */
  function SuiteServerState(): string {
    ("\n" + Spaces(12)) + Marker + Concat(SuiteObjectChunks()) + Terminator + ("\n" + Spaces(10))
  }

  /* The chunks hold neither `;` nor `_`, shown a few source lines at a time so that each
     literal is checked on its own. */
  lemma ChunksNeutralLines28To31()
    ensures forall i :: 0 <= i < 10 ==> CarveNeutral(SuiteObjectChunks()[i])
  {
    SpacesOnly(14); SpacesOnly(16); SpacesOnly(18);
  }

  lemma ChunksNeutralLines32To33()
    ensures forall i :: 10 <= i < 19 ==> CarveNeutral(SuiteObjectChunks()[i])
  {
    SpacesOnly(20);
  }

  lemma ChunksNeutralLines34To35()
    ensures forall i :: 19 <= i < 29 ==> CarveNeutral(SuiteObjectChunks()[i])
  {
    SpacesOnly(20);
  }

  lemma ChunksNeutralLines36To37()
    ensures forall i :: 29 <= i < 41 ==> CarveNeutral(SuiteObjectChunks()[i])
  {
    SpacesOnly(20);
  }

  lemma ChunksNeutralLines38To42()
    ensures |SuiteObjectChunks()| == 54
    ensures forall i :: 41 <= i < 54 ==> CarveNeutral(SuiteObjectChunks()[i])
  {
    SpacesOnly(12); SpacesOnly(14); SpacesOnly(16); SpacesOnly(18); SpacesOnly(20);
  }

  /** Every chunk of the suite's object literal holds neither `;` nor `_`. */
  lemma SuiteObjectNeutral()
    ensures forall i :: 0 <= i < |SuiteObjectChunks()| ==> CarveNeutral(SuiteObjectChunks()[i])
  {
    ChunksNeutralLines28To31();
    ChunksNeutralLines32To33();
    ChunksNeutralLines34To35();
    ChunksNeutralLines36To37();
    ChunksNeutralLines38To42();
  }

  /** The indentation around the suite's script holds no `w` and no `_`. */
  lemma IndentationFacts()
    ensures 'w' !in "\n" + Spaces(12) && '_' !in "\n" + Spaces(10)
  {
    SpacesOnly(12);
    SpacesOnly(10);
  }

  /** A script laid out like the suite's, around any object text free of `;` and `_`, carves to
      that text closed with `}`. */
  lemma IndentedScriptCarves(pieces: seq<string>)
    requires forall i :: 0 <= i < |pieces| ==> CarveNeutral(pieces[i])
    ensures Carve(("\n" + Spaces(12)) + Marker + Concat(pieces) + Terminator + ("\n" + Spaces(10)))
         == Success(Concat(pieces) + "}")
  {
    ConcatNeutral(pieces);
    IndentationFacts();
    CarveAround("\n" + Spaces(12), Concat(pieces), "\n" + Spaces(10));
  }


  /** The suite's server-state text carves to its object literal closed with `}`. */
  lemma SuitePageCarves()
    ensures Carve(SuiteServerState()) == Success(Concat(SuiteObjectChunks()) + "}")
  {
    SuiteObjectNeutral();
    IndentedScriptCarves(SuiteObjectChunks());
  }

  /** A page whose carved text parses to the suite's payload yields the expected record. */
  lemma CarvedSuitePayloadScrapes(serverState: string, carved: string, parse: string -> Option<Value>)
    requires Carve(serverState) == Success(carved) && parse(carved) == Some(SuitePayload())
    ensures Scrape("java", Page(serverState), parse) == Success([SuiteRecord()])
    ensures HandleScrape("java", Page(serverState), parse, true) == RouteRun(Some([SuiteRecord()]), JobsJson([SuiteRecord()]))
  {
    SuitePayloadNormalizes();
    assert UpstreamJobs(Page(serverState), parse) == Success([SuiteJob()]);
  }

  /** The test suite's scrape, end to end: given only that `JSON.parse` reads the carved object
      literal as the suite's payload, the suite's page returns exactly the expected record for tag
      `java` and hands that same list to the store. */
  lemma SuitePageScrapes(parse: string -> Option<Value>)
    requires parse(Concat(SuiteObjectChunks()) + "}") == Some(SuitePayload())
    ensures Scrape("java", Page(SuiteServerState()), parse) == Success([SuiteRecord()])
    ensures HandleScrape("java", Page(SuiteServerState()), parse, true) == RouteRun(Some([SuiteRecord()]), JobsJson([SuiteRecord()]))
  {
    SuitePageCarves();
    CarvedSuitePayloadScrapes(SuiteServerState(), Concat(SuiteObjectChunks()) + "}", parse);
  }
}
