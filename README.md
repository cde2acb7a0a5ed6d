# Job-listing scrape pipeline — a Dafny model

This project models the scrape pipeline of a small job-listing back end
(`routes/jobRoutes.js`). It covers three parts, all deterministic transformations of
text and records:

- **Payload carving** (`scrapeData`). The text of the page's
  `[data-automation=server-state]` element is split on `window.SEEK_REDUX_DATA = `.
  Piece `[1]` is kept and split on `};`. Piece `[0]` of that is kept and closed
  again with `}`. A missing marker makes piece `[1]` undefined, so the next
  `.split` throws.
- **Record normalization** (the `/scrape/:tag` handler). The handler descends
  `result.results.results.jobs` and maps each upstream job to an eight-field
  record. It uses JavaScript `||` truthiness fallbacks, an optional-chained
  advertiser lookup and a plain `jobLocation.label` read that throws when
  `jobLocation` is nullish. It then hands the list to `Job.bulkCreate` and
  answers 200 with it, or 500 with a fixed text if any step throws.
- **Export helpers** (the `/export` handler). `capitalizeWords` title-cases the tag.
  Each row joins the benefits with `", "` and keeps the ISO date text before its
  first `T`. A `forEach` adds one row per stored job.

Modules:

- `Wrappers`: Option and Result.
- `JsText`: JavaScript `indexOf`, `split` and `join`, with the split/join round trips.
- `JsValue`: the parsed-JSON value tree plus `undefined`, truthiness, `||`, `.` and `?.`.
- `Errors`: the failure kinds of one run.
- `Carving`: the payload carving and its exact characterisation.
- `Normalize`: the jobs path, the per-job record, the all-or-nothing map, and the
  store's not-null columns.
- `ScrapeRoute`: the URL, the stage chain, and the handler's persistence/response behaviour.
- `Export`: `capitalizeWords`, the row cells, and the row-adding loop.

The network fetch and `JSON.parse` are parameters of the model. A run takes a `Fetch`
(the server-state text, or a network failure) and an arbitrary partial function
`parse: string -> Option<Value>`.

Behaviour of the code worth knowing:

- Piece `[1]` of the split on the marker ends at a second marker if there is one, so
  the carved payload never reaches past a second occurrence of the marker.
- `title`, `workType`, `location`, `salary` and `listingDate` are copied as found and
  may be `undefined`. A normalized record can therefore have undefined fields.
  `NormalizedStorableIff` and `MissingSalaryIsUnstorable` show the consequence for the
  store's not-null columns (`models/job.js`).
- The company-name and benefit fallbacks use `||`, so they test truthiness: a `0`,
  `false`, `""` or `null` falls through too, and a truthy value of any type is kept
  as it is.
- A missing server-state element yields empty text, which fails exactly like a
  missing marker. Every failure of the handler produces the same 500 response. The
  model's `Error` kinds keep the cause determinable, but the response does not reveal it.

## Model

| member | source | states |
|---|---|---|
| `JsText.IndexFrom` | routes/jobRoutes.js:13 | the index `split` cuts at is an occurrence of the separator at or after the start, and no earlier one exists; `None` means there is none |
| `JsText.Split` | routes/jobRoutes.js:13 | `s.split(d)` for a non-empty separator always has at least one piece; `SplitHead`, `SplitSecond`, `JoinOfSplit` and `SplitOfJoin` state what the pieces are |
| `JsText.Join` | routes/jobRoutes.js:341-344 | `parts.join(sep)` begins with the first piece; with `Split` it forms the round trips `JoinOfSplit` and `SplitOfJoin` |
| `JsText.SplitSecond` | routes/jobRoutes.js:13 | `split(d)[1]` exists iff `d` occurs, and it is the text between the first occurrence and the next one (or the end) |
| `JsText.JoinOfSplit` | routes/jobRoutes.js:341-344 | joining the pieces of a split with the same separator gives back the original string |
| `JsText.SplitOfJoin` | routes/jobRoutes.js:324 | splitting a join gives back the pieces when no piece runs into the separator |
| `JsText.SplitCons` | routes/jobRoutes.js:13 | a piece that meets the separator only where the separator begins is split off first, and the rest is split on its own |
| `JsValue.Or` | routes/jobRoutes.js:43 | `a \|\| b` is `a` when `a` is truthy and `b` otherwise; the result is truthy iff either operand is |
| `JsValue.Access` | routes/jobRoutes.js:45 | reading a property fails exactly on a null or undefined receiver; otherwise it yields the own property or undefined |
| `JsValue.OptionalAccess` | routes/jobRoutes.js:43 | `?.` yields undefined on a nullish receiver instead of failing |
| `JsValue.Truthy` | routes/jobRoutes.js:43 | JavaScript truthiness as `\|\|` uses it at lines 43 and 47; a truthy value is never null or undefined |
| `JsValue.Get` | routes/jobRoutes.js:42-48 | the own property under the key of a non-nullish value, or undefined when it has none |
| `Carving.Carve` | routes/jobRoutes.js:13 | carving fails with MarkerNotFound iff the marker is absent; a carved text always ends with `}` and never contains `};` |
| `Carving.CarveCharacterised` | routes/jobRoutes.js:13 | the carved text is the text after the first marker up to the first `};`, second marker or end of text, followed by `}` |
| `Carving.CarvedPieceCharacterised` | routes/jobRoutes.js:13 | for any marker and two-character terminator whose second character differs from the marker's first, the kept piece is the text from the payload start to the first place a terminator, a second marker or the end begins |
| `Carving.CarveWithoutTerminator` | routes/jobRoutes.js:13 | with no `};` and no second marker after the marker, the whole rest of the text plus `}` is kept |
| `Carving.CarveKeepsWholeSegment` | routes/jobRoutes.js:13 | when the segment after the marker (up to a second marker or the end) holds no `};`, the whole segment plus `}` is kept |
| `Carving.CarveAround` | routes/jobRoutes.js:13 | a script `lead + marker + before + "};" + after`, with no `;` in `before` (and no `w` in `lead`, no `_` in `before` or `after`), carves to `before + "}"` |
| `Carving.PieceAround` | routes/jobRoutes.js:13 | for a marker `m` and terminator `t`, when `lead` meets `m` only where `m` begins, no `m` occurs in `before + t + after`, and `before` meets `t` only where `t` begins: `lead + m + before + t + after` splits on `m` into exactly `lead` and the rest, and the rest's first piece on `t` is `before` |
| `Carving.CarveFromStart` | routes/jobRoutes.js:13 | a script that begins with the marker, followed by `before + "};" + after` with no `;` in `before` and no `_` in `before` or `after`, carves to `before + "}"` |
| `Carving.CarveNestedObjectExample` | routes/jobRoutes.js:13 | `window.SEEK_REDUX_DATA = {"a":1,"b":{"c":2}};more()` carves to `{"a":1,"b":{"c":2}}` |
| `Carving.CarveTruncatesInsideString` | routes/jobRoutes.js:13 | a `};` inside a JSON string value cuts the payload there: `{"a":"x};y"};` carves to `{"a":"x}` |
| `Normalize.JobsOf` | routes/jobRoutes.js:41 | the jobs are found iff `results`, `results` and `jobs` are nested object keys ending at an array, and they are that array's items; otherwise SchemaShapeError |
| `Normalize.NormalizeJob` | routes/jobRoutes.js:41-50 | a job fails iff it or its `jobLocation` is nullish. Otherwise: verbatim copies; company name falls back to the advertiser's description, then `""`; benefits fall back to `[]`; tag is the route's |
| `Normalize.NormalizeAllOne` | routes/jobRoutes.js:41-50 | mapping over a single job that normalizes yields exactly its one record |
| `Normalize.NormalizeAll` | routes/jobRoutes.js:41-50 | the map succeeds iff every job does, with one record per job in order; a failure is the first failing job's error |
| `Normalize.NormalizeAllKeepsOrderAndTag` | routes/jobRoutes.js:41-49 | the output has as many records as upstream jobs, each carrying the route's tag and its own job's title and date |
| `Normalize.Storable` | models/job.js:5-28 | the store's not-null columns: a record is storable iff title, company name, work type, location, salary and benefit are all defined; `NormalizedStorableIff` relates it to the upstream job |
| `Normalize.NormalizedStorableIff` | models/job.js:5-28 | company name and benefits of a normalized record are always defined, so it satisfies the not-null columns iff title, work type, location and salary are defined |
| `Normalize.CompanyNameFromAdvertiser` | routes/jobRoutes.js:43 | an empty `companyName` falls through to `advertiser.description` |
| `Normalize.CompanyNameWithoutAdvertiser` | routes/jobRoutes.js:43 | with no company name and no advertiser, the name is `""` and normalization does not fail |
| `Normalize.MissingSalaryIsUnstorable` | models/job.js:21-24 | a job without `salary` normalizes without error into a record the store's not-null rule rejects |
| `ScrapeRoute.SearchUrl` | routes/jobRoutes.js:9 | the URL is the site prefix, the tag verbatim, then `-jobs` |
| `ScrapeRoute.SearchUrlInjective` | routes/jobRoutes.js:9 | different tags request different URLs |
| `ScrapeRoute.Parse` | routes/jobRoutes.js:14 | a parse failure is PayloadParseError; otherwise the parsed value is passed on |
| `ScrapeRoute.UpstreamJobs` | routes/jobRoutes.js:8-15 | the failure kinds in stage order: network failure, missing marker, unparsable payload, wrong shape; otherwise the jobs array |
| `ScrapeRoute.Scrape` | routes/jobRoutes.js:39-50 | an earlier-stage failure is passed on unchanged; when the upstream jobs are found, the run fails iff some job fails to normalize, and then with the first failing job's error; on success there is one record per upstream job, in order, each the job's normalization and carrying the tag |
| `ScrapeRoute.HandleScrape` | routes/jobRoutes.js:39-57 | on any failure nothing is passed to `bulkCreate` and the answer is the fixed 500 text; on success the list stored is the list returned, and 200 is sent iff the store accepts |
| `ScrapeRoute.NetworkFailureWritesNothing` | __tests__/jobRoutes.test.js:83-89 | a network failure answers 500 and never reaches the store |
| `ScrapeRoute.SuitePayloadNormalizes` | __tests__/jobRoutes.test.js:24-66 | the test suite's payload holds one job, which normalizes to exactly the expected record |
| `ScrapeRoute.SuiteJobNormalizes` | __tests__/jobRoutes.test.js:24-66 | the suite's one job normalizes to exactly the record the suite expects for tag `java` |
| `ScrapeRoute.IndentedScriptCarves` | routes/jobRoutes.js:13 | a script laid out like the suite's (a newline and 12 spaces, the marker, an object text with no `;` or `_`, `};`, a newline and 10 spaces) carves to that object text closed with `}` |
| `ScrapeRoute.SuitePageCarves` | __tests__/jobRoutes.test.js:27-43 | the suite's own server-state text, character for character, carves to its object literal closed with `}` |
| `ScrapeRoute.CarvedSuitePayloadScrapes` | routes/jobRoutes.js:39-57 | a page that carves to a text the parser reads as the suite's payload yields exactly the expected record for `java`, and that same list is stored |
| `ScrapeRoute.SuitePageScrapes` | __tests__/jobRoutes.test.js:22-80 | the suite's own page, assuming only that `JSON.parse` reads its carved object literal as the suite's payload, yields exactly the expected record for `java`, and that same list is stored |
| `Export.UpperAscii` | routes/jobRoutes.js:343 | lower-case ASCII letters move to upper case; every other character is unchanged |
| `Export.CapitalizeWord` | routes/jobRoutes.js:343 | a word keeps its length; its first character is upper-cased and the rest is unchanged |
| `Export.CapitalizeAll` | routes/jobRoutes.js:343 | the `.map`: one capitalised word per word, in order |
| `Export.CapitalizeWords` | routes/jobRoutes.js:340-345 | `capitalizeWords` itself; `CapitalizeWordsPointwise` states its length and every position, `CapitalizeWordsIdempotent` and `CapitalizeWordsReplacesHyphens` its other properties |
| `Export.CapitalizeWordsPointwise` | routes/jobRoutes.js:340-345 | the output has the input's length; each `-` becomes a space, each word's first character is upper-cased, and every other character is unchanged |
| `Export.CapitalizeWordsSingle` | routes/jobRoutes.js:340-345 | a hyphen-free tag is capitalised as one word |
| `Export.CapitalizeWordsCons` | routes/jobRoutes.js:340-345 | a hyphen-free first word is capitalised on its own and the hyphen after it becomes a space |
| `Export.CapitalizeWordsReplacesHyphens` | routes/jobRoutes.js:342-344 | no hyphen survives, and every hyphen's position holds a space |
| `Export.CapitalizeWordsIdempotent` | routes/jobRoutes.js:340-345 | title-casing an already title-cased tag changes nothing |
| `Export.CapitalizeTwoWords` | routes/jobRoutes.js:340-345 | two hyphen-free words joined by one hyphen become the two capitalised words joined by one space |
| `Export.CapitalizeWordsExample` | routes/jobRoutes.js:340-345 | `software-engineer` becomes `Software Engineer` |
| `Export.BenefitsCellSplitsBack` | routes/jobRoutes.js:324 | the benefits cell splits back on `", "` into the benefits, when none of them contains `", "` |
| `Export.BenefitsCell` | routes/jobRoutes.js:324 | with no benefits the cell is `""`; otherwise it is their `", "` join, which `BenefitsCellSplitsBack` splits back |
| `Export.DateCell` | routes/jobRoutes.js:325 | with no date the cell is `""`; otherwise it is the prefix of the ISO text up to its first `T` (or all of it), and has no `T` |
| `Export.DateCellOfIso` | routes/jobRoutes.js:325 | for every date part without a `T` and every time part, the ISO text `date + "T" + time` gives exactly the date part |
| `Export.DateCellExample` | routes/jobRoutes.js:325 | `2024-09-17T00:00:00.000Z` gives `2024-09-17` |
| `Export.ExportRow` | routes/jobRoutes.js:317-327 | a row fails iff the tag is null; otherwise the text columns are copied and the cells are the benefits join, the date part and the title-cased tag |
| `Export.FillSheet` | routes/jobRoutes.js:316-328 | one row per job, in order; it stops at the first job with a null tag, and every row added is that job's row |
| `Export.HandleExport` | routes/jobRoutes.js:294-337 | the workbook is produced iff no tag is null, with one row per job; otherwise the fixed 500 text |

## Left out

- HTTP fetch through axios (routes/jobRoutes.js:10): network I/O. The model takes its outcome as the `Fetch` parameter, and `SearchUrl` only builds the URL.
- Markup selection through cheerio (routes/jobRoutes.js:11-12): a foreign library. `Fetch.Page` carries the selected element's text.
- `JSON.parse` (routes/jobRoutes.js:14): a foreign parser. It is the abstract `parse` parameter; no JSON grammar is modelled.
- `Job.bulkCreate` (routes/jobRoutes.js:52): the store decides whether it accepts the batch. That decision is the `storeAccepts` parameter, and partial writes inside the store are not modelled.
- The CRUD handlers (routes/jobRoutes.js:78-90, 130-268) and the export's `findAll` with its tag filter (routes/jobRoutes.js:296-300): thin wrappers over the database.
- The ExcelJS workbook, column headers, response headers and streaming (routes/jobRoutes.js:302-314, 330-333): a foreign library and I/O. The worksheet is modelled as the sequence of rows added.
- `Date.toISOString` (routes/jobRoutes.js:325): foreign. A stored listing date is given as its ISO text.
- Logging with `console.error`, and `res.json` dropping undefined fields on serialisation: output only.
- server.js and config/db.js: process bootstrap and connection set-up, with no pipeline logic.
- Async sequencing is modelled as ordinary sequential composition.
- JsValue.Get: reading a key of a string, number, boolean or array yields undefined. That holds for every key the route reads, but prototype members such as `length` are not modelled.
- JsValue.Value: JSON numbers are reals. NaN cannot come out of `JSON.parse`, so truthiness of a number is "not zero".
- Export.UpperAscii: upper-cases only `a`–`z`. JavaScript's full Unicode case mapping, which can change a string's length (for example `ß` to `SS`), is not modelled, so the length property of `CapitalizeWordsPointwise` is stated for this ASCII mapping.
- The carving examples and the suite's page are written as short literal pieces (parameters fixed by preconditions, or the chunk list `SuiteObjectChunks`) rather than one long literal. The solver does not settle whether a character occurs in a single literal much longer than about 30 characters.
- ScrapeRoute.SuitePageScrapes: takes as its one assumption that `JSON.parse` reads the carved object literal of the suite's page as the suite's payload, because no JSON grammar is modelled. The carve of the page's own text is proved (`SuitePageCarves`).
