/** The ways one scrape run can fail. The route catches all of them alike and
    answers with one generic 500 response; the kinds keep the cause determinable. */
module Errors {

  datatype Error =
    | FetchError               // the listing page could not be retrieved
    | MarkerNotFound           // the server-state text has no `window.SEEK_REDUX_DATA = ` assignment
    | PayloadParseError        // the carved text is not valid JSON
    | SchemaShapeError         // `results.results.jobs` is missing or is not an array
    | JobFieldError(key: string) // reading `key` of a nullish job or nullish `jobLocation`
}
