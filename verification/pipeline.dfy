/** What both servers share: the browser task as an oracle, the
    `{ image_sources }` result object and the HTTP answers. */
module Pipeline {
  import opened Outcomes
  import opened Scrape

  /** The browser steps that run before the scrape, in order: load the Lens
      page, wait for the results marker, click the "Find image source"
      button, click "More exact matches" until it is gone, evaluate the
      scrape in the page. Any of them can throw. */
  datatype PipelineStep =
    | Navigate
    | WaitForResults
    | ClickFindImageSource
    | LoadMoreMatches
    | Evaluate

  /** The browser's answer to one run of the task: the matched result
      elements once every step completed, or the step that threw. */
  datatype PageOutcome =
    | Rendered(elements: seq<Element>)
    | StepFailed(step: PipelineStep)

  /** The object `{ "image_sources": relatedSources }`. */
  datatype UploadResult = UploadResult(imageSources: seq<SourceRecord>)

  /** The task body: the scraped records if every step succeeded, otherwise
      the step that failed. */
  function RunTask(page: PageOutcome): (r: Result<seq<SourceRecord>, PipelineStep>)
    ensures r.Ok? <==> page.Rendered?
    ensures r.Ok? ==>
      && |r.value| == |page.elements|
      && forall i :: 0 <= i < |r.value| ==> r.value[i].position == i + 1
    ensures r.Ok? ==> r.value == ExtractRelatedSources(page.elements)
    ensures r.Err? ==> r.error == page.step
  {
    match page
    case Rendered(elements) => Ok(ExtractRelatedSources(elements))
    case StepFailed(step) => Err(step)
  }

  /** A member of a parsed JSON request body, `undefined` when it is
      absent. */
  datatype JsonValue =
    | Undefined
    | Null
    | JsonBoolean(b: bool)
    | JsonNumber(n: real)
    | JsonText(s: string)
    | JsonStructure

  /** JavaScript truthiness of such a value. */
  predicate IsTruthy(v: JsonValue)
  {
    match v
    case Undefined => false
    case Null => false
    case JsonBoolean(b) => b
    case JsonNumber(n) => n != 0.0
    case JsonText(s) => |s| > 0
    case JsonStructure => true
  }

  datatype ResponseBody =
    | Sources(result: UploadResult)
    | ErrorMessage(message: string)

  datatype Response = Response(status: int, body: ResponseBody)

  /** The body of every 500 answer of the upload endpoint. */
  const ProcessingFailureMessage := "An error occurred while processing the image"
}
