/** crawler.js: the single-browser variant. Each request launches its own
    browser, opens a page, runs the task inside try/catch/finally and closes
    the browser in the finally block. Launching, opening the page and the
    task itself are oracles. */
module Crawler {
  import opened Outcomes
  import opened Scrape
  import opened Pipeline

  datatype BrowserState = NotLaunched | Open | Closed

  /** What the environment answers for one request: whether the browser
      launches, whether it opens a page, and how the task on that page
      ends. */
  datatype Environment = Environment(launches: bool, opensPage: bool, page: PageOutcome)

  /** The error `uploadImageAndGetSources` rejects with: the launch's or the
      page opening's own error, which escape uncaught, or the generic
      processing error the catch block rethrows. */
  datatype CrawlError = LaunchFailed | NewPageFailed | ProcessingError

  /** The browser's state once the call has settled, and the call's
      result. */
  datatype Run = Run(browser: BrowserState, outcome: Result<UploadResult, CrawlError>)

  /** `uploadImageAndGetSources` as crawler.js writes it: the page is opened
      before the `try`, so the `finally` that closes the browser does not
      cover a failure to open it. */
  function UploadImageAndGetSourcesAsWritten(env: Environment): (r: Run)
    ensures r.browser == Open <==> env.launches && !env.opensPage
  {
    if !env.launches then Run(NotLaunched, Err(LaunchFailed))
    else if !env.opensPage then Run(Open, Err(NewPageFailed))
    else
      match RunTask(env.page)
      case Ok(sources) => Run(Closed, Ok(UploadResult(sources)))
      case Err(_) => Run(Closed, Err(ProcessingError))
  }

  /** A browser that launches but cannot open a page is left running. */
  lemma NewPageFailureLeavesBrowserOpen(page: PageOutcome)
    ensures UploadImageAndGetSourcesAsWritten(Environment(true, false, page))
         == Run(Open, Err(NewPageFailed))
  {
  }

  /** `uploadImageAndGetSources` with the page opened inside the `try`: a
      launched browser is closed whatever happens next, a successful task
      answers `{ image_sources }` with the scraped records, and every
      failure after the launch is the generic processing error. */
  function UploadImageAndGetSources(env: Environment): (r: Run)
    ensures r.browser != Open
    ensures r.browser == Closed <==> env.launches
    ensures r.outcome.Ok? <==> env.launches && env.opensPage && env.page.Rendered?
    ensures r.outcome.Ok? ==>
      r.outcome.value == UploadResult(ExtractRelatedSources(env.page.elements))
    ensures env.launches && r.outcome.Err? ==> r.outcome.error == ProcessingError
  {
    if !env.launches then Run(NotLaunched, Err(LaunchFailed))
    else if !env.opensPage then Run(Closed, Err(ProcessingError))
    else
      match RunTask(env.page)
      case Ok(sources) => Run(Closed, Ok(UploadResult(sources)))
      case Err(_) => Run(Closed, Err(ProcessingError))
  }

  /** Whenever the page opens, or the launch already fails, the corrected
      call behaves exactly as the written one. */
  lemma CorrectionOnlyCoversPageOpening(env: Environment)
    requires env.opensPage || !env.launches
    ensures UploadImageAndGetSources(env) == UploadImageAndGetSourcesAsWritten(env)
  {
  }

  const NoImageUrlMessage := "No image URL provided"

  /** An answer and the browser's state once it has been sent. */
  datatype Exchange = Exchange(response: Response, browser: BrowserState)

  /** `/api/upload` of crawler.js as written: a falsy `imageUrl` answers
      400 before any browser is launched; otherwise the records are
      answered with 200 and any rejection, including the launch's and the
      page opening's, with 500 and the generic message. A browser that
      launched but could not open a page is still running afterwards. */
  function HandleUploadAsWritten(imageUrl: JsonValue, env: Environment): (x: Exchange)
    ensures !IsTruthy(imageUrl) ==>
      x == Exchange(Response(400, ErrorMessage(NoImageUrlMessage)), NotLaunched)
    ensures IsTruthy(imageUrl) ==>
      && (x.browser == Open <==> env.launches && !env.opensPage)
      && (x.response.status == 200 <==> env.launches && env.opensPage && env.page.Rendered?)
      && (x.response.status == 200 ==>
            x.response.body == Sources(UploadResult(ExtractRelatedSources(env.page.elements))))
      && (x.response.status != 200 ==>
            x.response == Response(500, ErrorMessage(ProcessingFailureMessage)))
  {
    if !IsTruthy(imageUrl) then
      Exchange(Response(400, ErrorMessage(NoImageUrlMessage)), NotLaunched)
    else
      Reply(UploadImageAndGetSourcesAsWritten(env))
  }

  /** `/api/upload` of crawler.js over the corrected coordinator: as
      written, except that no browser is left open. */
  function HandleUpload(imageUrl: JsonValue, env: Environment): (x: Exchange)
    ensures !IsTruthy(imageUrl) ==>
      x == Exchange(Response(400, ErrorMessage(NoImageUrlMessage)), NotLaunched)
    ensures IsTruthy(imageUrl) ==>
      && x.browser != Open
      && (x.response.status == 200 <==> env.launches && env.opensPage && env.page.Rendered?)
      && (x.response.status == 200 ==>
            x.response.body == Sources(UploadResult(ExtractRelatedSources(env.page.elements))))
      && (x.response.status != 200 ==>
            x.response == Response(500, ErrorMessage(ProcessingFailureMessage)))
  {
    if !IsTruthy(imageUrl) then
      Exchange(Response(400, ErrorMessage(NoImageUrlMessage)), NotLaunched)
    else
      Reply(UploadImageAndGetSources(env))
  }

  /** The handler's try/catch: a result is answered with 200, any rejection
      with 500 and the generic message. */
  function Reply(run: Run): Exchange
  {
    match run.outcome
    case Ok(result) => Exchange(Response(200, Sources(result)), run.browser)
    case Err(_) => Exchange(Response(500, ErrorMessage(ProcessingFailureMessage)), run.browser)
  }

  /** The client cannot tell the two handlers apart: they send the same
      answer for every request, and differ only in the browser left behind
      when the page fails to open, which the written one leaves running. */
  lemma HandlersDifferOnlyInBrowser(imageUrl: JsonValue, env: Environment)
    ensures HandleUpload(imageUrl, env).response == HandleUploadAsWritten(imageUrl, env).response
    ensures (env.opensPage || !env.launches || !IsTruthy(imageUrl)) <==>
      HandleUpload(imageUrl, env) == HandleUploadAsWritten(imageUrl, env)
  {
  }
}
