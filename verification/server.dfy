/** index.js: the cache-or-fetch coordinator `uploadImageAndGetSources` over
    a key-to-result cache, and the `/api/upload` handler around it. The
    browser pool is an oracle (`PageOutcome`); validation is an opaque
    verdict. */
module Server {
  import opened Outcomes
  import opened Scrape
  import opened Pipeline

  /** The result cache, keyed by the exact `imageUrl` string. */
  type Cache = map<string, UploadResult>

  /** What the coordinator did, in order: a cache lookup, a run of the
      browser task, a cache store. */
  datatype CacheEvent =
    | CacheGet(key: string)
    | Execute(key: string)
    | CacheSet(key: string, value: UploadResult)

  /** The single error the coordinator throws, whatever step failed. */
  datatype ProcessingError = ProcessingError

  /** One call of the coordinator: the cache afterwards, the returned
      object or the thrown error, and what was done on the way. */
  datatype Transition = Transition(
    cache: Cache,
    outcome: Result<UploadResult, ProcessingError>,
    events: seq<CacheEvent>)

  predicate ReadsCache(events: seq<CacheEvent>)
  {
    exists e :: e in events && e.CacheGet?
  }

  predicate WritesCache(events: seq<CacheEvent>)
  {
    exists e :: e in events && e.CacheSet?
  }

  predicate Extracts(events: seq<CacheEvent>)
  {
    exists e :: e in events && e.Execute?
  }

  /** The cache obtained by performing the stores of an event sequence in
      order; lookups and task runs leave it alone. */
  function Replay(cache: Cache, events: seq<CacheEvent>): Cache
    decreases |events|
  {
    if |events| == 0 then cache
    else match events[0]
      case CacheSet(key, value) => Replay(cache[key := value], events[1..])
      case _ => Replay(cache, events[1..])
  }

  /** `uploadImageAndGetSources(imageUrl, noCache)`. A bypass runs the task
      and never touches the cache; otherwise a cached object is returned
      as is, and a miss runs the task and stores the new object only when
      it succeeds. Every failure is the one generic error. */
  function UploadImageAndGetSources(cache: Cache, imageUrl: string, noCache: bool, page: PageOutcome)
    : (t: Transition)
    ensures t.outcome.Err? ==> t.cache == cache
    ensures noCache ==> t.cache == cache && !ReadsCache(t.events) && !WritesCache(t.events)
    ensures ReadsCache(t.events) <==> !noCache
    ensures Extracts(t.events) <==> noCache || imageUrl !in cache
    ensures t.outcome.Ok? <==> page.Rendered? || (!noCache && imageUrl in cache)
    ensures (noCache || imageUrl !in cache) && page.Rendered? ==>
      t.outcome == Ok(UploadResult(ExtractRelatedSources(page.elements)))
    ensures !noCache && imageUrl in cache ==> t.outcome == Ok(cache[imageUrl])
    ensures !noCache && t.outcome.Ok? ==> imageUrl in t.cache && t.cache[imageUrl] == t.outcome.value
    ensures t.cache - {imageUrl} == cache - {imageUrl}
  {
    assert Execute(imageUrl) in [Execute(imageUrl)];
    assert CacheGet(imageUrl) in [CacheGet(imageUrl)];
    if noCache then
      match RunTask(page)
      case Ok(sources) => Transition(cache, Ok(UploadResult(sources)), [Execute(imageUrl)])
      case Err(_) => Transition(cache, Err(ProcessingError), [Execute(imageUrl)])
    else if imageUrl in cache then
      Transition(cache, Ok(cache[imageUrl]), [CacheGet(imageUrl)])
    else
      match RunTask(page)
      case Ok(sources) =>
        var result := UploadResult(sources);
        var events := [CacheGet(imageUrl), Execute(imageUrl), CacheSet(imageUrl, result)];
        assert events[0] in events && events[1] in events;
        assert cache[imageUrl := result] - {imageUrl} == cache - {imageUrl};
        Transition(cache[imageUrl := result], Ok(result), events)
      case Err(_) =>
        var events := [CacheGet(imageUrl), Execute(imageUrl)];
        assert events[0] in events && events[1] in events;
        Transition(cache, Err(ProcessingError), events)
  }

  /** The cache after a call is exactly the effect of the stores it made. */
  lemma UploadReplaysEvents(cache: Cache, imageUrl: string, noCache: bool, page: PageOutcome)
    ensures var t := UploadImageAndGetSources(cache, imageUrl, noCache, page);
      t.cache == Replay(cache, t.events)
  {
    var t := UploadImageAndGetSources(cache, imageUrl, noCache, page);
    if !noCache && imageUrl !in cache && page.Rendered? {
      var result := t.outcome.value;
      var lookup := [CacheGet(imageUrl), Execute(imageUrl)];
      assert t.events == lookup + [CacheSet(imageUrl, result)];
      ReplayAppend(cache, lookup, [CacheSet(imageUrl, result)]);
      ReplayWithoutStores(cache, lookup);
    } else {
      ReplayWithoutStores(cache, t.events);
    }
  }

  /** Events without a store leave the cache as it was. */
  lemma {:induction false} ReplayWithoutStores(cache: Cache, events: seq<CacheEvent>)
    requires !WritesCache(events)
    ensures Replay(cache, events) == cache
    decreases |events|
  {
    if |events| > 0 {
      assert events[0] in events;
      forall e | e in events[1..]
        ensures e in events
      {
      }
      ReplayWithoutStores(cache, events[1..]);
    }
  }

  /** Replaying two event sequences one after the other. */
  lemma {:induction false} ReplayAppend(cache: Cache, first: seq<CacheEvent>, second: seq<CacheEvent>)
    ensures Replay(cache, first + second) == Replay(Replay(cache, first), second)
    decreases |first|
  {
    if |first| == 0 {
      assert first + second == second;
    } else {
      assert (first + second)[0] == first[0];
      assert (first + second)[1..] == first[1..] + second;
      match first[0]
      case CacheSet(key, value) => ReplayAppend(cache[key := value], first[1..], second);
      case _ => ReplayAppend(cache, first[1..], second);
    }
  }

  /** A non-bypass call on a cached key returns the cached object, looks it
      up once and does nothing else, whatever the browser would answer. */
  lemma CacheHitReturnsCachedObject(cache: Cache, imageUrl: string, page: PageOutcome)
    requires imageUrl in cache
    ensures UploadImageAndGetSources(cache, imageUrl, false, page)
         == Transition(cache, Ok(cache[imageUrl]), [CacheGet(imageUrl)])
  {
  }

  /** A non-bypass miss whose task succeeds stores `{ image_sources }` under
      the exact key and returns that same object. */
  lemma CacheMissStoresResult(cache: Cache, imageUrl: string, elements: seq<Element>)
    requires imageUrl !in cache
    ensures var result := UploadResult(ExtractRelatedSources(elements));
      UploadImageAndGetSources(cache, imageUrl, false, Rendered(elements))
        == Transition(cache[imageUrl := result], Ok(result),
                      [CacheGet(imageUrl), Execute(imageUrl), CacheSet(imageUrl, result)])
  {
  }

  /** A bypass runs the task once, neither reads nor writes the cache,
      answers `{ image_sources }` of a fresh extraction when the task
      succeeds, and its answer does not depend on what the cache holds. */
  lemma BypassIgnoresCache(cache: Cache, other: Cache, imageUrl: string, page: PageOutcome)
    ensures var t := UploadImageAndGetSources(cache, imageUrl, true, page);
      && t.cache == cache
      && t.events == [Execute(imageUrl)]
      && (page.Rendered? ==> t.outcome == Ok(UploadResult(ExtractRelatedSources(page.elements))))
      && t.outcome == UploadImageAndGetSources(other, imageUrl, true, page).outcome
  {
  }

  /** A failing task, in either branch and at whatever step, leaves the
      cache as it was and throws the one generic error. */
  lemma FailureIsGeneric(cache: Cache, imageUrl: string, noCache: bool, step: PipelineStep, other: PipelineStep)
    ensures var t := UploadImageAndGetSources(cache, imageUrl, noCache, StepFailed(step));
      && (t.outcome.Err? <==> (noCache || imageUrl !in cache))
      && (t.outcome.Err? ==> t.cache == cache && t.outcome.error == ProcessingError)
      && t == UploadImageAndGetSources(cache, imageUrl, noCache, StepFailed(other))
  {
  }

  /** Two successive non-bypass calls for one key: once the first has
      succeeded, the second returns the same object and runs no task. */
  lemma RepeatedRequestHitsCache(cache: Cache, imageUrl: string, first: PageOutcome, second: PageOutcome)
    requires UploadImageAndGetSources(cache, imageUrl, false, first).outcome.Ok?
    ensures var t1 := UploadImageAndGetSources(cache, imageUrl, false, first);
      var t2 := UploadImageAndGetSources(t1.cache, imageUrl, false, second);
      && t2.outcome == t1.outcome
      && t2.cache == t1.cache
      && !Extracts(t2.events)
  {
  }

  /** A bypass does not refresh the cache: a later non-bypass call still
      returns the object cached before the bypass. */
  lemma BypassDoesNotRefreshCache(cache: Cache, imageUrl: string, page: PageOutcome, later: PageOutcome)
    requires imageUrl in cache
    ensures var t1 := UploadImageAndGetSources(cache, imageUrl, true, page);
      UploadImageAndGetSources(t1.cache, imageUrl, false, later).outcome == Ok(cache[imageUrl])
  {
  }

  /** The cache's time-to-live, as an abstract step: the entry for a key is
      dropped. */
  function Expire(cache: Cache, key: string): (after: Cache)
    ensures key !in after
    ensures after - {key} == cache - {key}
  {
    cache - {key}
  }

  /** After its entry expires, a non-bypass call for the key runs the task
      again and returns the fresh result rather than the stale one. */
  lemma ExpiredEntryIsRefetched(cache: Cache, imageUrl: string, elements: seq<Element>)
    ensures var t := UploadImageAndGetSources(Expire(cache, imageUrl), imageUrl, false, Rendered(elements));
      && Extracts(t.events)
      && t.outcome == Ok(UploadResult(ExtractRelatedSources(elements)))
  {
  }

  /** `/api/upload` once the body's `no_cache` field has been read as a
      boolean: a failed validation answers 400 with the validator's message
      and touches nothing; otherwise the coordinator's object is answered
      with 200 and its error with 500 and the generic message. */
  function Respond(cache: Cache, validationError: Option<string>, imageUrl: string, noCache: bool, page: PageOutcome)
    : (h: Handled)
    ensures h.response.status in {200, 400, 500}
    ensures h.response.status == 400 <==> validationError.Some?
    ensures validationError.Some? ==>
      h.cache == cache && h.events == [] && h.response.body == ErrorMessage(validationError.value)
    ensures validationError.None? ==>
      && (ReadsCache(h.events) <==> !noCache)
      && (Extracts(h.events) <==> noCache || imageUrl !in cache)
    ensures h.response.status == 200 <==>
      validationError.None? && (page.Rendered? || (!noCache && imageUrl in cache))
    ensures h.response.status == 200 ==> h.response.body.Sources?
    ensures validationError.None? ==>
      var t := UploadImageAndGetSources(cache, imageUrl, noCache, page);
      && h.cache == t.cache
      && h.events == t.events
      && (t.outcome.Ok? ==> h.response == Response(200, Sources(t.outcome.value)))
    ensures h.response.status == 500 ==>
      h.cache == cache && h.response.body == ErrorMessage(ProcessingFailureMessage)
  {
    match validationError
    case Some(message) => Handled(Response(400, ErrorMessage(message)), cache, [])
    case None =>
      var t := UploadImageAndGetSources(cache, imageUrl, noCache, page);
      match t.outcome
      case Ok(result) => Handled(Response(200, Sources(result)), t.cache, t.events)
      case Err(_) => Handled(Response(500, ErrorMessage(ProcessingFailureMessage)), t.cache, t.events)
  }

  /** One request as the handler sees it: the validator's verdict (an error
      message, or none), the `imageUrl` and the raw `no_cache` field of the
      body. */
  datatype UploadRequest = UploadRequest(
    validationError: Option<string>,
    imageUrl: string,
    noCache: JsonValue)

  datatype Handled = Handled(response: Response, cache: Cache, events: seq<CacheEvent>)

  function LowerAscii(s: string): (r: string)
    ensures |r| == |s|
  {
    seq(|s|, i requires 0 <= i < |s| =>
      if 'A' <= s[i] <= 'Z' then (s[i] as int - 'A' as int + 'a' as int) as char else s[i])
  }

  /** The fields a `Joi.boolean()` schema accepts in its default converting
      mode: absent, a boolean, or the string "true" or "false" in any letter
      case. */
  predicate AcceptedByValidator(field: JsonValue)
  {
    match field
    case Undefined => true
    case JsonBoolean(_) => true
    case JsonText(s) => LowerAscii(s) == "true" || LowerAscii(s) == "false"
    case _ => false
  }

  /** The boolean the validator reads an accepted field as; an absent field
      takes the coordinator's default `false`. */
  function FlagValue(field: JsonValue): bool
  {
    match field
    case JsonBoolean(b) => b
    case JsonText(s) => LowerAscii(s) == "true"
    case _ => false
  }

  /** The handler as index.js writes it: `no_cache` is taken from the raw
      body and its truthiness decides the bypass. */
  function HandleUploadAsWritten(cache: Cache, request: UploadRequest, page: PageOutcome): (h: Handled)
    ensures request.validationError.None? ==>
      (ReadsCache(h.events) <==> !IsTruthy(request.noCache))
  {
    Respond(cache, request.validationError, request.imageUrl, IsTruthy(request.noCache), page)
  }

  /** The handler with the validator's boolean deciding the bypass. */
  function HandleUpload(cache: Cache, request: UploadRequest, page: PageOutcome): (h: Handled)
    ensures request.validationError.None? ==>
      (ReadsCache(h.events) <==> !FlagValue(request.noCache))
  {
    Respond(cache, request.validationError, request.imageUrl, FlagValue(request.noCache), page)
  }

  /** The body `{ imageUrl, no_cache: "false" }` passes validation, yet the
      handler as written bypasses the cache for it: it runs the task even
      though the key is cached, while the corrected handler answers with
      the cached object. */
  lemma StringFalseBypassesCache(cache: Cache, imageUrl: string, page: PageOutcome)
    requires imageUrl in cache
    ensures var request := UploadRequest(None, imageUrl, JsonText("false"));
      && AcceptedByValidator(request.noCache)
      && !FlagValue(request.noCache)
      && HandleUploadAsWritten(cache, request, page).events == [Execute(imageUrl)]
      && HandleUpload(cache, request, page)
           == Handled(Response(200, Sources(cache[imageUrl])), cache, [CacheGet(imageUrl)])
  {
    assert LowerAscii("false") == "false";
  }

  /** For a missing or boolean field the two handlers agree. */
  lemma HandlersAgreeOnBooleans(cache: Cache, request: UploadRequest, page: PageOutcome)
    requires request.noCache.Undefined? || request.noCache.JsonBoolean?
    ensures HandleUploadAsWritten(cache, request, page) == HandleUpload(cache, request, page)
  {
  }
}
