# Google Lens image sources — verified model of the scrape, cache and endpoint logic

The service takes an image URL, drives a browser through Google Lens'
"find image source" flow, and answers `POST /api/upload` with
`{ image_sources: [...] }`, one record per related page. `index.js` is the
production server: a pooled cluster of headless browsers, a one-hour result
cache and a bypass flag `no_cache`. `crawler.js` is a simpler variant that
launches one visible (non-headless) browser per request and closes it in a
`finally` block.

This project models, in Dafny, the three sequential pieces of that logic:

- **Record building** (`Scrape`, over `JsString`): `extractRelatedSources`
  turns the matched result anchors, in page order, into `SourceRecord`s
  numbered from 1. Text fields are trimmed, and absent sub-elements become
  `null`. The dimension label is trimmed, split on `x`, and read with
  `parseInt`. `JsString` models `String.prototype.trim`, `split` with a
  one-character separator, and `parseInt(s, 10)` (section 19.2.5 of ECMA-262)
  on code-point strings. NaN is kept distinct from `null`.
- **Cache-or-fetch coordinator** (`Server`): `uploadImageAndGetSources` is a
  transition over a `map<string, UploadResult>` keyed by the exact URL. The
  browser cluster is an oracle value `PageOutcome`: either the rendered
  elements, or the step that threw. Each call also returns the sequence of
  cache lookups, task runs and cache stores it performed. `Replay` rebuilds
  the new cache from those stores.
- **Endpoint outcome mapping** (`Server.Respond`, `Crawler.HandleUpload`):
  400 for a failed validation (index.js) or a falsy `imageUrl` (crawler.js),
  200 with the result object, and 500 with the generic message. In
  crawler.js the browser's state (`NotLaunched`/`Open`/`Closed`) is tracked
  through launch, page opening, the task and the `finally` block.

The model follows the code as written:

- A bypass request (`no_cache`) neither reads nor writes the cache
  (`BypassDoesNotRefreshCache`). It does not write through.
- The cache key is the raw URL string, with no normalisation.
- A dimension side that is not numeric is NaN, not absent (`DimensionsMissingHeight`).
- Every failure reaches the client as the one generic 500 answer. In crawler.js as written, a failed launch or `newPage` escapes `uploadImageAndGetSources` with its own error (`LaunchFailed`, `NewPageFailed`), and only the handler maps it to that answer.
- `link` is the anchor's `href` as is. Nothing checks that it is non-empty.

## Model

| member | source | states |
|---|---|---|
| `JsString.TrimStart` | index.js:140-141 | The result is a suffix of the input. Everything dropped is white space. The result does not start with white space (the leading skip of `parseInt`). |
| `JsString.TrimEnd` | index.js:128-133 | The result is a prefix of the input. Everything dropped is white space. The result does not end with white space. |
| `JsString.Trim` | index.js:128-133 | `trim()` returns an infix with no white space at either end. Only white space is removed before and after it. |
| `JsString.TrimUnique` | index.js:128-133 | Whenever a string is white space + a trimmed middle + white space, `trim()` returns exactly that middle. |
| `JsString.TrimIdempotent` | index.js:128-133 | Trimming a trimmed text changes nothing. |
| `JsString.Split` | index.js:138 | `split('x')` yields one piece more than there are `x`s, and no piece contains `x`. |
| `JsString.SplitJoin` | index.js:138 | Joining the pieces of `split('x')` with `x` gives back the string. |
| `JsString.JoinSplit` | index.js:138 | Splitting a join of `x`-free pieces gives back the pieces (the inverse direction). |
| `JsString.SplitAtOnlySeparator` | index.js:138-139 | With exactly one `x`, at index i, the split is the two-element list of the text before it and the text after it. |
| `JsString.LeadingDigits` | index.js:140-141 | The longest all-digit prefix, as `parseInt` reads it. |
| `JsString.ParseInt` | index.js:140-141 | `parseInt(part, 10)` is NaN exactly when no digit follows the leading white space and the optional sign. A negative value needs a leading `-`. |
| `JsString.ParseIntDigits` | index.js:140-141 | `parseInt` of white space + optional sign + digits + non-digit text is the signed decimal value of the digits. |
| `JsString.ParseIntNoDigits` | index.js:140-141 | `parseInt` is NaN when no digit follows the white space and the optional sign. |
| `JsString.ParseIntRoundTrip` | index.js:140-141 | `parseInt` reads back the decimal numeral of any integer, whatever non-digit text follows. |
| `Scrape.TrimmedText` | index.js:128-129 | A text field is `null` exactly when its sub-element is absent. Otherwise it is the trimmed inner text. |
| `Scrape.ParseDimensions` | index.js:133-143 | Width and height are both present or both `null`. They are present exactly when the trimmed label holds exactly one `x`. |
| `Scrape.DimensionsAroundSeparator` | index.js:137-142 | With exactly one `x` in the trimmed label, width and height are `parseInt` of the text before it and the text after it. |
| `Scrape.DimensionsOfPair` | index.js:137-142 | A trimmed label `before x after` with `x`-free sides gives `parseInt(before)` by `parseInt(after)`. |
| `Scrape.DimensionsOfBlankText` | index.js:133-137 | An absent label, or one that is only white space, leaves both dimensions `null`. |
| `Scrape.DimensionsRoundTrip` | index.js:138-142 | A label `WxH` of decimal numerals reads back as width W and height H. |
| `Scrape.DimensionsMissingHeight` | index.js:139-141 | A label such as `1200x` gives width 1200 and height NaN, not `null`. |
| `Scrape.BuildRecord` | index.js:127-154 | The record of one element carries the given position and the `href` as `link`. Title and source are `null` exactly when absent, and otherwise trimmed. Logo and thumbnail are the `src` or `null`. Width and height are those `ParseDimensions` reads from the label: both present or both `null`, present exactly when the trimmed label has one `x`, and then `parseInt` of the text before and after it. |
| `Scrape.ExtractRelatedSources` | index.js:120-161 | One record per element, in order. Record i has position i + 1. `link` is the `href`. Title and source are trimmed and `null` exactly when absent. Logo and thumbnail are the `src` or `null`. The dimensions are those of the element's label. The same code is at crawler.js:90-131. |
| `Scrape.PositionsAreRanks` | index.js:127-146 | Positions run from 1 to n and strictly increase in page order. |
| `Scrape.ExtractPrefixStable` | index.js:125-157 | Elements appended after the first ones leave the records of the first ones unchanged. |
| `Pipeline.RunTask` | index.js:51-62 | The browser task gives records exactly when every step completed: one per matched element, numbered 1 to n. The records are exactly `extractRelatedSources` of the rendered elements. Otherwise it rejects with the step that threw. The same steps are at crawler.js:139-147. |
| `Server.UploadImageAndGetSources` | index.js:164-193 | A bypass never reads or writes the cache. A non-bypass call reads it. The task runs exactly on a bypass or a miss. A failure leaves the cache unchanged. A successful bypass or miss returns `{image_sources}` of the fresh extraction. A hit returns the cached object. A successful non-bypass call leaves the returned object stored under the key. No other key changes. |
| `Server.UploadReplaysEvents` | index.js:178-188 | The cache after a call is exactly the effect of the stores the call performed, in order. |
| `Server.CacheHitReturnsCachedObject` | index.js:178-182 | A non-bypass call on a cached key returns the cached object, performs one lookup and no extraction, and changes nothing. |
| `Server.CacheMissStoresResult` | index.js:184-188 | A non-bypass miss with a successful task stores `{image_sources}` under the exact key and returns that same object. |
| `Server.BypassIgnoresCache` | index.js:165-171 | A bypass runs the task once and leaves the cache unchanged. When the task succeeds it returns `{image_sources}` of the fresh extraction. Its answer is the same whatever the cache holds. |
| `Server.FailureIsGeneric` | index.js:172-192 | A failing task, in either branch and at any step, leaves the cache unchanged and yields the one processing error. |
| `Server.RepeatedRequestHitsCache` | index.js:178-188 | After a successful non-bypass call, a second one for the same key returns the same object and runs no task. |
| `Server.BypassDoesNotRefreshCache` | index.js:165-182 | After a bypass, a non-bypass call still returns the object cached before the bypass. |
| `Server.Expire` | index.js:14 | Dropping an expired entry removes the key and nothing else. |
| `Server.ExpiredEntryIsRefetched` | index.js:178-188 | After the entry expires, the next non-bypass call runs the task and returns the fresh result. |
| `Server.Respond` | index.js:202-216 | A validation failure answers 400 with the validator's message, before any cache access or task. Otherwise the cache and the recorded events are the coordinator's. The answer is 200 with exactly the coordinator's object when it succeeds, and 500 with the generic message when it fails. The status is always 200, 400 or 500. |
| `Server.HandleUploadAsWritten` | index.js:208-211 | As written: the cache is consulted exactly when the raw `no_cache` field is falsy in JavaScript. |
| `Server.HandleUpload` | index.js:208-211 | Corrected: the cache is consulted exactly when the validator's boolean for `no_cache` is false. |
| `Server.StringFalseBypassesCache` | index.js:208-211 | `no_cache: "false"` passes validation, yet the as-written handler runs the task for a cached key. The corrected handler answers with the cached object. |
| `Server.HandlersAgreeOnBooleans` | index.js:208-211 | For a missing or boolean `no_cache` field, the as-written and corrected handlers behave identically. |
| `Crawler.UploadImageAndGetSourcesAsWritten` | crawler.js:134-157 | As written: the browser is left open exactly when it launches but the page fails to open. |
| `Crawler.NewPageFailureLeavesBrowserOpen` | crawler.js:135-138 | A launched browser whose `newPage` fails stays open, and the call rejects with the page error. |
| `Crawler.UploadImageAndGetSources` | crawler.js:134-157 | Corrected: a launched browser is always closed. A successful task answers `{image_sources}` with the scraped records. Every failure after the launch is the generic processing error. |
| `Crawler.CorrectionOnlyCoversPageOpening` | crawler.js:134-157 | When the page opens, or the launch fails, the corrected call behaves exactly as the written one. |
| `Crawler.HandleUploadAsWritten` | crawler.js:160-172 | As written: a falsy `imageUrl` answers 400 `No image URL provided` and launches no browser. Otherwise the answer is 200 with the records or 500 with the generic message, and the browser is left open exactly when it launched but the page failed to open. |
| `Crawler.HandleUpload` | crawler.js:160-172 | Corrected (over the corrected coordinator): the same 400, 200 and 500 answers, and no browser is left open. |
| `Crawler.HandlersDifferOnlyInBrowser` | crawler.js:134-172 | The written and corrected handlers send the same answer to every request. They are identical exactly when the URL is falsy, the launch fails, or the page opens. |

## Left out

- Browser actions are the oracle `PageOutcome`, not modelled: navigation, `waitForSelector`, the button clicks, the 3-second delays and scrolling (index.js:51-117, crawler.js:14-87). The "More exact matches" loop stops only when the page drops the button. Its termination is not claimed.
- The DOM reads (`innerText`, `src`, `href`) are taken as given strings in `Element`.
- The puppeteer-cluster pool and its `maxConcurrency: 5` (index.js:41-49) are a concurrency library. The model has no pool, queue or scheduling.
- node-cache's one-hour TTL (index.js:14) is the abstract `Expire` step, not clock time. node-cache returns clones of stored objects; the model returns the stored value, which is equal.
- Joi validation (index.js:29-35) is an opaque verdict: an optional error message. The one exception is the `no_cache` rule, which `AcceptedByValidator`/`FlagValue` state as Joi's default converting `boolean()`: booleans, and "true"/"false" in any ASCII letter case.
- Rate limiting (index.js:17-21, the 429 answer) is left out. It is a library.
- The error middleware (index.js:196-199) is left out. The handler catches every error itself.
- Building the Lens URL with `encodeURIComponent` (index.js:52, crawler.js:139) is a built-in. The oracle does not depend on the URL.
- Express, CORS, body parsing, `listen` and console logging/timing are left out.
- JSON serialisation of the answer is left out. In it, `JSON.stringify` writes NaN as `null`.
- A failing `browser.close()` in the `finally` block (crawler.js:154) is left out. Closing always succeeds in the model.
- `JsString.ParseIntDigits`: gives the exact integer. JavaScript rounds to the nearest double, so values above 2^53 differ, and `"-0"` gives negative zero where the model gives 0.
- `JsString.ParseIntRoundTrip`: exact integers, for the same reason.
- `Server.HandleUpload`: lower-cases ASCII letters only. Joi uses full `toLowerCase`, but no other code point lower-cases to a letter of "true" or "false".
- Strings are sequences of code points, not UTF-16 code units. Every white-space character involved is in the Basic Multilingual Plane, so `trim`, `split('x')` and `parseInt` are unaffected.
- Each coordinator call is one atomic step. In the code, concurrent requests interleave at `await cluster.execute` (index.js:169, 185): two misses on one key both run the task, and the last store wins. `Server.RepeatedRequestHitsCache` is therefore stated for successive calls only.
- The code does not do the following, so they are not modelled: coalescing of concurrent misses, pool saturation errors, a pagination cap, URL normalisation, and write-through on bypass.

## Findings

| source | as written | input that shows it | evidently intended | confidence | as-written member | corrected member |
|---|---|---|---|---|---|---|
| index.js:208-211 | The handler passes the raw `req.body.no_cache` to the coordinator. Joi's converted value is thrown away. | `{"imageUrl": <cached URL>, "no_cache": "false"}`. Joi's converting `boolean()` accepts the string, but the non-empty string is truthy. The cache is bypassed and the task runs again. | The validated boolean decides the bypass, so `"false"` answers from the cache. | medium (not executed; relies on Joi's default conversion mode) | `Server.HandleUploadAsWritten` (counterexample: `Server.StringFalseBypassesCache`) | `Server.HandleUpload` |
| crawler.js:135-138 | `openPage` runs before the `try`, so its `finally`, which closes the browser, does not cover it. | `browser.newPage()` rejects after a successful launch. The browser process is left running. | Every launched browser is closed, whatever fails after the launch. | medium (not executed) | `Crawler.UploadImageAndGetSourcesAsWritten` and `Crawler.HandleUploadAsWritten` (counterexample: `Crawler.NewPageFailureLeavesBrowserOpen`) | `Crawler.UploadImageAndGetSources` and `Crawler.HandleUpload` |
