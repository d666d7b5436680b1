# cheezburger_scraper, modelled in Dafny

The scraper behind an HTTP endpoint. It walks the listing pages of a site
(`https://icanhas.cheezburger.com` by default) with a headless browser and
collects the requested number of image cards, in page order. It reads each
card's image address, preferring `data-src` over `src`. It then navigates a
tab to each address and captures the response body. The body is written to
`downloads/<UTC timestamp>/<n>.jpg`. Around that core sit the process
configuration read from the environment, the query-parameter parsing and
error-to-status translation of the `/images/download` handler, the typed
errors of `types/errors`, a channel-based counting semaphore and two test
helpers.

The modules follow the repository's files:

- `basics.dfy`: `Option`, `Result` and `Max0`.
- `decimal.dfy`: decimal `%d` formatting and `strconv.ParseUint(s, 10, 32)`, including its error values and messages.
- `errors.dfy`: the error taxonomy (`types/errors/*.go`).
- `configs.dfy`: `configs/configs.go`.
- `request_handler.dfy`: `routes/images/request_handler.go`.
- `semaphore.dfy`: `lib/semaphore/CustomSemaphore.go`, as a class.
- `test_utils.dfy`: `test/utils/utils.go`.
- `browser.dfy`: what the service observes of the browser driver.
- `failures.dfy`: the errors the service layer can end with, and the outcomes Go reaches only by blocking or panicking.
- `storage.dfy`: `os.Mkdir` and `ioutil.WriteFile` over a filesystem object.
- `discovery.dfy`: `advancePage` and `GetImagesURLS` from `controllers/images/service.go`.
- `download.dfy`: `DownloadImages` and its event listener. The as-written version, which hangs, sits beside the corrected one.
- `pipeline.dfy`: `GetImages` from `controllers/images/service.go`.

The browser is an oracle given as data:

- **Listing pages.** Listing page n is `pages[n-1]`. Its navigation fails, or its node query fails, or it yields the matching nodes in document order.
- **Download navigations.** The i-th download navigation either fails or produces a trace of network events.
- **Response bodies.** The tab keeps bodies by request id.

The loops of the Go code are methods with loops. Each is proved equal to a
specification function:

- `CollectNodes` matches the recursive `WalkPages`.
- `ExtractUrls` matches `Sources`, a sequence comprehension over the nodes.
- `Listen`, the listener fed one navigation's events, ends with the id and
  `Done()` count given by the recursive `LastRequest` and `Completions`.
- The download loop matches the recursive `DownloadRun`.

What the code promises is proved about those functions: exact counts, page
order, where a failure happens, which files end up on disk, and which
request's body is fetched.

## Model

| member | source | states |
|---|---|---|
| Decimal.Format | controllers/images/service.go:69 | `%d` of a non-negative number is a non-empty digit string denoting that number, with no leading zero, and `0` for zero |
| Decimal.FormatInjective | controllers/images/service.go:51 | distinct ordinals are printed differently, so the `%d.jpg` names never collide |
| Decimal.ParseUint32 | routes/images/request_handler.go:18 | `ParseUint(s, 10, 32)` succeeds exactly for non-empty digit strings up to 4294967295 and returns their value; empty input or a leading non-digit is a syntax error; an all-digit value above the bound is a range error; every error records `ParseUint` and the input |
| Decimal.ParseFormatRoundTrip | configs/configs.go:29 | parsing the decimal text of any 32-bit unsigned value gives the value back |
| Errors.AppError.Message | types/errors/InvalidParametersError.go:7-9 | each prefixed error's `Error()` (invalid parameters, and likewise not-found, connection, internal-server and bad-request at lines 8-10 of their files) is its kind's fixed prefix followed by `Err`, so removing the prefix recovers `Err`; a tile error's starts with `Tile operation error ` and ends with `Err`; any other error shows its own text |
| Errors.RawErrorIgnored | types/errors/NotFoundError.go:3-10 | the wrapped `RawError` never affects `Error()` for not-found, connection, internal-server and bad-request errors |
| Errors.MessageDeterminesError | types/errors/BadRequestError.go:8-10 | two prefixed errors with the same `Error()` text have the same kind prefix and the same `Err` |
| Errors.TileMessageShape | types/errors/TileError.go:10-12 | a tile error reads `Tile operation error <title>:: <err>`: the prefix, `Title` right after it, `:: ` directly after the title, `Err` as the suffix, and nothing else |
| Configs.GetEnv | configs/configs.go:8-14 | the fallback when the variable is unset or empty, otherwise its value |
| Configs.GetBoolEnv | configs/configs.go:16-22 | the fallback when unset or empty, otherwise true exactly for the text `true` |
| Configs.GetIntEnv | configs/configs.go:24-34 | the fallback unless the value is accepted by `ParseUint(val, 10, 32)`, in which case the 32-bit number it denotes |
| Configs.Defaults | configs/configs.go:36-41 | with nothing set, the configuration is port 3000, the cheezburger listing, the `.mu-post.mu-thumbnail > img` selector, 10 cards per page, a 600 s timeout and debug off |
| Configs.Load | configs/configs.go:36-41 | each package variable is its environment variable when set and non-empty (for the two numbers: when `ParseUint(val, 10, 32)` accepts it, as the number it denotes), otherwise its default; `DEBUG` is on exactly for the text `true`; both numbers lie in 0..2^32 - 1 |
| Configs.MalformedNumberFallsBack | configs/configs.go:40 | a set `TIMEOUT` starting with a non-digit silently falls back to 600 |
| RequestHandler.ReadParameter | routes/images/request_handler.go:15-22 | an absent parameter gives its default; a present one succeeds exactly when its first value parses, with the parsed value; otherwise an invalid-parameters error starting `Error reading '<name>' parameter: ` |
| RequestHandler.GetImagesParameters | routes/images/request_handler.go:12-33 | succeeds exactly when both parameters are absent or parse, with `amount` defaulting to 10 and `threads` to 1, both at most 2^32 - 1; a bad `amount` is reported before a bad `threads` |
| RequestHandler.ParameterErrorStatus | routes/images/request_handler.go:38-46 | 400 exactly for invalid-parameters errors, 500 exactly for every other error |
| RequestHandler.ControllerErrorStatus | routes/images/request_handler.go:50-60 | 400 exactly for invalid parameters, 404 exactly for not-found, 500 exactly for the rest |
| RequestHandler.HandleGetImages | routes/images/request_handler.go:35-74 | answers with the URL list exactly when the parameters parse and the controller succeeds on the parsed values, and that list is the controller's; every status is 200, 400, 404 or 500 |
| RequestHandler.BadParametersSkipController | routes/images/request_handler.go:37-48 | with a bad parameter the answer does not depend on the controller at all, is 400, and carries the `Invalid Parameter :: ` message |
| RequestHandler.ControllerErrorAnswered | routes/images/request_handler.go:49-62 | with good parameters, a controller error is answered with that error and the status of its kind |
| Semaphore.CustomSemaphore.constructor | lib/semaphore/CustomSemaphore.go:7-11 | a new semaphore holds no permits, has the given capacity and is open |
| Semaphore.CustomSemaphore.CurrentlyRunning | lib/semaphore/CustomSemaphore.go:13-15 | returns the number of permits held, never above capacity |
| Semaphore.CustomSemaphore.Close | lib/semaphore/CustomSemaphore.go:17-19 | closes an open semaphore without changing the permits held |
| Semaphore.CustomSemaphore.Take | lib/semaphore/CustomSemaphore.go:21-23 | below capacity, takes exactly one permit, keeping permits within capacity |
| Semaphore.CustomSemaphore.Signal | lib/semaphore/CustomSemaphore.go:25-30 | releases exactly one permit when any is held and leaves an idle semaphore idle, so permits never go negative |
| TestUtils.Contains | test/utils/utils.go:8-15 | true exactly when `x` occurs in the list |
| TestUtils.Assert | test/utils/utils.go:17-23 | true exactly when the values are equal; on a mismatch the test is marked failed and one `<msg> expected : <e>, got : <a>` line is logged, otherwise nothing changes |
| Storage.FileSystem.Mkdir | controllers/images/service.go:155 | creating `<parent>/<name>` succeeds exactly when the parent exists and the path is free; only that directory is added |
| Storage.FileSystem.WriteFile | controllers/images/service.go:51 | writing succeeds exactly when the directory exists, and then creates or replaces just that file |
| Discovery.AdvancePage | controllers/images/service.go:65-70 | page 1 or less is the listing itself; page n > 1 is the listing followed by `/page/` and the decimal digits of n with no leading zero |
| Discovery.AdvancePageInjective | controllers/images/service.go:65-70 | distinct page numbers from 1 on give distinct addresses |
| Discovery.VisitedPagesDistinct | controllers/images/service.go:99-100 | the pages opened by the walk are pairwise distinct addresses |
| Discovery.CollectNodes | controllers/images/service.go:81-106 | the node loop returns what `WalkPages` specifies, and the addresses it navigates to are exactly pages 1..lastPage, in order |
| Discovery.WalkSucceeds | controllers/images/service.go:85-97 | a successful walk returns exactly `amount` nodes (none when negative), namely the first `amount` nodes of the pages opened in page order; every page opened loaded; the last page was needed because the earlier ones fell short |
| Discovery.WalkExhausted | controllers/images/service.go:85-104 | the walk runs out of pages exactly when there are none, or all of them loaded and together hold fewer than `amount` nodes |
| Discovery.WalkFailsAtLastPage | controllers/images/service.go:86-103 | every other failure is the navigation or node-query error of the last page opened, with all earlier pages loaded |
| Discovery.ImageSource | controllers/images/service.go:110-119 | a node yields an address exactly when it has `data-src` or `src`; the address is one of its attribute values, `data-src` whenever present (even empty), else `src` |
| Discovery.ExtractUrls | controllers/images/service.go:107-124 | the attribute pass gives one address per node, `data-src` before `src`, in node order, or fails when any node has neither attribute |
| Discovery.GetImagesUrls | controllers/images/service.go:72-132 | discovery returns `Discovered`: the node walk followed by the attribute pass, stopping at the first error |
| Discovery.DiscoveredInPageOrder | controllers/images/service.go:72-132 | successful discovery yields exactly `amount` addresses, the i-th being the address of the i-th node in page-then-position order |
| Download.Correlator.constructor | controllers/images/service.go:23 | the listener starts with the zero request id |
| Download.Correlator.Observe | controllers/images/service.go:25-34 | a request-will-be-sent event makes its id current; completion is signalled exactly for a loading-finished event carrying the current id |
| Download.Correlation | controllers/images/service.go:25-34 | the listener fed a navigation's events ends with the id of the last request-will-be-sent event (the id it held before, when there is none) and has called `Done()` once for each loading-finished event whose id was current when it arrived |
| Download.Listen | controllers/images/service.go:25-34 | feeding the listener one navigation's events leaves the id of the last request sent as current and counts one `Done()` per loading-finished event for the then-current id |
| Download.NoCompletion | controllers/images/service.go:29-46 | no `Done()` is made, so `requestInProgressWG.Wait()` never returns, exactly when no event completes the then-current request |
| Download.SingleCompletion | controllers/images/service.go:29-46 | exactly one `Done()` is made exactly when one event completes the then-current request and no other does |
| Download.FetchedIsCompleted | controllers/images/service.go:47 | if no request-will-be-sent event arrives between the completion and the fetch, `GetResponseBody(currReqId)` reads the id of the request whose loading finished |
| Download.LateRequestIsFetched | controllers/images/service.go:27-47 | events `A sent, A finished, B sent` make one `Done()` and yet the body fetched is that of `B` |
| Download.DownloadStep | controllers/images/service.go:41-53 | one address saves only when the directory exists and the body of the fetched id was captured; a write failure names `<path>/<i+1>.jpg` |
| Download.StepFetchesLastRequest | controllers/images/service.go:41-53 | after a successful navigation: no `Done()` blocks for ever, two or more panic, and exactly one fetches the body of the last request sent before the fetch, failing with that id when the body is missing and with the file's path when the directory is missing |
| Download.DownloadOne | controllers/images/service.go:41-53 | one address is handled as `DownloadStep` specifies, from the id the listener holds on entry; on success exactly the file `<path>/<i+1>.jpg` gets the body fetched and the listener holds that body's id; otherwise nothing is written |
| Download.FilePathInjective | controllers/images/service.go:51 | different ordinals are written to different paths |
| Download.WrittenFiles | controllers/images/service.go:40-54 | the files written for k bodies are exactly `1.jpg` .. `k.jpg`, the n-th holding the n-th body |
| Download.StepsFollowListener | controllers/images/service.go:40-54 | step k of a download is the loop body at address k, starting from the listener id step k-1 saved, or from the zero id for the first; `currReqId` is never reset |
| Download.DownloadStopsAtFirstFailure | controllers/images/service.go:40-56 | a download either saves every address without error, or saves addresses 0..k-1 and returns the error of step k; the k-th body written is the one step k fetched; a write error names the next ordinal's file; an empty list succeeds and writes nothing; without the directory nothing is saved |
| Download.DownloadImages | controllers/images/service.go:21-63 | the method returns the first failure `DownloadRun` specifies and adds exactly the files `Written` lists; directories are unchanged |
| Download.DownloadImagesAsWritten | controllers/images/service.go:35-60 | with `waitForActions` counted up before the run and down only after the loop, the call returns (with no error) exactly when every address was saved, and otherwise never returns (it blocks, or the listener panics for a `WaitGroupPanic` step); the files written are those of the corrected run |
| Download.FailedNavigationBlocksAsWritten | controllers/images/service.go:42-44 | a single address whose navigation fails ends the run with that error and nothing saved, so the as-written call blocks instead of returning the error |
| Pipeline.GetImages | controllers/images/service.go:134-165 | a discovery error is returned with the filesystem untouched; otherwise a failing `Mkdir` is returned with nothing changed; otherwise the timestamped directory is added, the download's files are written into it, and its error is returned. The download is the corrected `DownloadImages` (see Findings); as written, a failing download never returns |
| Pipeline.SuccessWritesAmountFiles | controllers/images/service.go:148-160 | a fully successful run for `amount` writes exactly `1.jpg` .. `amount.jpg` into the new directory, the k-th holding the body fetched for the k-th discovered address |

## Left out

- Browser automation (chromedp) is an oracle given as data: page outcomes, per-navigation event traces and response bodies. Contexts, the listener goroutine and scheduling are not modelled.
- The `TIMEOUT` safety net on the discovery context is not modelled. Where the page list runs out, the model returns `PagesExhausted`; Go keeps navigating until the timeout cancels the context.
- `LoadNeverFinished` stands for the download wait that never completes, which in Go blocks forever. The download context has no timeout, because `maintCtx` is reassigned after `imagesCtx` was derived from it.
- `time.Now().UTC().Format(...)` is replaced by a `stamp` parameter. Its format is not modelled.
- `Decimal.Quote` does not escape characters; `strconv.Quote` would escape quotes, backslashes and non-printable characters inside a rejected input.
- `logger.Log` and `log.Printf` output is not modelled.
- `lib/logger/Logger.go`, `main.go` and `types/PageNode.go` are not part of this model.
- `ResponseError`, `http.Error`, the JSON encoding of the URL list and its encoding failure are not part of this model. The handler's answer is a status plus the error or the URL list.
- The handler calls `imagesController.GetImages(amount, threads)`, which has no matching signature in `controllers/images/service.go`. The controller is therefore a function parameter of `RequestHandler.HandleGetImages`. The service only produces untyped errors, which `ControllerErrorStatus` maps to 500.
- The semaphore-gated parallel page workers, the preemptive stop, the 1–5 tab pool, and range checks on `amount` and `threads` (amount ≥ 1, threads in [1,5]) are not in the code. Discovery is the single sequential loop of `GetImagesURLS`, `threads` is parsed and then ignored, and 0 is accepted.
- The typed errors the test files expect (`NotFoundError`, `ConnectionError` and so on from the service) are not produced by the code. The service returns driver errors unchanged.
- A node with neither `data-src` nor `src` makes discovery fail with "Image does not have src url" (`NoImageSource`), as the code does. It does not yield an empty address.
- `currReqId` is not reset between download addresses, as in the code. `DownloadFrom` threads the listener's id from one address to the next.
- A navigation's events are those the listener receives between `requestInProgressWG.Add(1)` and the read of `currReqId` by `GetResponseBody`. Events arriving between that read and the next address's `Add(1)` are counted in the next address's trace; a loading-finished event for the current id in that window would make the counter negative and panic at once, which the model does not distinguish.
- `WaitGroupPanic` stands for the panic of a second `Done()` on `requestInProgressWG` (a negative counter), which in Go ends the process rather than returning an error.
- Download.WaitGroup.Done: its precondition excludes `Done()` on a zero counter, which panics in Go; `waitForActions` never reaches it.
- Go's `int` is taken to be 64 bits wide, so `int(valInt32)` at configs/configs.go:33 and `int(amount)`, `int(threads)` at routes/images/request_handler.go:32 keep every 32-bit unsigned value unchanged; on a 32-bit platform values above 2^31 - 1 would wrap.
- Semaphore.CustomSemaphore.Take: a send on a full channel blocks until another goroutine signals; the model requires a free permit instead, because blocking is concurrency.
- Semaphore.CustomSemaphore.Close: `close` on a closed channel panics, and so do `Take` after `Close` and `make` with a negative capacity; these panics are excluded by preconditions rather than modelled.
- TestUtils.Contains: stops at the first match, which its contract does not state; only the answer is specified.
- TestUtils.Assert: Go compares `interface{}` values with `!=`, which panics for uncomparable dynamic types; the model compares values of one equality type, and `%v` formatting is the `show` parameter.
- Storage.FileSystem.Mkdir fails only for a missing parent directory or a taken path. Storage.FileSystem.WriteFile fails only for a missing directory: writing onto a path that is a directory succeeds in the model, whereas `ioutil.WriteFile` fails there. Permissions, disk space and other I/O errors are not modelled.

## Findings

| source | as written | input that shows it | evidently intended | confidence | as-written member | corrected member |
|---|---|---|---|---|---|---|
| controllers/images/service.go:35-60 | `waitForActions.Add(1)` precedes the run, `Done()` is reached only after every address succeeded, and `waitForActions.Wait()` runs unconditionally, so a download that fails blocks forever instead of returning its error | one address `http://example.invalid/cat.jpg` whose navigation fails with `net::ERR_NAME_NOT_RESOLVED` (`Download.FailedNavigationBlocksAsWritten`) | `DownloadImages` returns the first navigation, body or write error (a load that never finishes still blocks; `LoadNeverFinished` is the model's name for that, not a Go error) | not executed | Download.DownloadImagesAsWritten | Download.DownloadImages |
