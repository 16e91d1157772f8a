# Odds scraper: verified model of the scrape pipeline and the `/odds` handler

The repository scrapes runner names and fractional odds for a horse-racing event
from the bookmaker's event page using a headless browser, and serves that through an
HTTP route. This project models the two pieces of deterministic decision logic in
that glue. The browser and the URL parser are abstract inputs.

- `scrapeOdds(eventUrl)` (`src/task1.ts`) runs its checks in a fixed order:
  1. the URL must parse;
  2. the hostname must be exactly `www.betmgm.co.uk`;
  3. the lazily launched, process-wide browser opens a page and navigates;
  4. the rows selector must appear before the wait times out;
  5. every row must yield a non-empty name and non-empty odds, checked in that order.

  Row extraction is all or nothing. A bad row throws, and no partial list is
  returned. Only the success path closes the page.
- `GET /odds` (`src/task2.ts`) checks the JSON body in three ordered steps, and the
  first failure is answered with status 400. A valid body's `eventUrl` goes to
  `scrapeOdds` unchanged, and the resulting `Output` is sent at the default status 200.

Modules (one per file):

| module | file | models |
|---|---|---|
| `Wrappers` | wrappers.dfy | `Option` (undefined/null) and `Result` |
| `Decimal` | decimal.dfy | how `${index}` renders a row number, and its inverse |
| `RowMessages` | row_messages.dfy | the two row exceptions and their messages |
| `Js` | js.dfy | JSON values, JavaScript truthiness, property reads, `typeof` string |
| `OddsTypes` | odds_types.dfy | the `Output` interface |
| `OutputJson` | output_json.dfy | `res.json` serialisation of an `Output`, and a decoder |
| `Scraper` | scraper.dfy | `scrapeOdds`, the row-mapping callback, the browser handle |
| `ScraperRuns` | scraper_runs.dfy | sequences of calls that share the browser handle |
| `OddsRoute` | odds_route.dfy | the `GET /odds` handler |

External effects become parameters:
- URL parsing is a total function `string -> Option<string>` that gives the hostname, or `None` where `new URL` throws.
- Each page is a `PageView`. It says whether navigation succeeds and whether the rows selector appears. It also gives the matched rows, and each row has an optional name text and an optional odds text.
- The browser state is a `Session` record. It holds whether the handle is non-null, how many times `puppeteer.launch` ran, and how many pages are open.

The code differs from the design set out in the assignment comments (src/task1.ts:4-11, src/task2.ts:9-18) and in the test file src/all.test.ts. The model follows the code:
- The route is `GET`, not `POST`.
- There is no authentication.
- `/login` never responds.
- Scrape errors are not mapped to 400, although src/all.test.ts expects 400 or 401 for them.
- A bad row raises an exception instead of returning an error value.
- Every non-success path past the site check leaves its page open. The invalid-URL and wrong-site paths never open a page.
- Odds text is never checked. Any non-empty text is passed through verbatim, although the `Output` comment (src/task1.ts:18) promises the form `x/y` and the tests expect `SP` or a fraction.
- A success body nests the event URL and the runners under `result` (src/task1.ts:77-82, src/task2.ts:46). The tests expect them at the top level.
- An unparseable URL whose text is `must be a www.betmgm.co.uk URL` produces exactly the wrong-site message, so the two URL errors can coincide.

## Model

| member | source | states |
|---|---|---|
| Scraper.ScrapeOdds | src/task1.ts:27-83 | The checks run in order. An unparseable URL gives `Invalid URL: <url>`, and a foreign host gives the must-be-betmgm error. Both leave the session untouched. Past the site check the browser exists afterwards, and it is launched only if the handle was null. A navigation failure raises. A wait timeout returns the timeout error. A bad row raises its first fault. Success happens exactly when every stage passes and every row has both texts. On success the URL is echoed and the horses are the rows' texts verbatim, in order. The page stays open on every path except success. Every returned Output has exactly one of result/error. |
| Scraper.ExtractFrom | src/task1.ts:56-69 | The row mapping succeeds exactly when every row has a non-empty name and non-empty odds. Its result then has the rows' texts verbatim and in order. Otherwise the error names the first bad row, reports a missing name before missing odds, and carries the row's name in the odds error. |
| Scraper.AcquireBrowser | src/task1.ts:41 | Afterwards the handle is set, and the launch count grows by one exactly when the handle was null. |
| ScraperRuns.Run | src/task1.ts:25-43 | Across any sequence of calls the handle is never reset, and the browser is launched at most once. It is launched exactly when the handle was null and some call passed the site check. Each call that passes the site check but does not succeed leaves one open page. |
| ScraperRuns.LaunchedAtMostOnce | src/task1.ts:25-41 | From process start, any sequence of calls launches the browser at most once and reaches a consistent session. |
| ScraperRuns.ScrapePreservesConsistent | src/task1.ts:41-43 | One call keeps a reachable session reachable: the launch count is one exactly when the handle is set, and no page is open before the browser exists. |
| ScraperRuns.OutcomeIndependentOfSession | src/task1.ts:27-83 | A call's outcome does not depend on the browser-handle state it runs against. |
| ScraperRuns.RepeatedCallSameOutcome | src/task1.ts:27-83 | Two calls in a row with the same URL and an unchanged page give the same outcome. |
| ScraperRuns.OddsTextUnchecked | src/task1.ts:63-67 | Odds are not validated: a row whose odds text is `Evens` (neither `SP` nor a fraction) succeeds, and `Evens` is passed through verbatim. |
| ScraperRuns.UrlErrorsCanCoincide | src/task1.ts:29-38 | If the text `must be a www.betmgm.co.uk URL` does not parse, scraping it returns exactly the wrong-site error, the same Output a foreign host gets. |
| ScraperRuns.NoHorsesNeverReturned | src/task1.ts:71-73 | The `!horses` guard never fires, so `No horses found` is never returned, and a page with zero rows succeeds with an empty runner list. |
| RowMessages.Message | src/task1.ts:61-65 | The two thrown messages, character for character. A missing name gives `Name not found on row ` and then the index. Missing odds give `Odds not found for horse `, then the name verbatim. Both end with ` on row ` and the row index in decimal. |
| RowMessages.ParseMessage | src/task1.ts:59-66 | Every row-error message parses back to its error, row number and horse name included, even though a name may contain any text. |
| RowMessages.MessageInjective | src/task1.ts:59-66 | Distinct row errors never produce the same message. |
| Decimal.FromNat | src/task1.ts:61 | The rendered row index is a non-empty string of decimal digits with no leading zero. |
| Decimal.ToNatFromNat | src/task1.ts:61-65 | Reading back a rendered row index gives the index. |
| OddsTypes.ErrorOutput | src/task1.ts:13-23 | An error Output carries exactly its message and no result. |
| OutputJson.OutputToJs | src/task2.ts:46 | The sent JSON object has a `result` key exactly when the result is set, and an `error` key exactly when the error is set. A well-formed Output gives exactly one key. |
| OutputJson.HorsesRoundTrip | src/task2.ts:46 | Decoding the serialised `horses` array gives back the runner list. |
| OutputJson.OutputRoundTrip | src/task2.ts:46 | Decoding a serialised Output gives back exactly that Output. |
| Js.Truthy | src/task2.ts:34-37 | JavaScript's `!` test, as used by the body checks, the row callback (src/task1.ts:60, 64) and the `!horses` guard: a value is falsy exactly when it is undefined, null, false, 0 or the empty string. |
| Js.Get | src/task2.ts:37 | A property read yields a value exactly when the body is an object that has that key, and the value is the key's value. |
| OddsRoute.Validate | src/task2.ts:34-42 | The three checks run in order and the first failure wins. `Missing request body` is returned exactly for a falsy body. The missing-eventUrl message is returned exactly for a truthy body with a falsy `eventUrl`, and the not-a-string message exactly for a truthy non-string. An accepted `eventUrl` is the body's non-empty string. |
| OddsRoute.ValidateAcceptsExactly | src/task2.ts:34-42 | A body is accepted with URL `u` exactly when it is an object whose `eventUrl` is the non-empty string `u`. |
| OddsRoute.FalsyEventUrlIsMissing | src/task2.ts:37-39 | An absent, null, false, 0 or empty-string `eventUrl` is reported as missing. The empty string is caught here, not by the type check. |
| OddsRoute.TruthyNonStringIsRejected | src/task2.ts:40-42 | A truthy `eventUrl` that is not a string (a number, true, an array or an object) is reported as not a string. |
| OddsRoute.ErrorBody | src/task2.ts:35-41 | The validator's error body has the same JSON shape as an error Output. |
| OddsRoute.HandleOdds | src/task2.ts:33-47 | A rejected body gets 400 with its message, and the session is unchanged because nothing is scraped. Status 400 is sent only for rejected bodies. An accepted body is scraped once with its own `eventUrl`. The scrape's session is kept, and its Output is sent at 200. A raised failure leaves the handler. Every sent body decodes to a well-formed Output. |
| OddsRoute.ScrapeErrorsSentAtStatusOk | src/task2.ts:44-46 | A valid body whose URL fails to parse, or names another host, is answered with status 200 and the scraper's error message. Nothing is launched. |

## Left out

- Puppeteer (`launch`, `newPage`, `goto`, `setViewport`, `waitForSelector`, `$$eval`) and the CSS selectors are foreign browser I/O. They appear only through the `PageView` oracle. A failing `launch`, `newPage` or `setViewport` is not modelled, and neither is the 30-second timeout's timing.
- `await page.close()` on the success path (src/task1.ts:75) is taken to succeed. If it rejected, `scrapeOdds` would raise instead of returning the result.
- `page.$$eval` (src/task1.ts:56) is taken to reject only through the callback's own throw. Other failures, such as a page that closes or navigates away during evaluation, are not modelled.
- ScraperRuns.OutcomeIndependentOfSession: holds because the model's `newPage` never fails. In the code a browser that has crashed or disconnected stays non-null, and the handle is never reset (src/task1.ts:41). Every later `browser.newPage()` (src/task1.ts:43) then rejects, where a null handle would have relaunched. So in the code an outcome can depend on the handle's history.
- The WHATWG URL Standard's basic URL parser (section 4.4) and hostname serialisation belong to a foreign library. The parser is a function parameter.
- Puppeteer re-raises an exception thrown inside `$$eval` with the callback's message. The model carries the row error and its message, not the wrapping error object.
- When `scrapeOdds` rejects, the handler's promise rejects. What the framework then sends is framework behaviour, so the model stops at `Rejected`.
- `express.json` and `app.listen` are runtime plumbing. `req.body` is taken as given: a JSON value, or `None` for undefined.
- `/login` and JWT signing are not implemented in the code: the handler never responds and the signing is commented out. There is nothing to model.
- `main`, `closeBrowser` and the process signal/exit handlers (src/task1.ts:85-139) are process plumbing with asynchronous cleanup races.
- src/index.ts is a superseded command-line duplicate of `scrapeOdds`.
- The commented-out cheerio appendix of src/task2.ts is not live code.
- Concurrency between requests that share the browser is left out, and calls are modelled one after another. In the code, the null check at src/task1.ts:41 is followed by an awaited `launch`, so two overlapping first calls can both launch. The at-most-once rows therefore hold only for calls made one after another.
- Js.Get: models reads of ordinary keys only, not array indices or prototype members such as `length`, because the handler only reads `eventUrl`.
