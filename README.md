# etherscan-labels: a Dafny model of the label scraper

The scraper in `main.js` walks the label cloud on etherscan.io. For each
label it finds the subcategory tabs and pages through the label's address
table 10000 rows at a time. It logs every address found in the page HTML.
Every page fetch goes through `retry`, which retries server faults after a
randomised, exponentially growing wait.

The model covers the core of that crawl, one Dafny module per concern:

- `Outcomes`: the `Option` and `Result` datatypes the other modules share.
- `Scanner`: the address expression, run over a page's HTML, and the
  do…while loop that logs each capture (main.js lines 34-39). A match is
  always 56 characters long, and two matches never overlap. The emit loop
  is therefore proved to log exactly the captures of all matches, in
  document order.
- `Http`: how `get` settles on a status code (lines 53-55), how
  `etherscan` turns a login or busy page into an error (lines 68-72), and
  which errors `retriableHTTP` accepts (line 90).
- `Retry`: `retry` (lines 78-87), written as a loop. It is proved equal to
  the function that follows the source's self-recursion. Lemmas about that
  function cover when it stops, how many calls it makes and how long each
  wait is.
- `Navigator`: the subcategory list (line 24), a function, and the page
  URL (lines 29-30) with a parser that reads it back. It also covers the
  page loop of one subcategory (lines 28-40, the method `CrawlSubcategory`)
  and the loop over a label's subcategories (lines 23-41, the method
  `CrawlLabel`). Each method is proved equal to a function that describes
  the crawl as a trace: the URLs requested, the addresses logged and why
  it stopped. Lemmas about those functions cover which pages are
  requested, when the loop stops, and which errors can stop it.

The outside world becomes input to the model:

- What a retried fetch settles with is a finite list of responses.
- What `func` does on each call, with the `Math.random()` draw that
  follows it, is a finite list of attempts.
- The HTML parser is a function parameter.

When a list runs out, the model reports a run that is still waiting
(`Unanswered`) or still retrying (`StillRetrying`). It does not invent an
ending.

Two consequences of the code are worth spelling out:

- The page loop does not stop on a short page. main.js ends it only on a
  page in which the expression finds no address at all (line 36), so every
  subcategory costs one extra, empty fetch.
  `Navigator.SubcategoryStopsAtFirstEmptyPage` states this rule.
- A jittered wait is `Math.round(delay_i * 2 * Math.random())` (line 82).
  It can be anywhere in `[0, 2*delay_i]`, including 0.
  `Retry.RetryWaitBounds` states this range.

## Model

| member | source | states |
|---|---|---|
| Scanner.MatchAt | main.js:34 | the expression matches at a position: a quote, `/address/`, `0x` and 40 lower-case hex digits, a quote, `>0x`; every Scanner contract is stated in its terms |
| Scanner.Captured | main.js:38 | `value[1]`, the capture group of the match at a position: the 42 characters of the address |
| Scanner.NoMatchInside | main.js:34 | no match of the address expression starts strictly inside another match |
| Scanner.AddressesFrom | main.js:34-39 | the values the scan logs from position `from` on: the capture of the leftmost match, then the scan resumed at that match's end; AddressesAtPositions ties it to the match positions |
| Scanner.Addresses | main.js:34-39 | the values logged for one page: the scan from position 0; ScanLogsEveryMatch states what they are |
| Scanner.FindMatch | main.js:34 | a search from lastIndex finds the leftmost match at or after it, or reports that there is none |
| Scanner.MatchPositions | main.js:34 | the global match-all visits only match positions, in increasing order, each at least a match's length past the previous one |
| Scanner.AddressesAtPositions | main.js:34-39 | the values logged are, rank by rank, the captures at the match positions |
| Scanner.MatchPositionsComplete | main.js:34 | a position is visited by the global scan exactly when the expression matches there, so no match is skipped |
| Scanner.ScanLogsEveryMatch | main.js:34-39 | a page logs one lower-case address per match, in document order, and every match is logged |
| Scanner.EmitPage | main.js:34-39 | the emit loop logs exactly the addresses of the page, and it reports `done` on the first call exactly when there are none |
| Http.RetriableHTTP | main.js:90 | an error is retriable exactly when it is an object whose code is a number of 500 or more; null, a missing code and a non-numeric code are not |
| Http.Get | main.js:53-55 | `get` resolves with the body exactly when the status is below 400; otherwise it rejects with the status and the body; a transport fault is never retriable |
| Http.Etherscan | main.js:66-74 | a page succeeds exactly when `get` succeeds and the page links to neither /login nor /busy; the login link gives the 401 error and takes precedence over the busy link, which gives the 503 error; a failed `get` passes its error on |
| Http.GetRetriedOnlyOnServerFault | main.js:90 | a failed `get` is retried by `retriableHTTP` exactly when it carries a status of 500 or more |
| Http.EtherscanRetriable | main.js:68-72 | a failed `etherscan` is retried exactly for a 5xx status or a busy page; never for a 4xx status or the login page |
| Retry.Settles | main.js:79-81 | a call after which `retry` stops: a success, or an error that `retriable` rejects |
| Retry.DelayAt | main.js:85 | the `delay` of the i-th nested call, multiplied by `mult` on each self-call; DelayAtIsPower states its value |
| Retry.RetrySpec | main.js:78-86 | `retry` as written: it never calls more often than `func` allows; it is still retrying exactly when every call so far failed retriably, with one wait per call; a return is the last call's value, and a rethrow is the last call's error, which `retriable` rejects |
| Retry.Round | main.js:82 | Math.round as floor(x + 0.5); RoundIsNearest states that it is the nearest integer |
| Retry.RoundIsNearest | main.js:82 | the rounded value is within half of x, halves rounding upward |
| Retry.Wait | main.js:82 | the wait is the delay, scaled by twice the draw when jitter is on, rounded; WaitBounds states its range |
| Retry.Retry | main.js:78-87 | the loop form of `retry` ends, calls and waits exactly as the self-recursive definition does |
| Retry.RetryStopsAtFirstSettled | main.js:79-81 | `retry` calls `func` up to and including the first call that succeeds or fails non-retriably, waits once per retried failure, and returns or rethrows that call's outcome |
| Retry.RetryNeverGivesUp | main.js:78-87 | while every call fails retriably, `retry` keeps calling and waits after each call; there is no attempt bound |
| Retry.DelayAtIsPower | main.js:78-85 | the delay of the i-th call is delay * mult^i |
| Retry.RetryWaitAt | main.js:82-85 | the wait after call i is Math.round(delay * mult^i * factor); the caller's `jitter` chooses the factor of the first wait only |
| Retry.WaitBounds | main.js:82 | a wait is between 0 and Math.round(2 * delay); without jitter it is Math.round(delay) |
| Retry.RetryWaitBounds | main.js:82-85 | with draws in [0, 1), every wait of a run lies between 0 and Math.round(2 * delay * mult^i) |
| Retry.RetryIntended | main.js:76-86 | `retry` as its comment describes it, with `jitter` passed on to the self-call; RetryIntendedAgreesWhenJittered and RetryIntendedWithoutJitter state how it behaves |
| Retry.RetryIntendedAgreesWhenJittered | main.js:78-85 | with jitter on, as in every call in main.js, the written `retry` and the corrected one behave identically |
| Retry.RetryIntendedWithoutJitter | main.js:76-85 | the corrected `retry` with jitter off waits exactly Math.round(delay * mult^i) after call i |
| Retry.JitterDroppedOnRetry | main.js:85 | with jitter off, the written `retry` still jitters its second wait (500 ms then 0 ms), where the corrected one waits 500 ms then 600 ms |
| Navigator.Subcategories | main.js:23-24 | without tabs the one subcategory is null; otherwise the subcategories are the tabs' `val` attributes, in order |
| Navigator.DecimalString | main.js:29 | a number renders as its decimal digits, without a leading zero |
| Navigator.DecimalRoundTrip | main.js:29 | a rendered number reads back as itself |
| Navigator.SubcatParam | main.js:30 | the filter `&subcatid=` followed by the id, present exactly when the subcategory is not null |
| Navigator.PageQuery | main.js:29-30 | the query string appended to the href: start, size, the ordering, then `&subcatid=` and the id when there is a subcategory; PageQueryRoundTrip states that it determines the request |
| Navigator.PageUrl | main.js:29-30 | the label's href followed by the page query; PageUrlRoundTrip and PageUrlShape state its form |
| Navigator.PageQueryRoundTrip | main.js:29-30 | the query string of a page determines its start, its size and its subcategory filter, or the absence of one |
| Navigator.PageUrlRoundTrip | main.js:29-30 | a page URL is the label's href followed by a query that reads back as the request |
| Navigator.PageUrlShape | main.js:29-30 | a page URL is href, start, size and the ordering, followed by `&subcatid=` and the id exactly when there is a subcategory |
| Navigator.BuildPageUrl | main.js:29-30 | the URL built by appending reads back as the page request it was built from |
| Navigator.SubcategoryTrace | main.js:28-40 | the page loop from a page number on: at least one URL is requested, and a crawl that did not run out of responses had a response for every URL it requested |
| Navigator.RetriedFetchFailure | main.js:31 | when the retried fetch of a page rethrows, the error is what `etherscan` settled with on its last call, and it is the login error, a 4xx status or a transport fault; the busy page and 5xx statuses never reach the page loop |
| Navigator.AbortsOnlyOnFinalErrors | main.js:31-40 | when the failures among the responses are ones `retry` rethrew, an aborted crawl is aborted by a non-retriable error |
| Navigator.CrawlSubcategory | main.js:28-40 | the page loop requests, logs and stops exactly as the trace of the subcategory describes |
| Navigator.SubcategoryPageUrls | main.js:28-30 | the k-th page requested asks for 10000 rows starting at k * 10000, filtered by the subcategory |
| Navigator.IsFullPage | main.js:36 | a response that lets the page loop go on: a page on which the expression finds at least one address |
| Navigator.LeadingFullPages | main.js:36 | counts the leading responses that are pages with at least one address |
| Navigator.SubcategoryStopsAtFirstEmptyPage | main.js:28-40 | the loop fetches every leading page that has addresses plus one more. It logs those pages' addresses in page order. It stops because that page was empty, because its fetch failed for good, or because it is still waiting for it |
| Navigator.LabelTrace | main.js:25-40 | the subcategories crawled in order, each on the responses left by the previous one; a crawl that is not exhausted ends the label's crawl; SubcategoryTrace and LabelUrlAt state its parts |
| Navigator.CrawlLabel | main.js:23-41 | crawling a label runs the page loop for each subcategory in turn, and a failure ends the crawl |
| Navigator.NoTabsCrawlsUnfiltered | main.js:24-30 | a label without tabs is crawled as one subcategory, and no URL carries a subcategory filter |
| Navigator.SubcategoryUrlReadsAs | main.js:28-30 | every URL of a subcategory's crawl reads back as a request for 10000 rows, from a multiple of 10000, for that subcategory |
| Navigator.LabelUrlAt | main.js:25-31 | a label's URLs are those of its first subcategory, followed, once that subcategory is exhausted, by those of the rest |
| Navigator.LabelUrlsAreQueries | main.js:25-31 | every URL requested for a label reads back as a request for 10000 rows, from a multiple of 10000, for one of the label's subcategories |

## Findings

| source | as written | input that shows it | evidently intended | confidence | as-written member | corrected member |
|---|---|---|---|---|---|---|
| main.js:85 | the self-call `retry(func, retriable, delay*mult, mult)` omits `jitter`, so every wait after the first is jittered whatever the caller asked for | `jitter = false`, delay 500, mult 1.2, two retriable failures then success, draws 0.5 and 0: the waits are 500 ms and 0 ms | `jitter` is passed on, so the waits are 500 ms and 600 ms (Math.round(delay * mult^i)) | not executed; no call in main.js passes jitter = false, so the scraper itself is unaffected | Retry.JitterDroppedOnRetry | Retry.RetryIntendedWithoutJitter |

## Left out

- HTTPS requests, the session cookie and the 120-second timeout (lines 46-63). A settled request is a `Response` or a transport `Fault`.
- HTML parsing by JSDOM. `etherscan` takes the parser as a function parameter, and a parsed page keeps only its HTML and whether it links to /login or /busy.
- Label discovery on /labelcloud and the loop over labels (lines 15-19). The crawl of one label starts from its href and its tabs' `val` attributes.
- The label description (line 20): it is computed but never used.
- Console output and the error handler of `main` (lines 43, 47, 83). The logged addresses are the trace's `logged` sequence.
- `setTimeout` and promises. A wait is the number of milliseconds requested; asynchronous settlement is the order of the response lists.
- `Math.random()`: each draw is an input to the model.
- Retry.Retry: `func` is a finite list of calls, so a run that never ends is observed as a finite prefix ending in `StillRetrying`.
- Navigator.CrawlSubcategory: the responses are a finite list, so a crawl that would go on is observed as a prefix ending in `Unanswered`.
- Http.RetriableHTTP: a numeric-string `code` (JavaScript would compare it as a number) is not modelled. Node's transport errors carry non-numeric names, which compare false.
- Retry.Round: Math.round is modelled on exact reals. Floating-point rounding of `delay * mult` and of the product with the draw is not modelled.
