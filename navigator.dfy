/** The crawl of one label's result table (main.js lines 22-40): the list
    of subcategories, the URL of each page, and the loop that requests pages
    at offsets 0, 10000, 20000, ... until a page yields no address. */
module Navigator {
  import opened Outcomes
  import opened Http
  import Scanner
  import Retry

  /** The `size` of every page request. */
  const PageSize: nat := 10000

  /** The subcategories to crawl, given the `val` attribute of every
      subcategory tab (None where a tab has no such attribute): one implicit
      subcategory, null, when there are no tabs. */
  function Subcategories(vals: seq<Option<string>>): (subcats: seq<Option<string>>)
    ensures |subcats| >= 1
    ensures |vals| == 0 ==> subcats == [None]
    ensures |vals| > 0 ==> subcats == vals
  {
    if |vals| == 0 then [None] else vals
  }

  // ---------------------------------------------------------------------
  // Numbers in the query string

  predicate IsDigit(c: char) { '0' <= c <= '9' }

  predicate AllDigits(s: string) { forall k :: 0 <= k < |s| ==> IsDigit(s[k]) }

  function DigitChar(d: nat): (c: char)
    requires d < 10
    ensures IsDigit(c)
  {
    ('0' as int + d) as char
  }

  function DigitValue(c: char): nat
    requires IsDigit(c)
  {
    c as int - '0' as int
  }

  /** A non-negative integer as a template literal renders it: its
      decimal digits, no sign, no leading zero. */
  function DecimalString(n: nat): (s: string)
    ensures |s| >= 1 && AllDigits(s)
    ensures |s| > 1 ==> s[0] != '0'
    decreases n
  {
    if n < 10 then [DigitChar(n)] else DecimalString(n / 10) + [DigitChar(n % 10)]
  }

  function ParseDecimal(s: string): nat
    requires AllDigits(s)
  {
    if |s| == 0 then 0 else ParseDecimal(s[..|s| - 1]) * 10 + DigitValue(s[|s| - 1])
  }

  lemma {:induction false} DecimalRoundTrip(n: nat)
    ensures ParseDecimal(DecimalString(n)) == n
    decreases n
  {
    if n >= 10 {
      DecimalRoundTrip(n / 10);
      var s := DecimalString(n);
      assert s[..|s| - 1] == DecimalString(n / 10);
    }
  }

  /** The number of digits a string starts with. */
  function DigitRun(s: string): (k: nat)
    ensures k <= |s| && AllDigits(s[..k])
    ensures k < |s| ==> !IsDigit(s[k])
  {
    if |s| == 0 || !IsDigit(s[0]) then 0
    else
      var k := 1 + DigitRun(s[1..]);
      assert s[..k] == [s[0]] + s[1..][..k - 1];
      k
  }

  lemma {:induction false} DigitRunOfDigits(d: string, rest: string)
    requires AllDigits(d)
    requires rest == [] || !IsDigit(rest[0])
    ensures DigitRun(d + rest) == |d|
    decreases |d|
  {
    if |d| > 0 {
      assert (d + rest)[1..] == d[1..] + rest;
      DigitRunOfDigits(d[1..], rest);
    }
  }

  /** Reads a non-empty run of digits; returns its value and what follows. */
  function ReadNumber(s: string): Option<(nat, string)>
  {
    var k := DigitRun(s);
    if k == 0 then None else Some((ParseDecimal(s[..k]), s[k..]))
  }

  // ---------------------------------------------------------------------
  // Page URLs

  /** The parameters of one page request. */
  datatype PageRequest = PageRequest(start: nat, size: nat, subcat: Option<string>)

  const StartKey: string := "?start="
  const SizeKey: string := "&size="
  const Ordering: string := "&col=1&order=asc"
  const SubcatKey: string := "&subcatid="

  /** The subcategory filter: present iff there is a subcategory. */
  function SubcatParam(subcat: Option<string>): string
  {
    match subcat
    case None => ""
    case Some(id) => SubcatKey + id
  }

  /** The query string appended to the label's href: start, size, sort by
      the first column ascending, then the subcategory filter. */
  function PageQuery(r: PageRequest): string
  {
    StartKey + (DecimalString(r.start) + (SizeKey + (DecimalString(r.size) + (Ordering + SubcatParam(r.subcat)))))
  }

  function PageUrl(href: string, r: PageRequest): string
  {
    href + PageQuery(r)
  }

  /** `url` is `href` followed by a query string that reads as `r`. */
  predicate ReadsAs(href: string, url: string, r: PageRequest)
  {
    |href| <= |url| && url[..|href|] == href && ParsePageQuery(url[|href|..]) == Some(r)
  }

  /** A page URL is the href followed by a query that reads back as the
      request. */
  lemma PageUrlRoundTrip(href: string, r: PageRequest)
    ensures ReadsAs(href, PageUrl(href, r), r)
  {
    PageQueryRoundTrip(r);
    assert PageUrl(href, r)[|href|..] == PageQuery(r);
  }

  /** The URL as main.js builds it, by appending to a string. */
  lemma PageUrlShape(href: string, r: PageRequest)
    ensures PageUrl(href, r)
         == href + StartKey + DecimalString(r.start) + SizeKey + DecimalString(r.size) + Ordering
            + (if r.subcat.Some? then SubcatKey + r.subcat.value else [])
  {
    var tail := if r.subcat.Some? then SubcatKey + r.subcat.value else [];
    assert SubcatParam(r.subcat) == tail;
  }

  /** `s` without the leading `key`, if it starts with it. */
  function StripPrefix(key: string, s: string): Option<string>
  {
    if |s| >= |key| && s[..|key|] == key then Some(s[|key|..]) else None
  }

  lemma StripPrefixOf(key: string, rest: string)
    ensures StripPrefix(key, key + rest) == Some(rest)
  {
    assert (key + rest)[..|key|] == key;
    assert (key + rest)[|key|..] == rest;
  }

  /** Reads the optional subcategory filter that ends a query string. */
  function ParseSubcatParam(s: string): Option<Option<string>>
  {
    if s == [] then Some(None)
    else match StripPrefix(SubcatKey, s)
      case None => None
      case Some(id) => Some(Some(id))
  }

  /** Reads the parameters back from a query string. */
  function ParsePageQuery(q: string): Option<PageRequest>
  {
    match StripPrefix(StartKey, q)
    case None => None
    case Some(a) =>
      match ReadNumber(a)
      case None => None
      case Some((start, b)) =>
        match StripPrefix(SizeKey, b)
        case None => None
        case Some(c) =>
          match ReadNumber(c)
          case None => None
          case Some((size, d)) =>
            match StripPrefix(Ordering, d)
            case None => None
            case Some(e) =>
              match ParseSubcatParam(e)
              case None => None
              case Some(subcat) => Some(PageRequest(start, size, subcat))
  }

  lemma ReadNumberOfDecimal(n: nat, rest: string)
    requires rest == [] || !IsDigit(rest[0])
    ensures ReadNumber(DecimalString(n) + rest) == Some((n, rest))
  {
    var d := DecimalString(n);
    DigitRunOfDigits(d, rest);
    assert (d + rest)[..|d|] == d;
    assert (d + rest)[|d|..] == rest;
    DecimalRoundTrip(n);
  }

  lemma ParseSubcatParamRoundTrip(subcat: Option<string>)
    ensures ParseSubcatParam(SubcatParam(subcat)) == Some(subcat)
  {
    match subcat {
      case None =>
      case Some(id) => StripPrefixOf(SubcatKey, id);
    }
  }

  /** A page's query string determines its request: start, size and the
      subcategory (or its absence) can all be read back. */
  lemma PageQueryRoundTrip(r: PageRequest)
    ensures ParsePageQuery(PageQuery(r)) == Some(r)
  {
    var e := SubcatParam(r.subcat);
    var d := Ordering + e;
    var c := DecimalString(r.size) + d;
    var b := SizeKey + c;
    var a := DecimalString(r.start) + b;
    StripPrefixOf(StartKey, a);
    ReadNumberOfDecimal(r.start, b);
    StripPrefixOf(SizeKey, c);
    ReadNumberOfDecimal(r.size, d);
    StripPrefixOf(Ordering, e);
    ParseSubcatParamRoundTrip(r.subcat);
  }

  // ---------------------------------------------------------------------
  // Paging through a subcategory

  /** Lines 29-30 of main.js: the URL of a page, built by appending to a
      string. */
  method BuildPageUrl(href: string, start: nat, size: nat, subcat: Option<string>) returns (url: string)
    ensures url == PageUrl(href, PageRequest(start, size, subcat))
    ensures ParsePageQuery(url[|href|..]) == Some(PageRequest(start, size, subcat))
  {
    url := href + StartKey + DecimalString(start) + SizeKey + DecimalString(size) + Ordering;
    ghost var base := url;
    if subcat.Some? {
      url := url + SubcatKey + subcat.value;
      assert url == base + (SubcatKey + subcat.value);
    } else {
      assert url == base + [];
    }
    PageUrlShape(href, PageRequest(start, size, subcat));
    PageQueryRoundTrip(PageRequest(start, size, subcat));
    assert url[|href|..] == PageQuery(PageRequest(start, size, subcat));
  }

  /** Why a crawl stopped: a page yielded no address, a request failed for
      good (the error aborts the whole run), or the last request is still
      outstanding when the given responses run out. */
  datatype Stop = Exhausted | Aborted(error: Thrown) | Unanswered

  /** What a crawl did: the URLs it requested, in order, the addresses it
      logged, in order, and why it stopped. */
  datatype Trace = Trace(urls: seq<string>, logged: seq<string>, stop: Stop)

  /** A crawl that has done `urls` and `logged` before continuing as `t`. */
  function Then(urls: seq<string>, logged: seq<string>, t: Trace): Trace
  {
    Trace(urls + t.urls, logged + t.logged, t.stop)
  }

  lemma ThenThen(urls: seq<string>, logged: seq<string>, urls': seq<string>, logged': seq<string>, t: Trace)
    ensures Then(urls, logged, Then(urls', logged', t)) == Then(urls + urls', logged + logged', t)
  {
    assert urls + (urls' + t.urls) == (urls + urls') + t.urls;
    assert logged + (logged' + t.logged) == (logged + logged') + t.logged;
  }

  /** The page loop of main.js lines 28-40 from page number `page` on:
      `responses` are what the successive retried fetches of line 31
      settle with. A failure among them is one that `retry` rethrew, so it
      is never retriable: the login error, a 4xx status or a transport
      fault (RetriedFetchFailure); AbortsOnlyOnFinalErrors carries that
      over to the stop of the loop. */
  function SubcategoryTrace(href: string, subcat: Option<string>,
                            responses: seq<Result<Document, Thrown>>, page: nat): (t: Trace)
    ensures |t.urls| >= 1
    ensures t.stop != Unanswered ==> |t.urls| <= |responses|
    decreases |responses|
  {
    var url := PageUrl(href, PageRequest(page * PageSize, PageSize, subcat));
    if |responses| == 0 then Trace([url], [], Unanswered)
    else
      match responses[0]
      case Failure(e) => Trace([url], [], Aborted(e))
      case Success(doc) =>
        var found := Scanner.Addresses(doc.html);
        if found == [] then Trace([url], [], Exhausted)
        else Then([url], found, SubcategoryTrace(href, subcat, responses[1..], page + 1))
  }

  /** The page loop of main.js lines 28-40: build the URL from `start` and
      `size`, append the filter if there is a subcategory, fetch, scan; stop
      on a page without an address, else advance `start` by `size`. */
  method CrawlSubcategory(href: string, subcat: Option<string>,
                          responses: seq<Result<Document, Thrown>>) returns (t: Trace)
    ensures t == SubcategoryTrace(href, subcat, responses, 0)
  {
    var urls: seq<string> := [];
    var logged: seq<string> := [];
    var start, size := 0, PageSize;
    var i := 0;
    while true
      invariant i <= |responses| && start == i * PageSize && size == PageSize
      invariant SubcategoryTrace(href, subcat, responses, 0)
             == Then(urls, logged, SubcategoryTrace(href, subcat, responses[i..], i))
      decreases |responses| - i
    {
      var url := BuildPageUrl(href, start, size, subcat);
      ghost var rest := SubcategoryTrace(href, subcat, responses[i..], i);
      if i == |responses| {
        t := Trace(urls + [url], logged, Unanswered);
        return;
      }
      assert responses[i..][0] == responses[i];
      match responses[i] {
        case Failure(e) =>
          assert rest == Trace([url], [], Aborted(e));
          assert logged + [] == logged;
          t := Trace(urls + [url], logged, Aborted(e));
          return;
        case Success(doc) =>
          var found, exhausted := Scanner.EmitPage(doc.html);
          if exhausted {
            assert rest == Trace([url], [], Exhausted);
            assert logged + [] == logged;
            t := Trace(urls + [url], logged, Exhausted);
            return;
          }
          assert responses[i..][1..] == responses[i + 1..];
          ghost var next := SubcategoryTrace(href, subcat, responses[i + 1..], i + 1);
          assert rest == Then([url], found, next);
          ThenThen(urls, logged, [url], found, next);
          urls, logged := urls + [url], logged + found;
      }
      start := start + size;
      i := i + 1;
    }
  }

  /** The page requested k-th (from 0) asks for rows from (page + k) * 10000
      on, 10000 at a time, filtered by the subcategory when there is one. */
  lemma {:induction false} SubcategoryPageUrls(href: string, subcat: Option<string>,
                                               responses: seq<Result<Document, Thrown>>, page: nat, k: nat)
    requires k < |SubcategoryTrace(href, subcat, responses, page).urls|
    ensures SubcategoryTrace(href, subcat, responses, page).urls[k]
         == PageUrl(href, PageRequest((page + k) * PageSize, PageSize, subcat))
    decreases k
  {
    if k > 0 {
      var rest := SubcategoryTrace(href, subcat, responses[1..], page + 1);
      assert SubcategoryTrace(href, subcat, responses, page).urls[k] == rest.urls[k - 1];
      SubcategoryPageUrls(href, subcat, responses[1..], page + 1, k - 1);
      assert page + 1 + (k - 1) == page + k;
    }
  }

  /** A response that lets the loop go on: a page with at least one address. */
  predicate IsFullPage(r: Result<Document, Thrown>)
  {
    r.Success? && Scanner.Addresses(r.value.html) != []
  }

  /** How many responses in a row, from the first, are full pages. */
  function LeadingFullPages(responses: seq<Result<Document, Thrown>>): (n: nat)
    ensures n <= |responses|
    ensures forall k :: 0 <= k < n ==> IsFullPage(responses[k])
    ensures n < |responses| ==> !IsFullPage(responses[n])
  {
    if |responses| == 0 || !IsFullPage(responses[0]) then 0
    else 1 + LeadingFullPages(responses[1..])
  }

  function Flatten(pages: seq<seq<string>>): seq<string>
  {
    if |pages| == 0 then [] else pages[0] + Flatten(pages[1..])
  }

  /** The addresses of the first n responses, page by page. */
  function PageAddresses(responses: seq<Result<Document, Thrown>>, n: nat): (pages: seq<seq<string>>)
    requires n <= |responses| && forall k :: 0 <= k < n ==> responses[k].Success?
    ensures |pages| == n
  {
    seq(n, k requires 0 <= k < n => Scanner.Addresses(responses[k].value.html))
  }

  /** The loop stops exactly at the first response that is not a full
      page: it has fetched the full pages plus one, logged the addresses of
      the full pages in page order, and stops because that page was empty
      (Exhausted) or failed (Aborted), or is still waiting for it. */
  lemma {:induction false} SubcategoryStopsAtFirstEmptyPage(href: string, subcat: Option<string>,
                                                            responses: seq<Result<Document, Thrown>>, page: nat)
    ensures var t := SubcategoryTrace(href, subcat, responses, page);
      var n := LeadingFullPages(responses);
      && |t.urls| == n + 1
      && t.logged == Flatten(PageAddresses(responses, n))
      && t.stop == if n == |responses| then Unanswered
                   else match responses[n]
                        case Failure(e) => Aborted(e)
                        case Success(_) => Exhausted
    decreases |responses|
  {
    var n := LeadingFullPages(responses);
    if n > 0 {
      SubcategoryStopsAtFirstEmptyPage(href, subcat, responses[1..], page + 1);
      assert LeadingFullPages(responses[1..]) == n - 1;
      assert PageAddresses(responses, n) == [Scanner.Addresses(responses[0].value.html)] + PageAddresses(responses[1..], n - 1);
      assert responses[1..][n - 1..] == responses[n..];
    } else {
      assert PageAddresses(responses, 0) == [];
    }
  }

  /** The fetch of line 31, `retry(() => etherscan(url), retriableHTTP)`,
      with the responses of its successive GETs: when it rethrows, the
      error is that of its last call and is the login error, a 4xx status
      or a transport fault; the busy page and 5xx statuses are retried. */
  lemma RetriedFetchFailure(rs: seq<Response>, parse: string -> Document,
                            attempts: seq<Retry.Attempt<Document, Thrown>>,
                            delay: real, mult: real, jitter: bool)
    requires |rs| == |attempts|
    requires forall k :: 0 <= k < |attempts| ==> attempts[k].outcome == Etherscan(rs[k], parse)
    ensures var run := Retry.RetrySpec(attempts, RetriableHTTP, delay, mult, jitter);
      run.ending.Rethrown? ==>
        && 1 <= run.calls <= |rs|
        && Etherscan(rs[run.calls - 1], parse) == Failure(run.ending.error)
        && run.ending.error != Busy
        && !RetriableHTTP(run.ending.error)
        && (|| run.ending.error == NotSignedIn
            || (run.ending.error.Error? && run.ending.error.code.Symbolic?)
            || (run.ending.error.Error? && run.ending.error.code.Status?
                && ErrorStatus <= run.ending.error.code.status < 500))
  {
    var run := Retry.RetrySpec(attempts, RetriableHTTP, delay, mult, jitter);
    if run.ending.Rethrown? {
      var k := run.calls - 1;
      assert Etherscan(rs[k], parse) == Failure(run.ending.error);
      EtherscanRetriable(rs[k], parse);
    }
  }

  /** When every failed response is one `retry` rethrew, a crawl that is
      aborted is aborted by such an error. */
  lemma AbortsOnlyOnFinalErrors(href: string, subcat: Option<string>,
                                responses: seq<Result<Document, Thrown>>, page: nat)
    requires forall k :: 0 <= k < |responses| && responses[k].Failure? ==> !RetriableHTTP(responses[k].error)
    ensures var t := SubcategoryTrace(href, subcat, responses, page);
      t.stop.Aborted? ==> !RetriableHTTP(t.stop.error)
  {
    SubcategoryStopsAtFirstEmptyPage(href, subcat, responses, page);
  }

  // ---------------------------------------------------------------------
  // All subcategories of a label

  /** Lines 25-40 for one label: crawl the subcategories in order, each
      consuming the responses after those of the previous one; a crawl that
      does not end on an empty page ends the label's crawl. */
  function LabelTrace(href: string, subcats: seq<Option<string>>,
                      responses: seq<Result<Document, Thrown>>): Trace
    decreases |subcats|
  {
    if |subcats| == 0 then Trace([], [], Exhausted)
    else
      var first := SubcategoryTrace(href, subcats[0], responses, 0);
      if first.stop != Exhausted then first
      else Then(first.urls, first.logged, LabelTrace(href, subcats[1..], responses[|first.urls|..]))
  }

  /** Lines 23-40 of main.js: list the subcategories, then run the page
      loop for each. */
  method CrawlLabel(href: string, vals: seq<Option<string>>,
                    responses: seq<Result<Document, Thrown>>) returns (t: Trace)
    ensures t == LabelTrace(href, Subcategories(vals), responses)
  {
    var subcats := Subcategories(vals);
    var urls: seq<string> := [];
    var logged: seq<string> := [];
    var used: nat := 0;
    for j := 0 to |subcats|
      invariant used <= |responses|
      invariant LabelTrace(href, subcats, responses)
             == Then(urls, logged, LabelTrace(href, subcats[j..], responses[used..]))
    {
      var crawl := CrawlSubcategory(href, subcats[j], responses[used..]);
      assert subcats[j..][0] == subcats[j] && subcats[j..][1..] == subcats[j + 1..];
      if crawl.stop != Exhausted {
        t := Then(urls, logged, crawl);
        return;
      }
      assert |crawl.urls| <= |responses[used..]|;
      assert responses[used..][|crawl.urls|..] == responses[used + |crawl.urls|..];
      ThenThen(urls, logged, crawl.urls, crawl.logged,
               LabelTrace(href, subcats[j + 1..], responses[used + |crawl.urls|..]));
      urls, logged := urls + crawl.urls, logged + crawl.logged;
      used := used + |crawl.urls|;
    }
    assert subcats[|subcats|..] == [];
    assert urls + [] == urls && logged + [] == logged;
    t := Trace(urls, logged, Exhausted);
  }

  /** A label without subcategory tabs is crawled as the one implicit
      subcategory: no request carries a subcategory filter. */
  lemma NoTabsCrawlsUnfiltered(href: string, responses: seq<Result<Document, Thrown>>)
    ensures LabelTrace(href, Subcategories([]), responses) == SubcategoryTrace(href, None, responses, 0)
    ensures var t := LabelTrace(href, Subcategories([]), responses);
      forall k :: 0 <= k < |t.urls| ==> t.urls[k] == PageUrl(href, PageRequest(k * PageSize, PageSize, None))
  {
    var first := SubcategoryTrace(href, None, responses, 0);
    assert Subcategories([])[1..] == [];
    if first.stop == Exhausted {
      assert first.urls + [] == first.urls && first.logged + [] == first.logged;
    }
    forall k | 0 <= k < |first.urls|
      ensures first.urls[k] == PageUrl(href, PageRequest(k * PageSize, PageSize, None))
    {
      SubcategoryPageUrls(href, None, responses, 0, k);
    }
  }

  lemma MultipleOfPageSize(k: nat)
    ensures (k * PageSize) % PageSize == 0
  {
  }

  /** A URL of a subcategory's crawl asks for a multiple of 10000 rows on,
      10000 rows, filtered by that subcategory. */
  lemma SubcategoryUrlReadsAs(href: string, subcat: Option<string>,
                              responses: seq<Result<Document, Thrown>>, k: nat)
    requires k < |SubcategoryTrace(href, subcat, responses, 0).urls|
    ensures var r := PageRequest(k * PageSize, PageSize, subcat);
      ReadsAs(href, SubcategoryTrace(href, subcat, responses, 0).urls[k], r) && r.start % PageSize == 0
  {
    var r := PageRequest(k * PageSize, PageSize, subcat);
    var url := SubcategoryTrace(href, subcat, responses, 0).urls[k];
    assert url == PageUrl(href, r) by {
      SubcategoryPageUrls(href, subcat, responses, 0, k);
      assert 0 + k == k;
    }
    PageUrlRoundTrip(href, r);
    MultipleOfPageSize(k);
  }

  /** The URLs of a label's crawl: those of its first subcategory, then
      those of the rest. */
  lemma LabelUrlAt(href: string, subcats: seq<Option<string>>,
                   responses: seq<Result<Document, Thrown>>, k: nat)
    requires k < |LabelTrace(href, subcats, responses).urls|
    ensures |subcats| > 0
    ensures var first := SubcategoryTrace(href, subcats[0], responses, 0);
      if k < |first.urls| then LabelTrace(href, subcats, responses).urls[k] == first.urls[k]
      else (first.stop == Exhausted && |first.urls| <= |responses|
            && k - |first.urls| < |LabelTrace(href, subcats[1..], responses[|first.urls|..]).urls|
            && LabelTrace(href, subcats, responses).urls[k]
               == LabelTrace(href, subcats[1..], responses[|first.urls|..]).urls[k - |first.urls|])
  {
  }

  /** Every URL requested for a label is the label's href followed by a
      query for a multiple of 10000 rows on, 10000 rows, and one of the
      label's subcategories: the filter is present exactly for a tab with a
      `val` attribute. */
  lemma {:induction false} LabelUrlsAreQueries(href: string, subcats: seq<Option<string>>,
                                               responses: seq<Result<Document, Thrown>>, k: nat)
    requires k < |LabelTrace(href, subcats, responses).urls|
    ensures exists r :: ReadsAs(href, LabelTrace(href, subcats, responses).urls[k], r)
                        && r.size == PageSize && r.start % PageSize == 0 && r.subcat in subcats
    decreases |subcats|
  {
    LabelUrlAt(href, subcats, responses, k);
    var first := SubcategoryTrace(href, subcats[0], responses, 0);
    var url := LabelTrace(href, subcats, responses).urls[k];
    if k < |first.urls| {
      SubcategoryUrlReadsAs(href, subcats[0], responses, k);
      var r := PageRequest(k * PageSize, PageSize, subcats[0]);
      assert ReadsAs(href, url, r) && r.size == PageSize && r.start % PageSize == 0 && r.subcat in subcats;
    } else {
      var rest := responses[|first.urls|..];
      LabelUrlsAreQueries(href, subcats[1..], rest, k - |first.urls|);
      var r :| ReadsAs(href, url, r) && r.size == PageSize && r.start % PageSize == 0 && r.subcat in subcats[1..];
      assert ReadsAs(href, url, r) && r.size == PageSize && r.start % PageSize == 0 && r.subcat in subcats;
    }
  }
}
