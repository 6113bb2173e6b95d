/**
 * The NewsData fetcher: maps one response page to articles and drives the
 * pagination loop, keeping the remaining-results estimate as a signed 32-bit count.
 */
module Newsdata {
  import opened Common
  import opened Ports

  /** The source name stamped on every article from this provider. */
  const SourceName: string := "NewsData"

  /** One entry of the `results` array of a response. */
  datatype NewsResponseResult = NewsResponseResult(
    articleId: string,
    link: Option<string>,
    title: Option<string>,
    description: Option<string>,
    imageUrl: Option<string>,
    pubDate: Option<string>,
    pubDateTz: Option<string>)

  /** A decoded response body. */
  datatype NewsResponse = NewsResponse(
    totalResults: u16,
    results: seq<NewsResponseResult>,
    nextPage: Option<string>)

  /** A time zone as the calendar library names it. */
  datatype Zone = Zone(name: string)

  /** A wall-clock date and time with no zone attached. */
  datatype NaiveDateTime = NaiveDateTime(wallSeconds: int)

  /**
   * The calendar library, as partial functions: parsing a zone name, parsing a
   * `%Y-%m-%d %H:%M:%S` date, and resolving a wall-clock time in a zone to a single
   * instant (`None` when the local time is ambiguous or skipped).
   */
  datatype Calendar = Calendar(
    parseZone: string -> Option<Zone>,
    parseDateTime: string -> Option<NaiveDateTime>,
    resolve: (NaiveDateTime, Zone) -> Option<Instant>)

  /** Why a page could not be obtained. */
  datatype FetchError =
    | Transport(cause: Error)       // the request or reading its body failed
    | MalformedBody(cause: Error)   // the body is not the expected JSON
    | MalformedZone(zone: string)
    | MalformedDate(date: string)

  /** The three things `fetch_page` returns: the advertised total, the page's articles and the next cursor. */
  datatype Page = Page(totalResults: u16, articles: seq<FetchNewsArticle>, nextPage: Option<string>)

  /**
   * The published time of a result. Only a result carrying both a date and a zone gets one;
   * then a zone or date the calendar rejects is an error, and a local time with no
   * single instant gives no time at all.
   */
  function PublishedTime(pubDate: Option<string>, pubDateTz: Option<string>, cal: Calendar)
    : (r: Result<Option<Instant>, FetchError>)
    ensures pubDate.None? || pubDateTz.None? ==> r == Ok(None)
    ensures pubDate.Some? && pubDateTz.Some? ==>
      (r.Err? <==> cal.parseZone(pubDateTz.value).None? || cal.parseDateTime(pubDate.value).None?)
    // the zone is parsed first, so a bad zone is reported even when the date is bad too
    ensures pubDate.Some? && pubDateTz.Some? && cal.parseZone(pubDateTz.value).None? ==>
      r == Err(MalformedZone(pubDateTz.value))
    ensures pubDate.Some? && pubDateTz.Some? && cal.parseZone(pubDateTz.value).Some? &&
            cal.parseDateTime(pubDate.value).None? ==>
      r == Err(MalformedDate(pubDate.value))
    // both parse: the time is whatever the local time resolves to in that zone, possibly none
    ensures pubDate.Some? && pubDateTz.Some? &&
            cal.parseZone(pubDateTz.value).Some? && cal.parseDateTime(pubDate.value).Some? ==>
      r == Ok(cal.resolve(cal.parseDateTime(pubDate.value).value, cal.parseZone(pubDateTz.value).value))
    ensures r.Ok? && r.value.Some? ==>
      pubDate.Some? && pubDateTz.Some? &&
      Some(r.value.value) == cal.resolve(cal.parseDateTime(pubDate.value).value, cal.parseZone(pubDateTz.value).value)
  {
    match (pubDate, pubDateTz)
    case (Some(date), Some(tz)) =>
      (match cal.parseZone(tz)
       case None => Err(MalformedZone(tz))
       case Some(zone) =>
         match cal.parseDateTime(date)
         case None => Err(MalformedDate(date))
         case Some(naive) => Ok(cal.resolve(naive, zone)))
    case _ => Ok(None)
  }

  /** Maps one response result to the article handed to the handler. */
  function MapResult(res: NewsResponseResult, cal: Calendar): (r: Result<FetchNewsArticle, FetchError>)
    ensures r.Ok? <==> PublishedTime(res.pubDate, res.pubDateTz, cal).Ok?
    ensures r.Err? ==> r.error == PublishedTime(res.pubDate, res.pubDateTz, cal).error
    ensures r.Ok? ==>
      && r.value.sourceName == SourceName
      && r.value.id == Some(res.articleId)
      && r.value.link == res.link
      && r.value.title == res.title
      && r.value.shortText == res.description
      && r.value.longText == None
      && r.value.imageUrl == res.imageUrl
      && r.value.publishedTime == PublishedTime(res.pubDate, res.pubDateTz, cal).value
  {
    match PublishedTime(res.pubDate, res.pubDateTz, cal)
    case Err(e) => Err(e)
    case Ok(published) =>
      Ok(FetchNewsArticle(
        sourceName := SourceName,
        id := Some(res.articleId),
        link := res.link,
        title := res.title,
        shortText := res.description,
        longText := None,
        imageUrl := res.imageUrl,
        publishedTime := published))
  }

  /**
   * Maps the results of a page in order. The first result whose time cannot be parsed
   * makes the whole page an error.
   */
  function MapResults(results: seq<NewsResponseResult>, cal: Calendar)
    : (r: Result<seq<FetchNewsArticle>, FetchError>)
    ensures r.Ok? <==> forall i :: 0 <= i < |results| ==> MapResult(results[i], cal).Ok?
    ensures r.Ok? ==>
      |r.value| == |results| &&
      forall i :: 0 <= i < |results| ==> r.value[i] == MapResult(results[i], cal).value
    ensures r.Err? ==>
      exists i :: 0 <= i < |results| && MapResult(results[i], cal) == Err(r.error) &&
        forall j :: 0 <= j < i ==> MapResult(results[j], cal).Ok?
  {
    if |results| == 0 then Ok([])
    else
      match MapResult(results[0], cal)
      case Err(e) => Err(e)
      case Ok(article) =>
        match MapResults(results[1..], cal)
        case Err(e) =>
          assert forall i :: 1 <= i < |results| ==> results[i] == results[1..][i - 1];
          Err(e)
        case Ok(rest) =>
          assert forall i :: 1 <= i < |results| ==> results[i] == results[1..][i - 1];
          Ok([article] + rest)
  }

  /** `fetch_page` after the network: a transport or decoding failure, or the mapped page. */
  function FetchPage(answer: Result<NewsResponse, FetchError>, cal: Calendar): (r: Result<Page, FetchError>)
    ensures answer.Err? ==> r == Err(answer.error)
    ensures answer.Ok? ==> (r.Ok? <==> MapResults(answer.value.results, cal).Ok?)
    ensures r.Ok? ==>
      && r.value.totalResults == answer.value.totalResults
      && r.value.nextPage == answer.value.nextPage
      && r.value.articles == MapResults(answer.value.results, cal).value
  {
    match answer
    case Err(e) => Err(e)
    case Ok(response) =>
      match MapResults(response.results, cal)
      case Err(e) => Err(e)
      case Ok(articles) => Ok(Page(response.totalResults, articles, response.nextPage))
  }

  // ---------------------------------------------------------------------------
  // The pagination loop
  // ---------------------------------------------------------------------------

  /** Why the loop ended. `AnswersExhausted` is the model's fuel running out. */
  datatype Stop =
    | PageLimitReached
    | NothingRemaining
    | NoNextPage
    | FetchFailed(error: FetchError)
    | AnswersExhausted

  /** A finished run: the cursor of every fetch, every article dispatched to the handler, and why it ended. */
  datatype Run = Run(requests: seq<Option<string>>, outputs: seq<FetchNewsArticle>, stop: Stop)

  /**
   * The test at the top of each iteration: with a page limit only the page index counts;
   * without one, the loop stops once an estimate exists and is at most zero.
   */
  predicate ShouldStop(limit: Option<u16>, pageIndex: nat, remaining: Option<int>)
  {
    match limit
    case Some(n) => pageIndex >= n
    case None => remaining.Some? && remaining.value <= 0
  }

  /**
   * What stops the loop: under a page limit the page index alone, whatever the estimate;
   * without one, an estimate at or below zero, and never the missing estimate before the
   * first page.
   */
  lemma ShouldStopCases(limit: Option<u16>, pageIndex: nat, remaining: Option<int>)
    ensures limit.Some? ==> (ShouldStop(limit, pageIndex, remaining) <==> pageIndex >= limit.value)
    ensures limit.Some? ==> ShouldStop(limit, pageIndex, remaining) == ShouldStop(limit, pageIndex, None)
    ensures limit.None? && remaining.None? ==> !ShouldStop(limit, pageIndex, remaining)
    ensures limit.None? && remaining.Some? ==> (ShouldStop(limit, pageIndex, remaining) <==> remaining.value <= 0)
  {
  }

  /**
   * The loop of `fetch_news`, one iteration per call. `outcomes[k]` is what the k-th
   * call of `fetch_page` returns; the handler appends to `outputs`.
   */
  function Loop(limit: Option<u16>, outcomes: seq<Result<Page, FetchError>>, pageIndex: nat,
                remaining: Option<int>, page: Option<string>,
                requests: seq<Option<string>>, outputs: seq<FetchNewsArticle>): (r: Run)
    ensures |r.requests| - |requests| <= if pageIndex <= |outcomes| then |outcomes| - pageIndex else 0
    // the loop only appends: earlier fetches and dispatches are never taken back
    ensures requests <= r.requests && outputs <= r.outputs
    decreases |outcomes| - pageIndex
  {
    if ShouldStop(limit, pageIndex, remaining) then
      Run(requests, outputs, if limit.Some? then PageLimitReached else NothingRemaining)
    else if pageIndex >= |outcomes| then
      Run(requests, outputs, AnswersExhausted)
    else
      var requests' := requests + [page];
      match outcomes[pageIndex]
      case Err(e) => Run(requests', outputs, FetchFailed(e))
      case Ok(p) =>
        var remaining' := (match remaining case Some(n) => n case None => p.totalResults as int) - |p.articles|;
        var outputs' := outputs + p.articles;
        match p.nextPage
        case None => Run(requests', outputs', NoNextPage)
        case Some(next) => Loop(limit, outcomes, pageIndex + 1, Some(remaining'), Some(next), requests', outputs')
  }

  /** `fetch_news` over a given sequence of `fetch_page` outcomes. */
  function Paginate(limit: Option<u16>, outcomes: seq<Result<Page, FetchError>>): (r: Run)
    ensures |r.requests| <= |outcomes|
  {
    Loop(limit, outcomes, 0, None, None, [], [])
  }

  /** `fetch_news` from the raw provider answers: each answer is mapped by `fetch_page` first. */
  function FetchNews(limit: Option<u16>, answers: seq<Result<NewsResponse, FetchError>>, cal: Calendar): (r: Run)
    ensures forall i :: 0 <= i < |r.outputs| ==>
      r.outputs[i].sourceName == SourceName && r.outputs[i].id.Some? && r.outputs[i].longText.None?
  {
    var outcomes := Pages(answers, cal);
    PaginateCharacterized(limit, outcomes);
    DispatchedAreMapped(outcomes, |Paginate(limit, outcomes).requests|);
    Paginate(limit, outcomes)
  }

  /** The `fetch_page` outcomes for a sequence of provider answers. */
  function Pages(answers: seq<Result<NewsResponse, FetchError>>, cal: Calendar): (r: seq<Result<Page, FetchError>>)
    ensures |r| == |answers|
    ensures forall k :: 0 <= k < |answers| ==> r[k] == FetchPage(answers[k], cal)
  {
    seq(|answers|, k requires 0 <= k < |answers| => FetchPage(answers[k], cal))
  }

  // ---------------------------------------------------------------------------
  // A reference description of a run
  // ---------------------------------------------------------------------------

  /** The articles of the successful pages among the first `n` outcomes, in page order then in-page order. */
  function Dispatched(outcomes: seq<Result<Page, FetchError>>, n: nat): seq<FetchNewsArticle>
    requires n <= |outcomes|
  {
    if n == 0 then []
    else Dispatched(outcomes, n - 1) + (match outcomes[n - 1] case Ok(p) => p.articles case Err(_) => [])
  }

  /** The cursor of fetch `k`: none for the first, otherwise the next cursor reported by fetch `k - 1`. */
  function CursorFor(outcomes: seq<Result<Page, FetchError>>, k: nat): Option<string>
    requires k <= |outcomes|
  {
    if k == 0 then None
    else match outcomes[k - 1] case Ok(p) => p.nextPage case Err(_) => None
  }

  /** Fetch `k` succeeded and pointed to a further page, so the loop went on. */
  predicate Continued(outcomes: seq<Result<Page, FetchError>>, k: nat)
    requires k < |outcomes|
  {
    outcomes[k].Ok? && outcomes[k].value.nextPage.Some?
  }

  /**
   * The estimate before fetch `k`: none before the first fetch, then the first page's
   * advertised total minus every article dispatched so far.
   */
  function RemainingBefore(outcomes: seq<Result<Page, FetchError>>, k: nat): Option<int>
    requires k <= |outcomes|
  {
    if k == 0 then None
    else match outcomes[0] case Ok(p) => Some(p.totalResults as int - |Dispatched(outcomes, k)|) case Err(_) => None
  }

  /** Everything a finished run is, stated without the loop. */
  ghost predicate Characterized(limit: Option<u16>, outcomes: seq<Result<Page, FetchError>>, r: Run)
  {
    var n := |r.requests|;
    && n <= |outcomes|
    && (forall k :: 0 <= k < n ==> r.requests[k] == CursorFor(outcomes, k))
    && (forall k :: 0 <= k < n - 1 ==> Continued(outcomes, k))
    && (forall k :: 0 <= k < n ==> !ShouldStop(limit, k, RemainingBefore(outcomes, k)))
    && r.outputs == Dispatched(outcomes, n)
    && match r.stop
       case PageLimitReached =>
         limit.Some? && ShouldStop(limit, n, RemainingBefore(outcomes, n)) && (n == 0 || Continued(outcomes, n - 1))
       case NothingRemaining =>
         limit.None? && ShouldStop(limit, n, RemainingBefore(outcomes, n)) && (n == 0 || Continued(outcomes, n - 1))
       case NoNextPage =>
         n > 0 && outcomes[n - 1].Ok? && outcomes[n - 1].value.nextPage.None?
       case FetchFailed(e) =>
         n > 0 && outcomes[n - 1] == Err(e)
       case AnswersExhausted =>
         n == |outcomes| && !ShouldStop(limit, n, RemainingBefore(outcomes, n)) && (n == 0 || Continued(outcomes, n - 1))
  }

  /** The loop state after `pageIndex` iterations that all went on to a next page. */
  ghost predicate Reached(limit: Option<u16>, outcomes: seq<Result<Page, FetchError>>, pageIndex: nat,
                          remaining: Option<int>, page: Option<string>,
                          requests: seq<Option<string>>, outputs: seq<FetchNewsArticle>)
  {
    && pageIndex <= |outcomes|
    && |requests| == pageIndex
    && (forall k :: 0 <= k < pageIndex ==> Continued(outcomes, k))
    && (forall k :: 0 <= k < pageIndex ==> requests[k] == CursorFor(outcomes, k))
    && (forall k :: 0 <= k < pageIndex ==> !ShouldStop(limit, k, RemainingBefore(outcomes, k)))
    && page == CursorFor(outcomes, pageIndex)
    && outputs == Dispatched(outcomes, pageIndex)
    && remaining == RemainingBefore(outcomes, pageIndex)
  }

  /** One iteration that goes on to a next page keeps the state reached. */
  lemma ReachedAfterPage(limit: Option<u16>, outcomes: seq<Result<Page, FetchError>>,
                         pageIndex: nat, remaining: Option<int>, page: Option<string>,
                         requests: seq<Option<string>>, outputs: seq<FetchNewsArticle>, p: Page)
    requires Reached(limit, outcomes, pageIndex, remaining, page, requests, outputs)
    requires !ShouldStop(limit, pageIndex, remaining)
    requires pageIndex < |outcomes| && outcomes[pageIndex] == Ok(p) && p.nextPage.Some?
    ensures Reached(limit, outcomes, pageIndex + 1,
                    Some((match remaining case Some(n) => n case None => p.totalResults as int) - |p.articles|),
                    p.nextPage, requests + [page], outputs + p.articles)
  {
    var requests' := requests + [page];
    assert forall k :: 0 <= k <= pageIndex ==> requests'[k] == CursorFor(outcomes, k);
    assert outputs + p.articles == Dispatched(outcomes, pageIndex + 1);
    if pageIndex > 0 {
      assert Continued(outcomes, 0);
    }
  }

  /**
   * The estimate after a successful fetch: the estimate before it (the page's own total
   * on the first page) minus the page's articles.
   */
  lemma EstimateAfterPage(outcomes: seq<Result<Page, FetchError>>, k: nat, p: Page)
    requires k < |outcomes| && outcomes[k] == Ok(p)
    requires k > 0 ==> outcomes[0].Ok?
    ensures RemainingBefore(outcomes, k + 1)
         == Some((match RemainingBefore(outcomes, k) case Some(n) => n case None => p.totalResults as int) - |p.articles|)
  {
    assert |Dispatched(outcomes, k + 1)| == |Dispatched(outcomes, k)| + |p.articles|;
  }

  /** An iteration that fetches a page sends its cursor after all earlier ones, whatever happens next. */
  lemma FetchExtendsRequests(limit: Option<u16>, outcomes: seq<Result<Page, FetchError>>,
                             pageIndex: nat, remaining: Option<int>, page: Option<string>,
                             requests: seq<Option<string>>, outputs: seq<FetchNewsArticle>)
    requires !ShouldStop(limit, pageIndex, remaining) && pageIndex < |outcomes|
    ensures requests + [page] <= Loop(limit, outcomes, pageIndex, remaining, page, requests, outputs).requests
  {
  }

  /** A run that stops at the top of an iteration, or for lack of answers, is characterized. */
  lemma StoppedCharacterized(limit: Option<u16>, outcomes: seq<Result<Page, FetchError>>,
                             pageIndex: nat, remaining: Option<int>, page: Option<string>,
                             requests: seq<Option<string>>, outputs: seq<FetchNewsArticle>)
    requires Reached(limit, outcomes, pageIndex, remaining, page, requests, outputs)
    requires ShouldStop(limit, pageIndex, remaining) || pageIndex >= |outcomes|
    ensures Characterized(limit, outcomes, Loop(limit, outcomes, pageIndex, remaining, page, requests, outputs))
  {
    if pageIndex > 0 {
      assert Continued(outcomes, pageIndex - 1);
    }
  }

  /** A run whose last fetch failed or had no next cursor is characterized. */
  lemma LastFetchCharacterized(limit: Option<u16>, outcomes: seq<Result<Page, FetchError>>,
                               pageIndex: nat, remaining: Option<int>, page: Option<string>,
                               requests: seq<Option<string>>, outputs: seq<FetchNewsArticle>)
    requires Reached(limit, outcomes, pageIndex, remaining, page, requests, outputs)
    requires !ShouldStop(limit, pageIndex, remaining) && pageIndex < |outcomes|
    requires outcomes[pageIndex].Err? || outcomes[pageIndex].value.nextPage.None?
    ensures Characterized(limit, outcomes, Loop(limit, outcomes, pageIndex, remaining, page, requests, outputs))
  {
    var requests' := requests + [page];
    assert forall k :: 0 <= k <= pageIndex ==> requests'[k] == CursorFor(outcomes, k);
    match outcomes[pageIndex]
    case Err(e) =>
      assert Dispatched(outcomes, pageIndex + 1) == outputs;
    case Ok(p) =>
      assert Dispatched(outcomes, pageIndex + 1) == outputs + p.articles;
  }

  /** From any reached state the loop finishes in a characterized run. */
  lemma {:induction false} LoopCharacterized(limit: Option<u16>, outcomes: seq<Result<Page, FetchError>>,
                                             pageIndex: nat, remaining: Option<int>, page: Option<string>,
                                             requests: seq<Option<string>>, outputs: seq<FetchNewsArticle>)
    requires Reached(limit, outcomes, pageIndex, remaining, page, requests, outputs)
    ensures Characterized(limit, outcomes, Loop(limit, outcomes, pageIndex, remaining, page, requests, outputs))
    decreases |outcomes| - pageIndex
  {
    if ShouldStop(limit, pageIndex, remaining) || pageIndex >= |outcomes| {
      StoppedCharacterized(limit, outcomes, pageIndex, remaining, page, requests, outputs);
    } else if outcomes[pageIndex].Err? || outcomes[pageIndex].value.nextPage.None? {
      LastFetchCharacterized(limit, outcomes, pageIndex, remaining, page, requests, outputs);
    } else {
      var p := outcomes[pageIndex].value;
      var remaining' := (match remaining case Some(n) => n case None => p.totalResults as int) - |p.articles|;
      ReachedAfterPage(limit, outcomes, pageIndex, remaining, page, requests, outputs, p);
      LoopCharacterized(limit, outcomes, pageIndex + 1, Some(remaining'), p.nextPage, requests + [page], outputs + p.articles);
    }
  }

  /** Every run of the loop is characterized. */
  lemma PaginateCharacterized(limit: Option<u16>, outcomes: seq<Result<Page, FetchError>>)
    ensures Characterized(limit, outcomes, Paginate(limit, outcomes))
  {
    LoopCharacterized(limit, outcomes, 0, None, None, [], []);
  }

  /** Every dispatched article is a mapped article of a fetched page. */
  lemma {:induction false} DispatchedAreMapped(outcomes: seq<Result<Page, FetchError>>, n: nat)
    requires n <= |outcomes|
    requires forall k :: 0 <= k < |outcomes| ==> outcomes[k].Ok? ==>
      forall i :: 0 <= i < |outcomes[k].value.articles| ==>
        var a := outcomes[k].value.articles[i]; a.sourceName == SourceName && a.id.Some? && a.longText.None?
    ensures forall i :: 0 <= i < |Dispatched(outcomes, n)| ==>
      var a := Dispatched(outcomes, n)[i]; a.sourceName == SourceName && a.id.Some? && a.longText.None?
  {
    if n > 0 {
      DispatchedAreMapped(outcomes, n - 1);
    }
  }

  // ---------------------------------------------------------------------------
  // Properties of a run
  // ---------------------------------------------------------------------------

  /** With a page limit of `n`, at most `n` pages are fetched and the estimate never ends the run. */
  lemma PageLimitBoundsFetches(n: u16, outcomes: seq<Result<Page, FetchError>>)
    ensures |Paginate(Some(n), outcomes).requests| <= n
    ensures Paginate(Some(n), outcomes).stop != NothingRemaining
    ensures Paginate(Some(n), outcomes).stop == PageLimitReached ==> |Paginate(Some(n), outcomes).requests| == n
  {
    var r := Paginate(Some(n), outcomes);
    PaginateCharacterized(Some(n), outcomes);
    if |r.requests| > 0 {
      assert !ShouldStop(Some(n), |r.requests| - 1, RemainingBefore(outcomes, |r.requests| - 1));
    }
  }

  /** A page limit of zero fetches nothing and dispatches nothing. */
  lemma ZeroLimitFetchesNothing(outcomes: seq<Result<Page, FetchError>>)
    ensures Paginate(Some(0), outcomes) == Run([], [], PageLimitReached)
  {
  }

  /** With a page limit the advertised totals play no part: changing any of them changes nothing. */
  lemma LimitedRunIgnoresTotals(n: u16, a: seq<Result<Page, FetchError>>, b: seq<Result<Page, FetchError>>)
    requires SameExceptTotals(a, b, 0)
    ensures Paginate(Some(n), a) == Paginate(Some(n), b)
  {
    LimitedLoopIgnoresTotals(n, a, b, 0, None, None, None, [], []);
  }

  /** `a` and `b` have the same outcomes except, possibly, the totals of successful pages from index `from` on. */
  ghost predicate SameExceptTotals(a: seq<Result<Page, FetchError>>, b: seq<Result<Page, FetchError>>, from: nat)
  {
    && |a| == |b|
    && (forall k :: 0 <= k < |a| && k < from ==> a[k] == b[k])
    && (forall k :: from <= k < |a| ==>
          match a[k]
          case Err(e) => b[k] == Err(e)
          case Ok(p) => b[k].Ok? && b[k].value.articles == p.articles && b[k].value.nextPage == p.nextPage)
  }

  lemma {:induction false} LimitedLoopIgnoresTotals(n: u16, a: seq<Result<Page, FetchError>>, b: seq<Result<Page, FetchError>>,
                                                    pageIndex: nat, remainingA: Option<int>, remainingB: Option<int>,
                                                    page: Option<string>, requests: seq<Option<string>>,
                                                    outputs: seq<FetchNewsArticle>)
    requires SameExceptTotals(a, b, 0)
    ensures Loop(Some(n), a, pageIndex, remainingA, page, requests, outputs)
         == Loop(Some(n), b, pageIndex, remainingB, page, requests, outputs)
    decreases |a| - pageIndex
  {
    if pageIndex < n && pageIndex < |a| {
      match a[pageIndex]
      case Err(_) =>
      case Ok(p) =>
        if p.nextPage.Some? {
          var q := b[pageIndex].value;
          var ra := (match remainingA case Some(m) => m case None => p.totalResults as int) - |p.articles|;
          var rb := (match remainingB case Some(m) => m case None => q.totalResults as int) - |q.articles|;
          LimitedLoopIgnoresTotals(n, a, b, pageIndex + 1, Some(ra), Some(rb), p.nextPage,
                                   requests + [page], outputs + p.articles);
        }
    }
  }

  /** Without a page limit, the totals of pages after the first are never read. */
  lemma LaterTotalsIgnored(a: seq<Result<Page, FetchError>>, b: seq<Result<Page, FetchError>>)
    requires SameExceptTotals(a, b, 1)
    ensures Paginate(None, a) == Paginate(None, b)
  {
    LaterLoopTotalsIgnored(a, b, 0, None, None, [], []);
  }

  lemma {:induction false} LaterLoopTotalsIgnored(a: seq<Result<Page, FetchError>>, b: seq<Result<Page, FetchError>>,
                                                  pageIndex: nat, remaining: Option<int>, page: Option<string>,
                                                  requests: seq<Option<string>>, outputs: seq<FetchNewsArticle>)
    requires SameExceptTotals(a, b, 1)
    requires pageIndex > 0 ==> remaining.Some?
    ensures Loop(None, a, pageIndex, remaining, page, requests, outputs)
         == Loop(None, b, pageIndex, remaining, page, requests, outputs)
    decreases |a| - pageIndex
  {
    if !ShouldStop(None, pageIndex, remaining) && pageIndex < |a| {
      match a[pageIndex]
      case Err(_) =>
      case Ok(p) =>
        if p.nextPage.Some? {
          var r := (match remaining case Some(m) => m case None => p.totalResults as int) - |p.articles|;
          LaterLoopTotalsIgnored(a, b, pageIndex + 1, Some(r), p.nextPage, requests + [page], outputs + p.articles);
        }
    }
  }

  /** Without a page limit the first page is always requested, and with no cursor. */
  lemma UnlimitedRunFetchesFirstPage(outcomes: seq<Result<Page, FetchError>>)
    requires |outcomes| > 0
    ensures |Paginate(None, outcomes).requests| >= 1
    ensures Paginate(None, outcomes).requests[0] == None
  {
    PaginateCharacterized(None, outcomes);
  }

  /**
   * Without a page limit, every fetch after the first happened while the first page's total
   * exceeded the articles dispatched so far, and a run ended by the estimate has dispatched
   * at least that total.
   */
  lemma UnlimitedRunFollowsEstimate(outcomes: seq<Result<Page, FetchError>>)
    requires |outcomes| > 0 && outcomes[0].Ok?
    ensures var r := Paginate(None, outcomes);
      forall k :: 0 < k < |r.requests| ==> outcomes[0].value.totalResults - |Dispatched(outcomes, k)| > 0
    ensures var r := Paginate(None, outcomes);
      r.stop == NothingRemaining ==> |r.requests| > 0 && outcomes[0].value.totalResults - |r.outputs| <= 0
  {
    var r := Paginate(None, outcomes);
    PaginateCharacterized(None, outcomes);
    forall k | 0 < k < |r.requests|
      ensures outcomes[0].value.totalResults - |Dispatched(outcomes, k)| > 0
    {
      assert !ShouldStop(None, k, RemainingBefore(outcomes, k));
    }
  }

  /** Fetch `k + 1` is sent with the next cursor that fetch `k` reported. */
  lemma CursorsFollowPages(limit: Option<u16>, outcomes: seq<Result<Page, FetchError>>)
    ensures var r := Paginate(limit, outcomes);
      |r.requests| > 0 ==> r.requests[0] == None
    ensures var r := Paginate(limit, outcomes);
      forall k :: 0 <= k < |r.requests| - 1 ==>
        outcomes[k].Ok? && r.requests[k + 1] == outcomes[k].value.nextPage && r.requests[k + 1].Some?
  {
    var r := Paginate(limit, outcomes);
    PaginateCharacterized(limit, outcomes);
    forall k | 0 <= k < |r.requests| - 1
      ensures outcomes[k].Ok? && r.requests[k + 1] == outcomes[k].value.nextPage && r.requests[k + 1].Some?
    {
      assert Continued(outcomes, k);
      assert r.requests[k + 1] == CursorFor(outcomes, k + 1);
    }
  }

  /** A page with no next cursor still has all its articles dispatched, after which the run ends. */
  lemma LastPageDispatchedThenStops(limit: Option<u16>, outcomes: seq<Result<Page, FetchError>>)
    ensures var r := Paginate(limit, outcomes);
      r.stop == NoNextPage ==>
        var n := |r.requests|;
        n > 0 && outcomes[n - 1].Ok? && outcomes[n - 1].value.nextPage.None? &&
        r.outputs == Dispatched(outcomes, n - 1) + outcomes[n - 1].value.articles
  {
    PaginateCharacterized(limit, outcomes);
  }

  /** A failed fetch ends the run; the output is exactly what earlier pages dispatched. */
  lemma FetchFailureKeepsEarlierDispatches(limit: Option<u16>, outcomes: seq<Result<Page, FetchError>>)
    ensures var r := Paginate(limit, outcomes);
      r.stop.FetchFailed? ==>
        var n := |r.requests|;
        n > 0 && outcomes[n - 1] == Err(r.stop.error) && r.outputs == Dispatched(outcomes, n - 1)
  {
    PaginateCharacterized(limit, outcomes);
  }

  /** Every page reports 10 results in all, holds 3 articles and points to a further page. */
  ghost predicate AlwaysTenByThree(outcomes: seq<Result<Page, FetchError>>)
  {
    forall k :: 0 <= k < |outcomes| ==>
      outcomes[k].Ok? && outcomes[k].value.totalResults == 10 &&
      |outcomes[k].value.articles| == 3 && outcomes[k].value.nextPage.Some?
  }

  /**
   * A provider that always answers "10 in all, 3 here, more to come": without a page limit
   * the signed estimate goes 7, 4, 1, -2 and the run ends cleanly after four pages.
   */
  lemma TenByThreeStopsAfterFourPages(outcomes: seq<Result<Page, FetchError>>)
    requires |outcomes| >= 4 && AlwaysTenByThree(outcomes)
    ensures |Paginate(None, outcomes).requests| == 4
    ensures |Paginate(None, outcomes).outputs| == 12
    ensures Paginate(None, outcomes).stop == NothingRemaining
  {
    var p0, p1, p2, p3 := outcomes[0].value, outcomes[1].value, outcomes[2].value, outcomes[3].value;
    var r0 := [None];
    var r1 := r0 + [p0.nextPage];
    var r2 := r1 + [p1.nextPage];
    var r3 := r2 + [p2.nextPage];
    var o1 := p0.articles;
    var o2 := o1 + p1.articles;
    var o3 := o2 + p2.articles;
    var o4 := o3 + p3.articles;
    assert [] + [None] == r0;
    assert [] + p0.articles == o1;
    calc {
      Paginate(None, outcomes);
      Loop(None, outcomes, 0, None, None, [], []);
      Loop(None, outcomes, 1, Some(7), p0.nextPage, r0, o1);
      Loop(None, outcomes, 2, Some(4), p1.nextPage, r1, o2);
      Loop(None, outcomes, 3, Some(1), p2.nextPage, r2, o3);
      Loop(None, outcomes, 4, Some(-2), p3.nextPage, r3, o4);
      Run(r3, o4, NothingRemaining);
    }
  }
}
