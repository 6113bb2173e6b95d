/**
 * The older NewsData fetcher. Its page fetch is a canned response; its loop keeps the
 * remaining-results estimate as an unsigned 16-bit count, so subtracting a page that is
 * larger than the estimate underflows (a panic in a debug build).
 */
module LegacyNewsdata {
  import opened Common
  import N = Newsdata
  import P = Ports

  /** The source code stamped on every output. */
  const SourceCode: string := "NewsData"

  /** The older port record handed to the handler (`source_code` instead of `source_name`). */
  datatype FetchNewsOutput = FetchNewsOutput(
    sourceCode: string,
    id: Option<string>,
    link: Option<string>,
    title: Option<string>,
    shortText: Option<string>,
    longText: Option<string>,
    imageUrl: Option<string>,
    publishedTime: Option<Instant>)

  /** A fetched page: advertised total, outputs, next cursor. */
  datatype Page = Page(totalResults: u16, output: seq<FetchNewsOutput>, nextPage: Option<string>)

  /** Maps one response result; the time is resolved exactly as the newer fetcher does. */
  function MapResult(res: N.NewsResponseResult, cal: N.Calendar): (r: Result<FetchNewsOutput, N.FetchError>)
    ensures r.Ok? <==> N.PublishedTime(res.pubDate, res.pubDateTz, cal).Ok?
    ensures r.Ok? ==>
      && r.value.sourceCode == SourceCode
      && r.value.id == Some(res.articleId)
      && r.value.longText == None
      && r.value.link == res.link && r.value.title == res.title
      && r.value.shortText == res.description && r.value.imageUrl == res.imageUrl
  {
    var published :=
      if res.pubDate.Some? && res.pubDateTz.Some? then
        match cal.parseZone(res.pubDateTz.value)
        case None => Err(N.MalformedZone(res.pubDateTz.value))
        case Some(zone) =>
          match cal.parseDateTime(res.pubDate.value)
          case None => Err(N.MalformedDate(res.pubDate.value))
          case Some(naive) => Ok(cal.resolve(naive, zone))
      else Ok(None);
    match published
    case Err(e) => Err(e)
    case Ok(t) =>
      Ok(FetchNewsOutput(SourceCode, Some(res.articleId), res.link, res.title, res.description, None, res.imageUrl, t))
  }

  /** Maps the results of a page in order; the first failing result fails the page. */
  function MapResults(results: seq<N.NewsResponseResult>, cal: N.Calendar)
    : (r: Result<seq<FetchNewsOutput>, N.FetchError>)
    ensures r.Ok? <==> forall i :: 0 <= i < |results| ==> MapResult(results[i], cal).Ok?
    ensures r.Ok? ==>
      |r.value| == |results| &&
      forall i :: 0 <= i < |results| ==> r.value[i] == MapResult(results[i], cal).value
  {
    if |results| == 0 then Ok([])
    else
      match MapResult(results[0], cal)
      case Err(e) => Err(e)
      case Ok(o) =>
        assert forall i :: 1 <= i < |results| ==> results[i] == results[1..][i - 1];
        match MapResults(results[1..], cal)
        case Err(e) => Err(e)
        case Ok(rest) => Ok([o] + rest)
  }

  /** The canned result with the given id: only the id and the image URL are set. */
  function StubResult(id: string): N.NewsResponseResult
  {
    N.NewsResponseResult(id, None, None, None, Some(id), None, None)
  }

  /** The canned response: 10 results in all, three of them here, and a further (empty) cursor. */
  const StubResponse: N.NewsResponse :=
    N.NewsResponse(10, [StubResult("1"), StubResult("2"), StubResult("3")], Some(""))

  /**
   * `fetch_page` of this fetcher: it ignores the cursor and maps the canned response,
   * which carries no dates and so can never fail.
   */
  function FetchPage(page: Option<string>, cal: N.Calendar): (r: Result<Page, N.FetchError>)
    ensures r.Ok?
    ensures r.value.totalResults == 10 && r.value.nextPage == Some("")
    ensures |r.value.output| == 3
    ensures forall i :: 0 <= i < 3 ==>
      r.value.output[i].id == Some(["123"[i]]) && r.value.output[i].imageUrl == Some(["123"[i]]) &&
      r.value.output[i].publishedTime == None
  {
    match MapResults(StubResponse.results, cal)
    case Err(e) => Err(e)
    case Ok(output) => Ok(Page(StubResponse.totalResults, output, StubResponse.nextPage))
  }

  // ---------------------------------------------------------------------------
  // The pagination loop
  // ---------------------------------------------------------------------------

  /** Why the loop ended. `RemainingUnderflow` is the panic of the unsigned subtraction. */
  datatype Stop =
    | PageLimitReached
    | NothingRemaining
    | NoNextPage
    | FetchFailed
    | AnswersExhausted
    | RemainingUnderflow

  /** A finished run; `remaining` is the estimate when it ended (before the failed subtraction on underflow). */
  datatype Run = Run(requests: seq<Option<string>>, outputs: seq<FetchNewsOutput>, remaining: Option<u16>, stop: Stop)

  /** The test at the top of each iteration; `<= 0` on an unsigned count. */
  predicate ShouldStop(limit: Option<u16>, pageCount: nat, remaining: Option<u16>)
  {
    match limit
    case Some(n) => pageCount >= n
    case None => remaining.Some? && remaining.value <= 0
  }

  /** The estimate a page is subtracted from: the current one, or the page's own total on the first page. */
  function Base(remaining: Option<u16>, p: Page): u16
  {
    match remaining case Some(n) => n case None => p.totalResults
  }

  /** The page size after the cast to `u16`. */
  function Taken(p: Page): (t: u16)
    ensures t <= |p.output|
    ensures |p.output| < 0x1_0000 ==> t == |p.output|
  {
    |p.output| % 0x1_0000
  }

  /** The loop of `fetch_news`; `outcomes[k]` is what the k-th call of `fetch_page` returns. */
  function Loop(limit: Option<u16>, outcomes: seq<Result<Page, N.FetchError>>, pageCount: nat,
                remaining: Option<u16>, page: Option<string>,
                requests: seq<Option<string>>, outputs: seq<FetchNewsOutput>): (r: Run)
    requires |requests| == pageCount
    ensures |requests| <= |r.requests| <= |requests| + (if pageCount <= |outcomes| then |outcomes| - pageCount else 0)
    ensures limit.Some? && pageCount <= limit.value ==> |r.requests| <= limit.value
    ensures r.stop == NothingRemaining ==> limit.None? && r.remaining == Some(0)
    ensures r.stop == RemainingUnderflow ==>
      var last := |r.requests| - 1;
      last >= pageCount && outcomes[last].Ok? && Taken(outcomes[last].value) > Base(r.remaining, outcomes[last].value)
    decreases |outcomes| - pageCount
  {
    if ShouldStop(limit, pageCount, remaining) then
      Run(requests, outputs, remaining, if limit.Some? then PageLimitReached else NothingRemaining)
    else if pageCount >= |outcomes| then
      Run(requests, outputs, remaining, AnswersExhausted)
    else
      var requests' := requests + [page];
      match outcomes[pageCount]
      case Err(_) => Run(requests', outputs, remaining, FetchFailed)
      case Ok(p) =>
        if Taken(p) > Base(remaining, p) then
          Run(requests', outputs, remaining, RemainingUnderflow)
        else
          var remaining' := Base(remaining, p) - Taken(p);
          var outputs' := outputs + p.output;
          match p.nextPage
          case None => Run(requests', outputs', Some(remaining'), NoNextPage)
          case Some(next) => Loop(limit, outcomes, pageCount + 1, Some(remaining'), Some(next), requests', outputs')
  }

  /** `fetch_news` over a given sequence of `fetch_page` outcomes. */
  function Paginate(limit: Option<u16>, outcomes: seq<Result<Page, N.FetchError>>): (r: Run)
    ensures |r.requests| <= |outcomes|
    ensures limit.Some? ==> |r.requests| <= limit.value
    ensures r.stop == NothingRemaining ==> r.remaining == Some(0)
  {
    Loop(limit, outcomes, 0, None, None, [], [])
  }

  /** The answers of the canned page fetch, `fuel` times over (the cursor is ignored, so any will do). */
  function StubOutcomes(cal: N.Calendar, fuel: nat): (r: seq<Result<Page, N.FetchError>>)
    ensures |r| == fuel && forall k :: 0 <= k < fuel ==> r[k] == FetchPage(None, cal)
  {
    seq(fuel, _ => FetchPage(None, cal))
  }

  /** The canned page ignores the cursor it is asked for. */
  lemma FetchPageIgnoresCursor(page: Option<string>, cal: N.Calendar)
    ensures FetchPage(page, cal) == FetchPage(None, cal)
  {
  }

  /**
   * The shape of every run over the canned page: neither the estimate (it never reaches
   * exactly zero) nor the cursor (there is always a next one) ends it, only the page
   * limit, the underflow panic at an estimate of 1, or the end of the supplied pages;
   * every page fetched without a panic dispatches its three outputs.
   */
  ghost predicate StubRunShape(r: Run)
  {
    && (r.stop == PageLimitReached || r.stop == RemainingUnderflow || r.stop == AnswersExhausted)
    && (r.stop == RemainingUnderflow ==>
          r.remaining == Some(1) && |r.requests| > 0 && |r.outputs| == 3 * (|r.requests| - 1))
    && (r.stop != RemainingUnderflow ==> |r.outputs| == 3 * |r.requests|)
  }

  /** Every supplied canned page is fetched successfully: total 10, three outputs, a next cursor. */
  lemma StubPageFacts(cal: N.Calendar, fuel: nat, k: nat)
    requires k < fuel
    ensures var outcome := StubOutcomes(cal, fuel)[k];
      outcome.Ok? && Taken(outcome.value) == 3 && |outcome.value.output| == 3 &&
      outcome.value.totalResults == 10 && outcome.value.nextPage == Some("")
  {
  }

  /** Every page is the canned one as far as the loop can tell: total 10, three outputs, a next cursor. */
  ghost predicate AllCanned(outcomes: seq<Result<Page, N.FetchError>>)
  {
    forall k :: 0 <= k < |outcomes| ==>
      outcomes[k].Ok? && Taken(outcomes[k].value) == 3 && |outcomes[k].value.output| == 3 &&
      outcomes[k].value.totalResults == 10 && outcomes[k].value.nextPage.Some?
  }

  /** The state after `pageCount` canned pages: one request and three outputs each, and an estimate of `10 - 3 * pageCount`. */
  predicate CannedState(pageCount: nat, remaining: Option<u16>, requests: seq<Option<string>>, outputs: seq<FetchNewsOutput>)
  {
    && |requests| == pageCount
    && |outputs| == 3 * pageCount
    && (pageCount == 0 ==> remaining.None?)
    && (pageCount > 0 ==> remaining.Some? && remaining.value as int == 10 - 3 * pageCount)
  }

  /** A canned run that stops at the top of an iteration, runs out of pages or underflows has the shape `StubRunShape` describes. */
  lemma StubEndShape(limit: Option<u16>, outcomes: seq<Result<Page, N.FetchError>>, pageCount: nat,
                     remaining: Option<u16>, page: Option<string>,
                     requests: seq<Option<string>>, outputs: seq<FetchNewsOutput>)
    requires AllCanned(outcomes) && CannedState(pageCount, remaining, requests, outputs)
    requires ShouldStop(limit, pageCount, remaining) || pageCount >= |outcomes| ||
             Taken(outcomes[pageCount].value) > Base(remaining, outcomes[pageCount].value)
    ensures StubRunShape(Loop(limit, outcomes, pageCount, remaining, page, requests, outputs))
  {
    if ShouldStop(limit, pageCount, remaining) {
      assert limit.Some?;
    } else if pageCount < |outcomes| {
      assert remaining == Some(1);
    }
  }

  /** One more canned page keeps the state canned. */
  lemma CannedStep(outcomes: seq<Result<Page, N.FetchError>>, pageCount: nat, remaining: Option<u16>,
                   requests: seq<Option<string>>, outputs: seq<FetchNewsOutput>, page: Option<string>, p: Page)
    requires AllCanned(outcomes) && CannedState(pageCount, remaining, requests, outputs)
    requires pageCount < |outcomes| && outcomes[pageCount] == Ok(p) && Taken(p) <= Base(remaining, p)
    ensures CannedState(pageCount + 1, Some(Base(remaining, p) - Taken(p)), requests + [page], outputs + p.output)
  {
  }

  /**
   * Over canned pages the estimate after `k` pages is `10 - 3 * k` (7, 4, 1), so it never
   * reaches exactly zero: from any such state the run has the shape `StubRunShape` describes.
   */
  lemma {:induction false} StubLoopShape(limit: Option<u16>, outcomes: seq<Result<Page, N.FetchError>>, pageCount: nat,
                                         remaining: Option<u16>, page: Option<string>,
                                         requests: seq<Option<string>>, outputs: seq<FetchNewsOutput>)
    requires AllCanned(outcomes) && CannedState(pageCount, remaining, requests, outputs)
    ensures StubRunShape(Loop(limit, outcomes, pageCount, remaining, page, requests, outputs))
    decreases |outcomes| - pageCount
  {
    if ShouldStop(limit, pageCount, remaining) || pageCount >= |outcomes| ||
       Taken(outcomes[pageCount].value) > Base(remaining, outcomes[pageCount].value) {
      StubEndShape(limit, outcomes, pageCount, remaining, page, requests, outputs);
    } else {
      var p := outcomes[pageCount].value;
      var remaining' := Some(Base(remaining, p) - Taken(p));
      CannedStep(outcomes, pageCount, remaining, requests, outputs, page, p);
      LegacyStep(limit, outcomes, pageCount, remaining, page, requests, outputs, p);
      StubLoopShape(limit, outcomes, pageCount + 1, remaining', p.nextPage, requests + [page], outputs + p.output);
    }
  }

  /** `fetch_news` of this fetcher as written: the canned page, fetched until the loop stops. */
  function FetchNews(limit: Option<u16>, cal: N.Calendar, fuel: nat): (r: Run)
    ensures r.stop == PageLimitReached || r.stop == RemainingUnderflow || r.stop == AnswersExhausted
    ensures r.stop == RemainingUnderflow ==>
      r.remaining == Some(1) && |r.requests| > 0 && |r.outputs| == 3 * (|r.requests| - 1)
    ensures r.stop != RemainingUnderflow ==> |r.outputs| == 3 * |r.requests|
  {
    var outcomes := StubOutcomes(cal, fuel);
    forall k | 0 <= k < fuel
      ensures outcomes[k].Ok? && Taken(outcomes[k].value) == 3 && |outcomes[k].value.output| == 3 &&
              outcomes[k].value.totalResults == 10 && outcomes[k].value.nextPage.Some?
    {
      StubPageFacts(cal, fuel, k);
    }
    StubLoopShape(limit, outcomes, 0, None, None, [], []);
    Paginate(limit, outcomes)
  }

  /**
   * The canned page with no page limit (or a limit of four or more): the estimate goes
   * 10, 7, 4, 1, and the fourth page's `1 - 3` underflows before its outputs are dispatched.
   */
  lemma StubRunUnderflowsOnFourthPage(limit: Option<u16>, cal: N.Calendar, fuel: nat)
    requires fuel >= 4
    requires limit.None? || limit.value >= 4
    ensures FetchNews(limit, cal, fuel).stop == RemainingUnderflow
    ensures |FetchNews(limit, cal, fuel).requests| == 4
    ensures |FetchNews(limit, cal, fuel).outputs| == 9
    ensures FetchNews(limit, cal, fuel).remaining == Some(1)
  {
    var outcomes := StubOutcomes(cal, fuel);
    var p := FetchPage(None, cal).value;
    var r1 := [None];
    var r2 := r1 + [Some("")];
    var r3 := r2 + [Some("")];
    var o1 := p.output;
    var o2 := o1 + p.output;
    var o3 := o2 + p.output;
    assert [] + [None] == r1;
    assert [] + p.output == o1;
    assert forall k :: 0 <= k < fuel ==> outcomes[k] == Ok(p);
    assert Taken(p) == 3 && p.totalResults == 10 && p.nextPage == Some("");
    calc {
      FetchNews(limit, cal, fuel);
      Loop(limit, outcomes, 0, None, None, [], []);
      Loop(limit, outcomes, 1, Some(7), Some(""), r1, o1);
      Loop(limit, outcomes, 2, Some(4), Some(""), r2, o2);
      Loop(limit, outcomes, 3, Some(1), Some(""), r3, o3);
      Run(r3 + [Some("")], o3, Some(1), RemainingUnderflow);
    }
  }

  /** The canned page with a page limit of at most three: exactly that many pages, three outputs each. */
  lemma StubRunWithinLimit(n: u16, cal: N.Calendar, fuel: nat)
    requires n <= 3 && fuel >= n
    ensures FetchNews(Some(n), cal, fuel).stop == PageLimitReached
    ensures |FetchNews(Some(n), cal, fuel).requests| == n
    ensures |FetchNews(Some(n), cal, fuel).outputs| == 3 * n
  {
    var outcomes := StubOutcomes(cal, fuel);
    var p := FetchPage(None, cal).value;
    var r1 := [None];
    var r2 := r1 + [Some("")];
    var r3 := r2 + [Some("")];
    var o1 := p.output;
    var o2 := o1 + p.output;
    var o3 := o2 + p.output;
    assert [] + [None] == r1;
    assert [] + p.output == o1;
    assert forall k :: 0 <= k < fuel ==> outcomes[k] == Ok(p);
    assert Taken(p) == 3 && p.totalResults == 10 && p.nextPage == Some("");
    if n > 0 {
      assert Loop(Some(n), outcomes, 0, None, None, [], []) == Loop(Some(n), outcomes, 1, Some(7), Some(""), r1, o1);
    }
    if n > 1 {
      assert Loop(Some(n), outcomes, 1, Some(7), Some(""), r1, o1) == Loop(Some(n), outcomes, 2, Some(4), Some(""), r2, o2);
    }
    if n > 2 {
      assert Loop(Some(n), outcomes, 2, Some(4), Some(""), r2, o2) == Loop(Some(n), outcomes, 3, Some(1), Some(""), r3, o3);
    }
  }

  /** Under a page limit only the page count stops the loop, whatever the estimate. */
  lemma LimitAloneStops(limit: u16, pageCount: nat, remaining: Option<u16>)
    ensures ShouldStop(Some(limit), pageCount, remaining) <==> pageCount >= limit
    ensures ShouldStop(Some(limit), pageCount, remaining) == ShouldStop(Some(limit), pageCount, None)
  {
  }

  /** Without a page limit an unsigned estimate can only stop the loop by reaching exactly zero. */
  lemma UnsignedStopMeansZero(remaining: Option<u16>, pageCount: nat)
    ensures ShouldStop(None, pageCount, remaining) <==> remaining == Some(0)
  {
  }

  // ---------------------------------------------------------------------------
  // Agreement with the newer fetcher
  // ---------------------------------------------------------------------------

  /** The newer port record carrying the same fields. */
  function AsArticle(o: FetchNewsOutput): P.FetchNewsArticle
  {
    P.FetchNewsArticle(o.sourceCode, o.id, o.link, o.title, o.shortText, o.longText, o.imageUrl, o.publishedTime)
  }

  function AsArticles(os: seq<FetchNewsOutput>): (r: seq<P.FetchNewsArticle>)
    ensures |r| == |os| && forall i :: 0 <= i < |os| ==> r[i] == AsArticle(os[i])
  {
    seq(|os|, i requires 0 <= i < |os| => AsArticle(os[i]))
  }

  /** A page of the newer fetcher with the same contents. */
  function AsNewerPage(outcome: Result<Page, N.FetchError>): Result<N.Page, N.FetchError>
  {
    match outcome
    case Err(e) => Err(e)
    case Ok(p) => Ok(N.Page(p.totalResults, AsArticles(p.output), p.nextPage))
  }

  function AsNewerPages(outcomes: seq<Result<Page, N.FetchError>>): (r: seq<Result<N.Page, N.FetchError>>)
    ensures |r| == |outcomes| && forall k :: 0 <= k < |outcomes| ==> r[k] == AsNewerPage(outcomes[k])
  {
    seq(|outcomes|, k requires 0 <= k < |outcomes| => AsNewerPage(outcomes[k]))
  }

  /** Both fetchers map a result to the same fields, and fail on the same results with the same error. */
  lemma MappingsAgree(res: N.NewsResponseResult, cal: N.Calendar)
    ensures MapResult(res, cal).Ok? <==> N.MapResult(res, cal).Ok?
    ensures MapResult(res, cal).Ok? ==> AsArticle(MapResult(res, cal).value) == N.MapResult(res, cal).value
    ensures MapResult(res, cal).Err? ==> MapResult(res, cal).error == N.MapResult(res, cal).error
  {
  }

  /** Every fetched page is smaller than what a `u16` can count, so the cast loses nothing. */
  ghost predicate PagesFitU16(outcomes: seq<Result<Page, N.FetchError>>)
  {
    forall k :: 0 <= k < |outcomes| ==> outcomes[k].Ok? ==> |outcomes[k].value.output| < 0x1_0000
  }

  /** How the two fetchers' reasons for stopping correspond. */
  predicate SameStop(legacy: Stop, newer: N.Stop)
  {
    match legacy
    case PageLimitReached => newer == N.PageLimitReached
    case NothingRemaining => newer == N.NothingRemaining
    case NoNextPage => newer == N.NoNextPage
    case FetchFailed => newer.FetchFailed?
    case AnswersExhausted => newer == N.AnswersExhausted
    case RemainingUnderflow => false
  }

  /** The two runs agree, unless the older one underflowed. */
  ghost predicate RunsAgree(r: Run, s: N.Run)
  {
    r.stop != RemainingUnderflow ==>
      r.requests == s.requests && AsArticles(r.outputs) == s.outputs && SameStop(r.stop, s.stop)
  }

  /** The newer fetcher's estimate for an older one. */
  function Signed(remaining: Option<u16>): Option<int>
  {
    match remaining case Some(n) => Some(n as int) case None => None
  }

  /** One iteration of the older loop that goes on to a next page. */
  lemma LegacyStep(limit: Option<u16>, outcomes: seq<Result<Page, N.FetchError>>, pageCount: nat,
                   remaining: Option<u16>, page: Option<string>,
                   requests: seq<Option<string>>, outputs: seq<FetchNewsOutput>, p: Page)
    requires |requests| == pageCount
    requires !ShouldStop(limit, pageCount, remaining) && pageCount < |outcomes|
    requires outcomes[pageCount] == Ok(p) && Taken(p) <= Base(remaining, p) && p.nextPage.Some?
    ensures Loop(limit, outcomes, pageCount, remaining, page, requests, outputs)
         == Loop(limit, outcomes, pageCount + 1, Some(Base(remaining, p) - Taken(p)), p.nextPage, requests + [page], outputs + p.output)
  {
  }

  /** The matching iteration of the newer loop. */
  lemma NewerStep(limit: Option<u16>, outcomes: seq<Result<Page, N.FetchError>>, pageCount: nat,
                  remaining: Option<u16>, page: Option<string>,
                  requests: seq<Option<string>>, outputs: seq<FetchNewsOutput>, p: Page)
    requires PagesFitU16(outcomes)
    requires !ShouldStop(limit, pageCount, remaining) && pageCount < |outcomes|
    requires outcomes[pageCount] == Ok(p) && Taken(p) <= Base(remaining, p) && p.nextPage.Some?
    ensures N.Loop(limit, AsNewerPages(outcomes), pageCount, Signed(remaining), page, requests, AsArticles(outputs))
         == N.Loop(limit, AsNewerPages(outcomes), pageCount + 1, Signed(Some(Base(remaining, p) - Taken(p))), p.nextPage,
                   requests + [page], AsArticles(outputs + p.output))
  {
    var newer := AsNewerPages(outcomes);
    var q := newer[pageCount].value;
    assert q.articles == AsArticles(p.output);
    assert |q.articles| == Taken(p);
    assert N.ShouldStop(limit, pageCount, Signed(remaining)) == ShouldStop(limit, pageCount, remaining);
    assert AsArticles(outputs + p.output) == AsArticles(outputs) + q.articles;
  }

  /** A step that ends either loop ends both the same way, unless the older one underflows. */
  lemma LastStepsAgree(limit: Option<u16>, outcomes: seq<Result<Page, N.FetchError>>, pageCount: nat,
                       remaining: Option<u16>, page: Option<string>,
                       requests: seq<Option<string>>, outputs: seq<FetchNewsOutput>)
    requires |requests| == pageCount
    requires PagesFitU16(outcomes)
    requires ShouldStop(limit, pageCount, remaining) || pageCount >= |outcomes| || outcomes[pageCount].Err?
             || outcomes[pageCount].value.nextPage.None? || Taken(outcomes[pageCount].value) > Base(remaining, outcomes[pageCount].value)
    ensures RunsAgree(Loop(limit, outcomes, pageCount, remaining, page, requests, outputs),
                      N.Loop(limit, AsNewerPages(outcomes), pageCount, Signed(remaining), page, requests, AsArticles(outputs)))
  {
    assert N.ShouldStop(limit, pageCount, Signed(remaining)) == ShouldStop(limit, pageCount, remaining);
    if !ShouldStop(limit, pageCount, remaining) && pageCount < |outcomes| && outcomes[pageCount].Ok? {
      var p := outcomes[pageCount].value;
      assert AsArticles(outputs + p.output) == AsArticles(outputs) + AsArticles(p.output);
    }
  }

  /** From equal states the two loops agree, unless the older one underflows. */
  lemma {:induction false} LoopsAgree(limit: Option<u16>, outcomes: seq<Result<Page, N.FetchError>>, pageCount: nat,
                                      remaining: Option<u16>, page: Option<string>,
                                      requests: seq<Option<string>>, outputs: seq<FetchNewsOutput>)
    requires |requests| == pageCount
    requires PagesFitU16(outcomes)
    ensures RunsAgree(Loop(limit, outcomes, pageCount, remaining, page, requests, outputs),
                      N.Loop(limit, AsNewerPages(outcomes), pageCount, Signed(remaining), page, requests, AsArticles(outputs)))
    decreases |outcomes| - pageCount
  {
    if ShouldStop(limit, pageCount, remaining) || pageCount >= |outcomes| || outcomes[pageCount].Err?
       || outcomes[pageCount].value.nextPage.None? || Taken(outcomes[pageCount].value) > Base(remaining, outcomes[pageCount].value) {
      LastStepsAgree(limit, outcomes, pageCount, remaining, page, requests, outputs);
    } else {
      var p := outcomes[pageCount].value;
      LegacyStep(limit, outcomes, pageCount, remaining, page, requests, outputs, p);
      NewerStep(limit, outcomes, pageCount, remaining, page, requests, outputs, p);
      LoopsAgree(limit, outcomes, pageCount + 1, Some(Base(remaining, p) - Taken(p)), p.nextPage, requests + [page], outputs + p.output);
    }
  }

  /**
   * Unless the unsigned subtraction underflows, the older fetcher makes the same requests
   * and dispatches the same articles as the newer one, and stops for the same reason.
   */
  lemma LegacyAgreesWithoutUnderflow(limit: Option<u16>, outcomes: seq<Result<Page, N.FetchError>>)
    requires PagesFitU16(outcomes)
    ensures var r := Paginate(limit, outcomes);
      var s := N.Paginate(limit, AsNewerPages(outcomes));
      r.stop != RemainingUnderflow ==>
        r.requests == s.requests && AsArticles(r.outputs) == s.outputs && SameStop(r.stop, s.stop)
  {
    assert AsArticles([]) == [];
    LoopsAgree(limit, outcomes, 0, None, None, [], []);
  }

  /**
   * The newer fetcher's estimate after fetch `k` is negative: that fetch succeeded and the
   * first page's total is smaller than everything dispatched up to and including it.
   */
  ghost predicate NegativeAfter(newer: seq<Result<N.Page, N.FetchError>>, k: nat)
    requires k < |newer|
  {
    newer[k].Ok? && N.RemainingBefore(newer, k + 1).Some? && N.RemainingBefore(newer, k + 1).value < 0
  }

  /**
   * How an older run `r` relates to the newer run `s` over the same pages: it underflows
   * exactly when some fetch of `s` leaves the signed estimate negative; it then stops at
   * the first such fetch, having sent the same requests up to it and dispatched the
   * articles of the pages before it, but not that page's.
   */
  ghost predicate UnderflowMatches(newer: seq<Result<N.Page, N.FetchError>>, r: Run, s: N.Run)
  {
    && (r.stop == RemainingUnderflow <==>
          exists k :: 0 <= k < |s.requests| && k < |newer| && NegativeAfter(newer, k))
    && (r.stop == RemainingUnderflow ==>
          var n := |r.requests|;
          && 0 < n <= |s.requests| && n <= |newer|
          && r.requests == s.requests[..n]
          && AsArticles(r.outputs) == N.Dispatched(newer, n - 1)
          && NegativeAfter(newer, n - 1)
          && (forall k :: 0 <= k < n - 1 ==> !NegativeAfter(newer, k)))
  }

  /**
   * A state both loops reach alike: the older one's requests and (converted) outputs are
   * those of the newer one, which has reached this page as its reference description
   * says, and no page fetched so far left the newer estimate negative.
   */
  ghost predicate Alike(limit: Option<u16>, outcomes: seq<Result<Page, N.FetchError>>, pageCount: nat,
                        remaining: Option<u16>, page: Option<string>,
                        requests: seq<Option<string>>, outputs: seq<FetchNewsOutput>)
  {
    && |requests| == pageCount
    && PagesFitU16(outcomes)
    && N.Reached(limit, AsNewerPages(outcomes), pageCount, Signed(remaining), page, requests, AsArticles(outputs))
    && (forall k :: 0 <= k < pageCount ==> !NegativeAfter(AsNewerPages(outcomes), k))
  }

  /** The older loop fetches page `pageCount`, subtracts it without underflow and goes on to a next page. */
  predicate GoesOn(limit: Option<u16>, outcomes: seq<Result<Page, N.FetchError>>, pageCount: nat, remaining: Option<u16>)
  {
    && !ShouldStop(limit, pageCount, remaining)
    && pageCount < |outcomes|
    && outcomes[pageCount].Ok?
    && outcomes[pageCount].value.nextPage.Some?
    && Taken(outcomes[pageCount].value) <= Base(remaining, outcomes[pageCount].value)
  }

  /** A run that stops at the top of an iteration, or for lack of pages, has no underflow and no negative estimate. */
  lemma StopUnderflowStep(limit: Option<u16>, outcomes: seq<Result<Page, N.FetchError>>, pageCount: nat,
                          remaining: Option<u16>, page: Option<string>,
                          requests: seq<Option<string>>, outputs: seq<FetchNewsOutput>)
    requires |requests| == pageCount <= |outcomes|
    requires forall k :: 0 <= k < pageCount ==> !NegativeAfter(AsNewerPages(outcomes), k)
    requires ShouldStop(limit, pageCount, remaining) || pageCount >= |outcomes|
    ensures UnderflowMatches(AsNewerPages(outcomes),
                             Loop(limit, outcomes, pageCount, remaining, page, requests, outputs),
                             N.Loop(limit, AsNewerPages(outcomes), pageCount, Signed(remaining), page, requests, AsArticles(outputs)))
  {
    assert N.ShouldStop(limit, pageCount, Signed(remaining)) == ShouldStop(limit, pageCount, remaining);
  }

  /** A fetch that fails, or a page without a next cursor that fits the estimate, ends both runs with no underflow. */
  lemma EndUnderflowStep(limit: Option<u16>, outcomes: seq<Result<Page, N.FetchError>>, pageCount: nat,
                         remaining: Option<u16>, page: Option<string>,
                         requests: seq<Option<string>>, outputs: seq<FetchNewsOutput>)
    requires |requests| == pageCount
    requires PagesFitU16(outcomes)
    requires N.Reached(limit, AsNewerPages(outcomes), pageCount, Signed(remaining), page, requests, AsArticles(outputs))
    requires forall k :: 0 <= k < pageCount ==> !NegativeAfter(AsNewerPages(outcomes), k)
    requires !ShouldStop(limit, pageCount, remaining) && pageCount < |outcomes|
    requires outcomes[pageCount].Err? ||
             (outcomes[pageCount].value.nextPage.None? && Taken(outcomes[pageCount].value) <= Base(remaining, outcomes[pageCount].value))
    ensures UnderflowMatches(AsNewerPages(outcomes),
                             Loop(limit, outcomes, pageCount, remaining, page, requests, outputs),
                             N.Loop(limit, AsNewerPages(outcomes), pageCount, Signed(remaining), page, requests, AsArticles(outputs)))
  {
    var newer := AsNewerPages(outcomes);
    assert N.ShouldStop(limit, pageCount, Signed(remaining)) == ShouldStop(limit, pageCount, remaining);
    if outcomes[pageCount].Ok? {
      NegativeExactlyWhenUnderflow(limit, outcomes, pageCount, remaining, page, requests, outputs);
    }
    assert !NegativeAfter(newer, pageCount);
    var r := Loop(limit, outcomes, pageCount, remaining, page, requests, outputs);
    var s := N.Loop(limit, newer, pageCount, Signed(remaining), page, requests, AsArticles(outputs));
    assert r.stop != RemainingUnderflow;
    assert |s.requests| == pageCount + 1;
    assert forall k :: 0 <= k < |s.requests| ==> !NegativeAfter(newer, k);
  }

  /**
   * After a successful fetch from a state both loops reached alike, the newer estimate is
   * negative exactly when the older subtraction underflows.
   */
  lemma NegativeExactlyWhenUnderflow(limit: Option<u16>, outcomes: seq<Result<Page, N.FetchError>>, pageCount: nat,
                                     remaining: Option<u16>, page: Option<string>,
                                     requests: seq<Option<string>>, outputs: seq<FetchNewsOutput>)
    requires PagesFitU16(outcomes)
    requires N.Reached(limit, AsNewerPages(outcomes), pageCount, Signed(remaining), page, requests, AsArticles(outputs))
    requires pageCount < |outcomes| && outcomes[pageCount].Ok?
    ensures NegativeAfter(AsNewerPages(outcomes), pageCount)
        <==> Taken(outcomes[pageCount].value) > Base(remaining, outcomes[pageCount].value)
  {
    var newer := AsNewerPages(outcomes);
    var p := outcomes[pageCount].value;
    var q := newer[pageCount].value;
    assert |q.articles| == Taken(p) && q.totalResults == p.totalResults;
    if pageCount > 0 {
      assert N.Continued(newer, 0);
    }
    N.EstimateAfterPage(newer, pageCount, q);
  }

  /** A page larger than the estimate: the older run underflows exactly where the newer estimate first goes negative. */
  lemma UnderflowStep(limit: Option<u16>, outcomes: seq<Result<Page, N.FetchError>>, pageCount: nat,
                      remaining: Option<u16>, page: Option<string>,
                      requests: seq<Option<string>>, outputs: seq<FetchNewsOutput>)
    requires |requests| == pageCount
    requires PagesFitU16(outcomes)
    requires N.Reached(limit, AsNewerPages(outcomes), pageCount, Signed(remaining), page, requests, AsArticles(outputs))
    requires forall k :: 0 <= k < pageCount ==> !NegativeAfter(AsNewerPages(outcomes), k)
    requires !ShouldStop(limit, pageCount, remaining) && pageCount < |outcomes| && outcomes[pageCount].Ok?
    requires Taken(outcomes[pageCount].value) > Base(remaining, outcomes[pageCount].value)
    ensures UnderflowMatches(AsNewerPages(outcomes),
                             Loop(limit, outcomes, pageCount, remaining, page, requests, outputs),
                             N.Loop(limit, AsNewerPages(outcomes), pageCount, Signed(remaining), page, requests, AsArticles(outputs)))
  {
    var newer := AsNewerPages(outcomes);
    var s := N.Loop(limit, newer, pageCount, Signed(remaining), page, requests, AsArticles(outputs));
    var r := Loop(limit, outcomes, pageCount, remaining, page, requests, outputs);
    NegativeExactlyWhenUnderflow(limit, outcomes, pageCount, remaining, page, requests, outputs);
    assert N.ShouldStop(limit, pageCount, Signed(remaining)) == ShouldStop(limit, pageCount, remaining);
    N.FetchExtendsRequests(limit, newer, pageCount, Signed(remaining), page, requests, AsArticles(outputs));
    assert r == Run(requests + [page], outputs, remaining, RemainingUnderflow);
    assert r.requests == s.requests[..pageCount + 1];
    UnderflowMatchesAt(newer, r, s, pageCount + 1);
  }

  /** The facts `UnderflowMatches` asks of a run that underflows at fetch `n - 1`. */
  lemma UnderflowMatchesAt(newer: seq<Result<N.Page, N.FetchError>>, r: Run, s: N.Run, n: nat)
    requires r.stop == RemainingUnderflow && |r.requests| == n
    requires 0 < n <= |s.requests| && n <= |newer|
    requires r.requests == s.requests[..n]
    requires AsArticles(r.outputs) == N.Dispatched(newer, n - 1)
    requires NegativeAfter(newer, n - 1)
    requires forall k :: 0 <= k < n - 1 ==> !NegativeAfter(newer, k)
    ensures UnderflowMatches(newer, r, s)
  {
  }

  /** An iteration that ends the older run relates it to the newer one as `UnderflowMatches` says. */
  lemma LastUnderflowStep(limit: Option<u16>, outcomes: seq<Result<Page, N.FetchError>>, pageCount: nat,
                          remaining: Option<u16>, page: Option<string>,
                          requests: seq<Option<string>>, outputs: seq<FetchNewsOutput>)
    requires Alike(limit, outcomes, pageCount, remaining, page, requests, outputs)
    requires !GoesOn(limit, outcomes, pageCount, remaining)
    ensures UnderflowMatches(AsNewerPages(outcomes),
                             Loop(limit, outcomes, pageCount, remaining, page, requests, outputs),
                             N.Loop(limit, AsNewerPages(outcomes), pageCount, Signed(remaining), page, requests, AsArticles(outputs)))
  {
    if ShouldStop(limit, pageCount, remaining) || pageCount >= |outcomes| {
      StopUnderflowStep(limit, outcomes, pageCount, remaining, page, requests, outputs);
    } else if outcomes[pageCount].Ok? && Taken(outcomes[pageCount].value) > Base(remaining, outcomes[pageCount].value) {
      UnderflowStep(limit, outcomes, pageCount, remaining, page, requests, outputs);
    } else {
      EndUnderflowStep(limit, outcomes, pageCount, remaining, page, requests, outputs);
    }
  }

  /** An iteration that goes on leads to a state both loops reach alike. */
  lemma AlikeAfterPage(limit: Option<u16>, outcomes: seq<Result<Page, N.FetchError>>, pageCount: nat,
                       remaining: Option<u16>, page: Option<string>,
                       requests: seq<Option<string>>, outputs: seq<FetchNewsOutput>)
    requires Alike(limit, outcomes, pageCount, remaining, page, requests, outputs)
    requires GoesOn(limit, outcomes, pageCount, remaining)
    ensures var p := outcomes[pageCount].value;
      Alike(limit, outcomes, pageCount + 1, Some(Base(remaining, p) - Taken(p)), p.nextPage,
            requests + [page], outputs + p.output)
  {
    var newer := AsNewerPages(outcomes);
    var p := outcomes[pageCount].value;
    var q := newer[pageCount].value;
    assert N.ShouldStop(limit, pageCount, Signed(remaining)) == ShouldStop(limit, pageCount, remaining);
    assert |q.articles| == Taken(p) && q.totalResults == p.totalResults;
    assert AsArticles(outputs + p.output) == AsArticles(outputs) + q.articles;
    NegativeExactlyWhenUnderflow(limit, outcomes, pageCount, remaining, page, requests, outputs);
    N.ReachedAfterPage(limit, newer, pageCount, Signed(remaining), page, requests, AsArticles(outputs), q);
  }

  /** An iteration that goes on takes both loops one step, to the states `AlikeAfterPage` describes. */
  lemma BothSteps(limit: Option<u16>, outcomes: seq<Result<Page, N.FetchError>>, pageCount: nat,
                  remaining: Option<u16>, page: Option<string>,
                  requests: seq<Option<string>>, outputs: seq<FetchNewsOutput>)
    requires Alike(limit, outcomes, pageCount, remaining, page, requests, outputs)
    requires GoesOn(limit, outcomes, pageCount, remaining)
    ensures var p := outcomes[pageCount].value;
      var remaining': Option<u16> := Some(Base(remaining, p) - Taken(p));
      && Loop(limit, outcomes, pageCount, remaining, page, requests, outputs)
         == Loop(limit, outcomes, pageCount + 1, remaining', p.nextPage, requests + [page], outputs + p.output)
      && N.Loop(limit, AsNewerPages(outcomes), pageCount, Signed(remaining), page, requests, AsArticles(outputs))
         == N.Loop(limit, AsNewerPages(outcomes), pageCount + 1, Signed(remaining'), p.nextPage,
                   requests + [page], AsArticles(outputs + p.output))
  {
    var p := outcomes[pageCount].value;
    LegacyStep(limit, outcomes, pageCount, remaining, page, requests, outputs, p);
    NewerStep(limit, outcomes, pageCount, remaining, page, requests, outputs, p);
  }

  /** From a state both loops reached alike, the older run relates to the newer one as `UnderflowMatches` says. */
  lemma {:induction false} UnderflowLoop(limit: Option<u16>, outcomes: seq<Result<Page, N.FetchError>>, pageCount: nat,
                                         remaining: Option<u16>, page: Option<string>,
                                         requests: seq<Option<string>>, outputs: seq<FetchNewsOutput>)
    requires Alike(limit, outcomes, pageCount, remaining, page, requests, outputs)
    ensures UnderflowMatches(AsNewerPages(outcomes),
                             Loop(limit, outcomes, pageCount, remaining, page, requests, outputs),
                             N.Loop(limit, AsNewerPages(outcomes), pageCount, Signed(remaining), page, requests, AsArticles(outputs)))
    decreases |outcomes| - pageCount, 1
  {
    if !GoesOn(limit, outcomes, pageCount, remaining) {
      LastUnderflowStep(limit, outcomes, pageCount, remaining, page, requests, outputs);
    } else {
      UnderflowContinue(limit, outcomes, pageCount, remaining, page, requests, outputs);
    }
  }

  /** `UnderflowLoop` for an iteration that goes on: the runs are those of the next state. */
  lemma {:induction false} UnderflowContinue(limit: Option<u16>, outcomes: seq<Result<Page, N.FetchError>>, pageCount: nat,
                                             remaining: Option<u16>, page: Option<string>,
                                             requests: seq<Option<string>>, outputs: seq<FetchNewsOutput>)
    requires Alike(limit, outcomes, pageCount, remaining, page, requests, outputs)
    requires GoesOn(limit, outcomes, pageCount, remaining)
    ensures UnderflowMatches(AsNewerPages(outcomes),
                             Loop(limit, outcomes, pageCount, remaining, page, requests, outputs),
                             N.Loop(limit, AsNewerPages(outcomes), pageCount, Signed(remaining), page, requests, AsArticles(outputs)))
    decreases |outcomes| - pageCount, 0
  {
    var p := outcomes[pageCount].value;
    var remaining': Option<u16> := Some(Base(remaining, p) - Taken(p));
    AlikeAfterPage(limit, outcomes, pageCount, remaining, page, requests, outputs);
    BothSteps(limit, outcomes, pageCount, remaining, page, requests, outputs);
    UnderflowLoop(limit, outcomes, pageCount + 1, remaining', p.nextPage, requests + [page], outputs + p.output);
    UnderflowMatchesCarries(AsNewerPages(outcomes),
      Loop(limit, outcomes, pageCount, remaining, page, requests, outputs),
      Loop(limit, outcomes, pageCount + 1, remaining', p.nextPage, requests + [page], outputs + p.output),
      N.Loop(limit, AsNewerPages(outcomes), pageCount, Signed(remaining), page, requests, AsArticles(outputs)),
      N.Loop(limit, AsNewerPages(outcomes), pageCount + 1, Signed(remaining'), p.nextPage, requests + [page], AsArticles(outputs + p.output)));
  }

  /** `UnderflowMatches` carries over to runs equal to matching ones. */
  lemma UnderflowMatchesCarries(newer: seq<Result<N.Page, N.FetchError>>, r: Run, r': Run, s: N.Run, s': N.Run)
    requires r == r' && s == s' && UnderflowMatches(newer, r', s')
    ensures UnderflowMatches(newer, r, s)
  {
  }

  /**
   * The converse of `LegacyAgreesWithoutUnderflow`: the older fetcher underflows exactly
   * when the newer one, on the same pages, fetches a page that leaves its signed estimate
   * negative. It then panics at the first such page, after the same requests as the newer
   * fetcher and with the articles of the earlier pages dispatched, but not that page's.
   */
  lemma UnderflowExactlyWhenEstimateNegative(limit: Option<u16>, outcomes: seq<Result<Page, N.FetchError>>)
    requires PagesFitU16(outcomes)
    ensures var r := Paginate(limit, outcomes);
      var newer := AsNewerPages(outcomes);
      var s := N.Paginate(limit, newer);
      r.stop == RemainingUnderflow <==> exists k :: 0 <= k < |s.requests| && k < |newer| && NegativeAfter(newer, k)
    ensures var r := Paginate(limit, outcomes);
      var newer := AsNewerPages(outcomes);
      var s := N.Paginate(limit, newer);
      var n := |r.requests|;
      r.stop == RemainingUnderflow ==>
        && 0 < n <= |s.requests| && n <= |newer|
        && r.requests == s.requests[..n]
        && AsArticles(r.outputs) == N.Dispatched(newer, n - 1)
        && NegativeAfter(newer, n - 1)
        && (forall k :: 0 <= k < n - 1 ==> !NegativeAfter(newer, k))
  {
    var newer := AsNewerPages(outcomes);
    AlikeAtStart(limit, outcomes);
    UnderflowLoop(limit, outcomes, 0, None, None, [], []);
    assert UnderflowMatches(newer, Paginate(limit, outcomes), N.Paginate(limit, newer));
  }

  /** Both loops start alike. */
  lemma AlikeAtStart(limit: Option<u16>, outcomes: seq<Result<Page, N.FetchError>>)
    requires PagesFitU16(outcomes)
    ensures Alike(limit, outcomes, 0, None, None, [], [])
  {
    assert AsArticles([]) == [];
  }

  /** The newer fetcher on the canned page ends cleanly after four pages where this one panics. */
  lemma NewerFetcherStopsCleanlyOnStub(cal: N.Calendar, fuel: nat)
    requires fuel >= 4
    ensures N.Paginate(None, AsNewerPages(StubOutcomes(cal, fuel))).stop == N.NothingRemaining
    ensures |N.Paginate(None, AsNewerPages(StubOutcomes(cal, fuel))).outputs| == 12
  {
    N.TenByThreeStopsAfterFourPages(AsNewerPages(StubOutcomes(cal, fuel)));
  }
}
