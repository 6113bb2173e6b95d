# Chloria news collection and API authentication, modelled in Dafny

Chloria collects news articles from the NewsData provider. It hands each article's image to its
MinIO storage, whose upload here only checks that the origin bucket exists, and its API
authenticates clients by API key and secret. This project
models the core of that behaviour as pure functions and proves properties about them.

- **NewsData fetcher** (`newsdata.dfy`, module `Newsdata`):
  - mapping a provider response to articles, including resolving the publication time in the
    article's time zone;
  - the pagination loop of `fetch_news`. Its remaining-results estimate is a signed integer. It
    stops on a page limit, on an estimate at or below zero, on a missing next-page cursor, or on
    a failed fetch. Every article is handed to the handler in order.
- **Older NewsData fetcher** (`legacy_newsdata.dfy`, module `LegacyNewsdata`):
  - the same loop with an unsigned 16-bit estimate;
  - its canned page, which advertises 10 results, returns three and points to a further page;
  - a proof that, for pages of fewer than 65 536 outputs, it agrees with the newer loop
    whenever the unsigned subtraction does not underflow, and that it underflows exactly when
    the newer loop's signed estimate goes negative.
- **Domain entities** (`domain.dfy`): `FileEntity` and `NewsEntity`. When a key, creation time or
  id is missing, a random 16-character alphanumeric sample or the clock reading takes its place.
- **Save-news task** (`save_news.dfy`): download an article's image, if it has one, and upload it
  to the origin bucket as `<key>.jpg`.
- **MinIO storage** (`minio.dfy`): temporary credentials from the security token service,
  refreshed when they expire within a one-minute buffer, and a bucket check on each upload.
- **Authentication case** (`authenticate.dfy`): an unknown key, a wrong secret and a correct secret
  give three distinct verdicts. Collaborator failures are errors.

The boundaries of the model are parameters:
- HTTP answers, token-service answers and uploads are `Result` values;
- the repository lookup and the password check are functions;
- the calendar (time-zone and date parsing, and local-to-instant resolution) is a record of
  functions;
- the random samples are values of a subset type that allows exactly 16 alphanumeric
  characters;
- the clock is a `now` argument, an integer number of seconds.

A pagination run is driven by the sequence of `fetch_page` outcomes. Call `k` of the loop gets
outcome `k`. A run that needs more outcomes than the sequence holds stops with
`AnswersExhausted`.

Three behaviours of the code are worth stating plainly:
- A failed image download or a failed upload makes the save-news task fail
  (save_news.rs:43 and 53, both `?`). The article is not saved with "no image".
- `NewsEntity::new` keeps any supplied id, including `""`.
- The older fetcher's loop subtracts the page size from an unsigned 16-bit estimate
  unchecked. With overflow checks on (a debug build) an underflow panics. It is modelled as
  the stop `RemainingUnderflow`; see Findings.

## Model

| member | source | states |
|---|---|---|
| Domain.NewFileEntity | chloria-backend/chloria-job/src/domain/file.rs:12-17 | a supplied key and time are kept; a missing key becomes 16 alphanumeric characters, a missing time the clock reading |
| Domain.NewNewsEntity | chloria-backend/chloria-job/src/domain/news.rs:10-14 | a supplied id is kept unchanged; a missing id becomes 16 alphanumeric characters |
| Domain.ArticleIdEmptyOnlyWhenSuppliedEmpty | chloria-backend/chloria-job/src/domain/news.rs:10-14 | the entity's id is empty if and only if the empty string was supplied |
| Domain.FileKeyEmptyOnlyWhenSuppliedEmpty | chloria-backend/chloria-job/src/domain/file.rs:12-17 | the file key is empty if and only if the empty string was supplied |
| Newsdata.PublishedTime | chloria-backend/chloria-job/src/infrastructure/news_fetcher/newsdata.rs:60-73 | only a result with both a date and a zone gets a time; the zone is parsed first, so a bad zone is `MalformedZone` even when the date is bad too, and otherwise a bad date is `MalformedDate`; when both parse, the time is exactly what the local time resolves to in that zone, none when it has no single instant |
| Newsdata.MapResult | chloria-backend/chloria-job/src/infrastructure/news_fetcher/newsdata.rs:59-84 | a result maps unless it has both a date and a zone and one of them fails to parse, in which case the error is that parse error; the article carries the source name, the result's id, link, title, description as short text, no long text, the image URL and the resolved time |
| Newsdata.MapResults | chloria-backend/chloria-job/src/infrastructure/news_fetcher/newsdata.rs:58-84 | the page maps if and only if every result maps, in order and one article per result; otherwise the error is that of the first failing result |
| Newsdata.FetchPage | chloria-backend/chloria-job/src/infrastructure/news_fetcher/newsdata.rs:49-86 | transport and decoding errors pass through; a mapped page keeps the response's total and next cursor |
| Newsdata.ShouldStopCases | chloria-backend/chloria-job/src/infrastructure/news_fetcher/newsdata.rs:97-103 | with a page limit only the page index stops the loop, whatever the estimate; without one, an estimate at or below zero does, and no estimate (before the first page) never does |
| Newsdata.Loop | chloria-backend/chloria-job/src/infrastructure/news_fetcher/newsdata.rs:96-134 | each iteration makes at most one fetch, so the run makes no more fetches than it has outcomes; the loop only appends, never taking back a request or a dispatched article |
| Newsdata.Paginate | chloria-backend/chloria-job/src/infrastructure/news_fetcher/newsdata.rs:91-137 | a run starting with no cursor, no estimate and nothing dispatched makes at most one fetch per supplied outcome |
| Newsdata.FetchNews | chloria-backend/chloria-job/src/infrastructure/news_fetcher/newsdata.rs:91-137 | every article handed to the handler carries the NewsData source name, an id and no long text |
| Newsdata.ReachedAfterPage | chloria-backend/chloria-job/src/infrastructure/news_fetcher/newsdata.rs:115-128 | an iteration that goes on sends the reference cursor, dispatches the page's articles after the earlier ones, and leaves the estimate as the first total minus everything dispatched |
| Newsdata.EstimateAfterPage | chloria-backend/chloria-job/src/infrastructure/news_fetcher/newsdata.rs:115-120 | the estimate after a successful fetch is the one before it, or the page's own total on the first page, minus the page's articles |
| Newsdata.FetchExtendsRequests | chloria-backend/chloria-job/src/infrastructure/news_fetcher/newsdata.rs:106-128 | an iteration that fetches a page has sent its cursor after all earlier ones, whatever happens afterwards |
| Newsdata.StoppedCharacterized | chloria-backend/chloria-job/src/infrastructure/news_fetcher/newsdata.rs:96-105 | a stop at the top of an iteration matches the reference description of a run |
| Newsdata.LastFetchCharacterized | chloria-backend/chloria-job/src/infrastructure/news_fetcher/newsdata.rs:121-133 | a failed fetch, or a page without a next cursor, ends the run as the reference describes, with that page's articles dispatched |
| Newsdata.LoopCharacterized | chloria-backend/chloria-job/src/infrastructure/news_fetcher/newsdata.rs:96-134 | from any reachable state the loop ends in a run matching the reference description: cursors, dispatched articles in order, and the stop reason |
| Newsdata.PaginateCharacterized | chloria-backend/chloria-job/src/infrastructure/news_fetcher/newsdata.rs:91-137 | every run of `fetch_news` matches the reference description |
| Newsdata.DispatchedAreMapped | chloria-backend/chloria-job/src/infrastructure/news_fetcher/newsdata.rs:121-123 | when every successful page's articles carry the NewsData source name, an id and no long text, so does every dispatched article |
| Newsdata.PageLimitBoundsFetches | chloria-backend/chloria-job/src/infrastructure/news_fetcher/newsdata.rs:97-98 | a limit of n means at most n fetches, exactly n when the limit stops the run, and the estimate never stops it |
| Newsdata.ZeroLimitFetchesNothing | chloria-backend/chloria-job/src/infrastructure/news_fetcher/newsdata.rs:97-105 | a page limit of zero makes no fetch and dispatches nothing |
| Newsdata.LimitedRunIgnoresTotals | chloria-backend/chloria-job/src/infrastructure/news_fetcher/newsdata.rs:97-98 | with a page limit, the advertised totals do not affect the run |
| Newsdata.LimitedLoopIgnoresTotals | chloria-backend/chloria-job/src/infrastructure/news_fetcher/newsdata.rs:97-98 | the same from any loop state, whatever the estimate |
| Newsdata.LaterTotalsIgnored | chloria-backend/chloria-job/src/infrastructure/news_fetcher/newsdata.rs:115-120 | without a limit, only the first page's total is ever read |
| Newsdata.LaterLoopTotalsIgnored | chloria-backend/chloria-job/src/infrastructure/news_fetcher/newsdata.rs:115-120 | the same from any loop state after the first page |
| Newsdata.UnlimitedRunFetchesFirstPage | chloria-backend/chloria-job/src/infrastructure/news_fetcher/newsdata.rs:93-106 | without a limit the first page is always fetched, with no cursor |
| Newsdata.UnlimitedRunFollowsEstimate | chloria-backend/chloria-job/src/infrastructure/news_fetcher/newsdata.rs:99-120 | without a limit, every later fetch is made while the first total minus the articles dispatched so far is positive, and a run stopped by the estimate has dispatched at least the first total |
| Newsdata.CursorsFollowPages | chloria-backend/chloria-job/src/infrastructure/news_fetcher/newsdata.rs:124-127 | the first fetch has no cursor, and each later fetch uses the next cursor of the successful page before it |
| Newsdata.LastPageDispatchedThenStops | chloria-backend/chloria-job/src/infrastructure/news_fetcher/newsdata.rs:121-127 | a page without a next cursor still has all its articles dispatched, and then the run ends |
| Newsdata.FetchFailureKeepsEarlierDispatches | chloria-backend/chloria-job/src/infrastructure/news_fetcher/newsdata.rs:130-133 | a failed fetch ends the run, and the output holds exactly the earlier pages' articles |
| Newsdata.TenByThreeStopsAfterFourPages | chloria-backend/chloria-job/src/infrastructure/news_fetcher/newsdata.rs:115-120 | pages advertising 10 results with 3 each take the estimate through 7, 4, 1 and -2, ending after four pages with 12 articles |
| LegacyNewsdata.MapResult | chloria-backend/chloria-job/src/infrastructure/newsdata.rs:93-119 | a result maps unless it has both a date and a zone and one of them fails to parse; the output carries the NewsData source code, the id, the result's fields and no long text |
| LegacyNewsdata.MapResults | chloria-backend/chloria-job/src/infrastructure/newsdata.rs:92-120 | the page maps if and only if every result maps, one output per result in order |
| LegacyNewsdata.FetchPage | chloria-backend/chloria-job/src/infrastructure/newsdata.rs:50-122 | the canned page always succeeds: total 10, outputs with ids and image URLs "1", "2" and "3" and no time, and next cursor `""` |
| LegacyNewsdata.StubPageFacts | chloria-backend/chloria-job/src/infrastructure/newsdata.rs:59-91 | every canned page arrives intact: total 10, three outputs, next cursor `""` |
| LegacyNewsdata.StubLoopShape | chloria-backend/chloria-job/src/infrastructure/newsdata.rs:135-170 | over the canned page the estimate after k pages is 10 - 3k, so it never reaches exactly zero and the cursor never runs out: only the limit, the underflow at an estimate of 1, or the end of the pages ends the run |
| LegacyNewsdata.FetchNews | chloria-backend/chloria-job/src/infrastructure/newsdata.rs:127-172 | the as-written `fetch_news` ends only by the page limit, the underflow panic or running out of pages; it dispatches three outputs per fetched page, except for the page whose subtraction underflows, which dispatches none |
| LegacyNewsdata.Loop | chloria-backend/chloria-job/src/infrastructure/newsdata.rs:135-170 | fetches are bounded by the outcomes and the limit; the estimate stops the run only at exactly zero; an underflow stop means the last page was bigger than the estimate (the converse is `LegacyNewsdata.UnderflowExactlyWhenEstimateNegative`) |
| LegacyNewsdata.LimitAloneStops | chloria-backend/chloria-job/src/infrastructure/newsdata.rs:136-137 | with a page limit only the page count stops the loop, whatever the estimate (without one, `LegacyNewsdata.UnsignedStopMeansZero`) |
| LegacyNewsdata.Taken | chloria-backend/chloria-job/src/infrastructure/newsdata.rs:157 | the page size cast to `u16` never exceeds the real size, and equals it for any page under 65 536 outputs |
| LegacyNewsdata.Paginate | chloria-backend/chloria-job/src/infrastructure/newsdata.rs:127-172 | at most one fetch per outcome and at most `limit` fetches; the estimate stops the run only at zero |
| LegacyNewsdata.FetchPageIgnoresCursor | chloria-backend/chloria-job/src/infrastructure/newsdata.rs:50-59 | the canned page fetch answers the same page whatever cursor it is asked for |
| LegacyNewsdata.StubRunUnderflowsOnFourthPage | chloria-backend/chloria-job/src/infrastructure/newsdata.rs:153-158 | with no limit, or a limit of four or more, the estimate goes 10, 7, 4, 1 and the fourth page's subtraction underflows after nine outputs |
| LegacyNewsdata.StubRunWithinLimit | chloria-backend/chloria-job/src/infrastructure/newsdata.rs:136-144 | with a limit n of at most three, exactly n pages and 3n outputs, stopped by the limit |
| LegacyNewsdata.UnsignedStopMeansZero | chloria-backend/chloria-job/src/infrastructure/newsdata.rs:138-140 | an unsigned estimate satisfies `<= 0` only at zero |
| LegacyNewsdata.MappingsAgree | chloria-backend/chloria-job/src/infrastructure/newsdata.rs:93-119 | both fetchers map a result to the same fields, and fail on the same results with the same error |
| LegacyNewsdata.LegacyStep | chloria-backend/chloria-job/src/infrastructure/newsdata.rs:145-166 | an iteration of the older loop that goes on, stated as the next loop state |
| LegacyNewsdata.NewerStep | chloria-backend/chloria-job/src/infrastructure/news_fetcher/newsdata.rs:106-128 | for pages of fewer than 65 536 outputs, the matching iteration of the newer loop, from the signed copy of the same estimate |
| LegacyNewsdata.LastStepsAgree | chloria-backend/chloria-job/src/infrastructure/newsdata.rs:135-170 | for pages of fewer than 65 536 outputs, iterations that end the run agree between the two fetchers, unless the older one underflows |
| LegacyNewsdata.LoopsAgree | chloria-backend/chloria-job/src/infrastructure/newsdata.rs:135-170 | for pages of fewer than 65 536 outputs and from equal states the two loops make the same requests, dispatch the same articles and stop for the same reason, unless the older one underflows |
| LegacyNewsdata.LegacyAgreesWithoutUnderflow | chloria-backend/chloria-job/src/infrastructure/newsdata.rs:127-172 | for pages of fewer than 65 536 outputs, the two `fetch_news` loops agree on every run in which the older one does not underflow |
| LegacyNewsdata.NegativeExactlyWhenUnderflow | chloria-backend/chloria-job/src/infrastructure/newsdata.rs:153-158 | for pages of fewer than 65 536 outputs, after a successful fetch from a state both loops reached alike, the newer signed estimate is negative exactly when the older unsigned subtraction underflows |
| LegacyNewsdata.StopUnderflowStep | chloria-backend/chloria-job/src/infrastructure/newsdata.rs:136-144 | a stop at the top of an iteration involves no underflow and no newer negative estimate |
| LegacyNewsdata.EndUnderflowStep | chloria-backend/chloria-job/src/infrastructure/newsdata.rs:159-169 | a failed fetch, or a last page that fits the estimate, ends both runs with no underflow and no newer negative estimate |
| LegacyNewsdata.UnderflowStep | chloria-backend/chloria-job/src/infrastructure/newsdata.rs:153-158 | a page larger than the estimate underflows at the first newer negative estimate, after the same requests and before that page's outputs |
| LegacyNewsdata.LastUnderflowStep | chloria-backend/chloria-job/src/infrastructure/newsdata.rs:135-170 | every iteration that ends the older run relates it to the newer run as the underflow characterization says |
| LegacyNewsdata.AlikeAfterPage | chloria-backend/chloria-job/src/infrastructure/newsdata.rs:153-166 | an iteration that goes on leads both loops to a state they reach alike, with no negative estimate so far |
| LegacyNewsdata.UnderflowLoop | chloria-backend/chloria-job/src/infrastructure/newsdata.rs:135-170 | for pages of fewer than 65 536 outputs and from any state both loops reach alike, the older run underflows exactly when the newer run fetches a page that leaves its estimate negative, and then stops at the first such page |
| LegacyNewsdata.UnderflowExactlyWhenEstimateNegative | chloria-backend/chloria-job/src/infrastructure/newsdata.rs:153-158 | for pages of fewer than 65 536 outputs, the older `fetch_news` underflows if and only if the newer one, on the same pages, fetches a page leaving its signed estimate negative; it then stops at the first such page, with the same requests up to it and the articles of the earlier pages only |
| LegacyNewsdata.NewerFetcherStopsCleanlyOnStub | chloria-backend/chloria-job/src/infrastructure/news_fetcher/newsdata.rs:115-120 | on the canned page the newer fetcher ends normally after four pages and 12 articles |
| SaveNews.ImageKey | chloria-backend/chloria-job/src/execution/tasks/save_news.rs:49 | the stored name is the file key followed by `.jpg` |
| SaveNews.Perform | chloria-backend/chloria-job/src/execution/tasks/save_news.rs:40-57 | no image: no calls and `false`; otherwise one download of the URL and then at most one upload of those bytes to the origin bucket, under the article's id (or a random key) plus `.jpg` and with the published time (or now); either failure is the task's error; `true` exactly when both succeed |
| SaveNews.SameIdSameKey | chloria-backend/chloria-job/src/execution/tasks/save_news.rs:42-49 | two articles with the same id store their images under the same name, whatever random sample each run drew |
| SaveNews.EmptyIdStoresBareExtension | chloria-backend/chloria-job/src/execution/tasks/save_news.rs:42-49 | an article whose id is empty is stored as `.jpg` |
| Minio.ExpiryIsMonotone | chloria-backend/chloria-job/src/infrastructure/minio.rs:102-111 | once credentials count as expired, they stay expired as time advances |
| Minio.ExpiryBoundary | chloria-backend/chloria-job/src/infrastructure/minio.rs:103-107 | credentials are fresh exactly one minute before expiry and expired one second later |
| Minio.IsExpired | chloria-backend/chloria-job/src/infrastructure/minio.rs:102-111 | credentials need refreshing when none were obtained or they expire within one minute of now; exactly one minute ahead is still fresh (see `Minio.ExpiryBoundary`) |
| Minio.AssumeRole | chloria-backend/chloria-job/src/infrastructure/minio.rs:113-138 | an HTTP client that cannot be built (only possible with a CA certificate) fails with no request sent; otherwise one token-service request; success if and only if the client builds, the response decodes and its expiration parses; only success records the expiration, and nothing else changes |
| Minio.Reload | chloria-backend/chloria-job/src/infrastructure/minio.rs:78-100 | fresh credentials: nothing happens; otherwise exactly the requests of one `assume_role`; a failed exchange changes nothing; a failed client build keeps the old client but the new expiration; success installs a client for the endpoint with the new credentials |
| Minio.BucketName | chloria-backend/chloria-job/src/infrastructure/minio.rs:150-152 | an origin file goes to the configured origin bucket |
| Minio.UploadFile | chloria-backend/chloria-job/src/infrastructure/minio.rs:143-163 | a reload error is the upload's error; no client is "not initialized"; otherwise exactly one bucket check of the origin bucket with the current client, succeeding if and only if the check answers |
| Minio.MissingClientOutlivesFailedBuild | chloria-backend/chloria-job/src/infrastructure/minio.rs:84-99 | after a first refresh whose client build fails, later reloads do nothing and uploads fail as not initialized until the new expiration comes within the buffer |
| Minio.StaleClientOutlivesFailedBuild | chloria-backend/chloria-job/src/infrastructure/minio.rs:84-99 | after a failed rebuild the old client survives and later uploads keep using it until the new expiration comes within the buffer |
| Minio.RefreshedClientIsUsed | chloria-backend/chloria-job/src/infrastructure/minio.rs:143-160 | after a successful refresh, an immediate upload sends only the bucket check, using the new client |
| Authenticate.Execute | chloria-backend/chloria-api/src/execution/cases/authenticate.rs:51-62 | the repository is asked once with the presented key; lookup or check errors pass through; an unknown key is NotFound; a stored secret is checked once and gives IncorrectSecret or Success, each if and only if the matching answer |
| Authenticate.ConfirmSuccessfulAuthentication | chloria-backend/chloria-api/src/execution/cases/authenticate.rs:79-102 | a stored secret that verifies gives Success, after one lookup and one verification |

## Left out

- The collection orchestrator, the batch sink and the permit pools. `collect_news` is a one-call placeholder and the workshop semaphores only bound concurrency.
- HTTP requests, JSON and XML decoding, and URL parsing. They are modelled only as the `Result` values they produce.
- The chrono calendar. Zone parsing, `%Y-%m-%d %H:%M:%S` parsing and local-time resolution are parameters of type `Calendar`; the model does not fix their behaviour.
- Newsdata.Loop: does not model 32-bit overflow of the signed estimate or of the `len() as i32` cast, because the cast needs a single page of 2^31 articles, and the estimate, which keeps falling under a page limit once it is negative, needs 2^31 articles dispatched in total, which the run would have to hold in memory. Under a page limit the estimate is not read (news_fetcher/newsdata.rs:97-98), so its wrap-around in a release build would not change the run there.
- Newsdata.Loop: does not model wrap-around of the `u16` page index after 65 535 pages without a limit, because it would need that many successful pages.
- LegacyNewsdata.Loop: the `u16` page count is a `nat` here, so its wrap-around after 65 535 pages without a limit is not modelled, for the same reason.
- LegacyNewsdata.Loop: models the unsigned underflow as the debug build's panic (the stop `RemainingUnderflow`). The release build's wrap-around to a large estimate is not modelled.
- LegacyNewsdata.LegacyAgreesWithoutUnderflow: the agreement with the newer loop, and the underflow characterization (`LegacyNewsdata.UnderflowLoop`, `LegacyNewsdata.UnderflowExactlyWhenEstimateNegative`), are proved only for pages of fewer than 65 536 outputs. A larger page is cast to a smaller `u16` size by the older loop but counted in full by the newer one, so the two estimates part; the fetcher's only page has three outputs.
- The one-second pause between pages and all logging. They do not affect results.
- Minio.Reload: the read-lock check followed by a write-lock re-check uses one clock reading. With no concurrent refresh both checks give the same answer (`Minio.ExpiryIsMonotone`). Lock contention and interleavings are left out.
- Clock readings are whole seconds, not nanosecond timestamps.
- Pagination fuel: a run is bounded by the number of `fetch_page` outcomes supplied. `AnswersExhausted` is a stop of the model, not of the program.
- The MinIO client constructor. It reads the CA-certificate and web-identity-token files, and silently ignores a certificate it cannot read or parse.
- The argon2 hashing algorithm. It is the `verify` parameter of `Authenticate.Execute`.
- The bucket check's answer is only printed (`println!`) in the source. The model discards it, and no object is written, as in the source.
- The database repositories and the API's other cases (reading news, creating insights). They are not part of this core.

## Findings

| source | as written | input that shows it | evidently intended | confidence | as-written member | corrected member |
|---|---|---|---|---|---|---|
| chloria-backend/chloria-job/src/infrastructure/newsdata.rs:153-158 | the remaining-results estimate is a `u16` and the page size is subtracted from it unchecked | the fetcher's own canned page (total 10, three results, always a next cursor) with no page limit: the estimate goes 10, 7, 4, 1, then `1 - 3` underflows; with overflow checks on (a debug build) the run panics before dispatching the fourth page, and in a release build the estimate wraps to 65 534 | a signed estimate that stops the run once it drops to zero or below, as the newer fetcher's `i32` estimate does | not executed | LegacyNewsdata.StubRunUnderflowsOnFourthPage | LegacyNewsdata.NewerFetcherStopsCleanlyOnStub |
