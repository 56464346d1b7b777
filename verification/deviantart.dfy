/** The newer DeviantArt downloader (`ImageDL`): a token from the client credentials selects
    the browse API, otherwise the newest-deviations page is scraped; either loop appends
    through the downloader's `Add`. A `WebException` whose message mentions 403 ends
    gathering quietly and keeps what was added, because the list is filled in place.

    Both loops test `i == 0` for "no page fetched yet", but `i` is the offset, which an
    empty page leaves at 0. The loops as written are kept here beside corrected ones that
    test for the absence of a previous page; the corrected ones are those
    `GatherPostsAsync` uses. */
module DeviantArt {
  import opened Wrappers
  import opened Text
  import opened Gathering
  import opened DeviantArtPosts
  import DeviantArtCore

  type ScrapedRecord = DeviantArtCore.ScrapedRecord
  type AddPost = (seq<DeviantArtPost>, DeviantArtPost) -> Added<DeviantArtPost>

  /** The content of an API result; journals have no source. */
  datatype ApiContent = ApiContent(source: Option<string>, width: int, height: int)

  /** A browse API result: creation time, content (absent when the result has none),
      favourite count, and the post it becomes. */
  datatype ApiPost = ApiPost(createdAt: int, content: Option<ApiContent>, favorites: int, post: DeviantArtPost)

  datatype ApiResults = ApiResults(results: seq<ApiPost>, hasMore: bool)

  // ---------------------------------------------------------------------------
  // GenerateTags

  /** `GenerateTags`: the url-encoded tags, then "+max_age:{n}d" when the age limit is
      positive, with '+' trimmed from both ends; a null tag string with nothing appended
      reaches `Trim` as null. */
  function GenerateTags(tags: Option<string>, maxDaysOld: int, urlEncode: string -> string): (r: Result<string>)
    ensures r.Err? <==> tags.None? && maxDaysOld <= 0
    ensures r.Err? ==> r.error == NullReference
    ensures r.Ok? && |r.value| > 0 ==> r.value[0] != '+' && r.value[|r.value| - 1] != '+'
  {
    if tags.None? && maxDaysOld <= 0 then Err(NullReference)
    else Ok(TrimSet(UntrimmedTags(tags, maxDaysOld, urlEncode), {'+'}))
  }

  function UntrimmedTags(tags: Option<string>, maxDaysOld: int, urlEncode: string -> string): string {
    (if tags.Some? then urlEncode(tags.value) else "")
    + (if maxDaysOld > 0 then "+" + AgeFilter(maxDaysOld) else "")
  }

  /** The age filter ends the tags exactly when the age limit is positive; otherwise the
      result is the encoded tags, '+' trimmed. */
  lemma GenerateTagsAge(tags: Option<string>, maxDaysOld: int, urlEncode: string -> string)
    ensures var r := GenerateTags(tags, maxDaysOld, urlEncode);
      && (maxDaysOld > 0 ==> r.Ok? && EndsWith(r.value, AgeFilter(maxDaysOld)))
      && (maxDaysOld <= 0 && tags.Some? ==> r == Ok(TrimSet(urlEncode(tags.value), {'+'})))
  {
    var encoded := if tags.Some? then urlEncode(tags.value) else "";
    if maxDaysOld > 0 {
      var age := AgeFilter(maxDaysOld);
      assert UntrimmedTags(tags, maxDaysOld, urlEncode) == (encoded + "+") + age;
      TrimSetEndsWithKept(encoded + "+", age, {'+'});
    } else {
      assert UntrimmedTags(tags, maxDaysOld, urlEncode) == encoded;
    }
  }

  // ---------------------------------------------------------------------------
  // Scraping

  /** The pagination test of the scraping loop as written: the offset is 0, or the last
      page held at least 20 posts. */
  predicate ScrapeProceedAsWritten(i: int, last: Option<seq<ScrapedRecord>>) {
    i == 0 || (last.Some? && |last.value| >= 20)
  }

  /** The pagination test as intended: no page fetched yet, or the last one was full. */
  predicate ScrapeProceed(i: int, last: Option<seq<ScrapedRecord>>) {
    last.None? || |last.value| >= 20
  }

  /** `GetPostsThroughScraping`, with the given pagination test: the offset advances by the
      page's post count, an unsuccessful response ends the loop, and posts failing the size
      check are skipped. */
  function ScrapingPagerWith(proceed: (int, Option<seq<ScrapedRecord>>) -> bool, target: int,
                             fits: (int, int) -> bool, add: AddPost): Pager<int, (), seq<ScrapedRecord>, ScrapedRecord, DeviantArtPost> {
    Pager(
      target,
      proceed,
      (i: int, page: seq<ScrapedRecord>) => i + |page|,
      (i: int, last: Option<seq<ScrapedRecord>>) => Ok(i),
      (k: ()) => false,
      (k: (), n: nat) => Ok(()),
      (k: ()) => (),
      (text: string) => Quit,
      (page: seq<ScrapedRecord>) => page,
      DeviantArtCore.ScrapeDecide(fits),
      add)
  }

  function ScrapingPagerAsWritten(target: int, fits: (int, int) -> bool, add: AddPost): Pager<int, (), seq<ScrapedRecord>, ScrapedRecord, DeviantArtPost> {
    ScrapingPagerWith(ScrapeProceedAsWritten, target, fits, add)
  }

  function ScrapingPager(target: int, fits: (int, int) -> bool, add: AddPost): Pager<int, (), seq<ScrapedRecord>, ScrapedRecord, DeviantArtPost> {
    ScrapingPagerWith(ScrapeProceed, target, fits, add)
  }

  /** `n` successful responses holding no posts. */
  function EmptyPages(n: nat): (r: seq<Response<seq<ScrapedRecord>>>)
    ensures |r| == n && forall k :: 0 <= k < n ==> r[k] == Fetched([])
  {
    seq(n, k => Fetched([]))
  }

  lemma {:induction false} AsWrittenScrapingLoop(target: int, fits: (int, int) -> bool, add: AddPost,
                                                 last: Option<seq<ScrapedRecord>>, n: nat)
    requires target > 0
    ensures var r := Gather(ScrapingPagerAsWritten(target, fits, add), State(0, (), last, [], 0), EmptyPages(n));
      && |r.requests| == n
      && (forall k :: 0 <= k < n ==> r.requests[k].cursor == 0)
      && r.halt == OutOfResponses
      && r.list == []
    decreases n
  {
    if n > 0 {
      var p := ScrapingPagerAsWritten(target, fits, add);
      var s := State(0, (), last, [], 0);
      var responses := EmptyPages(n);
      assert responses[1..] == EmptyPages(n - 1);
      assert Next(p, s, (), responses[0]) == State(0, (), Some([]), [], 0);
      AsWrittenScrapingLoop(target, fits, add, Some([]), n - 1);
    }
  }

  /** As written, a search whose first page is empty asks for offset 0 again after every
      response: `n` empty pages make `n` requests, all at offset 0, and the loop is still
      going when the responses run out. */
  lemma AsWrittenScrapingRefetches(target: int, fits: (int, int) -> bool, add: AddPost, n: nat)
    requires target > 0
    ensures var r := Gather(ScrapingPagerAsWritten(target, fits, add), DeviantArtCore.Start(), EmptyPages(n));
      && |r.requests| == n
      && (forall k :: 0 <= k < n ==> r.requests[k].cursor == 0)
      && r.halt == OutOfResponses
  {
    AsWrittenScrapingLoop(target, fits, add, None, n);
  }

  /** Corrected, an empty first page ends the loop after one request. */
  lemma ScrapingStopsAfterEmptyPage(target: int, fits: (int, int) -> bool, add: AddPost, rest: seq<Response<seq<ScrapedRecord>>>)
    requires target > 0
    ensures Gather(ScrapingPager(target, fits, add), DeviantArtCore.Start(), [Fetched([])] + rest)
         == Run([], [Request(0, ())], [], NoMorePages, 0)
  {
    var p := ScrapingPager(target, fits, add);
    var responses := [Fetched([])] + rest;
    assert responses[1..] == rest;
    assert Next(p, DeviantArtCore.Start(), (), responses[0]) == State(0, (), Some([]), [], 0);
  }

  /** Corrected, the requests walk forward: each further request follows a page of at
      least 20 posts and starts that many posts later, so no offset is asked for twice. */
  lemma ScrapingOffsets(target: int, fits: (int, int) -> bool, add: AddPost, responses: seq<Response<seq<ScrapedRecord>>>)
    ensures var run := Gather(ScrapingPager(target, fits, add), DeviantArtCore.Start(), responses);
      && (|run.requests| > 0 ==> run.requests[0].cursor == 0)
      && (forall k :: 0 <= k < |run.requests| - 1 ==>
            && responses[k].Fetched?
            && |responses[k].page| >= 20
            && run.requests[k + 1].cursor == run.requests[k].cursor + |responses[k].page|)
  {
    var p := ScrapingPager(target, fits, add);
    var s := DeviantArtCore.Start();
    var run := Gather(p, s, responses);
    RunTrace(p, s, responses);
    forall k | 0 <= k < |run.requests| - 1
      ensures responses[k].Fetched?
      ensures |responses[k].page| >= 20
      ensures run.requests[k + 1].cursor == run.requests[k].cursor + |responses[k].page|
    {
      RunStep(p, s, responses, k);
    }
  }

  /** While scraping, a page offers exactly its posts that pass the size check, and no
      post ends gathering by age; any unsuccessful response ends the loop. */
  lemma ScrapingRules(target: int, fits: (int, int) -> bool, add: AddPost, records: seq<ScrapedRecord>,
                      list: seq<DeviantArtPost>, responses: seq<Response<seq<ScrapedRecord>>>)
    ensures var s := ScanPage(records, DeviantArtCore.ScrapeDecide(fits), add, list);
      && s.offered == DeviantArtCore.Fitting(records[..s.examined], fits)
      && !s.end.TooOld? && !s.end.Faulted?
    ensures var run := Gather(ScrapingPager(target, fits, add), DeviantArtCore.Start(), responses);
      forall k :: 0 <= k < |run.requests| - 1 ==> !responses[k].Failed?
  {
    DeviantArtCore.ScrapedPageOffersFitting(records, fits, add, list);
    ScrapingOffsets(target, fits, add, responses);
  }

  // ---------------------------------------------------------------------------
  // The API

  /** The per-result rules of `GetPostsThroughApi`: a result created before the cutoff
      stops gathering; a result without content raises on `Content.Source`; journals, size
      failures and results with fewer favourites than the minimum are skipped. */
  function ApiDecide(fits: (int, int) -> bool, minScore: int, oldest: int): (d: ApiPost -> Verdict<DeviantArtPost>)
    ensures forall r :: d(r).Stop? <==> r.createdAt < oldest
    ensures forall r :: d(r).Fault? <==> r.createdAt >= oldest && r.content.None?
    ensures forall r :: d(r).Fault? ==> d(r).error == NullReference
    ensures forall r :: d(r).Offer? <==> Accepted(r, fits, minScore, oldest)
    ensures forall r :: d(r).Offer? ==> d(r).post == r.post
  {
    (r: ApiPost) =>
      if r.createdAt < oldest then Stop
      else match r.content
        case None => Fault(NullReference)
        case Some(c) =>
          if c.source.None? || !fits(c.width, c.height) || r.favorites < minScore then Skip
          else Offer(r.post)
  }

  /** The results the API rules accept, as a reference definition. */
  predicate Accepted(r: ApiPost, fits: (int, int) -> bool, minScore: int, oldest: int) {
    && r.createdAt >= oldest
    && r.content.Some?
    && r.content.value.source.Some?
    && fits(r.content.value.width, r.content.value.height)
    && r.favorites >= minScore
  }

  function AcceptedPosts(records: seq<ApiPost>, fits: (int, int) -> bool, minScore: int, oldest: int): seq<DeviantArtPost> {
    if |records| == 0 then []
    else
      var head := if Accepted(records[0], fits, minScore, oldest) then [records[0].post] else [];
      head + AcceptedPosts(records[1..], fits, minScore, oldest)
  }

  lemma {:induction false} OffersAccepted(records: seq<ApiPost>, fits: (int, int) -> bool, minScore: int, oldest: int)
    ensures Offers(records, ApiDecide(fits, minScore, oldest)) == AcceptedPosts(records, fits, minScore, oldest)
    decreases |records|
  {
    if |records| > 0 {
      OffersAccepted(records[1..], fits, minScore, oldest);
    }
  }

  /** On an API page, the posts offered are the accepted ones among the results examined;
      the walk stops at the first result created before the cutoff, and every result
      examined before it is recent and has content. */
  lemma ApiPageRules(fits: (int, int) -> bool, minScore: int, oldest: int, add: AddPost,
                     records: seq<ApiPost>, list: seq<DeviantArtPost>)
    ensures var s := ScanPage(records, ApiDecide(fits, minScore, oldest), add, list);
      && s.offered == AcceptedPosts(records[..s.examined], fits, minScore, oldest)
      && (s.end.TooOld? ==> records[s.examined - 1].createdAt < oldest)
      && (s.end.Faulted? ==> records[s.examined - 1].content.None? && s.end.error == NullReference)
      && (forall k :: 0 <= k < s.examined && (k < s.examined - 1 || s.end.Completed?) ==>
            records[k].createdAt >= oldest && records[k].content.Some?)
  {
    var decide := ApiDecide(fits, minScore, oldest);
    var s := ScanPage(records, decide, add, list);
    ScanPageOffers(records, decide, add, list);
    OffersAccepted(records[..s.examined], fits, minScore, oldest);
    ScanPageStopsLast(records, decide, add, list);
  }

  /** The message of the exception raised when no token can be had. */
  const NoTokenMessage: string := "Unable to keep gathering due to being unable to generate a new API token."

  /** `GetTokenAsync` inside the loop: the token, or an exception when the request raised
      or gave no token. */
  function TokenOutcome(reply: Result<Option<string>>): (r: Result<string>)
    ensures r.Ok? <==> reply.Ok? && reply.value.Some?
    ensures r.Ok? ==> r.value == reply.value.value
    ensures reply == Ok(None) ==> r == Err(InvalidOperation(NoTokenMessage))
  {
    match reply
    case Err(e) => Err(e)
    case Ok(None) => Err(InvalidOperation(NoTokenMessage))
    case Ok(Some(t)) => Ok(t)
  }

  /** A failure mentioning the access token is retried with a new token. */
  function ApiReact(text: string): Reaction {
    if Contains(text, "access_token") then Retry else Quit
  }

  predicate ApiProceedAsWritten(i: int, last: Option<ApiResults>) {
    i == 0 || (last.Some? && last.value.hasMore)
  }

  predicate ApiProceed(i: int, last: Option<ApiResults>) {
    last.None? || last.value.hasMore
  }

  /** `GetPostsThroughApi`, with the given pagination test. The key is the API token: a
      blank one is replaced by the next token request's answer before the request, and a
      failure mentioning the access token clears it and retries the same offset. */
  function ApiPagerWith(proceed: (int, Option<ApiResults>) -> bool, target: int, fits: (int, int) -> bool,
                        minScore: int, oldest: int, add: AddPost, tokens: nat -> Result<Option<string>>)
    : Pager<int, string, ApiResults, ApiPost, DeviantArtPost> {
    Pager(
      target,
      proceed,
      (i: int, page: ApiResults) => i + |page.results|,
      (i: int, last: Option<ApiResults>) => if last.Some? then Ok(i) else Err(NullReference),
      (k: string) => IsBlank(k),
      (k: string, n: nat) => TokenOutcome(tokens(n)),
      (k: string) => "",
      ApiReact,
      (page: ApiResults) => page.results,
      ApiDecide(fits, minScore, oldest),
      add)
  }

  function ApiPagerAsWritten(target: int, fits: (int, int) -> bool, minScore: int, oldest: int, add: AddPost,
                             tokens: nat -> Result<Option<string>>): Pager<int, string, ApiResults, ApiPost, DeviantArtPost> {
    ApiPagerWith(ApiProceedAsWritten, target, fits, minScore, oldest, add, tokens)
  }

  function ApiPager(target: int, fits: (int, int) -> bool, minScore: int, oldest: int, add: AddPost,
                    tokens: nat -> Result<Option<string>>): Pager<int, string, ApiResults, ApiPost, DeviantArtPost> {
    ApiPagerWith(ApiProceed, target, fits, minScore, oldest, add, tokens)
  }

  function ApiStart(token: string): State<int, string, ApiResults, DeviantArtPost> {
    State(0, token, None, [], 0)
  }

  /** `n` successful API responses without results or further pages. */
  function EmptyResults(n: nat): (r: seq<Response<ApiResults>>)
    ensures |r| == n && forall k :: 0 <= k < n ==> r[k] == Fetched(ApiResults([], false))
  {
    seq(n, k => Fetched(ApiResults([], false)))
  }

  lemma {:induction false} AsWrittenApiLoop(target: int, fits: (int, int) -> bool, minScore: int, oldest: int, add: AddPost,
                                            tokens: nat -> Result<Option<string>>, token: string, last: Option<ApiResults>, n: nat)
    requires target > 0 && !IsBlank(token)
    ensures var r := Gather(ApiPagerAsWritten(target, fits, minScore, oldest, add, tokens), State(0, token, last, [], 0), EmptyResults(n));
      && |r.requests| == n
      && (forall k :: 0 <= k < n ==> r.requests[k] == Request(0, token))
      && r.halt == OutOfResponses
    decreases n
  {
    if n > 0 {
      var p := ApiPagerAsWritten(target, fits, minScore, oldest, add, tokens);
      var s := State(0, token, last, [], 0);
      var responses := EmptyResults(n);
      assert responses[1..] == EmptyResults(n - 1);
      assert Next(p, s, token, responses[0]) == State(0, token, Some(ApiResults([], false)), [], 0);
      AsWrittenApiLoop(target, fits, minScore, oldest, add, tokens, token, Some(ApiResults([], false)), n - 1);
    }
  }

  /** As written, a search with no results at all, reported as having no more pages, is
      asked for again at offset 0 after every response. */
  lemma AsWrittenApiRefetches(target: int, fits: (int, int) -> bool, minScore: int, oldest: int, add: AddPost,
                              tokens: nat -> Result<Option<string>>, token: string, n: nat)
    requires target > 0 && !IsBlank(token)
    ensures var r := Gather(ApiPagerAsWritten(target, fits, minScore, oldest, add, tokens), ApiStart(token), EmptyResults(n));
      && |r.requests| == n
      && (forall k :: 0 <= k < n ==> r.requests[k] == Request(0, token))
      && r.halt == OutOfResponses
  {
    AsWrittenApiLoop(target, fits, minScore, oldest, add, tokens, token, None, n);
  }

  /** Corrected, a result reporting no more pages ends the loop after its request. */
  lemma ApiStopsAfterLastPage(target: int, fits: (int, int) -> bool, minScore: int, oldest: int, add: AddPost,
                              tokens: nat -> Result<Option<string>>, token: string, rest: seq<Response<ApiResults>>)
    requires target > 0 && !IsBlank(token)
    ensures Gather(ApiPager(target, fits, minScore, oldest, add, tokens), ApiStart(token), [Fetched(ApiResults([], false))] + rest)
         == Run([], [Request(0, token)], [], NoMorePages, 0)
  {
    var p := ApiPager(target, fits, minScore, oldest, add, tokens);
    var responses := [Fetched(ApiResults([], false))] + rest;
    assert responses[1..] == rest;
    assert Next(p, ApiStart(token), token, responses[0]) == State(0, token, Some(ApiResults([], false)), [], 0);
  }

  /** The API requests: the first at offset 0; after a result reporting more pages, the
      next one is that many results later. */
  lemma ApiOffsets(target: int, fits: (int, int) -> bool, minScore: int, oldest: int, add: AddPost,
                   tokens: nat -> Result<Option<string>>, token: string, responses: seq<Response<ApiResults>>)
    ensures var run := Gather(ApiPager(target, fits, minScore, oldest, add, tokens), ApiStart(token), responses);
      && (|run.requests| > 0 ==> run.requests[0].cursor == 0)
      && (forall k :: 0 <= k < |run.requests| - 1 && responses[k].Fetched? ==>
            && responses[k].page.hasMore
            && run.requests[k + 1].cursor == run.requests[k].cursor + |responses[k].page.results|)
  {
    var p := ApiPager(target, fits, minScore, oldest, add, tokens);
    var run := Gather(p, ApiStart(token), responses);
    if |run.requests| > 0 {
      RunTrace(p, ApiStart(token), responses);
    }
    forall k | 0 <= k < |run.requests| - 1 && responses[k].Fetched?
      ensures responses[k].page.hasMore
      ensures run.requests[k + 1].cursor == run.requests[k].cursor + |responses[k].page.results|
    {
      ApiStep(p, target, fits, minScore, oldest, add, tokens, ApiStart(token), responses, k);
    }
  }

  /** After a failure, which must have mentioned the access token, the next API request
      is at the same offset with the token of a new token request. */
  lemma ApiRetry(target: int, fits: (int, int) -> bool, minScore: int, oldest: int, add: AddPost,
                 tokens: nat -> Result<Option<string>>, token: string, responses: seq<Response<ApiResults>>)
    ensures var p := ApiPager(target, fits, minScore, oldest, add, tokens);
      var run := Gather(p, ApiStart(token), responses);
      forall k :: 0 <= k < |run.requests| - 1 && !responses[k].Fetched? ==>
        && responses[k].Failed?
        && Contains(responses[k].text, "access_token")
        && run.requests[k + 1].cursor == run.requests[k].cursor
        && tokens(StateAt(p, ApiStart(token), responses, k + 1).obtained) == Ok(Some(run.requests[k + 1].key))
  {
    var p := ApiPager(target, fits, minScore, oldest, add, tokens);
    var run := Gather(p, ApiStart(token), responses);
    forall k | 0 <= k < |run.requests| - 1 && !responses[k].Fetched?
      ensures responses[k].Failed?
      ensures Contains(responses[k].text, "access_token")
      ensures run.requests[k + 1].cursor == run.requests[k].cursor
      ensures tokens(StateAt(p, ApiStart(token), responses, k + 1).obtained) == Ok(Some(run.requests[k + 1].key))
    {
      ApiStep(p, target, fits, minScore, oldest, add, tokens, ApiStart(token), responses, k);
    }
  }

  /** A failure mentioning the access token on the first request is retried, but the
      retry subtracts the result count of the blank results object, whose result list is
      null: gathering raises after that one request. */
  lemma ApiFirstRetryRaises(target: int, fits: (int, int) -> bool, minScore: int, oldest: int, add: AddPost,
                            tokens: nat -> Result<Option<string>>, token: string, responses: seq<Response<ApiResults>>)
    requires target > 0 && !IsBlank(token)
    requires |responses| > 0 && responses[0].Failed? && Contains(responses[0].text, "access_token")
    ensures Gather(ApiPager(target, fits, minScore, oldest, add, tokens), ApiStart(token), responses)
         == Run([], [Request(0, token)], [], Raised(NullReference), 0)
  {
  }

  /** One step of `ApiOffsets` and `ApiRetry`. */
  lemma ApiStep(p: Pager<int, string, ApiResults, ApiPost, DeviantArtPost>, target: int, fits: (int, int) -> bool, minScore: int,
                oldest: int, add: AddPost, tokens: nat -> Result<Option<string>>,
                s: State<int, string, ApiResults, DeviantArtPost>, responses: seq<Response<ApiResults>>, k: nat)
    requires p == ApiPager(target, fits, minScore, oldest, add, tokens)
    requires k + 1 < |Gather(p, s, responses).requests|
    ensures var run := Gather(p, s, responses);
      && (responses[k].Fetched? ==>
            && responses[k].page.hasMore
            && run.requests[k + 1].cursor == run.requests[k].cursor + |responses[k].page.results|)
      && (!responses[k].Fetched? ==>
            && responses[k].Failed?
            && Contains(responses[k].text, "access_token")
            && run.requests[k + 1].cursor == run.requests[k].cursor
            && tokens(StateAt(p, s, responses, k + 1).obtained) == Ok(Some(run.requests[k + 1].key)))
  {
    RunStep(p, s, responses, k);
    RunTrace(p, s, responses);
    var run := Gather(p, s, responses);
    var next := StateAt(p, s, responses, k + 1);
    if !responses[k].Fetched? {
      assert next.key == "";
      assert KeyFor(p, next) == Ok(run.requests[k + 1].key);
    }
  }

  /** Every API request carries a key that is not blank, or one just obtained: a blank key
      is replaced by the next token request's token before the request is sent. */
  lemma ApiKeys(target: int, fits: (int, int) -> bool, minScore: int, oldest: int, add: AddPost,
                tokens: nat -> Result<Option<string>>, token: string, responses: seq<Response<ApiResults>>)
    ensures var p := ApiPager(target, fits, minScore, oldest, add, tokens);
      var run := Gather(p, ApiStart(token), responses);
      forall k :: 0 <= k < |run.requests| ==>
        var st := StateAt(p, ApiStart(token), responses, k);
        && (!IsBlank(st.key) ==> run.requests[k].key == st.key)
        && (IsBlank(st.key) ==> tokens(st.obtained) == Ok(Some(run.requests[k].key)))
  {
    var p := ApiPager(target, fits, minScore, oldest, add, tokens);
    RunTrace(p, ApiStart(token), responses);
  }

  /** When a key is needed and the token request gives none, the loop raises before
      sending anything more. */
  lemma NoTokenRaises(target: int, fits: (int, int) -> bool, minScore: int, oldest: int, add: AddPost,
                      tokens: nat -> Result<Option<string>>, s: State<int, string, ApiResults, DeviantArtPost>,
                      responses: seq<Response<ApiResults>>)
    requires Continues(ApiPager(target, fits, minScore, oldest, add, tokens), s)
    requires IsBlank(s.key) && tokens(s.obtained) == Ok(None)
    ensures var r := Gather(ApiPager(target, fits, minScore, oldest, add, tokens), s, responses);
      && r.requests == []
      && r.halt == Raised(InvalidOperation(NoTokenMessage))
      && r.list == s.list
  {
  }

  // ---------------------------------------------------------------------------
  // GatherPostsAsync

  /** The exception `GatherPostsAsync` swallows. */
  predicate Swallowed(e: Exception) {
    e.Web? && Contains(e.message, "403")
  }

  /** What `validPosts` holds once a loop has ended: its list, unless the loop raised an
      exception that propagates. */
  function Outcome<C, K>(run: Run<C, K, DeviantArtPost>): (r: Result<seq<DeviantArtPost>>)
    ensures r.Ok? <==> !run.halt.Raised? || Swallowed(run.halt.error)
    ensures r.Ok? ==> r.value == run.list
    ensures r.Err? ==> r.error == run.halt.error
  {
    if run.halt.Raised? && !Swallowed(run.halt.error) then Err(run.halt.error) else Ok(run.list)
  }

  datatype Settings = Settings(
    amountToGather: int, minScore: int, oldestAllowed: int,
    tags: Option<string>, maxDaysOld: int, urlEncode: string -> string,
    clientId: Option<string>, clientSecret: Option<string>,
    fits: (int, int) -> bool, add: AddPost)

  /** `GatherPostsAsync`. `tokenReply` answers the first token request, sent only when both
      client credentials are set; `tokens(n)` answers the `n`-th one made inside the API
      loop. Both loops build the tags into every request. */
  function GatherPostsAsync(settings: Settings, tokenReply: Result<Option<string>>, tokens: nat -> Result<Option<string>>,
                            apiResponses: seq<Response<ApiResults>>, scrapeResponses: seq<Response<seq<ScrapedRecord>>>)
    : (r: Result<seq<DeviantArtPost>>)
    ensures r.Err? ==> !Swallowed(r.error)
    ensures (settings.clientId.None? || settings.clientSecret.None? || tokenReply == Ok(None)) ==>
      r == Outcome(Gather(ScrapingPager(settings.amountToGather, settings.fits, settings.add), DeviantArtCore.Start(),
                          Queried(GenerateTags(settings.tags, settings.maxDaysOld, settings.urlEncode), scrapeResponses)))
    ensures settings.clientId.Some? && settings.clientSecret.Some? && tokenReply.Err? ==>
      r == if Swallowed(tokenReply.error) then Ok([]) else Err(tokenReply.error)
  {
    var query := GenerateTags(settings.tags, settings.maxDaysOld, settings.urlEncode);
    var reply: Result<Option<string>> := if settings.clientId.None? || settings.clientSecret.None? then Ok(None) else tokenReply;
    match reply
    case Err(e) => if Swallowed(e) then Ok([]) else Err(e)
    case Ok(None) =>
      Outcome(Gather(ScrapingPager(settings.amountToGather, settings.fits, settings.add), DeviantArtCore.Start(),
                     Queried(query, scrapeResponses)))
    case Ok(Some(token)) =>
      Outcome(Gather(ApiPager(settings.amountToGather, settings.fits, settings.minScore, settings.oldestAllowed, settings.add, tokens),
                     ApiStart(token), Queried(query, apiResponses)))
  }

  /** A 403 while scraping keeps every post `Add` accepted before it: the result is the
      list built by offering the posts in order, and only an exception other than the 403
      one is an error. */
  lemma ForbiddenKeepsGathered(settings: Settings, tokenReply: Result<Option<string>>, tokens: nat -> Result<Option<string>>,
                               apiResponses: seq<Response<ApiResults>>, scrapeResponses: seq<Response<seq<ScrapedRecord>>>)
    requires settings.clientId.None?
    ensures var run := Gather(ScrapingPager(settings.amountToGather, settings.fits, settings.add), DeviantArtCore.Start(),
                              Queried(GenerateTags(settings.tags, settings.maxDaysOld, settings.urlEncode), scrapeResponses));
      var r := GatherPostsAsync(settings, tokenReply, tokens, apiResponses, scrapeResponses);
      && (r.Err? <==> run.halt.Raised? && !Swallowed(run.halt.error))
      && (r.Ok? ==> r.value == Replay(settings.add, [], run.offered).list)
  {
  }

  /** With both credentials and a token from the first token request, gathering goes
      through the API: the result is the list built by offering the API loop's posts in
      order, and it is an error exactly when that loop raised something other than a 403. */
  lemma CredentialedUsesApi(settings: Settings, token: string, tokens: nat -> Result<Option<string>>,
                            apiResponses: seq<Response<ApiResults>>, scrapeResponses: seq<Response<seq<ScrapedRecord>>>)
    requires settings.clientId.Some? && settings.clientSecret.Some?
    ensures var run := Gather(ApiPager(settings.amountToGather, settings.fits, settings.minScore, settings.oldestAllowed, settings.add, tokens),
                              ApiStart(token), Queried(GenerateTags(settings.tags, settings.maxDaysOld, settings.urlEncode), apiResponses));
      var r := GatherPostsAsync(settings, Ok(Some(token)), tokens, apiResponses, scrapeResponses);
      && (r.Err? <==> run.halt.Raised? && !Swallowed(run.halt.error))
      && (r.Ok? ==> r.value == Replay(settings.add, [], run.offered).list)
  {
  }

  /** With no tags and no age limit, the first request's query raises: scraping, and the
      API loop with a usable token, end in a null reference before anything is gathered. */
  lemma NoTagsRaises(settings: Settings, tokenReply: Result<Option<string>>, tokens: nat -> Result<Option<string>>,
                     apiResponses: seq<Response<ApiResults>>, scrapeResponses: seq<Response<seq<ScrapedRecord>>>)
    requires settings.tags.None? && settings.maxDaysOld <= 0 && settings.amountToGather > 0
    requires settings.clientId.Some? && settings.clientSecret.Some? ==>
      tokenReply.Ok? && (tokenReply.value.Some? ==> !IsBlank(tokenReply.value.value))
    ensures GatherPostsAsync(settings, tokenReply, tokens, apiResponses, scrapeResponses) == Err(NullReference)
  {
  }
}
