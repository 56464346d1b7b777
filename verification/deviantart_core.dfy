/** The older DeviantArt downloader (`ImageDL.Core`): an optional OAuth token chooses the
    API or the scraping loop, each of which appends accepted posts until the amount to
    download is reached, and the finishing pass removes duplicate sources and orders by
    favourites. Any exception ends gathering with nothing, because the list is only
    assigned once a loop has returned. */
module DeviantArtCore {
  import opened Wrappers
  import opened Text
  import opened Gathering
  import opened DeviantArtPosts

  /** A record scraped from the newest-deviations page, and the post it becomes. */
  datatype ScrapedRecord = ScrapedRecord(width: int, height: int, post: DeviantArtPost)

  /** The content of an API result; journals have none. */
  datatype ApiContent = ApiContent(width: int, height: int)

  /** A record of the browse API, with its favourite count, and the post it becomes. */
  datatype ApiRecord = ApiRecord(content: Option<ApiContent>, favorites: int, post: DeviantArtPost)

  /** A page of the browse API. */
  datatype ApiResults = ApiResults(results: seq<ApiRecord>, hasMore: bool)

  /** An answer of the older client: the decoded page, or the exception raised while
      fetching or decoding it. The older client returns the text without a success check,
      so there is no third case. */
  datatype Answer<+Pg> = Page(page: Pg) | Raises(error: Exception)

  function AsResponses<Pg>(answers: seq<Answer<Pg>>): (r: seq<Response<Pg>>)
    ensures |r| == |answers|
    ensures forall k :: 0 <= k < |r| ==> !r[k].Failed?
  {
    seq(|answers|, k requires 0 <= k < |answers| =>
      match answers[k] case Page(pg) => Fetched(pg) case Raises(e) => Thrown(e))
  }

  // ---------------------------------------------------------------------------
  // Add

  /** The concrete `Add` of this downloader: `validPosts.Add(post)`, then stop once the
      count equals the amount to download. */
  function AppendUntil(target: int): (seq<DeviantArtPost>, DeviantArtPost) -> Added<DeviantArtPost> {
    (list: seq<DeviantArtPost>, post: DeviantArtPost) => Added(list + [post], |list| + 1 != target)
  }

  /** Replaying `AppendUntil` appends the posts, and stops only at the target. */
  lemma {:induction false} ReplayAppendUntil(target: int, list: seq<DeviantArtPost>, posts: seq<DeviantArtPost>)
    ensures Replay(AppendUntil(target), list, posts).list == list + posts
    ensures |posts| > 0 ==> (Replay(AppendUntil(target), list, posts).keepGoing <==> |list + posts| != target)
    decreases |posts|
  {
    if |posts| > 0 {
      ReplayAppendUntil(target, list + [posts[0]], posts[1..]);
      assert list + [posts[0]] + posts[1..] == list + posts;
    }
  }

  // ---------------------------------------------------------------------------
  // The two loops

  /** Scraped records failing the size check are skipped; no score is available. */
  function ScrapeDecide(fits: (int, int) -> bool): ScrapedRecord -> Verdict<DeviantArtPost> {
    (r: ScrapedRecord) => if fits(r.width, r.height) then Offer(r.post) else Skip
  }

  /** API records without content (journals) are skipped, and so are those failing the
      size check or with fewer favourites than the minimum score. */
  function ApiDecide(fits: (int, int) -> bool, minScore: int): ApiRecord -> Verdict<DeviantArtPost> {
    (r: ApiRecord) =>
      match r.content
      case None => Skip
      case Some(c) => if !fits(c.width, c.height) || r.favorites < minScore then Skip else Offer(r.post)
  }

  /** `GetPostsThroughScraping`: starting at offset 0, stop after a page of fewer than 22
      posts, otherwise advance the offset by the page's post count. */
  function ScrapingPager(target: int, fits: (int, int) -> bool): Pager<int, (), seq<ScrapedRecord>, ScrapedRecord, DeviantArtPost> {
    Pager(
      target,
      (i: int, last: Option<seq<ScrapedRecord>>) => last.None? || |last.value| >= 22,
      (i: int, page: seq<ScrapedRecord>) => i + |page|,
      (i: int, last: Option<seq<ScrapedRecord>>) => Ok(i),
      (k: ()) => false,
      (k: (), n: nat) => Ok(()),
      (k: ()) => (),
      (text: string) => Quit,
      (page: seq<ScrapedRecord>) => page,
      ScrapeDecide(fits),
      AppendUntil(target))
  }

  /** `GetPostsThroughApi`: starting at offset 0, stop when the result reports no more
      pages, otherwise advance the offset by the result count. */
  function ApiPager(target: int, fits: (int, int) -> bool, minScore: int): Pager<int, (), ApiResults, ApiRecord, DeviantArtPost> {
    Pager(
      target,
      (i: int, last: Option<ApiResults>) => last.None? || last.value.hasMore,
      (i: int, page: ApiResults) => i + |page.results|,
      (i: int, last: Option<ApiResults>) => Ok(i),
      (k: ()) => false,
      (k: (), n: nat) => Ok(()),
      (k: ()) => (),
      (text: string) => Quit,
      (page: ApiResults) => page.results,
      ApiDecide(fits, minScore),
      AppendUntil(target))
  }

  function Start<Pg>(): State<int, (), Pg, DeviantArtPost> {
    State(0, (), None, [], 0)
  }

  // ---------------------------------------------------------------------------
  // GatherPostsAsync

  /** The settings the gathering reads. */
  datatype Settings = Settings(
    amountToDownload: int, minScore: int,
    tags: Option<string>, maxDaysOld: int, username: Option<string>, urlEncode: string -> string,
    clientId: Option<string>, clientSecret: Option<string>,
    fits: (int, int) -> bool)

  /** The token the choice of loop is made with: the token request is sent only when both
      the client id and secret are set. */
  function TokenOf(settings: Settings, tokenReply: Result<Option<string>>): Result<Option<string>> {
    if settings.clientId.None? || settings.clientSecret.None? then Ok(None) else tokenReply
  }

  /** The loop a token selects, a non-blank token selecting the API, run on its answers;
      both loops build the query into every request. */
  function LoopRun(settings: Settings, token: Option<string>,
                   apiAnswers: seq<Answer<ApiResults>>, scrapeAnswers: seq<Answer<seq<ScrapedRecord>>>): Run<int, (), DeviantArtPost> {
    var query := GenerateQuery(settings.tags, settings.maxDaysOld, settings.username, settings.urlEncode);
    if token.Some? && !IsBlank(token.value) then
      Gather(ApiPager(settings.amountToDownload, settings.fits, settings.minScore), Start(), Queried(query, AsResponses(apiAnswers)))
    else
      Gather(ScrapingPager(settings.amountToDownload, settings.fits), Start(), Queried(query, AsResponses(scrapeAnswers)))
  }

  /** `GatherPostsAsync`. `tokenReply` is the outcome of the token request: the token,
      `None` when the request did not succeed, or the exception it raised. The result keeps
      one post per source, the first one the chosen loop gathered, ordered by descending
      favourites; an exception anywhere leaves nothing. */
  function GatherPostsAsync(settings: Settings, tokenReply: Result<Option<string>>,
                            apiAnswers: seq<Answer<ApiResults>>, scrapeAnswers: seq<Answer<seq<ScrapedRecord>>>): (r: seq<DeviantArtPost>)
    ensures |r| <= (if settings.amountToDownload > 0 then settings.amountToDownload else 0)
    ensures forall i, j :: 0 <= i < j < |r| ==> r[i].source != r[j].source
    ensures SortedByFavorites(r)
    ensures TokenOf(settings, tokenReply).Err? ==> r == []
    ensures TokenOf(settings, tokenReply).Ok? ==>
      var run := LoopRun(settings, TokenOf(settings, tokenReply).value, apiAnswers, scrapeAnswers);
      && (run.halt.Raised? ==> r == [])
      && (!run.halt.Raised? ==>
            && Sources(r) == Sources(run.offered)
            && forall k :: 0 <= k < |r| ==> FirstWithSource(run.offered, r[k].source) == Some(r[k]))
  {
    var token := TokenOf(settings, tokenReply);
    var valid := if token.Err? then [] else Collected(settings, token.value, apiAnswers, scrapeAnswers);
    OrderAndRemoveDuplicatesCorrect(valid);
    OrderAndRemoveDuplicatesShorter(valid);
    OrderAndRemoveDuplicates(valid)
  }

  /** What `validPosts` holds once the chosen loop returns: the posts it offered, in
      order, or nothing if it raised, since the assignment is then never made. */
  function Collected(settings: Settings, token: Option<string>,
                     apiAnswers: seq<Answer<ApiResults>>, scrapeAnswers: seq<Answer<seq<ScrapedRecord>>>): (valid: seq<DeviantArtPost>)
    ensures |valid| <= (if settings.amountToDownload > 0 then settings.amountToDownload else 0)
    ensures var run := LoopRun(settings, token, apiAnswers, scrapeAnswers);
      valid == if run.halt.Raised? then [] else run.offered
  {
    var query := GenerateQuery(settings.tags, settings.maxDaysOld, settings.username, settings.urlEncode);
    if token.Some? && !IsBlank(token.value) then
      var responses := Queried(query, AsResponses(apiAnswers));
      var run := Gather(ApiPager(settings.amountToDownload, settings.fits, settings.minScore), Start(), responses);
      ApiStopsAtAmount(settings.amountToDownload, settings.fits, settings.minScore, responses);
      if run.halt.Raised? then [] else run.list
    else
      var responses := Queried(query, AsResponses(scrapeAnswers));
      var run := Gather(ScrapingPager(settings.amountToDownload, settings.fits), Start(), responses);
      ScrapingStopsAtAmount(settings.amountToDownload, settings.fits, responses);
      if run.halt.Raised? then [] else run.list
  }

  lemma OrderAndRemoveDuplicatesShorter(posts: seq<DeviantArtPost>)
    ensures |OrderAndRemoveDuplicates(posts)| <= |posts|
  {
    OrderAndRemoveDuplicatesCorrect(posts);
    DedupShorter(posts);
    assert |OrderAndRemoveDuplicates(posts)| == |multiset(OrderAndRemoveDuplicates(posts))|;
  }

  lemma {:induction false} DedupShorter(posts: seq<DeviantArtPost>)
    ensures |DedupBySource(posts)| <= |posts|
    decreases |posts|
  {
    if |posts| > 0 {
      DedupShorter(posts[..|posts| - 1]);
    }
  }

  // ---------------------------------------------------------------------------
  // GenerateQuery

  /** `GenerateQuery`: the url-encoded tags, then "+max_age:{n}d" when the age limit is
      positive and "+by:{user}" when a user name is given, with '+' trimmed from both
      ends. Encoding a null tag string gives null, and appending to null starts from the
      empty string, so only a null tag string with nothing appended reaches `Trim` as
      null. */
  function GenerateQuery(tags: Option<string>, maxDaysOld: int, username: Option<string>,
                         urlEncode: string -> string): (r: Result<string>)
    ensures r.Err? <==> tags.None? && maxDaysOld <= 0 && IsNullOrBlank(username)
    ensures r.Err? ==> r.error == NullReference
    ensures r.Ok? && |r.value| > 0 ==> r.value[0] != '+' && r.value[|r.value| - 1] != '+'
  {
    if tags.None? && maxDaysOld <= 0 && IsNullOrBlank(username) then Err(NullReference)
    else Ok(TrimSet(UntrimmedQuery(tags, maxDaysOld, username, urlEncode), {'+'}))
  }

  function UntrimmedQuery(tags: Option<string>, maxDaysOld: int, username: Option<string>,
                          urlEncode: string -> string): string {
    (if tags.Some? then urlEncode(tags.value) else "")
    + (if maxDaysOld > 0 then "+" + AgeFilter(maxDaysOld) else "")
    + (if !IsNullOrBlank(username) then "+by:" + urlEncode(username.value) else "")
  }

  /** With a positive age limit and no user name, the query ends with the age filter. */
  lemma GenerateQueryAge(tags: Option<string>, maxDaysOld: int, username: Option<string>, urlEncode: string -> string)
    requires maxDaysOld > 0 && IsNullOrBlank(username)
    ensures EndsWith(GenerateQuery(tags, maxDaysOld, username, urlEncode).value, AgeFilter(maxDaysOld))
  {
    var encoded := if tags.Some? then urlEncode(tags.value) else "";
    var age := AgeFilter(maxDaysOld);
    assert UntrimmedQuery(tags, maxDaysOld, username, urlEncode) == (encoded + "+") + age;
    TrimSetEndsWithKept(encoded + "+", age, {'+'});
  }

  /** With a user name, the query ends with "by:" and the encoded name, trailing '+'
      trimmed. */
  lemma GenerateQueryUser(tags: Option<string>, maxDaysOld: int, username: Option<string>, urlEncode: string -> string)
    requires !IsNullOrBlank(username)
    ensures EndsWith(GenerateQuery(tags, maxDaysOld, username, urlEncode).value,
                     "by:" + TrimEnd(urlEncode(username.value), {'+'}))
  {
    var encoded := if tags.Some? then urlEncode(tags.value) else "";
    var age := if maxDaysOld > 0 then "+" + AgeFilter(maxDaysOld) else "";
    var user := urlEncode(username.value);
    assert UntrimmedQuery(tags, maxDaysOld, username, urlEncode) == (encoded + age + "+") + "by:" + user;
    TrimSetEndsWith(encoded + age + "+", "by:", user, {'+'});
  }

  /** With neither part appended, the query is the encoded tags, '+' trimmed. */
  lemma GenerateQueryTagsOnly(tags: Option<string>, maxDaysOld: int, username: Option<string>, urlEncode: string -> string)
    requires tags.Some? && maxDaysOld <= 0 && IsNullOrBlank(username)
    ensures GenerateQuery(tags, maxDaysOld, username, urlEncode) == Ok(TrimSet(urlEncode(tags.value), {'+'}))
  {
    assert UntrimmedQuery(tags, maxDaysOld, username, urlEncode) == urlEncode(tags.value);
  }

  // ---------------------------------------------------------------------------
  // Properties of the loops

  /** The scraped list holds exactly the offered posts, never more than the amount to
      download, and the loop ends because of `Add` only once that amount is reached. */
  lemma ScrapingStopsAtAmount(target: int, fits: (int, int) -> bool, responses: seq<Response<seq<ScrapedRecord>>>)
    ensures var run := Gather(ScrapingPager(target, fits), Start(), responses);
      && run.list == run.offered
      && |run.list| <= (if target > 0 then target else 0)
      && (run.halt == Declined ==> |run.list| == target)
  {
    var p := ScrapingPager(target, fits);
    var run := Gather(p, Start(), responses);
    ReplayAppendUntil(target, [], run.offered);
    if target > 0 {
      GatherBounded(p, Start(), responses);
    }
    DeclinedAnswer(p, Start(), responses);
  }

  /** The same for the API list. */
  lemma ApiStopsAtAmount(target: int, fits: (int, int) -> bool, minScore: int, responses: seq<Response<ApiResults>>)
    ensures var run := Gather(ApiPager(target, fits, minScore), Start(), responses);
      && run.list == run.offered
      && |run.list| <= (if target > 0 then target else 0)
      && (run.halt == Declined ==> |run.list| == target)
  {
    var p := ApiPager(target, fits, minScore);
    var run := Gather(p, Start(), responses);
    ReplayAppendUntil(target, [], run.offered);
    if target > 0 {
      GatherBounded(p, Start(), responses);
    }
    DeclinedAnswer(p, Start(), responses);
  }

  /** The posts a scraped page offers are those of its records that pass the size check,
      whatever their favourites; no record ends gathering by age. */
  function Fitting(records: seq<ScrapedRecord>, fits: (int, int) -> bool): seq<DeviantArtPost> {
    if |records| == 0 then []
    else (if fits(records[0].width, records[0].height) then [records[0].post] else []) + Fitting(records[1..], fits)
  }

  lemma {:induction false} ScrapedPageOffersFitting(records: seq<ScrapedRecord>, fits: (int, int) -> bool,
                                                    add: (seq<DeviantArtPost>, DeviantArtPost) -> Added<DeviantArtPost>, list: seq<DeviantArtPost>)
    ensures var s := ScanPage(records, ScrapeDecide(fits), add, list);
      && s.offered == Fitting(records[..s.examined], fits)
      && !s.end.TooOld? && !s.end.Faulted?
  {
    var s := ScanPage(records, ScrapeDecide(fits), add, list);
    ScanPageOffers(records, ScrapeDecide(fits), add, list);
    OffersFitting(records[..s.examined], fits);
  }

  lemma {:induction false} OffersFitting(records: seq<ScrapedRecord>, fits: (int, int) -> bool)
    ensures Offers(records, ScrapeDecide(fits)) == Fitting(records, fits)
    decreases |records|
  {
    if |records| > 0 {
      OffersFitting(records[1..], fits);
    }
  }

  /** The scraping requests: the first at offset 0; each further one follows a page of at
      least 22 posts, at the previous offset plus that page's post count; and a loop that
      ends for lack of pages ends after a page of fewer than 22 posts. */
  lemma ScrapingOffsets(target: int, fits: (int, int) -> bool, answers: seq<Answer<seq<ScrapedRecord>>>)
    ensures var responses := AsResponses(answers);
      var run := Gather(ScrapingPager(target, fits), Start(), responses);
      && (|run.requests| > 0 ==> run.requests[0].cursor == 0)
      && (forall k :: 0 <= k < |run.requests| - 1 ==>
            && responses[k].Fetched?
            && |responses[k].page| >= 22
            && run.requests[k + 1].cursor == run.requests[k].cursor + |responses[k].page|)
      && (run.halt == NoMorePages ==>
            && |run.requests| > 0
            && responses[|run.requests| - 1].Fetched?
            && |responses[|run.requests| - 1].page| < 22)
  {
    var p := ScrapingPager(target, fits);
    var responses := AsResponses(answers);
    var s := Start();
    RunTrace(p, s, responses);
    var run := Gather(p, s, responses);
    forall k | 0 <= k < |run.requests| - 1
      ensures responses[k].Fetched?
      ensures |responses[k].page| >= 22
      ensures run.requests[k + 1].cursor == run.requests[k].cursor + |responses[k].page|
    {
      RunStep(p, s, responses, k);
    }
    if run.halt == NoMorePages {
      var n := |run.requests|;
      if n > 0 {
        assert StateAt(p, s, responses, n).last == Some(responses[n - 1].page);
      }
    }
  }

  /** The API requests: the first at offset 0; each further one follows a result that
      reported more pages, at the previous offset plus the result count; and a loop that
      ends for lack of pages ends after a result reporting no more. */
  lemma ApiOffsets(target: int, fits: (int, int) -> bool, minScore: int, answers: seq<Answer<ApiResults>>)
    ensures var responses := AsResponses(answers);
      var run := Gather(ApiPager(target, fits, minScore), Start(), responses);
      && (|run.requests| > 0 ==> run.requests[0].cursor == 0)
      && (forall k :: 0 <= k < |run.requests| - 1 ==>
            && responses[k].Fetched?
            && responses[k].page.hasMore
            && run.requests[k + 1].cursor == run.requests[k].cursor + |responses[k].page.results|)
      && (run.halt == NoMorePages ==>
            && |run.requests| > 0
            && responses[|run.requests| - 1].Fetched?
            && !responses[|run.requests| - 1].page.hasMore)
  {
    var p := ApiPager(target, fits, minScore);
    RunRequests(p, Start(), AsResponses(answers));
    ApiSteps(target, fits, minScore, answers);
    ApiLastPage(target, fits, minScore, answers);
  }

  lemma ApiSteps(target: int, fits: (int, int) -> bool, minScore: int, answers: seq<Answer<ApiResults>>)
    ensures var responses := AsResponses(answers);
      var run := Gather(ApiPager(target, fits, minScore), Start(), responses);
      forall k :: 0 <= k < |run.requests| - 1 ==>
        && responses[k].Fetched?
        && responses[k].page.hasMore
        && run.requests[k + 1].cursor == run.requests[k].cursor + |responses[k].page.results|
  {
    var p := ApiPager(target, fits, minScore);
    var responses := AsResponses(answers);
    var run := Gather(p, Start(), responses);
    forall k | 0 <= k < |run.requests| - 1
      ensures responses[k].Fetched?
      ensures responses[k].page.hasMore
      ensures run.requests[k + 1].cursor == run.requests[k].cursor + |responses[k].page.results|
    {
      RunStep(p, Start(), responses, k);
    }
  }

  lemma ApiLastPage(target: int, fits: (int, int) -> bool, minScore: int, answers: seq<Answer<ApiResults>>)
    ensures var responses := AsResponses(answers);
      var run := Gather(ApiPager(target, fits, minScore), Start(), responses);
      run.halt == NoMorePages ==>
        && |run.requests| > 0
        && responses[|run.requests| - 1].Fetched?
        && !responses[|run.requests| - 1].page.hasMore
  {
    var p := ApiPager(target, fits, minScore);
    var responses := AsResponses(answers);
    var s := Start();
    var run := Gather(p, s, responses);
    RunNoMorePages(p, s, responses);
    if run.halt == NoMorePages {
      var n := |run.requests|;
      if n > 0 {
        assert responses[n - 1].Fetched?;
        assert StateAt(p, s, responses, n).last == Some(responses[n - 1].page);
      }
    }
  }

  /** An exception anywhere leaves nothing to download: when the token request or the
      chosen loop raises, the posts gathered before it are dropped with it. */
  lemma ExceptionLeavesNothing(settings: Settings, tokenReply: Result<Option<string>>,
                               apiAnswers: seq<Answer<ApiResults>>, scrapeAnswers: seq<Answer<seq<ScrapedRecord>>>)
    requires settings.clientId.Some? && settings.clientSecret.Some?
    requires
      || tokenReply.Err?
      || (tokenReply == Ok(None) && LoopRun(settings, None, apiAnswers, scrapeAnswers).halt.Raised?)
      || (tokenReply.Ok? && tokenReply.value.Some? && !IsBlank(tokenReply.value.value) &&
          LoopRun(settings, tokenReply.value, apiAnswers, scrapeAnswers).halt.Raised?)
    ensures GatherPostsAsync(settings, tokenReply, apiAnswers, scrapeAnswers) == []
  {
  }

  /** With no tags, no age limit and no user name, the query of the first request raises,
      and nothing is gathered whichever loop is chosen. */
  lemma NoQueryLeavesNothing(settings: Settings, tokenReply: Result<Option<string>>,
                             apiAnswers: seq<Answer<ApiResults>>, scrapeAnswers: seq<Answer<seq<ScrapedRecord>>>)
    requires settings.tags.None? && settings.maxDaysOld <= 0 && IsNullOrBlank(settings.username)
    ensures GatherPostsAsync(settings, tokenReply, apiAnswers, scrapeAnswers) == []
  {
    var token := TokenOf(settings, tokenReply);
    if token.Ok? {
      var run := LoopRun(settings, token.value, apiAnswers, scrapeAnswers);
      assert run.halt.Raised? || run.list == [];
    }
  }
}
