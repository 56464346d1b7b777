/** The Anime-Pictures downloader: search result pages are numbered from 0, and a page is
    followed by the next while the last one reported at least 60 posts. Each accepted
    result is fetched again by id and the fetched post, possibly null, is given to `Add`. */
module AnimePictures {
  import opened Wrappers
  import opened Gathering
  import opened Resolving
  import Client

  /** The number of results a full page reports. */
  const FullPage: int := 60

  /** A search result: its id, creation time, score and size. */
  datatype AnimeRecord = AnimeRecord(id: string, createdAt: int, score: int, width: int, height: int)

  /** A decoded page: the post count it reports and its results. */
  datatype AnimePage = AnimePage(responsePostsCount: int, posts: seq<AnimeRecord>)

  /** A result the rules keep: recent enough, of a valid size and scoring at least the
      minimum. */
  predicate Wanted(r: AnimeRecord, fits: AnimeRecord -> bool, minScore: int, oldest: int) {
    r.createdAt >= oldest && fits(r) && r.score >= minScore
  }

  /** An old result stops gathering; one failing the size check or scoring below the
      minimum is skipped; any other is fetched again by id, and offered as what the fetch
      returns, or raises what the fetch raised. */
  function Decide<Post>(fits: AnimeRecord -> bool, minScore: int, oldest: int, fetch: string -> Result<Option<Post>>)
    : (d: AnimeRecord -> Verdict<Option<Post>>)
    ensures forall r :: d(r).Stop? <==> r.createdAt < oldest
    ensures forall r :: d(r).Fault? <==> Wanted(r, fits, minScore, oldest) && fetch(r.id).Err?
    ensures forall r :: d(r).Offer? <==> Wanted(r, fits, minScore, oldest) && fetch(r.id).Ok?
  {
    (r: AnimeRecord) =>
      if r.createdAt < oldest then Stop
      else if !fits(r) || r.score < minScore then Skip
      else match fetch(r.id)
        case Ok(post) => Offer(post)
        case Err(e) => Fault(e)
  }

  /** What the accepted results give `Add`, in order, as a reference definition: the
      fetched post of every wanted result whose fetch did not raise. */
  function Accepted<Post>(records: seq<AnimeRecord>, fits: AnimeRecord -> bool, minScore: int, oldest: int,
                          fetch: string -> Result<Option<Post>>): seq<Option<Post>> {
    if |records| == 0 then []
    else
      var r := records[0];
      var head := if Wanted(r, fits, minScore, oldest) && fetch(r.id).Ok? then [fetch(r.id).value] else [];
      head + Accepted(records[1..], fits, minScore, oldest, fetch)
  }

  lemma {:induction false} OffersAccepted<Post>(records: seq<AnimeRecord>, fits: AnimeRecord -> bool, minScore: int, oldest: int,
                                                fetch: string -> Result<Option<Post>>)
    ensures Offers(records, Decide(fits, minScore, oldest, fetch)) == Accepted(records, fits, minScore, oldest, fetch)
    decreases |records|
  {
    if |records| > 0 {
      OffersAccepted(records[1..], fits, minScore, oldest, fetch);
    }
  }

  /** On a page, `Add` is given the fetched posts of the accepted results among those
      examined; the walk stops early only at an old result, or at a wanted result whose
      fetch raised, with that exception. */
  lemma AnimePageRules<Post>(fits: AnimeRecord -> bool, minScore: int, oldest: int, fetch: string -> Result<Option<Post>>,
                             add: (seq<Option<Post>>, Option<Post>) -> Added<Option<Post>>,
                             records: seq<AnimeRecord>, list: seq<Option<Post>>)
    ensures var s := ScanPage(records, Decide(fits, minScore, oldest, fetch), add, list);
      && s.offered == Accepted(records[..s.examined], fits, minScore, oldest, fetch)
      && (s.end.TooOld? ==> records[s.examined - 1].createdAt < oldest)
      && (s.end.Faulted? ==>
            && Wanted(records[s.examined - 1], fits, minScore, oldest)
            && fetch(records[s.examined - 1].id) == Err(s.end.error))
  {
    var s := ScanPage(records, Decide(fits, minScore, oldest, fetch), add, list);
    ScanPageOffers(records, Decide(fits, minScore, oldest, fetch), add, list);
    OffersAccepted(records[..s.examined], fits, minScore, oldest, fetch);
  }

  /** The pagination part of the loop condition: the first page, or a full last page. */
  predicate Proceed(i: int, last: Option<AnimePage>) {
    i == 0 || (last.Some? && last.value.responsePostsCount >= FullPage)
  }

  /** `GatherPostsAsync`'s loop: the page index goes up by one per page, and any
      unsuccessful response ends gathering. */
  function AnimePager<Post>(target: int, fits: AnimeRecord -> bool, minScore: int, oldest: int, fetch: string -> Result<Option<Post>>,
                            add: (seq<Option<Post>>, Option<Post>) -> Added<Option<Post>>)
    : Pager<int, (), AnimePage, AnimeRecord, Option<Post>> {
    Pager(
      target,
      Proceed,
      (i: int, page: AnimePage) => i + 1,
      (i: int, last: Option<AnimePage>) => Ok(i),
      (k: ()) => false,
      (k: (), n: nat) => Ok(()),
      (k: ()) => (),
      (text: string) => Quit,
      (page: AnimePage) => page.posts,
      Decide(fits, minScore, oldest, fetch),
      add)
  }

  function Start<Post>(): State<int, (), AnimePage, Option<Post>> {
    State(0, (), None, [], 0)
  }

  /** Request `k` asks for page `k`: no page is skipped or asked for twice, every response
      before the last was a page, and every such page reported at least 60 posts. */
  lemma PageIndices<Post>(target: int, fits: AnimeRecord -> bool, minScore: int, oldest: int,
                          fetch: string -> Result<Option<Post>>, add: (seq<Option<Post>>, Option<Post>) -> Added<Option<Post>>,
                          responses: seq<Response<AnimePage>>, k: nat)
    requires k < |Gather(AnimePager(target, fits, minScore, oldest, fetch, add), Start(), responses).requests|
    ensures var run := Gather(AnimePager(target, fits, minScore, oldest, fetch, add), Start(), responses);
      && run.requests[k].cursor == k
      && (k > 0 ==> responses[k - 1].Fetched? && responses[k - 1].page.responsePostsCount >= FullPage)
  {
    PageCursor(target, fits, minScore, oldest, fetch, add, responses, k);
    if k > 0 {
      RunStep(AnimePager(target, fits, minScore, oldest, fetch, add), Start(), responses, k - 1);
    }
  }

  /** Request `k` asks for page `k`. */
  lemma {:induction false} PageCursor<Post>(target: int, fits: AnimeRecord -> bool, minScore: int, oldest: int,
                                            fetch: string -> Result<Option<Post>>, add: (seq<Option<Post>>, Option<Post>) -> Added<Option<Post>>,
                                            responses: seq<Response<AnimePage>>, k: nat)
    requires k < |Gather(AnimePager(target, fits, minScore, oldest, fetch, add), Start(), responses).requests|
    ensures Gather(AnimePager(target, fits, minScore, oldest, fetch, add), Start(), responses).requests[k].cursor == k
    decreases k
  {
    var p := AnimePager(target, fits, minScore, oldest, fetch, add);
    if k > 0 {
      PageCursor(target, fits, minScore, oldest, fetch, add, responses, k - 1);
      RunStep(p, Start(), responses, k - 1);
    } else {
      FirstRequest(p, Start(), responses);
    }
  }

  /** `GatherPostsAsync`: the list `Add` built from what it was given, in order, or the
      exception that escaped: one a request raised, or one a fetch by id raised for a
      wanted result of the last page. */
  function GatherPostsAsync<Post>(target: int, fits: AnimeRecord -> bool, minScore: int, oldest: int,
                                  fetch: string -> Result<Option<Post>>, add: (seq<Option<Post>>, Option<Post>) -> Added<Option<Post>>,
                                  responses: seq<Response<AnimePage>>): (r: Result<seq<Option<Post>>>)
    ensures var run := Gather(AnimePager(target, fits, minScore, oldest, fetch, add), Start(), responses);
      && (r.Err? <==> run.halt.Raised?)
      && (r.Err? ==>
            && |run.requests| > 0
            && (|| responses[|run.requests| - 1] == Thrown(r.error)
                || (&& responses[|run.requests| - 1].Fetched?
                    && FetchRaised(responses[|run.requests| - 1].page.posts, fits, minScore, oldest, fetch, r.error))))
      && (r.Ok? ==> r.value == Replay(add, [], run.offered).list)
  {
    var run := Gather(AnimePager(target, fits, minScore, oldest, fetch, add), Start(), responses);
    RaisedAt(target, fits, minScore, oldest, fetch, add, responses);
    if run.halt.Raised? then Err(run.halt.error) else Ok(run.list)
  }

  /** Where an exception that ends the loop comes from: the last request, or a fetch for
      a wanted result on the last page. */
  lemma RaisedAt<Post>(target: int, fits: AnimeRecord -> bool, minScore: int, oldest: int,
                       fetch: string -> Result<Option<Post>>, add: (seq<Option<Post>>, Option<Post>) -> Added<Option<Post>>,
                       responses: seq<Response<AnimePage>>)
    ensures var run := Gather(AnimePager(target, fits, minScore, oldest, fetch, add), Start(), responses);
      run.halt.Raised? ==>
        && |run.requests| > 0
        && (|| responses[|run.requests| - 1] == Thrown(run.halt.error)
            || (&& responses[|run.requests| - 1].Fetched?
                && FetchRaised(responses[|run.requests| - 1].page.posts, fits, minScore, oldest, fetch, run.halt.error)))
  {
    var p := AnimePager(target, fits, minScore, oldest, fetch, add);
    var run := Gather(p, Start(), responses);
    RaisedByThrownOrFault(p, Start(), responses);
    if run.halt.Raised? {
      var last := responses[|run.requests| - 1];
      if last != Thrown(run.halt.error) {
        var k :| 0 <= k < |last.page.posts| && p.decide(last.page.posts[k]) == Fault(run.halt.error);
        assert Wanted(last.page.posts[k], fits, minScore, oldest) && fetch(last.page.posts[k].id) == Err(run.halt.error);
      }
    }
  }

  /** Some wanted result's fetch by id raised `e`. */
  predicate FetchRaised<Post>(records: seq<AnimeRecord>, fits: AnimeRecord -> bool, minScore: int, oldest: int,
                              fetch: string -> Result<Option<Post>>, e: Exception) {
    exists k :: 0 <= k < |records| && Wanted(records[k], fits, minScore, oldest) && fetch(records[k].id) == Err(e)
  }

  /** `GetAnimePicturesImagesAsync`: an image path is answered verbatim; otherwise the
      segment after "/view_post/" up to the next '/' is looked up. */
  function AnimePicturesImages<Post>(url: string, isImagePath: string -> bool, lookup: string -> Option<Post>,
                                     images: Post -> ImageResponse): (r: ImageResponse)
    ensures isImagePath(Client.RemoveQuery(url)) ==> r == FromUrl(Client.RemoveQuery(url))
    ensures !Text.CaseInsContains(Client.RemoveQuery(url), "/view_post/") && !isImagePath(Client.RemoveQuery(url)) ==> r == NotFound(url)
  {
    ResolvePost(url, isImagePath, "/view_post/", false, lookup, images).value
  }

  /** A post url `prefix + "/view_post/" + id + tail` resolves to the images of the post
      looked up by `id`, or is not found when the lookup fails. */
  lemma AnimePicturesImagesOfPostUrl<Post>(prefix: string, id: string, tail: string, isImagePath: string -> bool,
                                           lookup: string -> Option<Post>, images: Post -> ImageResponse)
    requires '/' !in id && '?' !in id && '#' !in id && id != []
    requires tail == [] || tail[0] == '/'
    requires '?' !in prefix + "/view_post/" + tail && '#' !in prefix + "/view_post/" + tail
    requires FoldFree(prefix + "/view_post/" + id + tail, "/view_post/", |prefix|)
    requires !isImagePath(prefix + "/view_post/" + id + tail)
    ensures AnimePicturesImages(prefix + "/view_post/" + id + tail, isImagePath, lookup, images)
         == if lookup(id).Some? then images(lookup(id).value) else NotFound(prefix + "/view_post/" + id + tail)
  {
    ResolvedId(prefix, "/view_post/", id, tail, isImagePath);
  }
}
