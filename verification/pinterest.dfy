/** The Pinterest downloader: a board, a user's pins or a tag search is read page by page
    through Pinterest's resource endpoints, following the bookmark each response carries
    until it is "-end". A board search first needs the board's id, cut out of the board's
    page with the same `IndexOf(marker) + marker.Length` read as Instagram's; the read as
    written is kept beside a corrected one, which the loop uses. */
module Pinterest {
  import opened Wrappers
  import opened Text
  import opened Gathering
  import opened Resolving
  import Client

  const BoardIdMarker: string := "\"board_id\": \""
  const BoardIdFailure: string := "Unable to get the board id."
  const InvalidSearchType: string := "Invalid search type provided."
  const EndBookmark: string := "-end"

  /** `PinterestSearchType`; `Invalid` stands for any other value of the enum. */
  datatype SearchType = Board | User | Tags | Invalid

  /** A pin: its id, creation time and the size of its largest image. */
  datatype PinterestPost = PinterestPost(id: string, createdAt: int, width: int, height: int)

  /** A decoded response: the next bookmark and the pins. */
  datatype PinterestPage = PinterestPage(bookmark: string, posts: seq<PinterestPost>)

  // ---------------------------------------------------------------------------
  // GetBoardId

  function BoardIdWith(page: Client.ClientResult<string>, cut: (string, string, char) -> Result<string>): Result<string> {
    if !page.isSuccess then Err(HttpRequest(BoardIdFailure)) else cut(page.value, BoardIdMarker, '"')
  }

  function BoardIdAsWritten(page: Client.ClientResult<string>): Result<string> {
    BoardIdWith(page, CutAsWritten)
  }

  /** `GetBoardId`: an unsuccessful page raises an `HttpRequestException`; otherwise the
      id is the text between the marker and the next '"', and a missing marker raises. */
  function BoardId(page: Client.ClientResult<string>): (r: Result<string>)
    ensures !page.isSuccess ==> r == Err(HttpRequest(BoardIdFailure))
    ensures page.isSuccess ==> r == Cut(page.value, BoardIdMarker, '"')
    ensures r.Ok? ==> page.isSuccess && Contains(page.value, BoardIdMarker) && '"' !in r.value
  {
    BoardIdWith(page, Cut)
  }

  /** Round trip: a board page `a + marker + id + '"' + b`, the marker first occurring
      after `a`, gives back `id`. */
  lemma BoardIdRoundTrip(a: string, id: string, b: string)
    requires '"' !in id
    requires forall j :: 0 <= j < |a| ==> !MatchesAt(a + BoardIdMarker + id + ['"'] + b, j, BoardIdMarker)
    ensures BoardId(Client.ClientResult(a + BoardIdMarker + id + ['"'] + b, 200, true)) == Ok(id)
  {
    CutRoundTrip(a, BoardIdMarker, id, '"', b);
  }

  /** A board page without the marker, on which the read as written finds the id "7". */
  const MarkerlessBoard: string := "0123456789ab7\""

  /** As written, the markerless board page yields the id "7"; the corrected read
      raises. */
  lemma AsWrittenReadsMarkerlessBoard()
    ensures BoardIdAsWritten(Client.ClientResult(MarkerlessBoard, 200, true)) == Ok("7")
    ensures BoardId(Client.ClientResult(MarkerlessBoard, 200, true)) == Err(ArgumentOutOfRange)
  {
    var text := MarkerlessBoard;
    AbsentWhenFirstMissing(text, BoardIdMarker);
    assert text[|BoardIdMarker| - 1..] == "7" + ['"'] + "";
    CutAsWrittenWithoutMarker(text, BoardIdMarker, '"', "7", "");
  }

  // ---------------------------------------------------------------------------
  // The loop

  /** A pin older than the cutoff stops gathering; one whose largest image fails the size
      check is skipped. */
  function Decide(fits: (int, int) -> bool, oldest: int): (d: PinterestPost -> Verdict<PinterestPost>)
    ensures forall post :: d(post).Stop? <==> post.createdAt < oldest
    ensures forall post :: d(post).Offer? <==> Accepted([post], fits, oldest) == [post]
    ensures forall post :: d(post).Offer? ==> d(post).post == post
    ensures forall post :: !d(post).Fault?
  {
    (post: PinterestPost) =>
      if post.createdAt < oldest then Stop
      else if !fits(post.width, post.height) then Skip
      else Offer(post)
  }

  /** The pins the rules accept, in order, as a reference definition. */
  function Accepted(posts: seq<PinterestPost>, fits: (int, int) -> bool, oldest: int): (r: seq<PinterestPost>)
    ensures forall q :: q in r ==> q in posts && q.createdAt >= oldest && fits(q.width, q.height)
  {
    if |posts| == 0 then []
    else
      var head := if posts[0].createdAt >= oldest && fits(posts[0].width, posts[0].height) then [posts[0]] else [];
      head + Accepted(posts[1..], fits, oldest)
  }

  lemma {:induction false} OffersAccepted(posts: seq<PinterestPost>, fits: (int, int) -> bool, oldest: int)
    ensures Offers(posts, Decide(fits, oldest)) == Accepted(posts, fits, oldest)
    decreases |posts|
  {
    if |posts| > 0 {
      OffersAccepted(posts[1..], fits, oldest);
    }
  }

  /** On a page, the pins offered are the accepted ones among those examined, and the
      walk stops early only at an old pin. */
  lemma PinterestPageRules(fits: (int, int) -> bool, oldest: int, add: (seq<PinterestPost>, PinterestPost) -> Added<PinterestPost>,
                           posts: seq<PinterestPost>, list: seq<PinterestPost>)
    ensures var s := ScanPage(posts, Decide(fits, oldest), add, list);
      && s.offered == Accepted(posts[..s.examined], fits, oldest)
      && !s.end.Faulted?
      && (s.end.TooOld? ==> posts[s.examined - 1].createdAt < oldest)
  {
    var s := ScanPage(posts, Decide(fits, oldest), add, list);
    ScanPageOffers(posts, Decide(fits, oldest), add, list);
    OffersAccepted(posts[..s.examined], fits, oldest);
  }

  /** The key is the board id. A board search needs one while it is empty; an unknown
      search type raises at the same point of every iteration. */
  predicate NeedsKey(searchType: SearchType, id: string) {
    searchType.Invalid? || (searchType.Board? && id == "")
  }

  /** The `n`-th key fetch: an unknown search type raises; otherwise the board page is
      requested, which may itself raise, and the id is cut out of it. */
  function ObtainKey(searchType: SearchType, page: Result<Client.ClientResult<string>>): (r: Result<string>)
    ensures searchType.Invalid? ==> r == Err(InvalidOperation(InvalidSearchType))
    ensures searchType.Board? && page.Err? ==> r == Err(page.error)
    ensures searchType.Board? && page.Ok? && !page.value.isSuccess ==> r == Err(HttpRequest(BoardIdFailure))
    ensures searchType.Board? && r.Ok? ==> page.Ok? && Contains(page.value.value, BoardIdMarker) && '"' !in r.value
    ensures searchType.Board? && page.Ok? && page.value.isSuccess && !Contains(page.value.value, BoardIdMarker) ==>
      r == Err(ArgumentOutOfRange)
  {
    if searchType.Invalid? then Err(InvalidOperation(InvalidSearchType))
    else match page
      case Err(e) => Err(e)
      case Ok(pg) => BoardId(pg)
  }

  /** Round trip: for a board search, a successful board page `a + marker + id + '"' + b`,
      the marker first occurring after `a`, gives the key `id`. */
  lemma ObtainKeyRoundTrip(a: string, id: string, b: string)
    requires '"' !in id
    requires forall j :: 0 <= j < |a| ==> !MatchesAt(a + BoardIdMarker + id + ['"'] + b, j, BoardIdMarker)
    ensures ObtainKey(Board, Ok(Client.ClientResult(a + BoardIdMarker + id + ['"'] + b, 200, true))) == Ok(id)
  {
    BoardIdRoundTrip(a, id, b);
  }

  /** `GatherPostsAsync`'s loop: the bookmark starts empty and becomes each response's
      bookmark; the loop goes on until it is "-end". Any unsuccessful response ends
      gathering. `boardPages(n)` is the board page the `n`-th id fetch reads, or the
      exception requesting it raised. */
  function PinterestPager(searchType: SearchType, target: int, fits: (int, int) -> bool, oldest: int,
                          add: (seq<PinterestPost>, PinterestPost) -> Added<PinterestPost>,
                          boardPages: nat -> Result<Client.ClientResult<string>>)
    : Pager<string, string, PinterestPage, PinterestPost, PinterestPost> {
    Pager(
      target,
      (bm: string, last: Option<PinterestPage>) => bm != EndBookmark,
      (bm: string, page: PinterestPage) => page.bookmark,
      (bm: string, last: Option<PinterestPage>) => Ok(bm),
      (id: string) => NeedsKey(searchType, id),
      (id: string, n: nat) => ObtainKey(searchType, boardPages(n)),
      (id: string) => id,
      (text: string) => Quit,
      (page: PinterestPage) => page.posts,
      Decide(fits, oldest),
      add)
  }

  function Start(): State<string, string, PinterestPage, PinterestPost> {
    State("", "", None, [], 0)
  }

  /** The requests follow the bookmarks: the first is sent with the empty bookmark and
      each later one with the bookmark of the response before it, which was not "-end";
      every response but the last was a page. */
  lemma Bookmarks(searchType: SearchType, target: int, fits: (int, int) -> bool, oldest: int,
                  add: (seq<PinterestPost>, PinterestPost) -> Added<PinterestPost>,
                  boardPages: nat -> Result<Client.ClientResult<string>>, responses: seq<Response<PinterestPage>>)
    ensures var run := Gather(PinterestPager(searchType, target, fits, oldest, add, boardPages), Start(), responses);
      && (|run.requests| > 0 ==> run.requests[0].cursor == "")
      && (forall k :: 0 <= k < |run.requests| - 1 ==>
            && responses[k].Fetched?
            && responses[k].page.bookmark != EndBookmark
            && run.requests[k + 1].cursor == responses[k].page.bookmark)
  {
    var p := PinterestPager(searchType, target, fits, oldest, add, boardPages);
    var run := Gather(p, Start(), responses);
    forall k | 0 <= k < |run.requests| - 1
      ensures responses[k].Fetched?
      ensures responses[k].page.bookmark != EndBookmark
      ensures run.requests[k + 1].cursor == responses[k].page.bookmark
    {
      RunStep(p, Start(), responses, k);
    }
  }

  /** An unknown search type raises before any request, once the loop condition holds. */
  lemma InvalidMethodRaises(target: int, fits: (int, int) -> bool, oldest: int,
                            add: (seq<PinterestPost>, PinterestPost) -> Added<PinterestPost>,
                            boardPages: nat -> Result<Client.ClientResult<string>>, responses: seq<Response<PinterestPage>>)
    requires target > 0
    ensures var run := Gather(PinterestPager(Invalid, target, fits, oldest, add, boardPages), Start(), responses);
      && run.requests == []
      && run.halt == Raised(InvalidOperation(InvalidSearchType))
      && run.list == []
  {
  }

  /** Once the board id is known it is kept: a board search whose first id fetch gives a
      non-empty id fetches it only that once and sends every request with it, and a user
      or tag search never fetches one. */
  lemma BoardIdFetchedOnce(searchType: SearchType, target: int, fits: (int, int) -> bool, oldest: int,
                           add: (seq<PinterestPost>, PinterestPost) -> Added<PinterestPost>,
                           boardPages: nat -> Result<Client.ClientResult<string>>, responses: seq<Response<PinterestPage>>)
    requires searchType.Board? ==> ObtainKey(Board, boardPages(0)).Ok? && ObtainKey(Board, boardPages(0)).value != ""
    ensures var run := Gather(PinterestPager(searchType, target, fits, oldest, add, boardPages), Start(), responses);
      && (searchType.Board? ==>
            && run.obtained <= 1
            && forall k :: 0 <= k < |run.requests| ==> run.requests[k].key == ObtainKey(Board, boardPages(0)).value)
      && (searchType.User? || searchType.Tags? ==> run.obtained == 0)
  {
    var p := PinterestPager(searchType, target, fits, oldest, add, boardPages);
    var s := Start();
    if searchType.Board? {
      var id := ObtainKey(Board, boardPages(0)).value;
      if Continues(p, s) && |responses| > 0 && Ending(p, s, responses[0]).None? {
        assert KeyFor(p, s) == Ok(id);
        var next := Next(p, s, id, responses[0]);
        assert next.key == id && next.obtained == 1;
        KeyKept(p, next, responses[1..]);
      }
    } else if !searchType.Invalid? {
      KeyKept(p, s, responses);
    }
  }

  /** `GatherPostsAsync`: the pins gathered, or the exception that escaped the loop. */
  function GatherPostsAsync(searchType: SearchType, target: int, fits: (int, int) -> bool, oldest: int,
                            add: (seq<PinterestPost>, PinterestPost) -> Added<PinterestPost>,
                            boardPages: nat -> Result<Client.ClientResult<string>>, responses: seq<Response<PinterestPage>>)
    : (r: Result<seq<PinterestPost>>)
    ensures var run := Gather(PinterestPager(searchType, target, fits, oldest, add, boardPages), Start(), responses);
      && (r.Err? <==> run.halt.Raised?)
      && (r.Ok? ==> r.value == Replay(add, [], run.offered).list)
  {
    var run := Gather(PinterestPager(searchType, target, fits, oldest, add, boardPages), Start(), responses);
    if run.halt.Raised? then Err(run.halt.error) else Ok(run.list)
  }

  // ---------------------------------------------------------------------------
  // GetPinterestImagesAsync

  /** `GetPinterestImagesAsync`: an image path is answered verbatim; otherwise the segment
      after "/pin/" up to the next '/', possibly empty, is looked up. */
  function PinterestImages(url: string, isImagePath: string -> bool, lookup: string -> Option<PinterestPost>,
                           images: PinterestPost -> ImageResponse): (r: ImageResponse)
    ensures isImagePath(Client.RemoveQuery(url)) ==> r == FromUrl(Client.RemoveQuery(url))
    ensures !CaseInsContains(Client.RemoveQuery(url), "/pin/") && !isImagePath(Client.RemoveQuery(url)) ==> r == NotFound(url)
  {
    ResolvePost(url, isImagePath, "/pin/", false, lookup, images).value
  }

  /** A pin url `prefix + "/pin/" + id + tail` resolves to the images of the pin looked up
      by `id`, or is not found when the lookup fails. */
  lemma PinterestImagesOfPinUrl(prefix: string, id: string, tail: string, isImagePath: string -> bool,
                                lookup: string -> Option<PinterestPost>, images: PinterestPost -> ImageResponse)
    requires '/' !in id && '?' !in id && '#' !in id && id != []
    requires tail == [] || tail[0] == '/'
    requires '?' !in prefix + "/pin/" + tail && '#' !in prefix + "/pin/" + tail
    requires FoldFree(prefix + "/pin/" + id + tail, "/pin/", |prefix|)
    requires !isImagePath(prefix + "/pin/" + id + tail)
    ensures PinterestImages(prefix + "/pin/" + id + tail, isImagePath, lookup, images)
         == if lookup(id).Some? then images(lookup(id).value) else NotFound(prefix + "/pin/" + id + tail)
  {
    ResolvedId(prefix, "/pin/", id, tail, isImagePath);
  }
}
