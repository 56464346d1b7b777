/** The 4chan downloader: either one thread, or every thread on board pages 1 to 9 in
    order. Within a thread, posts are examined while the list is short of the target; an
    old post ends only its own thread, while `Add` answering false ends everything. */
module FourChan {
  import opened Wrappers
  import opened Gathering
  import opened FourChanPosts

  /** A thread as the 4chan library returns it. */
  datatype ChanThread = ChanThread(posts: seq<ChanPost>)

  /** The settings the downloader reads. `fits` is `HasValidSize` on a width and height;
      `threads` and `pages` are the library's thread and board-page fetches, which can
      raise. */
  datatype Settings = Settings(
    target: int,
    oldest: int,
    board: string,
    threadId: int,
    fits: (int, int) -> bool,
    add: (seq<FourChanPost>, FourChanPost) -> Added<FourChanPost>,
    thread: (string, int) -> Result<ChanThread>,
    page: (string, int) -> Result<seq<ChanThread>>)

  /** Whether the library marks a post as deleted; an unknown answer counts as not deleted. */
  predicate Hidden(c: ChanPost) {
    c.isStickied || c.isArchived || c.isFileDeleted.GetOr(false)
  }

  /** The per-post rule of `ProcessThread`: an old post stops the thread; a stickied,
      archived or deleted post, or one whose size (a missing dimension counting as -1)
      fails, is skipped; any other is offered. */
  function Decide(s: Settings, threadId: int): (d: ChanPost -> Verdict<FourChanPost>)
    ensures forall c :: !d(c).Fault?
  {
    (c: ChanPost) =>
      var post := Make(c, threadId);
      if CreatedAt(post) < s.oldest then Stop
      else if Hidden(c) then Skip
      else if !s.fits(Width(post), Height(post)) then Skip
      else Offer(post)
  }

  /** A post the per-post rule accepts, as a reference definition over the library's
      fields: created no earlier than the cutoff, neither stickied, archived nor marked
      deleted, and of a valid size with a missing dimension counting as -1. */
  predicate Accepted(s: Settings, c: ChanPost) {
    && EpochTicks + c.unixTimestamp * TicksPerSecond >= s.oldest
    && !c.isStickied
    && !c.isArchived
    && c.isFileDeleted != Some(true)
    && s.fits(c.imageWidth.GetOr(-1), c.imageHeight.GetOr(-1))
  }

  function AcceptedPosts(s: Settings, threadId: int, posts: seq<ChanPost>): seq<FourChanPost> {
    if |posts| == 0 then []
    else (if Accepted(s, posts[0]) then [Make(posts[0], threadId)] else []) + AcceptedPosts(s, threadId, posts[1..])
  }

  /** The posts the rule offers are exactly the accepted ones, in order. */
  lemma {:induction false} OffersAccepted(s: Settings, threadId: int, posts: seq<ChanPost>)
    ensures Offers(posts, Decide(s, threadId)) == AcceptedPosts(s, threadId, posts)
    decreases |posts|
  {
    if |posts| > 0 {
      OffersAccepted(s, threadId, posts[1..]);
      OfferedWhenAccepted(s, threadId, posts[0]);
    }
  }

  /** One post is offered, as itself, exactly when it is accepted. */
  lemma OfferedWhenAccepted(s: Settings, threadId: int, c: ChanPost)
    ensures Decide(s, threadId)(c).Offer? <==> Accepted(s, c)
    ensures Decide(s, threadId)(c).Offer? ==> Decide(s, threadId)(c).post == Make(c, threadId)
  {
    var post := Make(c, threadId);
    StopsExactlyWhenOld(s, threadId, c);
    assert Width(post) == c.imageWidth.GetOr(-1);
    assert Height(post) == c.imageHeight.GetOr(-1);
    assert Hidden(c) <==> c.isStickied || c.isArchived || c.isFileDeleted == Some(true);
    assert Decide(s, threadId)(c) == if CreatedAt(post) < s.oldest then Stop
      else if Hidden(c) then Skip
      else if !s.fits(Width(post), Height(post)) then Skip
      else Offer(post);
  }

  /** A post stops its thread exactly when it was created before the cutoff. */
  lemma StopsExactlyWhenOld(s: Settings, threadId: int, c: ChanPost)
    ensures Decide(s, threadId)(c).Stop? <==> EpochTicks + c.unixTimestamp * TicksPerSecond < s.oldest
  {
    assert CreatedAt(Make(c, threadId)) == EpochTicks + c.unixTimestamp * TicksPerSecond;
  }

  /** How a thread's walk ended. */
  datatype ThreadEnd = Exhausted | Full | OldPost | Refused

  /** The list after a thread, the posts given to `Add`, the posts examined and why the
      walk ended. */
  datatype Processed = Processed(list: seq<FourChanPost>, offered: seq<FourChanPost>, examined: nat, end: ThreadEnd)

  /** `ProcessThread`'s loop. */
  function Walk(s: Settings, threadId: int, posts: seq<ChanPost>, list: seq<FourChanPost>): (r: Processed)
    ensures r.examined <= |posts|
    ensures r.end.Exhausted? ==> r.examined == |posts| && |r.list| < s.target
    ensures r.end.Full? ==> |r.list| >= s.target
    ensures r.end.OldPost? ==> r.examined > 0 && CreatedAt(Make(posts[r.examined - 1], threadId)) < s.oldest
    ensures r.end.Refused? ==> |r.offered| > 0 && !Replay(s.add, list, r.offered).keepGoing
    ensures r.list == Replay(s.add, list, r.offered).list
    decreases |posts|
  {
    if |list| >= s.target then Processed(list, [], 0, Full)
    else if |posts| == 0 then Processed(list, [], 0, Exhausted)
    else
      var v := Decide(s, threadId)(posts[0]);
      if v.Stop? then Processed(list, [], 1, OldPost)
      else if v.Offer? then
        var a := s.add(list, v.post);
        if !a.keepGoing then Processed(a.list, [v.post], 1, Refused)
        else
          var rest := Walk(s, threadId, posts[1..], a.list);
          assert ([v.post] + rest.offered)[1..] == rest.offered;
          Processed(rest.list, [v.post] + rest.offered, rest.examined + 1, rest.end)
      else
        var rest := Walk(s, threadId, posts[1..], list);
        Processed(rest.list, rest.offered, rest.examined + 1, rest.end)
  }

  /** `ProcessThread`'s answer: true after an old post, false after `Add` declined, and
      otherwise whether the list is still short of the target. */
  function Answer(s: Settings, r: Processed): (goOn: bool)
    ensures goOn ==> r.end.OldPost? || |r.list| < s.target
    ensures r.end.Refused? ==> !goOn
  {
    match r.end
    case OldPost => true
    case Refused => false
    case _ => |r.list| < s.target
  }

  /** The posts given to `Add` are those the per-post rule offers among the posts
      examined. */
  lemma {:induction false} WalkOffers(s: Settings, threadId: int, posts: seq<ChanPost>, list: seq<FourChanPost>)
    ensures var r := Walk(s, threadId, posts, list);
      r.offered == Offers(posts[..r.examined], Decide(s, threadId))
    decreases |posts|
  {
    if |list| < s.target && |posts| > 0 {
      var v := Decide(s, threadId)(posts[0]);
      if !v.Stop? {
        var next := if v.Offer? then s.add(list, v.post).list else list;
        if !v.Offer? || s.add(list, v.post).keepGoing {
          WalkOffers(s, threadId, posts[1..], next);
          var rest := Walk(s, threadId, posts[1..], next);
          WalkStep(s, threadId, posts, list);
          FirstThenRest(posts, rest.examined);
          OffersSplit([posts[0]], posts[1..][..rest.examined], Decide(s, threadId));
        } else {
          assert posts[..1] == [posts[0]];
        }
      } else {
        assert posts[..1] == [posts[0]];
      }
    }
  }

  /** The posts given to `Add` are the accepted ones among the posts examined. */
  lemma WalkOffersAccepted(s: Settings, threadId: int, posts: seq<ChanPost>, list: seq<FourChanPost>)
    ensures var r := Walk(s, threadId, posts, list);
      r.offered == AcceptedPosts(s, threadId, posts[..r.examined])
  {
    WalkOffers(s, threadId, posts, list);
    OffersAccepted(s, threadId, posts[..Walk(s, threadId, posts, list).examined]);
  }

  /** A walk that goes past the first post continues with the rest from the list after it. */
  lemma WalkStep(s: Settings, threadId: int, posts: seq<ChanPost>, list: seq<FourChanPost>)
    requires |list| < s.target && |posts| > 0
    requires !Decide(s, threadId)(posts[0]).Stop?
    requires Decide(s, threadId)(posts[0]).Offer? ==> s.add(list, Decide(s, threadId)(posts[0]).post).keepGoing
    ensures var v := Decide(s, threadId)(posts[0]);
      var next := if v.Offer? then s.add(list, v.post).list else list;
      var rest := Walk(s, threadId, posts[1..], next);
      var r := Walk(s, threadId, posts, list);
      && r.examined == rest.examined + 1
      && r.end == rest.end
      && r.offered == (if v.Offer? then [v.post] else []) + rest.offered
  {
  }

  lemma FirstThenRest<T>(xs: seq<T>, n: nat)
    requires n < |xs|
    ensures xs[..n + 1] == [xs[0]] + xs[1..][..n]
  {
  }

  /** Every post before the last examined one was skipped or offered, and so was the last
      unless the walk ended on an old post. */
  lemma {:induction false} WalkStopsOnlyLast(s: Settings, threadId: int, posts: seq<ChanPost>, list: seq<FourChanPost>)
    ensures var r := Walk(s, threadId, posts, list);
      forall k :: 0 <= k < r.examined && (k < r.examined - 1 || !r.end.OldPost?) ==> !Decide(s, threadId)(posts[k]).Stop?
    decreases |posts|
  {
    var r := Walk(s, threadId, posts, list);
    if |list| < s.target && |posts| > 0 {
      var v := Decide(s, threadId)(posts[0]);
      if !v.Stop? {
        var next := if v.Offer? then s.add(list, v.post).list else list;
        if !v.Offer? || s.add(list, v.post).keepGoing {
          WalkStopsOnlyLast(s, threadId, posts[1..], next);
          WalkStep(s, threadId, posts, list);
          forall k | 1 <= k < r.examined
            ensures posts[k] == posts[1..][k - 1]
          {
          }
        }
      }
    }
  }

  /** A thread with no old post, given an `Add` that never answers false, is walked to its
      end or until the list reaches the target. */
  lemma {:induction false} WalkOfAcceptingThread(s: Settings, threadId: int, posts: seq<ChanPost>, list: seq<FourChanPost>)
    requires forall k :: 0 <= k < |posts| ==> !Decide(s, threadId)(posts[k]).Stop?
    requires forall l, x :: s.add(l, x).keepGoing
    ensures var r := Walk(s, threadId, posts, list);
      r.end.Exhausted? || r.end.Full?
    decreases |posts|
  {
    if |list| < s.target && |posts| > 0 {
      var v := Decide(s, threadId)(posts[0]);
      var next := if v.Offer? then s.add(list, v.post).list else list;
      WalkOfAcceptingThread(s, threadId, posts[1..], next);
    }
  }

  /** `ProcessThread`: the walk and its answer. */
  function ProcessThread(s: Settings, list: seq<FourChanPost>, thread: ChanThread, threadId: int): (r: (Processed, bool))
    ensures r.0 == Walk(s, threadId, thread.posts, list)
    ensures r.1 ==> r.0.end.OldPost? || |r.0.list| < s.target
    ensures r.0.end.OldPost? ==> r.1
    ensures r.0.end.Refused? ==> !r.1
  {
    var w := Walk(s, threadId, thread.posts, list);
    (w, Answer(s, w))
  }

  /** The outcome of gathering: the list, the posts given to `Add`, the board pages
      fetched, and whether a thread's answer ended it. */
  datatype Gathered = Gathered(list: seq<FourChanPost>, offered: seq<FourChanPost>, pages: seq<int>, stopped: bool)

  /** The threads of one page, each identified by its first post's number; a thread with
      no posts raises, since its first post is read before processing. */
  function Threads(s: Settings, threads: seq<ChanThread>, list: seq<FourChanPost>): (r: Result<Gathered>)
    ensures r.Ok? ==> r.value.pages == [] && r.value.list == Replay(s.add, list, r.value.offered).list
    ensures r.Err? ==> r.error == ArgumentOutOfRange
    decreases |threads|
  {
    if |threads| == 0 then Ok(Gathered(list, [], [], false))
    else if |threads[0].posts| == 0 then Err(ArgumentOutOfRange)
    else
      var (w, goOn) := ProcessThread(s, list, threads[0], threads[0].posts[0].postNumber);
      if !goOn then Ok(Gathered(w.list, w.offered, [], true))
      else
        var rest :- Threads(s, threads[1..], w.list);
        ReplayListAppend(s.add, list, w.offered, rest.offered);
        Ok(Gathered(rest.list, w.offered + rest.offered, [], rest.stopped))
  }

  /** An old post ends only its own thread: the following threads are processed as if
      that thread had been the first. */
  lemma OldPostEndsOnlyThread(s: Settings, threads: seq<ChanThread>, list: seq<FourChanPost>)
    requires |threads| > 0 && |threads[0].posts| > 0
    requires Walk(s, threads[0].posts[0].postNumber, threads[0].posts, list).end.OldPost?
    ensures var w := Walk(s, threads[0].posts[0].postNumber, threads[0].posts, list);
      && (Threads(s, threads, list).Ok? <==> Threads(s, threads[1..], w.list).Ok?)
      && (Threads(s, threads, list).Ok? ==>
            && Threads(s, threads, list).value.list == Threads(s, threads[1..], w.list).value.list
            && Threads(s, threads, list).value.stopped == Threads(s, threads[1..], w.list).value.stopped)
  {
  }

  /** Board pages `i` to 9, in order, until a thread answers false. */
  function Pages(s: Settings, i: int, list: seq<FourChanPost>): (r: Result<Gathered>)
    requires 1 <= i <= 10
    ensures r.Ok? ==> |r.value.pages| <= 10 - i
    ensures r.Ok? ==> forall k :: 0 <= k < |r.value.pages| ==> r.value.pages[k] == i + k
    ensures r.Ok? && !r.value.stopped ==> |r.value.pages| == 10 - i
    ensures r.Ok? ==> r.value.list == Replay(s.add, list, r.value.offered).list
    decreases 10 - i
  {
    if i == 10 then Ok(Gathered(list, [], [], false))
    else
      var threads :- s.page(s.board, i);
      var here :- Threads(s, threads, list);
      if here.stopped then Ok(Gathered(here.list, here.offered, [i], true))
      else
        var rest :- Pages(s, i + 1, here.list);
        ReplayListAppend(s.add, list, here.offered, rest.offered);
        Ok(Gathered(rest.list, here.offered + rest.offered, [i] + rest.pages, rest.stopped))
  }

  /** `GatherPostsAsync`: a positive thread id processes that thread alone and fetches no
      board page; otherwise pages 1 to 9 are processed in order, every one of them unless a
      thread answered false. */
  function GatherPostsAsync(s: Settings): (r: Result<Gathered>)
    ensures r.Ok? ==> r.value.list == Replay(s.add, [], r.value.offered).list
    ensures s.threadId > 0 ==> r == (match s.thread(s.board, s.threadId)
                                     case Err(e) => Err(e)
                                     case Ok(t) => var w := Walk(s, s.threadId, t.posts, []);
                                                   Ok(Gathered(w.list, w.offered, [], false)))
    ensures s.threadId <= 0 && r.Ok? ==> |r.value.pages| <= 9 && forall k :: 0 <= k < |r.value.pages| ==> r.value.pages[k] == k + 1
    ensures s.threadId <= 0 && r.Ok? && !r.value.stopped ==> r.value.pages == [1, 2, 3, 4, 5, 6, 7, 8, 9]
  {
    if s.threadId > 0 then
      var t :- s.thread(s.board, s.threadId);
      var (w, _) := ProcessThread(s, [], t, s.threadId);
      Ok(Gathered(w.list, w.offered, [], false))
    else
      var r := Pages(s, 1, []);
      if r.Ok? && !r.value.stopped then
        AllPages(r.value.pages);
        r
      else r
  }

  lemma AllPages(pages: seq<int>)
    requires |pages| == 9 && forall k :: 0 <= k < |pages| ==> pages[k] == 1 + k
    ensures pages == [1, 2, 3, 4, 5, 6, 7, 8, 9]
  {
  }
}
