/** The reddit downloader: the subreddit's hot listing is filtered to link posts that are
    not stickied and reach the score threshold, and the first `AmountToDownload` of them
    are taken. Fetching the subreddit is a parameter: its listing, or the exception the
    fetch raised. */
module Reddit {
  import opened Wrappers

  /** The fields of a reddit post the downloader reads. */
  datatype RedditPost = RedditPost(isStickied: bool, isSelfPost: bool, score: int, url: string)

  /** A link to animated content kept for later, with the score of its post. */
  datatype AnimatedContent = AnimatedContent(uri: string, score: int)

  /** The filter of `GatherPostsAsync`. */
  predicate Wanted(p: RedditPost, threshold: int) {
    !p.isStickied && !p.isSelfPost && p.score >= threshold
  }

  /** `Where(Wanted)`: the wanted posts of the listing, in listing order. */
  function WantedPosts(hot: seq<RedditPost>, threshold: int): (r: seq<RedditPost>)
    ensures |r| <= |hot|
    ensures forall k :: 0 <= k < |r| ==> Wanted(r[k], threshold)
  {
    if |hot| == 0 then []
    else (if Wanted(hot[0], threshold) then [hot[0]] else []) + WantedPosts(hot[1..], threshold)
  }

  /** A post is kept exactly when it is in the listing and wanted. */
  lemma {:induction false} WantedPostsMembers(hot: seq<RedditPost>, threshold: int, p: RedditPost)
    ensures p in WantedPosts(hot, threshold) <==> p in hot && Wanted(p, threshold)
    decreases |hot|
  {
    if |hot| > 0 {
      WantedPostsMembers(hot[1..], threshold, p);
      assert hot == [hot[0]] + hot[1..];
    }
  }

  /** Filtering distributes over concatenation, so the kept posts keep listing order. */
  lemma {:induction false} WantedPostsAppend(a: seq<RedditPost>, b: seq<RedditPost>, threshold: int)
    ensures WantedPosts(a + b, threshold) == WantedPosts(a, threshold) + WantedPosts(b, threshold)
    decreases |a|
  {
    if |a| == 0 {
      assert a + b == b;
    } else {
      assert (a + b)[1..] == a[1..] + b;
      WantedPostsAppend(a[1..], b, threshold);
    }
  }

  /** `Take(n)`: the first `n` items, none for a negative `n`. */
  function Take<T>(s: seq<T>, n: int): (r: seq<T>)
    ensures |r| == if n <= 0 then 0 else if n < |s| then n else |s|
    ensures r <= s
  {
    if n <= 0 then [] else if n < |s| then s[..n] else s
  }

  /** `GatherPostsAsync`: a `WebException` while fetching the subreddit gives no posts,
      any other exception escapes, and otherwise the first `amount` wanted posts of the
      listing are returned. */
  function GatherPostsAsync(subreddit: Result<seq<RedditPost>>, threshold: int, amount: int): (r: Result<seq<RedditPost>>)
    ensures subreddit.Err? && subreddit.error.Web? ==> r == Ok([])
    ensures subreddit.Err? && !subreddit.error.Web? ==> r == Err(subreddit.error)
    ensures subreddit.Ok? ==> r.Ok?
    ensures r.Ok? ==> |r.value| <= if amount < 0 then 0 else amount
    ensures r.Ok? ==> forall k :: 0 <= k < |r.value| ==> Wanted(r.value[k], threshold)
    ensures subreddit.Ok? ==> forall p :: p in r.value ==> p in subreddit.value
  {
    match subreddit
    case Err(e) => if e.Web? then Ok([]) else Err(e)
    case Ok(hot) =>
      var taken := Take(WantedPosts(hot, threshold), amount);
      forall p | p in taken
        ensures p in hot
      {
        WantedPostsMembers(hot, threshold, p);
      }
      Ok(taken)
  }

  /** The posts gathered are as many of the wanted posts, from the front of the listing,
      as the amount allows: all of them when there are few enough. */
  lemma GatheredPrefix(hot: seq<RedditPost>, threshold: int, amount: int)
    ensures var r := GatherPostsAsync(Ok(hot), threshold, amount).value;
      && r <= WantedPosts(hot, threshold)
      && (amount >= |WantedPosts(hot, threshold)| ==> r == WantedPosts(hot, threshold))
      && (0 <= amount <= |WantedPosts(hot, threshold)| ==> |r| == amount)
  {
  }

  /** A wanted post in the listing is gathered once the amount covers every wanted post
      up to and including it. */
  lemma {:induction false} WantedPostGathered(hot: seq<RedditPost>, threshold: int, amount: int, k: nat)
    requires k < |hot| && Wanted(hot[k], threshold)
    requires amount >= |WantedPosts(hot[..k + 1], threshold)|
    ensures hot[k] in GatherPostsAsync(Ok(hot), threshold, amount).value
  {
    var front := WantedPosts(hot[..k + 1], threshold);
    assert hot == hot[..k + 1] + hot[k + 1..];
    WantedPostsAppend(hot[..k + 1], hot[k + 1..], threshold);
    assert hot[..k + 1] == hot[..k] + [hot[k]];
    WantedPostsAppend(hot[..k], [hot[k]], threshold);
    assert WantedPosts([hot[k]], threshold) == [hot[k]];
    assert front[|front| - 1] == hot[k];
    var r := GatherPostsAsync(Ok(hot), threshold, amount).value;
    assert r[|front| - 1] == hot[k];
  }

  /** `StoreAnimatedContentLink`: the link is kept with its post's score. */
  function StoreAnimatedContentLink(p: RedditPost, uri: string): (r: AnimatedContent)
    ensures r.uri == uri && r.score == p.score
  {
    AnimatedContent(uri, p.score)
  }

  /** Every animated link stored for a gathered post carries a score at or above the
      threshold. */
  lemma GatheredLinksMeetThreshold(subreddit: Result<seq<RedditPost>>, threshold: int, amount: int, p: RedditPost, uri: string)
    requires GatherPostsAsync(subreddit, threshold, amount).Ok?
    requires p in GatherPostsAsync(subreddit, threshold, amount).value
    ensures StoreAnimatedContentLink(p, uri).score >= threshold
  {
  }
}
