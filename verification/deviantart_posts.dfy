/** The DeviantArt post as both downloaders keep it, the finishing pass that removes
    duplicate sources and orders by favourites (`GroupBy(x => x.Source).Select(x =>
    x.First()).OrderByDescending(x => x.Favorites)`), and the content-link score. */
module DeviantArtPosts {
  import opened Wrappers
  import opened Text

  /** A gathered post: its page url, its id, and its favourite count (negative when the
      source did not report one). */
  datatype DeviantArtPost = DeviantArtPost(source: string, postId: int, favorites: int)

  function Sources(posts: seq<DeviantArtPost>): set<string> {
    set k | 0 <= k < |posts| :: posts[k].source
  }

  /** The first post with the given source, if any. */
  function FirstWithSource(posts: seq<DeviantArtPost>, source: string): Option<DeviantArtPost> {
    if |posts| == 0 then None
    else if posts[0].source == source then Some(posts[0])
    else FirstWithSource(posts[1..], source)
  }

  /** `a` is `b` with some elements left out, the rest in their order. */
  predicate IsSubsequence(a: seq<DeviantArtPost>, b: seq<DeviantArtPost>)
    decreases |b|
  {
    if |a| == 0 then true
    else if |b| == 0 then false
    else if a[|a| - 1] == b[|b| - 1] then IsSubsequence(a[..|a| - 1], b[..|b| - 1])
    else IsSubsequence(a, b[..|b| - 1])
  }

  // ---------------------------------------------------------------------------
  // GroupBy(Source).Select(First)

  /** One post per source, the first one seen, in the order the sources first appear. */
  function DedupBySource(posts: seq<DeviantArtPost>): (r: seq<DeviantArtPost>)
    ensures Sources(r) == Sources(posts)
    ensures forall i, j :: 0 <= i < j < |r| ==> r[i].source != r[j].source
    decreases |posts|
  {
    if |posts| == 0 then []
    else
      var init := posts[..|posts| - 1];
      var last := posts[|posts| - 1];
      var kept := DedupBySource(init);
      assert Sources(posts) == Sources(init) + {last.source} by {
        assert posts == init + [last];
      }
      if last.source in Sources(init) then kept
      else
        assert Sources(kept + [last]) == Sources(kept) + {last.source} by {
          forall s | s in Sources(kept + [last]) ensures s in Sources(kept) + {last.source} {
            var k :| 0 <= k < |kept + [last]| && (kept + [last])[k].source == s;
            if k < |kept| { assert kept[k].source == s; }
          }
          forall s | s in Sources(kept) ensures s in Sources(kept + [last]) {
            var k :| 0 <= k < |kept| && kept[k].source == s;
            assert (kept + [last])[k].source == s;
          }
          assert (kept + [last])[|kept|].source == last.source;
        }
        kept + [last]
  }

  lemma {:induction false} FirstWithSourceAppend(posts: seq<DeviantArtPost>, x: DeviantArtPost, source: string)
    ensures FirstWithSource(posts + [x], source) ==
      if FirstWithSource(posts, source).Some? then FirstWithSource(posts, source)
      else if x.source == source then Some(x) else None
    decreases |posts|
  {
    if |posts| > 0 {
      assert (posts + [x])[1..] == posts[1..] + [x];
      FirstWithSourceAppend(posts[1..], x, source);
    }
  }

  lemma {:induction false} FirstWithSourceFound(posts: seq<DeviantArtPost>, source: string)
    ensures FirstWithSource(posts, source).Some? <==> source in Sources(posts)
    ensures FirstWithSource(posts, source).Some? ==> FirstWithSource(posts, source).value.source == source
    decreases |posts|
  {
    if |posts| > 0 {
      FirstWithSourceFound(posts[1..], source);
      assert Sources(posts) == {posts[0].source} + Sources(posts[1..]) by {
        forall s | s in Sources(posts) ensures s in {posts[0].source} + Sources(posts[1..]) {
          var k :| 0 <= k < |posts| && posts[k].source == s;
          if k > 0 { assert posts[1..][k - 1].source == s; }
        }
        forall s | s in Sources(posts[1..]) ensures s in Sources(posts) {
          var k :| 0 <= k < |posts[1..]| && posts[1..][k].source == s;
          assert posts[k + 1].source == s;
        }
      }
    }
  }

  /** Each kept post is the first one with its source, and the kept posts appear in the
      input in the same order. */
  lemma {:induction false} DedupKeepsFirst(posts: seq<DeviantArtPost>)
    ensures forall k :: 0 <= k < |DedupBySource(posts)| ==>
      FirstWithSource(posts, DedupBySource(posts)[k].source) == Some(DedupBySource(posts)[k])
    ensures IsSubsequence(DedupBySource(posts), posts)
    decreases |posts|
  {
    if |posts| > 0 {
      var init := posts[..|posts| - 1];
      var last := posts[|posts| - 1];
      assert posts == init + [last];
      DedupKeepsFirst(init);
      var kept := DedupBySource(init);
      var r := DedupBySource(posts);
      forall k | 0 <= k < |r|
        ensures FirstWithSource(posts, r[k].source) == Some(r[k])
      {
        FirstWithSourceAppend(init, last, r[k].source);
        if k < |kept| {
          assert r[k] == kept[k];
        } else {
          assert r[k] == last;
          FirstWithSourceFound(init, last.source);
        }
      }
      if last.source in Sources(init) {
        SubsequenceExtend(kept, init, last);
      } else {
        assert r[..|r| - 1] == kept;
      }
    }
  }

  lemma {:induction false} SubsequenceExtend(a: seq<DeviantArtPost>, b: seq<DeviantArtPost>, x: DeviantArtPost)
    requires IsSubsequence(a, b)
    ensures IsSubsequence(a, b + [x])
    decreases |b|, 1
  {
    if |a| > 0 {
      assert (b + [x])[..|b|] == b;
      if a[|a| - 1] == x {
        SubsequenceDrop(a, b);
      }
    }
  }

  lemma {:induction false} SubsequenceDrop(a: seq<DeviantArtPost>, b: seq<DeviantArtPost>)
    requires |a| > 0 && IsSubsequence(a, b)
    ensures IsSubsequence(a[..|a| - 1], b)
    decreases |b|, 0
  {
    if |b| > 0 {
      if a[|a| - 1] == b[|b| - 1] {
        SubsequenceExtend(a[..|a| - 1], b[..|b| - 1], b[|b| - 1]);
        assert b[..|b| - 1] + [b[|b| - 1]] == b;
      } else {
        SubsequenceDrop(a, b[..|b| - 1]);
        SubsequenceExtend(a[..|a| - 1], b[..|b| - 1], b[|b| - 1]);
        assert b[..|b| - 1] + [b[|b| - 1]] == b;
      }
    }
  }

  // ---------------------------------------------------------------------------
  // OrderByDescending(Favorites), a stable sort

  predicate SortedByFavorites(posts: seq<DeviantArtPost>) {
    forall i, j :: 0 <= i < j < |posts| ==> posts[i].favorites >= posts[j].favorites
  }

  /** The posts with a given favourite count, in order. */
  function WithFavorites(posts: seq<DeviantArtPost>, f: int): seq<DeviantArtPost> {
    if |posts| == 0 then []
    else (if posts[0].favorites == f then [posts[0]] else []) + WithFavorites(posts[1..], f)
  }

  /** Places `x` after every post with at least its favourites. */
  function Insert(x: DeviantArtPost, sorted: seq<DeviantArtPost>): seq<DeviantArtPost> {
    if |sorted| == 0 then [x]
    else if sorted[0].favorites >= x.favorites then [sorted[0]] + Insert(x, sorted[1..])
    else [x] + sorted
  }

  function SortByFavorites(posts: seq<DeviantArtPost>): seq<DeviantArtPost>
    decreases |posts|
  {
    if |posts| == 0 then []
    else Insert(posts[|posts| - 1], SortByFavorites(posts[..|posts| - 1]))
  }

  lemma InsertFacts(x: DeviantArtPost, sorted: seq<DeviantArtPost>)
    requires SortedByFavorites(sorted)
    ensures SortedByFavorites(Insert(x, sorted))
    ensures multiset(Insert(x, sorted)) == multiset(sorted) + multiset{x}
  {
    InsertMultiset(x, sorted);
    InsertSorted(x, sorted);
  }

  lemma {:induction false} InsertMultiset(x: DeviantArtPost, sorted: seq<DeviantArtPost>)
    ensures multiset(Insert(x, sorted)) == multiset(sorted) + multiset{x}
    decreases |sorted|
  {
    if |sorted| > 0 && sorted[0].favorites >= x.favorites {
      InsertMultiset(x, sorted[1..]);
      assert sorted == [sorted[0]] + sorted[1..];
    }
  }

  lemma {:induction false} InsertSorted(x: DeviantArtPost, sorted: seq<DeviantArtPost>)
    requires SortedByFavorites(sorted)
    ensures SortedByFavorites(Insert(x, sorted))
    decreases |sorted|
  {
    if |sorted| > 0 {
      if sorted[0].favorites >= x.favorites {
        InsertSorted(x, sorted[1..]);
        InsertMultiset(x, sorted[1..]);
        RestBelowHead(x, sorted);
        SortedCons(sorted[0], Insert(x, sorted[1..]));
      } else {
        SortedCons(x, sorted);
      }
    }
  }

  /** Inserting into the tail keeps every post at or below the head's favourites. */
  lemma RestBelowHead(x: DeviantArtPost, sorted: seq<DeviantArtPost>)
    requires SortedByFavorites(sorted) && |sorted| > 0 && sorted[0].favorites >= x.favorites
    requires multiset(Insert(x, sorted[1..])) == multiset(sorted[1..]) + multiset{x}
    ensures forall m :: 0 <= m < |Insert(x, sorted[1..])| ==> Insert(x, sorted[1..])[m].favorites <= sorted[0].favorites
  {
    var rest := Insert(x, sorted[1..]);
    forall m | 0 <= m < |rest|
      ensures rest[m].favorites <= sorted[0].favorites
    {
      assert rest[m] in multiset(rest);
      if rest[m] != x {
        assert rest[m] in multiset(sorted[1..]);
        var t :| 0 <= t < |sorted[1..]| && sorted[1..][t] == rest[m];
        assert sorted[1 + t] == rest[m];
      }
    }
  }

  /** A post with at least the favourites of every post of a sorted list can lead it. */
  lemma SortedCons(head: DeviantArtPost, rest: seq<DeviantArtPost>)
    requires SortedByFavorites(rest)
    requires forall m :: 0 <= m < |rest| ==> rest[m].favorites <= head.favorites
    ensures SortedByFavorites([head] + rest)
  {
    var r := [head] + rest;
    forall i, j | 0 <= i < j < |r|
      ensures r[i].favorites >= r[j].favorites
    {
      assert r[j] == rest[j - 1];
      if i > 0 {
        assert r[i] == rest[i - 1];
      }
    }
  }

  lemma {:induction false} WithFavoritesAppend(a: seq<DeviantArtPost>, b: seq<DeviantArtPost>, f: int)
    ensures WithFavorites(a + b, f) == WithFavorites(a, f) + WithFavorites(b, f)
    decreases |a|
  {
    if |a| == 0 {
      assert a + b == b;
    } else {
      var h := if a[0].favorites == f then [a[0]] else [];
      assert (a + b)[0] == a[0];
      assert (a + b)[1..] == a[1..] + b;
      WithFavoritesAppend(a[1..], b, f);
      assert WithFavorites(a + b, f) == h + WithFavorites(a[1..] + b, f);
      assert h + (WithFavorites(a[1..], f) + WithFavorites(b, f)) == (h + WithFavorites(a[1..], f)) + WithFavorites(b, f);
    }
  }

  lemma {:induction false} WithFavoritesNone(posts: seq<DeviantArtPost>, f: int)
    requires forall k :: 0 <= k < |posts| ==> posts[k].favorites < f
    ensures WithFavorites(posts, f) == []
    decreases |posts|
  {
    if |posts| > 0 {
      WithFavoritesNone(posts[1..], f);
    }
  }

  /** Insertion keeps the posts of each favourite count in their order, with `x` last
      among those of its own count. */
  lemma {:induction false} InsertStable(x: DeviantArtPost, sorted: seq<DeviantArtPost>, f: int)
    requires SortedByFavorites(sorted)
    ensures WithFavorites(Insert(x, sorted), f) == WithFavorites(sorted, f) + WithFavorites([x], f)
    decreases |sorted|
  {
    if |sorted| == 0 {
    } else if sorted[0].favorites >= x.favorites {
      InsertStable(x, sorted[1..], f);
      assert ([sorted[0]] + Insert(x, sorted[1..]))[1..] == Insert(x, sorted[1..]);
    } else {
      assert ([x] + sorted)[1..] == sorted;
      if x.favorites == f {
        WithFavoritesNone(sorted, f);
      }
    }
  }

  /** `SortByFavorites` is a stable sort by descending favourites: the result is ordered,
      holds the same posts, and keeps the posts of each favourite count in input order. */
  lemma {:induction false} SortByFavoritesCorrect(posts: seq<DeviantArtPost>)
    ensures SortedByFavorites(SortByFavorites(posts))
    ensures multiset(SortByFavorites(posts)) == multiset(posts)
    ensures forall f :: WithFavorites(SortByFavorites(posts), f) == WithFavorites(posts, f)
    decreases |posts|
  {
    if |posts| > 0 {
      var init := posts[..|posts| - 1];
      var last := posts[|posts| - 1];
      assert posts == init + [last];
      SortByFavoritesCorrect(init);
      InsertFacts(last, SortByFavorites(init));
      forall f ensures WithFavorites(SortByFavorites(posts), f) == WithFavorites(posts, f) {
        InsertStable(last, SortByFavorites(init), f);
        WithFavoritesAppend(init, [last], f);
      }
    }
  }

  // ---------------------------------------------------------------------------
  // The finishing pass

  /** `OrderAndRemoveDuplicates`, also the return expression of the older downloader's
      `GatherPostsAsync`. */
  function OrderAndRemoveDuplicates(posts: seq<DeviantArtPost>): (r: seq<DeviantArtPost>)
    ensures Sources(r) == Sources(posts)
  {
    var kept := DedupBySource(posts);
    SortByFavoritesCorrect(kept);
    SourcesOfPermutation(kept, SortByFavorites(kept));
    SortByFavorites(kept)
  }

  lemma SourcesOfPermutation(a: seq<DeviantArtPost>, b: seq<DeviantArtPost>)
    requires multiset(a) == multiset(b)
    ensures Sources(a) == Sources(b)
  {
    forall s | s in Sources(a) ensures s in Sources(b) {
      var k :| 0 <= k < |a| && a[k].source == s;
      assert a[k] in multiset(b);
      var m :| 0 <= m < |b| && b[m] == a[k];
    }
    forall s | s in Sources(b) ensures s in Sources(a) {
      var k :| 0 <= k < |b| && b[k].source == s;
      assert b[k] in multiset(a);
      var m :| 0 <= m < |a| && a[m] == b[k];
    }
  }

  /** The finishing pass keeps exactly one post per source, the first one gathered, and
      orders them by descending favourites, ties in gathering order. */
  lemma OrderAndRemoveDuplicatesCorrect(posts: seq<DeviantArtPost>)
    ensures var r := OrderAndRemoveDuplicates(posts);
      && SortedByFavorites(r)
      && (forall i, j :: 0 <= i < j < |r| ==> r[i].source != r[j].source)
      && (forall k :: 0 <= k < |r| ==> FirstWithSource(posts, r[k].source) == Some(r[k]))
      && multiset(r) == multiset(DedupBySource(posts))
      && (forall f :: WithFavorites(r, f) == WithFavorites(DedupBySource(posts), f))
  {
    var kept := DedupBySource(posts);
    var r := OrderAndRemoveDuplicates(posts);
    SortByFavoritesCorrect(kept);
    DedupKeepsFirst(posts);
    forall k | 0 <= k < |r| ensures FirstWithSource(posts, r[k].source) == Some(r[k]) {
      assert r[k] in multiset(kept);
      var m :| 0 <= m < |kept| && kept[m] == r[k];
    }
    SortKeepsDistinctSources(kept);
  }

  predicate DistinctSources(posts: seq<DeviantArtPost>) {
    forall i, j :: 0 <= i < j < |posts| ==> posts[i].source != posts[j].source
  }

  lemma {:induction false} InsertMembers(x: DeviantArtPost, sorted: seq<DeviantArtPost>)
    ensures forall e :: e in Insert(x, sorted) ==> e == x || e in sorted
    decreases |sorted|
  {
    if |sorted| > 0 && sorted[0].favorites >= x.favorites {
      InsertMembers(x, sorted[1..]);
    }
  }

  lemma {:induction false} InsertDistinct(x: DeviantArtPost, sorted: seq<DeviantArtPost>)
    requires DistinctSources(sorted)
    requires forall k :: 0 <= k < |sorted| ==> sorted[k].source != x.source
    ensures DistinctSources(Insert(x, sorted))
    decreases |sorted|
  {
    if |sorted| > 0 && sorted[0].favorites >= x.favorites {
      var tail := sorted[1..];
      var rest := Insert(x, tail);
      InsertDistinct(x, tail);
      InsertMembers(x, tail);
      var r := [sorted[0]] + rest;
      forall i, j | 0 <= i < j < |r| ensures r[i].source != r[j].source {
        if i == 0 {
          var e := rest[j - 1];
          assert e in rest;
          if e != x {
            var m :| 0 <= m < |tail| && tail[m] == e;
            assert sorted[m + 1] == e;
          }
        } else {
          assert r[i] == rest[i - 1] && r[j] == rest[j - 1];
        }
      }
    }
  }

  /** Sorting does not bring two posts of the same source together: a list with distinct
      sources stays so. */
  lemma {:induction false} SortKeepsDistinctSources(posts: seq<DeviantArtPost>)
    requires DistinctSources(posts)
    ensures DistinctSources(SortByFavorites(posts))
    decreases |posts|
  {
    if |posts| > 0 {
      var init := posts[..|posts| - 1];
      var last := posts[|posts| - 1];
      assert DistinctSources(init) by {
        forall i, j | 0 <= i < j < |init| ensures init[i].source != init[j].source {
          assert init[i] == posts[i] && init[j] == posts[j];
        }
      }
      SortKeepsDistinctSources(init);
      SortByFavoritesCorrect(init);
      SourcesOfPermutation(init, SortByFavorites(init));
      var sorted := SortByFavorites(init);
      forall k | 0 <= k < |sorted| ensures sorted[k].source != last.source {
        assert sorted[k].source in Sources(sorted);
        var m :| 0 <= m < |init| && init[m].source == sorted[k].source;
        assert posts[m].source != posts[|posts| - 1].source;
      }
      InsertDistinct(last, sorted);
    }
  }

  // ---------------------------------------------------------------------------
  // Search terms

  /** The search term restricting results to posts at most `days` days old. */
  function AgeFilter(days: int): (f: string)
    ensures |f| > 0 && f[0] == 'm' && f[|f| - 1] == 'd'
  {
    "max_age:" + IntToString(days) + "d"
  }

  // ---------------------------------------------------------------------------
  // CreateContentLink

  /** A link to downloaded content with the score it is ranked by. */
  datatype ContentLink = ContentLink(uri: string, score: int, reason: string)

  /** `CreateContentLink`: the score is the favourite count when there is one (not
      negative), otherwise the post id. */
  function CreateContentLink(post: DeviantArtPost, uri: string, reason: string): (r: ContentLink)
    ensures r.uri == uri && r.reason == reason
    ensures r.score >= 0 ==> r.score == post.favorites || r.score == post.postId
    ensures post.favorites >= 0 <==> r.score == post.favorites && r.score >= 0
    ensures post.favorites < 0 ==> r.score == post.postId
  {
    ContentLink(uri, if post.favorites < 0 then post.postId else post.favorites, reason)
  }
}
