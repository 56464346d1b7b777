/** A 4chan post as the downloader keeps it: the post the 4chan library decoded and the
    decimal id of the thread it was posted in. Sizes, id, score, links and the creation
    time are derived from the decoded post. */
module FourChanPosts {
  import opened Wrappers
  import opened Text
  import opened Resolving
  import Client

  /** The fields of the library's decoded post that the downloader reads; its integers
      are 32-bit. */
  datatype ChanPost = ChanPost(
    postNumber: int,
    board: string,
    unixTimestamp: int,
    imageWidth: Option<int>,
    imageHeight: Option<int>,
    isStickied: bool,
    isArchived: bool,
    isFileDeleted: Option<bool>,
    hasImage: bool,
    fileName: string,
    fileExtension: string)

  datatype FourChanPost = FourChanPost(post: ChanPost, threadId: string)

  /** The constructor: the thread id is kept as its decimal rendering. */
  function Make(post: ChanPost, threadId: int): (r: FourChanPost)
    ensures r.post == post
    ensures IsInt32(threadId) ==> ConvertToInt32(r.threadId) == Ok(threadId)
  {
    ParsesBack(threadId);
    FourChanPost(post, IntToString(threadId))
  }

  lemma ParsesBack(n: int)
    ensures IsInt32(n) ==> ConvertToInt32(IntToString(n)) == Ok(n)
  {
    if IsInt32(n) {
      ParseOfIntToString(n);
    }
  }

  /** The size a missing dimension is reported as. */
  const Missing: int := -1

  function Width(p: FourChanPost): (r: int)
    ensures p.post.imageWidth.None? ==> r == Missing
    ensures p.post.imageWidth.Some? ==> r == p.post.imageWidth.value
  {
    p.post.imageWidth.GetOr(Missing)
  }

  function Height(p: FourChanPost): (r: int)
    ensures p.post.imageHeight.None? ==> r == Missing
    ensures p.post.imageHeight.Some? ==> r == p.post.imageHeight.value
  {
    p.post.imageHeight.GetOr(Missing)
  }

  /** 4chan has no score; every post reports the least 32-bit value, which is at or below
      every 32-bit minimum score. */
  function Score(p: FourChanPost): (r: int)
    ensures IsInt32(r)
    ensures forall m :: IsInt32(m) ==> r <= m
  {
    Int32Min
  }

  /** The decimal post number; `ToString` returns the same text. */
  function Id(p: FourChanPost): (r: string)
    ensures IsInt32(p.post.postNumber) ==> ConvertToInt32(r) == Ok(p.post.postNumber)
    ensures forall k :: 0 <= k < |r| ==> r[k] != '?' && r[k] != '#'
  {
    ParsesBack(p.post.postNumber);
    IntToString(p.post.postNumber)
  }

  function ToString(p: FourChanPost): (r: string)
    ensures r == Id(p)
  {
    Id(p)
  }

  /** The thread page, anchored at the post. */
  function PostUrl(p: FourChanPost): string {
    ThreadUrl(p) + "#p" + Id(p)
  }

  function ThreadUrl(p: FourChanPost): string {
    "http://boards.4chan.org/" + p.post.board + "/thread/" + p.threadId
  }

  /** The post url is the thread url plus an anchor naming the post: removing the query
      and fragment gives the thread url back, and the anchor after "#p" parses to the post
      number. */
  lemma PostUrlParts(p: FourChanPost)
    requires '?' !in p.post.board && '#' !in p.post.board
    requires '?' !in p.threadId && '#' !in p.threadId
    ensures Client.RemoveQuery(PostUrl(p)) == ThreadUrl(p)
    ensures PostUrl(p)[|ThreadUrl(p)| + 2..] == Id(p)
    ensures IsInt32(p.post.postNumber) ==> ConvertToInt32(PostUrl(p)[|ThreadUrl(p)| + 2..]) == Ok(p.post.postNumber)
  {
    ThreadUrlFree(p);
    Client.RemoveQueryAtMarker(ThreadUrl(p), "#p" + Id(p));
    AnchorAfter(ThreadUrl(p), Id(p));
  }

  lemma ThreadUrlFree(p: FourChanPost)
    requires '?' !in p.post.board && '#' !in p.post.board
    requires '?' !in p.threadId && '#' !in p.threadId
    ensures '?' !in ThreadUrl(p) && '#' !in ThreadUrl(p)
  {
  }

  lemma AnchorAfter(base: string, id: string)
    ensures base + "#p" + id == base + ("#p" + id)
    ensures (base + "#p" + id)[|base| + 2..] == id
  {
  }

  /** The host 4chan serves image files from. */
  const ImageHost: string := "http://i.4cdn.org/"

  /** `GetImagesAsync`: the file on 4chan's image host when the post has one, otherwise the
      post url as not found. */
  function Images(p: FourChanPost): (r: ImageResponse)
    ensures r.FromUrl? <==> p.post.hasImage
    ensures r.NotFound? <==> !p.post.hasImage
    ensures r.FromUrl? ==> EndsWith(r.url, "/" + p.post.fileName + p.post.fileExtension)
    ensures r.NotFound? ==> r.url == PostUrl(p)
  {
    if p.post.hasImage then
      var url := ImageHost + p.post.board + "/" + p.post.fileName + p.post.fileExtension;
      EndsWithConcat(url, ImageHost + p.post.board, "/" + p.post.fileName, p.post.fileExtension);
      assert ("/" + p.post.fileName) + p.post.fileExtension == "/" + p.post.fileName + p.post.fileExtension;
      FromUrl(url)
    else NotFound(PostUrl(p))
  }

  /** The image url of a post with a file, read back: it starts with the image host, and
      for a board without '/' the segment after the host is the board and the rest is the
      file name with its extension. */
  lemma ImageUrlParts(p: FourChanPost)
    requires p.post.hasImage
    ensures var u := Images(p).url;
      && |ImageHost| <= |u| && u[..|ImageHost|] == ImageHost
      && ('/' !in p.post.board ==>
            && FirstSegment(u[|ImageHost|..]) == p.post.board
            && u[|ImageHost| + |p.post.board| + 1..] == p.post.fileName + p.post.fileExtension)
  {
    var board := p.post.board;
    var file := p.post.fileName + p.post.fileExtension;
    var u := Images(p).url;
    assert u == ImageHost + (board + "/" + file);
    var rest := u[|ImageHost|..];
    assert rest == board + "/" + file;
    if '/' !in board {
      SegmentOfBoard(board, file);
    }
  }

  /** The first segment of `board + "/" + file` is `board` when `board` holds no '/'. */
  lemma SegmentOfBoard(board: string, file: string)
    requires '/' !in board
    ensures FirstSegment(board + "/" + file) == board
  {
    var rest := board + "/" + file;
    var id := FirstSegment(rest);
    assert rest[|board|] == '/';
    assert id == rest[..|id|] == board;
  }

  /** The ticks of .NET's `DateTime` at the Unix epoch, and ticks per second. */
  const EpochTicks: int := 621_355_968_000_000_000
  const TicksPerSecond: int := 10_000_000

  /** `CreatedAt`: the epoch plus the post's timestamp in seconds, in ticks. */
  function CreatedAt(p: FourChanPost): (r: int)
    ensures (r - EpochTicks) % TicksPerSecond == 0
    ensures (r - EpochTicks) / TicksPerSecond == p.post.unixTimestamp
  {
    EpochTicks + p.post.unixTimestamp * TicksPerSecond
  }

  /** Creation times compare as the timestamps do. */
  lemma CreatedAtOrder(a: FourChanPost, b: FourChanPost)
    ensures CreatedAt(a) < CreatedAt(b) <==> a.post.unixTimestamp < b.post.unixTimestamp
  {
    if a.post.unixTimestamp < b.post.unixTimestamp {
      assert (b.post.unixTimestamp - a.post.unixTimestamp) * TicksPerSecond > 0;
    } else {
      assert (a.post.unixTimestamp - b.post.unixTimestamp) * TicksPerSecond >= 0;
    }
  }
}
