/** What the url resolvers share: the response they give, the id found after a marker in
    a url, and the cut of a value out of a fetched page between a marker and a closing
    character.

    The cut exists twice. `CutAsWritten` is the `Substring(IndexOf(marker) +
    marker.Length)` idiom the downloaders use, which reads from a fixed offset when the
    marker is missing; `Cut` fails instead, and is the one the rest of the model uses. */
module Resolving {
  import opened Wrappers
  import opened Text
  import Client

  /** `ImageResponse` / `GatheredImagesResponse`: a direct image url, the images a
      gatherer found, a url whose post does not exist, or a url the gatherer does not
      understand. */
  datatype ImageResponse =
    | FromUrl(url: string)
    | FromGatherer(url: string, images: seq<string>)
    | NotFound(url: string)
    | Unknown(url: string)

  // ---------------------------------------------------------------------------
  // Ids in urls

  /** The text after the first case-insensitive occurrence of `marker`, if any. */
  function AfterMarker(u: string, marker: string): (r: Option<string>)
    ensures r.Some? <==> CaseInsContains(u, marker)
    ensures r.Some? ==> EndsWith(u, r.value) && |r.value| + |marker| <= |u|
  {
    match CaseInsIndexOf(u, marker)
    case None => None
    case Some(i) => Some(u[i + |marker|..])
  }

  /** `rest.Split('/')[0]`: the first segment, possibly empty. */
  function FirstSegment(rest: string): (id: string)
    ensures id <= rest && '/' !in id
    ensures |id| < |rest| ==> rest[|id|] == '/'
  {
    PrefixBefore(rest, {'/'})
  }

  /** `rest.Split('/', RemoveEmptyEntries)[0]`: the first non-empty segment; indexing an
      empty result raises. */
  function FirstNonEmptySegment(rest: string): (r: Result<string>)
    ensures r.Ok? ==> r.value != [] && '/' !in r.value
    ensures r.Err? <==> forall k :: 0 <= k < |rest| ==> rest[k] == '/'
    ensures r.Err? ==> r.error == IndexOutOfRange
  {
    var fields := Split(rest, '/');
    match FirstNonEmpty(fields)
    case None =>
      OnlySeparators(rest);
      Err(IndexOutOfRange)
    case Some(f) =>
      SomeNonSeparator(rest, f);
      Ok(f)
  }

  lemma OnlySeparators(rest: string)
    requires forall k :: 0 <= k < |Split(rest, '/')| ==> Split(rest, '/')[k] == []
    ensures forall k :: 0 <= k < |rest| ==> rest[k] == '/'
  {
    forall k | 0 <= k < |rest|
      ensures rest[k] == '/'
    {
      JoinOfEmptyFields(Split(rest, '/'), '/', k);
    }
  }

  lemma {:induction false} JoinOfEmptyFields(fields: seq<string>, sep: char, k: nat)
    requires |fields| > 0
    requires forall i :: 0 <= i < |fields| ==> fields[i] == []
    requires k < |Join(fields, sep)|
    ensures Join(fields, sep)[k] == sep
    decreases |fields|
  {
    if |fields| > 1 {
      var rest := Join(fields[1..], sep);
      assert Join(fields, sep) == [sep] + rest;
      if k > 0 {
        JoinOfEmptyFields(fields[1..], sep, k - 1);
      }
    }
  }

  lemma SomeNonSeparator(rest: string, f: string)
    requires f != [] && f in Split(rest, '/')
    ensures exists k :: 0 <= k < |rest| && rest[k] != '/'
  {
    var fields := Split(rest, '/');
    var i :| 0 <= i < |fields| && fields[i] == f;
    assert '/' !in f;
    var k := JoinPosition(fields, '/', i);
    assert rest[k] == f[0];
  }

  /** Where field `i` starts in the joined text. */
  lemma {:induction false} JoinPosition(fields: seq<string>, sep: char, i: nat) returns (k: nat)
    requires i < |fields| && |fields[i]| > 0
    ensures k < |Join(fields, sep)| && Join(fields, sep)[k] == fields[i][0]
    decreases |fields|
  {
    if i == 0 {
      k := 0;
      if |fields| > 1 {
        assert Join(fields, sep) == fields[0] + ([sep] + Join(fields[1..], sep));
      }
    } else {
      var j := JoinPosition(fields[1..], sep, i - 1);
      var tail := Join(fields[1..], sep);
      assert Join(fields, sep) == (fields[0] + [sep]) + tail;
      k := |fields[0]| + 1 + j;
      assert Join(fields, sep)[k] == tail[j];
    }
  }

  /** The first case-insensitive occurrence of a marker is found where it is. */
  lemma CaseInsIndexOfAt(s: string, pat: string, i: nat)
    requires FoldMatchesAt(s, i, pat)
    requires forall j :: 0 <= j < i ==> !FoldMatchesAt(s, j, pat)
    ensures CaseInsIndexOf(s, pat) == Some(i)
  {
  }

  predicate FoldFree(u: string, marker: string, n: nat) {
    forall j :: 0 <= j < n ==> !FoldMatchesAt(u, j, marker)
  }

  lemma FoldMatchesItself(prefix: string, marker: string, rest: string)
    ensures FoldMatchesAt(prefix + marker + rest, |prefix|, marker)
  {
    var u := prefix + marker + rest;
    forall k | 0 <= k < |marker|
      ensures ToLowerAscii(u[|prefix| + k]) == ToLowerAscii(marker[k])
    {
      assert u[|prefix| + k] == marker[k];
    }
  }

  /** Round trip: in a url built as `prefix + marker + id + tail`, where the marker does not
      occur earlier, `id` holds no '/' and `tail` is empty or starts a new segment, the
      first segment after the marker is `id`. */
  lemma SegmentRoundTrip(prefix: string, marker: string, id: string, tail: string)
    requires '/' !in id
    requires tail == [] || tail[0] == '/'
    requires FoldFree(prefix + marker + id + tail, marker, |prefix|)
    ensures AfterMarker(prefix + marker + id + tail, marker) == Some(id + tail)
    ensures FirstSegment(id + tail) == id
  {
    var u := prefix + marker + id + tail;
    assert u == prefix + marker + (id + tail);
    FoldMatchesItself(prefix, marker, id + tail);
    CaseInsIndexOfAt(u, marker, |prefix|);
    assert u[|prefix| + |marker|..] == id + tail;
    Client.SpanOfFreeText(id, {'/'});
    SpanOfPrefix(id, tail);
  }

  lemma SpanOfPrefix(id: string, tail: string)
    requires '/' !in id
    requires tail == [] || tail[0] == '/'
    ensures SpanUntil(id + tail, {'/'}) == |id|
  {
    var s := id + tail;
    var n := SpanUntil(s, {'/'});
    forall k | 0 <= k < |id|
      ensures s[k] !in {'/'}
    {
      assert s[k] == id[k];
    }
    if |tail| > 0 {
      assert s[|id|] == tail[0];
    }
  }

  // ---------------------------------------------------------------------------
  // The resolvers

  /** The id a resolver looks up for a url: the query is stripped, and an image path is
      answered without any lookup. `skipEmpty` selects `RemoveEmptyEntries`, whose empty
      result raises. */
  function RequestedId(url: string, isImagePath: string -> bool, marker: string, skipEmpty: bool): (r: Result<Option<string>>)
    ensures r.Ok? && r.value.Some? ==>
      && !isImagePath(Client.RemoveQuery(url))
      && AfterMarker(Client.RemoveQuery(url), marker).Some?
      && '/' !in r.value.value
    ensures isImagePath(Client.RemoveQuery(url)) ==> r == Ok(None)
    ensures !CaseInsContains(Client.RemoveQuery(url), marker) ==> r == Ok(None)
    ensures r.Err? ==> skipEmpty && r.error == IndexOutOfRange
  {
    var u := Client.RemoveQuery(url);
    if isImagePath(u) then Ok(None)
    else match AfterMarker(u, marker)
      case None => Ok(None)
      case Some(rest) =>
        if skipEmpty then
          match FirstNonEmptySegment(rest)
          case Err(e) => Err(e)
          case Ok(id) => Ok(Some(id))
        else Ok(Some(FirstSegment(rest)))
  }

  /** `GetInstagramImagesAsync`, `GetPinterestImagesAsync`, `GetAnimePicturesImagesAsync`:
      an image path is answered verbatim; otherwise the post whose id follows the marker is
      looked up and asked for its images; anything else is not found. */
  function ResolvePost<Post>(url: string, isImagePath: string -> bool, marker: string, skipEmpty: bool,
                             lookup: string -> Option<Post>, images: Post -> ImageResponse): (r: Result<ImageResponse>)
    ensures isImagePath(Client.RemoveQuery(url)) ==> r == Ok(FromUrl(Client.RemoveQuery(url)))
    ensures r.Err? <==> RequestedId(url, isImagePath, marker, skipEmpty).Err?
    ensures r.Ok? && !isImagePath(Client.RemoveQuery(url)) ==>
      match RequestedId(url, isImagePath, marker, skipEmpty).value
      case None => r.value == NotFound(url)
      case Some(id) => r.value == if lookup(id).Some? then images(lookup(id).value) else NotFound(url)
  {
    var u := Client.RemoveQuery(url);
    if isImagePath(u) then Ok(FromUrl(u))
    else match RequestedId(url, isImagePath, marker, skipEmpty)
      case Err(e) => Err(e)
      case Ok(None) => Ok(NotFound(url))
      case Ok(Some(id)) =>
        match lookup(id)
        case None => Ok(NotFound(url))
        case Some(post) => Ok(images(post))
  }

  /** `MoebooruImageGatherer.GetImagesAsync` and `VscoImageGatherer.GetImagesAsync`: a url
      without the marker is unknown; otherwise the first segment after it is looked up,
      and the post's content urls are the images. */
  function GatherFromMarker(url: string, marker: string, lookup: string -> Option<seq<string>>): (r: ImageResponse)
    ensures r.Unknown? <==> !CaseInsContains(Client.RemoveQuery(url), marker)
    ensures r.url == url
    ensures r.FromGatherer? ==>
      && AfterMarker(Client.RemoveQuery(url), marker).Some?
      && var id := FirstSegment(AfterMarker(Client.RemoveQuery(url), marker).value);
      && lookup(id) == Some(r.images)
    ensures r.NotFound? ==> lookup(FirstSegment(AfterMarker(Client.RemoveQuery(url), marker).value)).None?
    ensures !r.FromUrl?
  {
    match AfterMarker(Client.RemoveQuery(url), marker)
    case None => Unknown(url)
    case Some(rest) =>
      match lookup(FirstSegment(rest))
      case None => NotFound(url)
      case Some(urls) => FromGatherer(url, urls)
  }

  /** A url of the shape `prefix + marker + id + tail`, free of query and fragment and not
      an image path, makes the resolver look up exactly `id`. */
  lemma ResolvedId(prefix: string, marker: string, id: string, tail: string, isImagePath: string -> bool)
    requires '/' !in id && '?' !in id && '#' !in id && id != []
    requires tail == [] || tail[0] == '/'
    requires '?' !in prefix + marker + tail && '#' !in prefix + marker + tail
    requires FoldFree(prefix + marker + id + tail, marker, |prefix|)
    requires !isImagePath(prefix + marker + id + tail)
    ensures RequestedId(prefix + marker + id + tail, isImagePath, marker, false) == Ok(Some(id))
    ensures RequestedId(prefix + marker + id + tail, isImagePath, marker, true) == Ok(Some(id))
  {
    var u := prefix + marker + id + tail;
    forall k | 0 <= k < |u|
      ensures u[k] !in {'?', '#'}
    {
      if k < |prefix + marker| {
        assert u[k] == (prefix + marker)[k];
      } else if k < |prefix + marker + id| {
        assert u[k] == id[k - |prefix + marker|];
      } else {
        assert u[k] == tail[k - |prefix + marker + id|];
      }
    }
    Client.SpanOfFreeText(u, {'?', '#'});
    assert Client.RemoveQuery(u) == u;
    SegmentRoundTrip(prefix, marker, id, tail);
    var rest := id + tail;
    var fields := Split(rest, '/');
    assert fields[0] == id by {
      SpanOfPrefix(id, tail);
    }
    assert FirstNonEmpty(fields) == Some(id);
  }

  // ---------------------------------------------------------------------------
  // Values cut out of fetched pages

  /** `var cut = text.Substring(text.IndexOf(marker) + marker.Length);
      return cut.Substring(0, cut.IndexOf(stop));` as written: a missing marker gives
      index -1, so the cut starts `marker.Length - 1` characters in. A start outside the
      text or a missing closing character raises. */
  function CutAsWritten(text: string, marker: string, stop: char): (r: Result<string>)
    ensures r.Err? ==> r.error == ArgumentOutOfRange
    ensures r.Ok? ==> stop !in r.value
  {
    var start := IndexOf(text, marker) + |marker|;
    if start < 0 || start > |text| then Err(ArgumentOutOfRange)
    else
      var cut := text[start..];
      var end := IndexOf(cut, [stop]);
      if end < 0 then Err(ArgumentOutOfRange)
      else
        NoStopBefore(cut, stop, end);
        Ok(cut[..end])
  }

  lemma NoStopBefore(s: string, stop: char, end: nat)
    requires end <= |s|
    requires forall j :: 0 <= j < end ==> !MatchesAt(s, j, [stop])
    ensures stop !in s[..end]
  {
    forall k | 0 <= k < end
      ensures s[k] != stop
    {
      if k + 1 <= |s| {
        assert !MatchesAt(s, k, [stop]);
        assert s[k..k + 1] == [s[k]];
      }
    }
  }

  /** The cut as evidently intended: a missing marker is an error like a missing closing
      character, rather than a read from an arbitrary offset. */
  function Cut(text: string, marker: string, stop: char): (r: Result<string>)
    ensures r.Err? ==> r.error == ArgumentOutOfRange
    ensures r.Ok? ==>
      && var i := IndexOf(text, marker);
      && i >= 0
      && var start := i + |marker|;
      && stop !in r.value
      && start + |r.value| < |text|
      && text[start..start + |r.value|] == r.value
      && text[start + |r.value|] == stop
    ensures IndexOf(text, marker) < 0 ==> r.Err?
  {
    var i := IndexOf(text, marker);
    if i < 0 then Err(ArgumentOutOfRange)
    else
      var start := i + |marker|;
      var cut := text[start..];
      var end := IndexOf(cut, [stop]);
      if end < 0 then Err(ArgumentOutOfRange)
      else
        NoStopBefore(cut, stop, end);
        assert cut[end..end + 1] == [stop];
        Ok(cut[..end])
  }

  /** Wherever the marker is present the two cuts agree; they differ only on pages that
      lack it. */
  lemma CutAgreesWhenFound(text: string, marker: string, stop: char)
    requires IndexOf(text, marker) >= 0
    ensures CutAsWritten(text, marker, stop) == Cut(text, marker, stop)
  {
  }

  /** On a page lacking the marker, the cut as written reads from `marker.Length - 1`:
      it returns whatever stands there up to the next closing character. */
  lemma CutAsWrittenWithoutMarker(text: string, marker: string, stop: char, v: string, rest: string)
    requires IndexOf(text, marker) == -1 && |marker| > 0
    requires |marker| - 1 <= |text| && text[|marker| - 1..] == v + [stop] + rest
    requires stop !in v
    ensures CutAsWritten(text, marker, stop) == Ok(v)
  {
    var cut := text[|marker| - 1..];
    assert MatchesAt(cut, |v|, [stop]) by {
      assert cut[|v|..|v| + 1] == [stop];
    }
    forall j | 0 <= j < |v|
      ensures !MatchesAt(cut, j, [stop])
    {
      assert cut[j] == v[j];
    }
    assert IndexOf(cut, [stop]) == |v|;
    assert cut[..|v|] == v;
  }

  /** Round trip: from a page `a + marker + v + stop + b` in which the marker first occurs
      after `a` and `v` holds no `stop`, the cut is `v`. */
  lemma CutRoundTrip(a: string, marker: string, v: string, stop: char, b: string)
    requires stop !in v
    requires forall j :: 0 <= j < |a| ==> !MatchesAt(a + marker + v + [stop] + b, j, marker)
    ensures Cut(a + marker + v + [stop] + b, marker, stop) == Ok(v)
  {
    var text := a + marker + v + [stop] + b;
    assert text[|a|..|a| + |marker|] == marker;
    assert MatchesAt(text, |a|, marker);
    assert IndexOf(text, marker) == |a|;
    var cut := text[|a| + |marker|..];
    assert cut == v + [stop] + b;
    assert MatchesAt(cut, |v|, [stop]) by {
      assert cut[|v|..|v| + 1] == [stop];
    }
    forall j | 0 <= j < |v|
      ensures !MatchesAt(cut, j, [stop])
    {
      assert cut[j] == v[j];
    }
    assert IndexOf(cut, [stop]) == |v|;
    assert cut[..|v|] == v;
  }
}
