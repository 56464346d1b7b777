/** The Instagram downloader: the user's timeline is read fifty posts at a time through
    the GraphQL endpoint, which needs the user's id and `rhx_gis` value (cut out of the
    profile page) and a query hash (cut out of a script the home page links to, and cached
    on the client). Each timeline entry is a shortcode; the post itself is looked up before
    the per-post rules are applied.

    The id, `rhx_gis` value and query hash are read with `text.Substring(text.IndexOf(marker)
    + marker.Length)`, which does not notice a missing marker. The reads as written are
    kept beside corrected ones; the corrected ones are those the loop uses. */
module Instagram {
  import opened Wrappers
  import opened Text
  import opened Gathering
  import opened Resolving
  import Client

  const IdMarker: string := "owner\":{\"id\":\""
  const RhxMarker: string := "\"rhx_gis\":\""
  const QueryMarker: string := "e.profilePosts.byUserId.get(t))?o.pagination:o},queryId:\""
  const AgeRestriction: string := "You must be 18 years old or over to see this profile"
  const ProfileFailure: string := "Unable to get the first request to the user's account."
  const AgeFailure: string := "Unable to access this profile due to age restrictions."
  const ScriptFailure: string := "Unable to get the request to the Javascript holding the query hash."
  const ScriptName: string := "ProfilePageContainer.js"
  const HomePage: string := "https://www.instagram.com/instagram/?hl=en"

  /** A cut of the text between a marker and the next closing character. */
  type Cutter = (string, string, char) -> Result<string>

  datatype Dimensions = Dimensions(width: int, height: int)

  /** One image of a multi-image post. */
  datatype Child = Child(url: string, dimensions: Dimensions)

  /** A post as its shortcode's lookup returns it; `children` is `None` when the post has
      no child list. */
  datatype InstagramPost = InstagramPost(shortcode: string, createdAt: int, likes: int, dimensions: Dimensions,
                                         children: Option<seq<Child>>)

  /** A timeline page: the shortcodes of its posts and its page info. */
  datatype Timeline = Timeline(shortcodes: seq<string>, hasNextPage: bool, endCursor: Option<string>)

  // ---------------------------------------------------------------------------
  // GetUserIdAndRhx

  /** `GetUserIdAndRhx` over the profile page's response, with the given cut. */
  function UserIdAndRhxWith(page: Client.ClientResult<string>, cut: Cutter): Result<(nat, string)> {
    if !page.isSuccess then Err(HttpRequest(ProfileFailure))
    else if Contains(page.value, AgeRestriction) then Err(HttpRequest(AgeFailure))
    else match cut(page.value, IdMarker, '"')
      case Err(e) => Err(e)
      case Ok(idText) =>
        match ConvertToUInt64(idText)
        case Err(e) => Err(e)
        case Ok(id) =>
          match cut(page.value, RhxMarker, '"')
          case Err(e) => Err(e)
          case Ok(rhx) => Ok((id, rhx))
  }

  function UserIdAndRhxAsWritten(page: Client.ClientResult<string>): Result<(nat, string)> {
    UserIdAndRhxWith(page, CutAsWritten)
  }

  /** The id and `rhx_gis` value of a profile page: an unsuccessful page or an
      age-restricted profile raises an `HttpRequestException`; otherwise the values are
      read after their markers, and a missing marker raises. */
  function UserIdAndRhx(page: Client.ClientResult<string>): (r: Result<(nat, string)>)
    ensures !page.isSuccess ==> r == Err(HttpRequest(ProfileFailure))
    ensures page.isSuccess && Contains(page.value, AgeRestriction) ==> r == Err(HttpRequest(AgeFailure))
    ensures r.Ok? ==>
      && page.isSuccess
      && !Contains(page.value, AgeRestriction)
      && Contains(page.value, IdMarker)
      && Contains(page.value, RhxMarker)
      && r.value.0 <= UInt64Max
      && '"' !in r.value.1
  {
    UserIdAndRhxWith(page, Cut)
  }

  /** `GetUserIdAndRhx` with its request: an exception raised while requesting the
      profile page escapes; otherwise the page is read as above. */
  function FetchUserIdAndRhx(profile: Result<Client.ClientResult<string>>): Result<(nat, string)> {
    match profile
    case Err(e) => Err(e)
    case Ok(page) => UserIdAndRhx(page)
  }

  /** Round trip: a profile page that states the id and `rhx_gis` value after their markers
      gives back exactly those values. */
  lemma UserIdAndRhxRoundTrip(page: Client.ClientResult<string>, id: nat, rhx: string)
    requires page.isSuccess && !Contains(page.value, AgeRestriction)
    requires id <= UInt64Max
    requires Cut(page.value, IdMarker, '"') == Ok(NatToString(id))
    requires Cut(page.value, RhxMarker, '"') == Ok(rhx)
    ensures UserIdAndRhx(page) == Ok((id, rhx))
  {
    ParseOfNatToString(id);
  }

  /** A profile page holding neither marker, on which the reads as written find an id of
      42 and a `rhx_gis` value of "abc42" at offsets picked by the markers' lengths. */
  const MarkerlessProfile: string := "0123456789abc42\""

  /** As written, the markerless profile page yields an id and a `rhx_gis` value; the
      corrected read raises. */
  lemma AsWrittenReadsMarkerlessProfile()
    ensures var page := Client.ClientResult(MarkerlessProfile, 200, true);
      && UserIdAndRhxAsWritten(page) == Ok((42, "abc42"))
      && UserIdAndRhx(page) == Err(ArgumentOutOfRange)
  {
    MarkerlessProfileUnrestricted();
    MarkerlessIdCut();
    MarkerlessRhxCut();
    assert NatToString(42) == "42";
    AsWrittenReadsPastMissingMarkers(Client.ClientResult(MarkerlessProfile, 200, true), 42, "abc42");
  }

  /** On a readable profile page without the id marker, the reads as written return
      whatever follows the markers' lengths, where the corrected read raises. */
  lemma AsWrittenReadsPastMissingMarkers(page: Client.ClientResult<string>, id: nat, rhx: string)
    requires page.isSuccess && !Contains(page.value, AgeRestriction)
    requires IndexOf(page.value, IdMarker) == -1
    requires id <= UInt64Max
    requires CutAsWritten(page.value, IdMarker, '"') == Ok(NatToString(id))
    requires CutAsWritten(page.value, RhxMarker, '"') == Ok(rhx)
    ensures UserIdAndRhxAsWritten(page) == Ok((id, rhx))
    ensures UserIdAndRhx(page) == Err(ArgumentOutOfRange)
  {
    ParseOfNatToString(id);
    ReadsGive(page, CutAsWritten, NatToString(id), id, rhx);
    MissingIdMarker(page);
  }

  /** The markerless profile page is not age-restricted. */
  lemma MarkerlessProfileUnrestricted()
    ensures !Contains(MarkerlessProfile, AgeRestriction)
  {
    AbsentWhenFirstMissing(MarkerlessProfile, AgeRestriction);
  }

  /** On the markerless profile page, the id read as written is "42". */
  lemma MarkerlessIdCut()
    ensures IndexOf(MarkerlessProfile, IdMarker) == -1
    ensures CutAsWritten(MarkerlessProfile, IdMarker, '"') == Ok("42")
  {
    var text := MarkerlessProfile;
    AbsentWhenFirstMissing(text, IdMarker);
    assert text[|IdMarker| - 1..] == "42" + ['"'] + "";
    CutAsWrittenWithoutMarker(text, IdMarker, '"', "42", "");
  }

  /** On the markerless profile page, the `rhx_gis` value read as written is "abc42". */
  lemma MarkerlessRhxCut()
    ensures IndexOf(MarkerlessProfile, RhxMarker) == -1
    ensures CutAsWritten(MarkerlessProfile, RhxMarker, '"') == Ok("abc42")
  {
    var text := MarkerlessProfile;
    AbsentWhenFirstMissing(text, RhxMarker);
    assert text[|RhxMarker| - 1..] == "abc42" + ['"'] + "";
    CutAsWrittenWithoutMarker(text, RhxMarker, '"', "abc42", "");
  }

  /** Values read after both markers are the ones returned. */
  lemma ReadsGive(page: Client.ClientResult<string>, cut: Cutter, idText: string, id: nat, rhx: string)
    requires page.isSuccess && !Contains(page.value, AgeRestriction)
    requires cut(page.value, IdMarker, '"') == Ok(idText) && ConvertToUInt64(idText) == Ok(id)
    requires cut(page.value, RhxMarker, '"') == Ok(rhx)
    ensures UserIdAndRhxWith(page, cut) == Ok((id, rhx))
  {
  }

  /** A readable profile page without the id marker raises. */
  lemma MissingIdMarker(page: Client.ClientResult<string>)
    requires page.isSuccess && !Contains(page.value, AgeRestriction)
    requires IndexOf(page.value, IdMarker) == -1
    ensures UserIdAndRhx(page) == Err(ArgumentOutOfRange)
  {
  }

  // ---------------------------------------------------------------------------
  // GetApiKeyAsync

  /** What fetching the query hash reads: the home page, the `href`s of its `link`
      elements in document order, and the response for each script url. */
  datatype KeySource = KeySource(home: Result<Client.ClientResult<string>>, links: seq<string>,
                                 script: string -> Result<Client.ClientResult<string>>)

  /** The query hash or the exception raised, and the number of requests sent. */
  datatype KeyFetch = KeyFetch(key: Result<string>, requests: nat)

  /** `First(x => x.Contains(name))`: the first link naming the script. */
  function FirstNaming(links: seq<string>, name: string): (r: Option<nat>)
    ensures r.Some? ==> r.value < |links| && Contains(links[r.value], name)
    ensures r.Some? ==> forall k :: 0 <= k < r.value ==> !Contains(links[k], name)
    ensures r.None? ==> forall k :: 0 <= k < |links| ==> !Contains(links[k], name)
  {
    if |links| == 0 then None
    else if Contains(links[0], name) then Some(0)
    else match FirstNaming(links[1..], name)
      case None => None
      case Some(k) => Some(k + 1)
  }

  /** The url of the `k`-th linked script. */
  function ScriptUrl(source: KeySource, k: nat): string
    requires k < |source.links|
  {
    "https://www.instagram.com" + source.links[k]
  }

  /** `GetApiKeyAsync` with the given cut. */
  function ApiKeyWith(cache: Option<string>, source: KeySource, cut: Cutter): KeyFetch {
    if cache.Some? then KeyFetch(Ok(cache.value), 0)
    else match source.home
      case Err(e) => KeyFetch(Err(e), 1)
      case Ok(home) =>
        if !home.isSuccess then KeyFetch(Err(HttpRequest(ProfileFailure)), 1)
        else match FirstNaming(source.links, ScriptName)
          case None => KeyFetch(Err(InvalidOperation("Sequence contains no matching element")), 1)
          case Some(k) =>
            match source.script(ScriptUrl(source, k))
            case Err(e) => KeyFetch(Err(e), 2)
            case Ok(script) =>
              if !script.isSuccess then KeyFetch(Err(HttpRequest(ScriptFailure)), 2)
              else KeyFetch(cut(script.value, QueryMarker, '"'), 2)
  }

  function ApiKeyAsWritten(cache: Option<string>, source: KeySource): KeyFetch {
    ApiKeyWith(cache, source, CutAsWritten)
  }

  /** A cached query hash is returned without any request; otherwise the home page and
      the first script it links to whose name matches are fetched, and the hash is read
      after its marker in that script. */
  function ApiKey(cache: Option<string>, source: KeySource): (r: KeyFetch)
    ensures cache.Some? ==> r == KeyFetch(Ok(cache.value), 0)
    ensures cache.None? ==> 1 <= r.requests <= 2
    ensures cache.None? && source.home.Err? ==> r == KeyFetch(Err(source.home.error), 1)
    ensures cache.None? && source.home.Ok? && !source.home.value.isSuccess ==> r == KeyFetch(Err(HttpRequest(ProfileFailure)), 1)
    ensures cache.None? && source.home.Ok? && source.home.value.isSuccess && FirstNaming(source.links, ScriptName).None? ==>
      r == KeyFetch(Err(InvalidOperation("Sequence contains no matching element")), 1)
    ensures cache.None? && source.home.Ok? && source.home.value.isSuccess && FirstNaming(source.links, ScriptName).Some? ==>
      var script := source.script(ScriptUrl(source, FirstNaming(source.links, ScriptName).value));
      && (script.Err? ==> r == KeyFetch(Err(script.error), 2))
      && (script.Ok? && !script.value.isSuccess ==> r == KeyFetch(Err(HttpRequest(ScriptFailure)), 2))
    ensures cache.None? && r.key.Ok? ==>
      && source.home.Ok?
      && source.home.value.isSuccess
      && FirstNaming(source.links, ScriptName).Some?
      && var script := source.script(ScriptUrl(source, FirstNaming(source.links, ScriptName).value));
      && script.Ok?
      && script.value.isSuccess
      && Contains(script.value.value, QueryMarker)
      && '"' !in r.key.value
      && r.requests == 2
  {
    ApiKeyWith(cache, source, Cut)
  }

  /** Round trip: when the first script the home page links to by name is `a + marker +
      hash + '"' + b`, the marker first occurring after `a`, the hash fetched is `hash`,
      at the cost of two requests. */
  lemma ApiKeyRoundTrip(source: KeySource, k: nat, a: string, hash: string, b: string)
    requires source.home.Ok? && source.home.value.isSuccess
    requires FirstNaming(source.links, ScriptName) == Some(k)
    requires var script := source.script(ScriptUrl(source, k));
      script.Ok? && script.value.isSuccess && script.value.value == a + QueryMarker + hash + ['"'] + b
    requires '"' !in hash
    requires forall j :: 0 <= j < |a| ==> !MatchesAt(a + QueryMarker + hash + ['"'] + b, j, QueryMarker)
    ensures ApiKey(None, source) == KeyFetch(Ok(hash), 2)
  {
    CutRoundTrip(a, QueryMarker, hash, '"', b);
  }

  /** The script a query hash is read from, when it lacks the marker: the hash as written
      is "7", read at an offset the marker's length picks. */
  const MarkerlessScript: string := seq(56, _ => '0') + "7\""

  /** As written, a script without the marker yields the query hash "7"; the corrected
      read raises. */
  lemma AsWrittenReadsMarkerlessScript(links: seq<string>)
    requires |links| > 0 && Contains(links[0], ScriptName)
    ensures var source := KeySource(Ok(Client.ClientResult("", 200, true)), links,
                                    (url: string) => Ok(Client.ClientResult(MarkerlessScript, 200, true)));
      && ApiKeyAsWritten(None, source).key == Ok("7")
      && ApiKey(None, source).key == Err(ArgumentOutOfRange)
  {
    var text := MarkerlessScript;
    assert |text| == 58 && |QueryMarker| == 57;
    forall j | 0 <= j <= |text|
      ensures !MatchesAt(text, j, QueryMarker)
    {
      if j <= 1 {
        assert text[j..j + 57][56 - j] == '7' != QueryMarker[56 - j];
      }
    }
    assert text[|QueryMarker| - 1..] == "7" + ['"'] + "";
    CutAsWrittenWithoutMarker(text, QueryMarker, '"', "7", "");
  }

  // ---------------------------------------------------------------------------
  // The loop's key

  /** The values a GraphQL request needs: the user id (0 until read), the `rhx_gis`
      value, and the cached query hash. */
  datatype InstagramKey = InstagramKey(id: nat, rhx: string, hash: Option<string>)

  /** The loop re-reads the profile while the id is 0, and asks `GetApiKeyAsync` for the
      hash each iteration, which only does work when the cache is empty. */
  predicate NeedsKey(k: InstagramKey) {
    k.id == 0 || k.hash.None?
  }

  /** The `n`-th time the loop needs its key: the profile page is read if the id is 0,
      then the query hash is fetched if none is cached. */
  function ObtainKey(k: InstagramKey, profile: Result<Client.ClientResult<string>>, source: KeySource): (r: Result<InstagramKey>)
    ensures r.Ok? ==> r.value.hash.Some?
    ensures r.Ok? && k.id != 0 ==> r.value.id == k.id && r.value.rhx == k.rhx
    ensures r.Ok? && k.hash.Some? ==> r.value.hash == k.hash
    ensures k.id == 0 && FetchUserIdAndRhx(profile).Err? ==> r == Err(FetchUserIdAndRhx(profile).error)
    ensures r.Ok? && k.id == 0 ==> FetchUserIdAndRhx(profile).Ok? && (r.value.id, r.value.rhx) == FetchUserIdAndRhx(profile).value
    ensures r.Ok? && k.hash.None? ==> ApiKey(None, source).key.Ok? && r.value.hash == Some(ApiKey(None, source).key.value)
  {
    var ids := if k.id == 0 then FetchUserIdAndRhx(profile) else Ok((k.id, k.rhx));
    match ids
    case Err(e) => Err(e)
    case Ok((id, rhx)) =>
      match ApiKey(k.hash, source).key
      case Err(e) => Err(e)
      case Ok(hash) => Ok(InstagramKey(id, rhx, Some(hash)))
  }

  // ---------------------------------------------------------------------------
  // Per-post rules

  /** The children that pass the size check, in order. */
  function FittingChildren(children: seq<Child>, fits: Dimensions -> bool): (r: seq<Child>)
    ensures |r| <= |children|
    ensures forall c :: c in r ==> c in children && fits(c.dimensions)
    ensures forall c :: c in children && fits(c.dimensions) ==> c in r
  {
    if |children| == 0 then []
    else (if fits(children[0].dimensions) then [children[0]] else []) + FittingChildren(children[1..], fits)
  }

  /** The post a shortcode's lookup returned, or `None` when the lookup found nothing or
      raised. */
  function Found(lookup: string -> Result<Option<InstagramPost>>, code: string): Option<InstagramPost> {
    if lookup(code).Ok? then lookup(code).value else None
  }

  /** The exception a shortcode that finds no post raises: the lookup's own, or the null
      reference of reading the date of a null post. */
  function LookupError(lookup: string -> Result<Option<InstagramPost>>, code: string): Exception {
    if lookup(code).Err? then lookup(code).error else NullReference
  }

  /** The per-post rules: a lookup that raises lets its exception escape; one that finds
      nothing leaves a null post, which raises when its date is read; an old post stops
      gathering; a post with too few likes is skipped; a post with children keeps only the
      children that pass the size check and is skipped when none do; any other post is
      skipped when it fails the size check. */
  function Decide(lookup: string -> Result<Option<InstagramPost>>, fits: Dimensions -> bool, minScore: int, oldest: int)
    : (d: string -> Verdict<InstagramPost>)
    ensures forall code :: d(code).Fault? <==> Found(lookup, code).None?
    ensures forall code :: d(code).Fault? ==> d(code).error == LookupError(lookup, code)
    ensures forall code :: d(code).Stop? <==> Found(lookup, code).Some? && Found(lookup, code).value.createdAt < oldest
    ensures forall code :: d(code).Offer? ==>
      && Found(lookup, code).Some?
      && Found(lookup, code).value.likes >= minScore
      && d(code).post.shortcode == Found(lookup, code).value.shortcode
  {
    (code: string) =>
      match Found(lookup, code)
      case None => Fault(LookupError(lookup, code))
      case Some(p) =>
        if p.createdAt < oldest then Stop
        else if p.likes < minScore then Skip
        else if p.children.Some? && |p.children.value| > 0 then
          var kept := FittingChildren(p.children.value, fits);
          if |kept| == 0 then Skip else Offer(p.(children := Some(kept)))
        else if !fits(p.dimensions) then Skip
        else Offer(p)
  }

  /** The post a shortcode yields when it is offered, as a reference definition. */
  function Accepted(p: InstagramPost, fits: Dimensions -> bool, minScore: int, oldest: int): Option<InstagramPost> {
    if p.createdAt < oldest || p.likes < minScore then None
    else match p.children
      case Some(cs) =>
        if |cs| == 0 then (if fits(p.dimensions) then Some(p) else None)
        else if exists c :: c in cs && fits(c.dimensions) then Some(p.(children := Some(FittingChildren(cs, fits))))
        else None
      case None => if fits(p.dimensions) then Some(p) else None
  }

  /** The verdict for each shortcode agrees with the reference definition: a lookup
      failure raises, an old post stops, and otherwise the offered post, if any, is the
      accepted one, whose children all fit and are exactly the fitting children of the
      post looked up. */
  lemma DecideAgrees(lookup: string -> Result<Option<InstagramPost>>, fits: Dimensions -> bool, minScore: int, oldest: int, code: string)
    ensures var v := Decide(lookup, fits, minScore, oldest)(code);
      && (Found(lookup, code).None? <==> v == Fault(LookupError(lookup, code)))
      && (v.Stop? <==> Found(lookup, code).Some? && Found(lookup, code).value.createdAt < oldest)
      && (Found(lookup, code).Some? && Found(lookup, code).value.createdAt >= oldest ==>
            (v.Offer? <==> Accepted(Found(lookup, code).value, fits, minScore, oldest).Some?)
            && (v.Offer? ==> v.post == Accepted(Found(lookup, code).value, fits, minScore, oldest).value))
      && (v.Offer? && v.post.children.Some? && |v.post.children.value| > 0 ==>
            forall c :: c in v.post.children.value ==> fits(c.dimensions))
  {
    if Found(lookup, code).Some? {
      var p := Found(lookup, code).value;
      if p.children.Some? && |p.children.value| > 0 {
        var kept := FittingChildren(p.children.value, fits);
        if |kept| > 0 {
          assert kept[0] in p.children.value && fits(kept[0].dimensions);
        }
      }
    }
  }

  /** The posts a sequence of shortcodes yields, as a reference definition. */
  function AcceptedPosts(codes: seq<string>, lookup: string -> Result<Option<InstagramPost>>, fits: Dimensions -> bool,
                         minScore: int, oldest: int): seq<InstagramPost> {
    if |codes| == 0 then []
    else
      var head := match Found(lookup, codes[0])
        case None => []
        case Some(p) => if Accepted(p, fits, minScore, oldest).Some? then [Accepted(p, fits, minScore, oldest).value] else [];
      head + AcceptedPosts(codes[1..], lookup, fits, minScore, oldest)
  }

  lemma {:induction false} OffersAccepted(codes: seq<string>, lookup: string -> Result<Option<InstagramPost>>, fits: Dimensions -> bool,
                                          minScore: int, oldest: int)
    requires forall k :: 0 <= k < |codes| ==> Found(lookup, codes[k]).Some? && Found(lookup, codes[k]).value.createdAt >= oldest
    ensures Offers(codes, Decide(lookup, fits, minScore, oldest)) == AcceptedPosts(codes, lookup, fits, minScore, oldest)
    decreases |codes|
  {
    if |codes| > 0 {
      DecideAgrees(lookup, fits, minScore, oldest, codes[0]);
      OffersAccepted(codes[1..], lookup, fits, minScore, oldest);
    }
  }

  /** On a timeline page, the posts offered are the accepted posts of the shortcodes
      examined, and a walk that ends early ends at an old post or a failed lookup. */
  lemma InstagramPageRules(lookup: string -> Result<Option<InstagramPost>>, fits: Dimensions -> bool, minScore: int, oldest: int,
                           add: (seq<InstagramPost>, InstagramPost) -> Added<InstagramPost>, codes: seq<string>,
                           list: seq<InstagramPost>)
    ensures var s := ScanPage(codes, Decide(lookup, fits, minScore, oldest), add, list);
      && (s.end.Completed? || s.end.AddDeclined? ==> s.offered == AcceptedPosts(codes[..s.examined], lookup, fits, minScore, oldest))
      && (!s.end.Completed? && !s.end.AddDeclined? ==> s.offered == AcceptedPosts(codes[..s.examined - 1], lookup, fits, minScore, oldest))
      && (s.end.TooOld? ==> Found(lookup, codes[s.examined - 1]).Some? && Found(lookup, codes[s.examined - 1]).value.createdAt < oldest)
      && (s.end.Faulted? ==> Found(lookup, codes[s.examined - 1]).None? && s.end.error == LookupError(lookup, codes[s.examined - 1]))
  {
    var decide := Decide(lookup, fits, minScore, oldest);
    var s := ScanPage(codes, decide, add, list);
    ScanPageOffers(codes, decide, add, list);
    ScanPageStopsLast(codes, decide, add, list);
    if s.end.Completed? || s.end.AddDeclined? {
      ScannedAllOffered(lookup, fits, minScore, oldest, add, codes, list);
    } else {
      OfferedPrefixAccepted(lookup, fits, minScore, oldest, codes, s.examined - 1);
      LastNotOffered(codes, s.examined - 1, decide);
      DecideAgrees(lookup, fits, minScore, oldest, codes[s.examined - 1]);
    }
  }

  /** A page walked to its end, or ended by `Add`, offered or skipped every shortcode
      examined. */
  lemma ScannedAllOffered(lookup: string -> Result<Option<InstagramPost>>, fits: Dimensions -> bool, minScore: int, oldest: int,
                          add: (seq<InstagramPost>, InstagramPost) -> Added<InstagramPost>, codes: seq<string>,
                          list: seq<InstagramPost>)
    ensures var s := ScanPage(codes, Decide(lookup, fits, minScore, oldest), add, list);
      s.end.Completed? || s.end.AddDeclined? ==>
        Offers(codes[..s.examined], Decide(lookup, fits, minScore, oldest)) == AcceptedPosts(codes[..s.examined], lookup, fits, minScore, oldest)
  {
    var decide := Decide(lookup, fits, minScore, oldest);
    var s := ScanPage(codes, decide, add, list);
    if s.end.Completed? || s.end.AddDeclined? {
      ScanPageStopsLast(codes, decide, add, list);
      forall k | 0 <= k < s.examined
        ensures decide(codes[k]).Skip? || decide(codes[k]).Offer?
      {
      }
      OfferedPrefixAccepted(lookup, fits, minScore, oldest, codes, s.examined);
    }
  }

  /** Shortcodes that were all skipped or offered yield their accepted posts. */
  lemma OfferedPrefixAccepted(lookup: string -> Result<Option<InstagramPost>>, fits: Dimensions -> bool, minScore: int, oldest: int,
                              codes: seq<string>, n: nat)
    requires n <= |codes|
    requires forall k :: 0 <= k < n ==>
      Decide(lookup, fits, minScore, oldest)(codes[k]).Skip? || Decide(lookup, fits, minScore, oldest)(codes[k]).Offer?
    ensures Offers(codes[..n], Decide(lookup, fits, minScore, oldest)) == AcceptedPosts(codes[..n], lookup, fits, minScore, oldest)
  {
    forall k | 0 <= k < n
      ensures Found(lookup, codes[..n][k]).Some? && Found(lookup, codes[..n][k]).value.createdAt >= oldest
    {
      DecideAgrees(lookup, fits, minScore, oldest, codes[k]);
    }
    OffersAccepted(codes[..n], lookup, fits, minScore, oldest);
  }

  /** A shortcode that is not offered adds nothing to the offers before it. */
  lemma LastNotOffered<P>(codes: seq<string>, n: nat, decide: string -> Verdict<P>)
    requires n < |codes| && !decide(codes[n]).Offer?
    ensures Offers(codes[..n + 1], decide) == Offers(codes[..n], decide)
  {
    assert codes[..n + 1] == codes[..n] + [codes[n]];
    OffersSplit(codes[..n], [codes[n]], decide);
    assert Offers([codes[n]], decide) == [];
  }

  // ---------------------------------------------------------------------------
  // The loop

  /** The pagination part of the loop condition: the cursor is still the empty start
      cursor, or the last page reported a next page. */
  predicate Proceed(end: Option<string>, last: Option<Timeline>) {
    end == Some("") || (last.Some? && last.value.hasNextPage)
  }

  /** A failure mentioning the query hash drops the cached hash and retries. */
  function React(text: string): Reaction {
    if Contains(text, "query_hash") then Retry else Quit
  }

  /** `GatherPostsAsync`'s loop. The cursor after a page is its end cursor, and a retry
      re-evaluates the increment, which reads the end cursor of the last page again.
      `profiles(n)` and `keySources(n)` are what the `n`-th key fetch reads; each
      request in them may raise. */
  function InstagramPager(target: int, lookup: string -> Result<Option<InstagramPost>>, fits: Dimensions -> bool,
                          minScore: int, oldest: int, add: (seq<InstagramPost>, InstagramPost) -> Added<InstagramPost>,
                          profiles: nat -> Result<Client.ClientResult<string>>, keySources: nat -> KeySource)
    : Pager<Option<string>, InstagramKey, Timeline, string, InstagramPost> {
    Pager(
      target,
      Proceed,
      (end: Option<string>, page: Timeline) => page.endCursor,
      (end: Option<string>, last: Option<Timeline>) => if last.Some? then Ok(last.value.endCursor) else Err(NullReference),
      NeedsKey,
      (k: InstagramKey, n: nat) => ObtainKey(k, profiles(n), keySources(n)),
      (k: InstagramKey) => k.(hash := None),
      React,
      (page: Timeline) => page.shortcodes,
      Decide(lookup, fits, minScore, oldest),
      add)
  }

  /** The loop starts at the empty cursor with no id and whatever hash the client has
      cached. */
  function Start(cache: Option<string>): State<Option<string>, InstagramKey, Timeline, InstagramPost> {
    State(Some(""), InstagramKey(0, "", cache), None, [], 0)
  }

  /** Between iterations the cursor is the end cursor of the last page fetched, or the
      start cursor before any page. */
  lemma {:induction false} CursorFollowsLast(p: Pager<Option<string>, InstagramKey, Timeline, string, InstagramPost>,
                                             cache: Option<string>, responses: seq<Response<Timeline>>, k: nat)
    requires p.advance == ((end: Option<string>, page: Timeline) => page.endCursor)
    requires p.retryAt == ((end: Option<string>, last: Option<Timeline>) => if last.Some? then Ok(last.value.endCursor) else Err(NullReference))
    requires k <= |responses|
    ensures var st := StateAt(p, Start(cache), responses, k);
      st.cursor == if st.last.Some? then st.last.value.endCursor else Some("")
    decreases k
  {
    if k > 0 {
      CursorFollowsLast(p, cache, responses, k - 1);
    }
  }

  /** After a page the next request is at that page's end cursor, the page having
      reported a next page. */
  lemma InstagramAfterPage(target: int, lookup: string -> Result<Option<InstagramPost>>, fits: Dimensions -> bool,
                           minScore: int, oldest: int, add: (seq<InstagramPost>, InstagramPost) -> Added<InstagramPost>,
                           profiles: nat -> Result<Client.ClientResult<string>>, keySources: nat -> KeySource,
                           cache: Option<string>, responses: seq<Response<Timeline>>, k: nat)
    requires k + 1 < |Gather(InstagramPager(target, lookup, fits, minScore, oldest, add, profiles, keySources), Start(cache), responses).requests|
    requires responses[k].Fetched?
    ensures var run := Gather(InstagramPager(target, lookup, fits, minScore, oldest, add, profiles, keySources), Start(cache), responses);
      && (responses[k].page.hasNextPage || responses[k].page.endCursor == Some(""))
      && run.requests[k + 1].cursor == responses[k].page.endCursor
  {
    AfterPage(InstagramPager(target, lookup, fits, minScore, oldest, add, profiles, keySources), cache, responses, k);
  }

  lemma AfterPage(p: Pager<Option<string>, InstagramKey, Timeline, string, InstagramPost>,
                  cache: Option<string>, responses: seq<Response<Timeline>>, k: nat)
    requires p.proceed == Proceed
    requires p.advance == ((end: Option<string>, page: Timeline) => page.endCursor)
    requires k + 1 < |Gather(p, Start(cache), responses).requests|
    requires responses[k].Fetched?
    ensures var run := Gather(p, Start(cache), responses);
      && (responses[k].page.hasNextPage || responses[k].page.endCursor == Some(""))
      && run.requests[k + 1].cursor == responses[k].page.endCursor
  {
    RunStep(p, Start(cache), responses, k);
    var next := StateAt(p, Start(cache), responses, k + 1);
    assert next.last == Some(responses[k].page);
  }

  /** After a failure, which must have mentioned the query hash, the request is repeated
      at the same cursor with a newly fetched hash: the cached one is dropped. */
  lemma InstagramRetry(target: int, lookup: string -> Result<Option<InstagramPost>>, fits: Dimensions -> bool,
                       minScore: int, oldest: int, add: (seq<InstagramPost>, InstagramPost) -> Added<InstagramPost>,
                       profiles: nat -> Result<Client.ClientResult<string>>, keySources: nat -> KeySource,
                       cache: Option<string>, responses: seq<Response<Timeline>>, k: nat)
    requires k + 1 < |Gather(InstagramPager(target, lookup, fits, minScore, oldest, add, profiles, keySources), Start(cache), responses).requests|
    requires !responses[k].Fetched?
    ensures var p := InstagramPager(target, lookup, fits, minScore, oldest, add, profiles, keySources);
      var run := Gather(p, Start(cache), responses);
      && responses[k].Failed?
      && Contains(responses[k].text, "query_hash")
      && run.requests[k + 1].cursor == run.requests[k].cursor
      && run.requests[k + 1].key.hash.Some?
      && ApiKey(None, keySources(StateAt(p, Start(cache), responses, k + 1).obtained)).key == Ok(run.requests[k + 1].key.hash.value)
  {
    var p := InstagramPager(target, lookup, fits, minScore, oldest, add, profiles, keySources);
    AfterFailure(p, profiles, keySources, cache, responses, k);
  }

  /** A failure mentioning the query hash on the first request is retried, but the loop's
      increment then reads the end cursor of the blank timeline, whose page info is null:
      gathering raises after that one request. */
  lemma InstagramFirstRetryRaises(target: int, lookup: string -> Result<Option<InstagramPost>>, fits: Dimensions -> bool,
                                  minScore: int, oldest: int, add: (seq<InstagramPost>, InstagramPost) -> Added<InstagramPost>,
                                  profiles: nat -> Result<Client.ClientResult<string>>, keySources: nat -> KeySource,
                                  cache: Option<string>, responses: seq<Response<Timeline>>)
    requires |responses| > 0 && responses[0].Failed? && Contains(responses[0].text, "query_hash")
    ensures var run := Gather(InstagramPager(target, lookup, fits, minScore, oldest, add, profiles, keySources), Start(cache), responses);
      |run.requests| > 0 ==> |run.requests| == 1 && run.halt == Raised(NullReference)
    ensures var run := Gather(InstagramPager(target, lookup, fits, minScore, oldest, add, profiles, keySources), Start(cache), responses);
      |run.requests| > 0 ==>
        GatherPostsAsync(target, lookup, fits, minScore, oldest, add, profiles, keySources, cache, responses) == Err(NullReference)
  {
  }

  lemma AfterFailure(p: Pager<Option<string>, InstagramKey, Timeline, string, InstagramPost>,
                     profiles: nat -> Result<Client.ClientResult<string>>, keySources: nat -> KeySource,
                     cache: Option<string>, responses: seq<Response<Timeline>>, k: nat)
    requires p.advance == ((end: Option<string>, page: Timeline) => page.endCursor)
    requires p.retryAt == ((end: Option<string>, last: Option<Timeline>) => if last.Some? then Ok(last.value.endCursor) else Err(NullReference))
    requires p.blank == NeedsKey && p.react == React
    requires p.obtain == ((k: InstagramKey, n: nat) => ObtainKey(k, profiles(n), keySources(n)))
    requires p.cleared == ((k: InstagramKey) => k.(hash := None))
    requires k + 1 < |Gather(p, Start(cache), responses).requests|
    requires !responses[k].Fetched?
    ensures var run := Gather(p, Start(cache), responses);
      && responses[k].Failed?
      && Contains(responses[k].text, "query_hash")
      && run.requests[k + 1].cursor == run.requests[k].cursor
      && run.requests[k + 1].key.hash.Some?
      && ApiKey(None, keySources(StateAt(p, Start(cache), responses, k + 1).obtained)).key == Ok(run.requests[k + 1].key.hash.value)
  {
    RetryCursor(p, cache, responses, k);
    RetryKey(p, profiles, keySources, cache, responses, k);
  }

  lemma RetryKey(p: Pager<Option<string>, InstagramKey, Timeline, string, InstagramPost>,
                 profiles: nat -> Result<Client.ClientResult<string>>, keySources: nat -> KeySource,
                 cache: Option<string>, responses: seq<Response<Timeline>>, k: nat)
    requires p.blank == NeedsKey
    requires p.obtain == ((k: InstagramKey, n: nat) => ObtainKey(k, profiles(n), keySources(n)))
    requires p.cleared == ((k: InstagramKey) => k.(hash := None))
    requires k + 1 < |Gather(p, Start(cache), responses).requests|
    requires !responses[k].Fetched?
    ensures var run := Gather(p, Start(cache), responses);
      && run.requests[k + 1].key.hash.Some?
      && ApiKey(None, keySources(StateAt(p, Start(cache), responses, k + 1).obtained)).key == Ok(run.requests[k + 1].key.hash.value)
  {
    var s := Start(cache);
    RunStep(p, s, responses, k);
    var next := StateAt(p, s, responses, k + 1);
    var key := Gather(p, s, responses).requests[k + 1].key;
    assert next.key.hash.None?;
    assert NeedsKey(next.key);
    assert p.obtain(next.key, next.obtained) == Ok(key);
    assert ObtainKey(next.key, profiles(next.obtained), keySources(next.obtained)) == Ok(key);
  }

  lemma RetryCursor(p: Pager<Option<string>, InstagramKey, Timeline, string, InstagramPost>,
                    cache: Option<string>, responses: seq<Response<Timeline>>, k: nat)
    requires p.advance == ((end: Option<string>, page: Timeline) => page.endCursor)
    requires p.retryAt == ((end: Option<string>, last: Option<Timeline>) => if last.Some? then Ok(last.value.endCursor) else Err(NullReference))
    requires p.react == React
    requires k + 1 < |Gather(p, Start(cache), responses).requests|
    requires !responses[k].Fetched?
    ensures var run := Gather(p, Start(cache), responses);
      && responses[k].Failed?
      && Contains(responses[k].text, "query_hash")
      && run.requests[k + 1].cursor == run.requests[k].cursor
  {
    RunStep(p, Start(cache), responses, k);
    CursorFollowsLast(p, cache, responses, k);
  }

  lemma InstagramFirstRequest(target: int, lookup: string -> Result<Option<InstagramPost>>, fits: Dimensions -> bool,
                              minScore: int, oldest: int, add: (seq<InstagramPost>, InstagramPost) -> Added<InstagramPost>,
                              profiles: nat -> Result<Client.ClientResult<string>>, keySources: nat -> KeySource,
                              cache: Option<string>, responses: seq<Response<Timeline>>)
    ensures var run := Gather(InstagramPager(target, lookup, fits, minScore, oldest, add, profiles, keySources), Start(cache), responses);
      && (|run.requests| > 0 ==>
            && run.requests[0].cursor == Some("")
            && FetchUserIdAndRhx(profiles(0)).Ok?
            && run.requests[0].key.id == FetchUserIdAndRhx(profiles(0)).value.0
            && (cache.Some? ==> run.requests[0].key.hash == cache))
      && (target > 0 && FetchUserIdAndRhx(profiles(0)).Err? ==>
            run.requests == [] && run.halt == Raised(FetchUserIdAndRhx(profiles(0)).error))
  {
    var p := InstagramPager(target, lookup, fits, minScore, oldest, add, profiles, keySources);
    var s := Start(cache);
    assert KeyFor(p, s) == ObtainKey(s.key, profiles(0), keySources(0));
    if |Gather(p, s, responses).requests| > 0 {
      FirstRequest(p, s, responses);
    }
  }

  /** `GatherPostsAsync`: the posts gathered, or the exception that escaped the loop. */
  function GatherPostsAsync(target: int, lookup: string -> Result<Option<InstagramPost>>, fits: Dimensions -> bool,
                            minScore: int, oldest: int, add: (seq<InstagramPost>, InstagramPost) -> Added<InstagramPost>,
                            profiles: nat -> Result<Client.ClientResult<string>>, keySources: nat -> KeySource,
                            cache: Option<string>, responses: seq<Response<Timeline>>): (r: Result<seq<InstagramPost>>)
    ensures var run := Gather(InstagramPager(target, lookup, fits, minScore, oldest, add, profiles, keySources), Start(cache), responses);
      && (r.Err? <==> run.halt.Raised?)
      && (r.Ok? ==> r.value == Replay(add, [], run.offered).list)
  {
    var run := Gather(InstagramPager(target, lookup, fits, minScore, oldest, add, profiles, keySources), Start(cache), responses);
    if run.halt.Raised? then Err(run.halt.error) else Ok(run.list)
  }

  // ---------------------------------------------------------------------------
  // GetInstagramImagesAsync

  /** `GetInstagramImagesAsync`: an image path is answered verbatim, otherwise the first
      non-empty segment after "/p/" is looked up. */
  function InstagramImages(url: string, isImagePath: string -> bool, lookup: string -> Option<InstagramPost>,
                           images: InstagramPost -> ImageResponse): (r: Result<ImageResponse>)
    ensures isImagePath(Client.RemoveQuery(url)) ==> r == Ok(FromUrl(Client.RemoveQuery(url)))
    ensures !CaseInsContains(Client.RemoveQuery(url), "/p/") && !isImagePath(Client.RemoveQuery(url)) ==> r == Ok(NotFound(url))
    ensures r.Err? ==> r.error == IndexOutOfRange
  {
    ResolvePost(url, isImagePath, "/p/", true, lookup, images)
  }

  /** A post url `prefix + "/p/" + id + tail` resolves to the images of the post looked
      up by `id`, or is not found when the lookup fails. */
  lemma InstagramImagesOfPostUrl(prefix: string, id: string, tail: string, isImagePath: string -> bool,
                                 lookup: string -> Option<InstagramPost>, images: InstagramPost -> ImageResponse)
    requires '/' !in id && '?' !in id && '#' !in id && id != []
    requires tail == [] || tail[0] == '/'
    requires '?' !in prefix + "/p/" + tail && '#' !in prefix + "/p/" + tail
    requires FoldFree(prefix + "/p/" + id + tail, "/p/", |prefix|)
    requires !isImagePath(prefix + "/p/" + id + tail)
    ensures InstagramImages(prefix + "/p/" + id + tail, isImagePath, lookup, images)
         == Ok(if lookup(id).Some? then images(lookup(id).value) else NotFound(prefix + "/p/" + id + tail))
  {
    ResolvedId(prefix, "/p/", id, tail, isImagePath);
  }
}
