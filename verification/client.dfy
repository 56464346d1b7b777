/** `ImageDownloaderClient`: query stripping, request construction, the rate-limit retry
    loop behind `GetText`/`GetHtml`, and the list of registered gatherers.

    The server is a function from the index of a request (0 for the first one sent) to
    the response it gives; time is not modelled, only the sleep scheduled before each
    request, in 100-nanosecond ticks as `TimeSpan` counts them. */
module Client {
  import opened Wrappers
  import opened Text

  // ---------------------------------------------------------------------------
  // RemoveQuery

  /** `RemoveQuery`: the url up to, not including, the first '?' or '#'. */
  function RemoveQuery(url: string): (r: string)
    ensures r <= url
    ensures '?' !in r && '#' !in r
    ensures |r| < |url| ==> url[|r|] == '?' || url[|r|] == '#'
  {
    PrefixBefore(url, {'?', '#'})
  }

  /** A url free of '?' and '#' followed by a query or fragment loses exactly the latter. */
  lemma RemoveQueryAtMarker(base: string, rest: string)
    requires '?' !in base && '#' !in base
    requires |rest| > 0 && (rest[0] == '?' || rest[0] == '#')
    ensures RemoveQuery(base + rest) == base
  {
    var url := base + rest;
    var r := RemoveQuery(url);
    assert url[..|base|] == base;
    if |r| > |base| {
      assert false;
    }
    if |r| < |base| {
      assert false;
    }
    assert r == url[..|r|];
  }

  lemma {:induction false} SpanOfFreeText(s: string, stops: set<char>)
    requires forall k :: 0 <= k < |s| ==> s[k] !in stops
    ensures SpanUntil(s, stops) == |s|
    decreases |s|
  {
    if |s| > 0 {
      SpanOfFreeText(s[1..], stops);
    }
  }

  /** Stripping the query twice is stripping it once. */
  lemma RemoveQueryIdempotent(url: string)
    ensures RemoveQuery(RemoveQuery(url)) == RemoveQuery(url)
  {
    var r := RemoveQuery(url);
    SpanOfFreeText(r, {'?', '#'});
  }

  // ---------------------------------------------------------------------------
  // Requests

  datatype HttpMethod = Get | Post | Put | Delete | Head | Other(name: string)

  /** The parts of an `HttpRequestMessage` the client sets. */
  datatype RequestMessage = RequestMessage(uri: string, verb: HttpMethod, referrer: string)

  /** `GetReq(url, method)`: `GET` unless a verb is given, and the url as its own referrer. */
  function GetReq(url: string, verb: Option<HttpMethod>): (r: RequestMessage)
    ensures r.uri == url && r.referrer == url
    ensures verb.None? ==> r.verb == Get
    ensures verb.Some? ==> r.verb == verb.value
  {
    RequestMessage(url, verb.GetOr(Get), url)
  }

  // ---------------------------------------------------------------------------
  // GetText / GetHtml

  datatype HttpResponse = HttpResponse(status: int, body: string)

  /** `ClientResult<T>`: the value read, the status code and `IsSuccessStatusCode`. */
  datatype ClientResult<T> = ClientResult(value: T, status: int, isSuccess: bool)

  /** 421 Misdirected Request and 429 Too Many Requests are treated as rate limits. */
  predicate IsRateLimited(status: int) {
    status == 421 || status == 429
  }

  predicate IsSuccessStatus(status: int) {
    200 <= status <= 299
  }

  /** Two seconds, the wait used when the caller passes `default(TimeSpan)`. */
  const DefaultWaitTicks: int := 20_000_000

  function EffectiveWait(wait: int): int {
    if wait == 0 then DefaultWaitTicks else wait
  }

  function Pow2(n: nat): nat {
    if n == 0 then 1 else 2 * Pow2(n - 1)
  }

  /** The sleep before request `k`: none before the first, `wait * 2^(k-1)` after the
      rate-limited response to request `k - 1`, and none if that is not positive. */
  function Backoff(wait: int, k: nat): int {
    if k == 0 then 0
    else var d := EffectiveWait(wait) * Pow2(k - 1); if d > 0 then d else 0
  }

  /** `GetText(reqFactory, wait, tries)`: sends requests until one is answered with a status
      other than 421 or 429, at most `tries` of them; `delays[k]` is the sleep before
      request `k`, so `|delays|` is the number of requests sent. */
  method GetText(server: nat -> HttpResponse, wait: int, tries: int)
    returns (outcome: Result<ClientResult<string>>, delays: seq<int>)
    ensures tries >= 0 ==> |delays| <= tries
    ensures tries <= 0 ==> |delays| == 0
    ensures forall k :: 0 <= k < |delays| ==> delays[k] == Backoff(wait, k)
    ensures outcome.Ok? ==>
      && |delays| > 0
      && var last := server(|delays| - 1);
      && !IsRateLimited(last.status)
      && outcome.value == ClientResult(last.body, last.status, IsSuccessStatus(last.status))
    ensures outcome.Ok? ==> forall k :: 0 <= k < |delays| - 1 ==> IsRateLimited(server(k).status)
    ensures outcome.Err? ==>
      && outcome.error.HttpRequest?
      && |delays| == (if tries > 0 then tries else 0)
      && forall k :: 0 <= k < |delays| ==> IsRateLimited(server(k).status)
  {
    var nextDelay := 0;
    delays := [];
    var i := 0;
    while i < tries
      invariant 0 <= i && (tries >= 0 ==> i <= tries) && (tries <= 0 ==> i == 0)
      invariant |delays| == i
      invariant forall k :: 0 <= k < i ==> IsRateLimited(server(k).status)
      invariant forall k :: 0 <= k < i ==> delays[k] == Backoff(wait, k)
      invariant nextDelay == Backoff(wait, i)
    {
      delays := delays + [nextDelay];
      var resp := server(i);
      if IsRateLimited(resp.status) {
        var d := EffectiveWait(wait) * Pow2(i);
        nextDelay := if d > 0 then d else 0;
        i := i + 1;
      } else {
        outcome := Ok(ClientResult(resp.body, resp.status, IsSuccessStatus(resp.status)));
        return;
      }
    }
    outcome := Err(HttpRequest("Unable to get the requested webpage after " + IntToString(tries) + " tries."));
  }

  /** An `HtmlDocument` loaded from a page's text; its node tree is not modelled. */
  datatype HtmlDocument = HtmlDocument(source: string)

  /** `GetHtml`: `GetText`, then a document loaded from the text only when the request
      succeeded, keeping the status and the success flag. */
  method GetHtml(server: nat -> HttpResponse, wait: int, tries: int)
    returns (outcome: Result<ClientResult<Option<HtmlDocument>>>, delays: seq<int>)
    ensures tries >= 0 ==> |delays| <= tries
    ensures forall k :: 0 <= k < |delays| ==> delays[k] == Backoff(wait, k)
    ensures outcome.Ok? ==>
      && |delays| > 0
      && var last := server(|delays| - 1);
      && !IsRateLimited(last.status)
      && outcome.value.status == last.status
      && outcome.value.isSuccess == IsSuccessStatus(last.status)
      && (outcome.value.value.None? <==> !outcome.value.isSuccess)
      && (outcome.value.isSuccess ==> outcome.value.value == Some(HtmlDocument(last.body)))
    ensures outcome.Ok? ==> forall k :: 0 <= k < |delays| - 1 ==> IsRateLimited(server(k).status)
    ensures outcome.Err? ==>
      && outcome.error.HttpRequest?
      && |delays| == (if tries > 0 then tries else 0)
      && forall k :: 0 <= k < |delays| ==> IsRateLimited(server(k).status)
  {
    var text;
    text, delays := GetText(server, wait, tries);
    match text
    case Err(e) =>
      outcome := Err(e);
    case Ok(result) =>
      if result.isSuccess {
        outcome := Ok(ClientResult(Some(HtmlDocument(result.value)), result.status, result.isSuccess));
      } else {
        outcome := Ok(ClientResult(None, result.status, result.isSuccess));
      }
  }

  // ---------------------------------------------------------------------------
  // Gatherers

  /** A registered gatherer: its type and the host text its `IsFromWebsite` looks for. */
  datatype Gatherer = Gatherer(kind: string, host: string)

  function CountKind(gatherers: seq<Gatherer>, kind: string): nat {
    if |gatherers| == 0 then 0
    else (if gatherers[0].kind == kind then 1 else 0) + CountKind(gatherers[1..], kind)
  }

  /** `AddGatherer<T>()`: a new instance of `T` goes to the end of the list. */
  function AddGatherer(gatherers: seq<Gatherer>, instance: Gatherer): (r: seq<Gatherer>)
    ensures |r| == |gatherers| + 1
    ensures r[..|gatherers|] == gatherers && r[|gatherers|] == instance
  {
    gatherers + [instance]
  }

  /** `RemoveGatherer<T>()`: every gatherer of type `T` is removed. */
  function RemoveGatherer(gatherers: seq<Gatherer>, kind: string): (r: seq<Gatherer>)
    ensures forall k :: 0 <= k < |r| ==> r[k].kind != kind && r[k] in gatherers
    ensures CountKind(r, kind) == 0
    ensures |r| == |gatherers| - CountKind(gatherers, kind)
  {
    if |gatherers| == 0 then []
    else if gatherers[0].kind == kind then RemoveGatherer(gatherers[1..], kind)
    else [gatherers[0]] + RemoveGatherer(gatherers[1..], kind)
  }

  /** Removal keeps the other gatherers in their order: removing from a list that grew by
      one at the end gives the old result, extended by the new entry when it is kept. */
  lemma {:induction false} RemoveGathererAppend(gatherers: seq<Gatherer>, instance: Gatherer, kind: string)
    ensures RemoveGatherer(AddGatherer(gatherers, instance), kind) ==
      if instance.kind == kind then RemoveGatherer(gatherers, kind)
      else RemoveGatherer(gatherers, kind) + [instance]
    decreases |gatherers|
  {
    var added := AddGatherer(gatherers, instance);
    if |gatherers| == 0 {
      assert added == [instance];
    } else {
      assert added[1..] == AddGatherer(gatherers[1..], instance);
      RemoveGathererAppend(gatherers[1..], instance, kind);
    }
  }

  /** Removing leaves the counts of every other type unchanged. */
  lemma {:induction false} RemoveGathererKeepsOthers(gatherers: seq<Gatherer>, kind: string, other: string)
    requires other != kind
    ensures CountKind(RemoveGatherer(gatherers, kind), other) == CountKind(gatherers, other)
    decreases |gatherers|
  {
    if |gatherers| > 0 {
      RemoveGathererKeepsOthers(gatherers[1..], kind, other);
      var rest := RemoveGatherer(gatherers[1..], kind);
      if gatherers[0].kind != kind {
        assert ([gatherers[0]] + rest)[1..] == rest;
      }
    }
  }

  /** Removing a type twice is removing it once. */
  lemma {:induction false} RemoveGathererIdempotent(gatherers: seq<Gatherer>, kind: string)
    ensures RemoveGatherer(RemoveGatherer(gatherers, kind), kind) == RemoveGatherer(gatherers, kind)
    decreases |gatherers|
  {
    if |gatherers| > 0 {
      RemoveGathererIdempotent(gatherers[1..], kind);
      var rest := RemoveGatherer(gatherers[1..], kind);
      if gatherers[0].kind != kind {
        assert ([gatherers[0]] + rest)[1..] == rest;
      }
    }
  }
}
