/** The paging loop shared by the downloaders' `GatherPostsAsync` methods.

    Every such loop asks a source for one page at a time and walks the page's records,
    deciding for each one to stop gathering (it is older than the cutoff), to skip it
    (it fails the size or score test) or to offer a post to `Add`, which returns whether
    to keep going. What differs between sources is captured by a `Pager`: the pagination
    part of the loop condition, how the cursor advances, what a failed response means,
    and the API key or board id that must be present before a request.

    The network is a finite sequence of responses, one per request in the order sent;
    running out of them is a stop of its own, so every run terminates. */
module Gathering {
  import opened Wrappers

  /** The decision about one record, made before `Add` is called. `Fault` is an
      exception raised while deciding, such as a null post returned by a lookup. */
  datatype Verdict<+P> = Stop | Skip | Offer(post: P) | Fault(error: Exception)

  /** `Add(list, post)`: the list afterwards, and whether gathering should go on. */
  datatype Added<+P> = Added(list: seq<P>, keepGoing: bool)

  // ---------------------------------------------------------------------------
  // Reference definitions

  /** The posts a sequence of records offers, in order. */
  function Offers<R, P>(records: seq<R>, decide: R -> Verdict<P>): seq<P> {
    if |records| == 0 then []
    else (match decide(records[0]) case Offer(p) => [p] case _ => []) + Offers(records[1..], decide)
  }

  /** Offering distributes over concatenation. */
  lemma {:induction false} OffersSplit<R, P>(a: seq<R>, b: seq<R>, decide: R -> Verdict<P>)
    ensures Offers(a + b, decide) == Offers(a, decide) + Offers(b, decide)
    decreases |a|
  {
    if |a| == 0 {
      assert a + b == b;
    } else {
      assert (a + b)[1..] == a[1..] + b;
      OffersSplit(a[1..], b, decide);
    }
  }

  /** The list after each post is given to `Add` in turn, and the answer to the last call. */
  function Replay<P>(add: (seq<P>, P) -> Added<P>, list: seq<P>, posts: seq<P>): Added<P>
    decreases |posts|
  {
    if |posts| == 0 then Added(list, true)
    else
      var a := add(list, posts[0]);
      if |posts| == 1 then a else Replay(add, a.list, posts[1..])
  }

  /** Every call in a replay except the last answered "keep going". */
  predicate KeptGoing<P>(add: (seq<P>, P) -> Added<P>, list: seq<P>, posts: seq<P>)
    decreases |posts|
  {
    |posts| <= 1 || (add(list, posts[0]).keepGoing && KeptGoing(add, add(list, posts[0]).list, posts[1..]))
  }

  lemma {:induction false} ReplayAppend<P>(add: (seq<P>, P) -> Added<P>, list: seq<P>, a: seq<P>, b: seq<P>)
    requires |a| > 0
    ensures Replay(add, list, a + b) == Replay(add, Replay(add, list, a).list, b) || |b| == 0
    ensures Replay(add, list, a + b).list == Replay(add, Replay(add, list, a).list, b).list
    decreases |a|
  {
    if |b| > 0 {
      var first := add(list, a[0]);
      assert (a + b)[0] == a[0];
      if |a| == 1 {
        assert (a + b)[1..] == b;
      } else {
        assert (a + b)[1..] == a[1..] + b;
        ReplayAppend(add, first.list, a[1..], b);
      }
    } else {
      assert a + b == a;
    }
  }

  lemma ReplayListAppend<P>(add: (seq<P>, P) -> Added<P>, list: seq<P>, a: seq<P>, b: seq<P>)
    ensures Replay(add, list, a + b).list == Replay(add, Replay(add, list, a).list, b).list
  {
    if |a| == 0 {
      assert a + b == b;
    } else {
      ReplayAppend(add, list, a, b);
    }
  }

  // ---------------------------------------------------------------------------
  // One page

  /** How the walk over one page's records ended. */
  datatype PageEnd = Completed | TooOld | AddDeclined | Faulted(error: Exception)

  /** The outcome of walking a page: the list, the posts offered to `Add`, and how many
      records were examined. */
  datatype Scan<+P> = Scan(list: seq<P>, offered: seq<P>, examined: nat, end: PageEnd)

  /** The `foreach` over a page's records: `Stop` ends gathering, `Skip` moves on, `Offer`
      calls `Add`, and an `Add` that answers false ends gathering. */
  function ScanPage<R, P>(records: seq<R>, decide: R -> Verdict<P>, add: (seq<P>, P) -> Added<P>, list: seq<P>): (s: Scan<P>)
    ensures s.examined <= |records|
    ensures s.end.Completed? ==> s.examined == |records|
    ensures !s.end.Completed? ==> s.examined > 0
    ensures s.end.TooOld? ==> decide(records[s.examined - 1]).Stop?
    ensures s.end.Faulted? ==> decide(records[s.examined - 1]) == Fault(s.end.error)
    ensures s.end.AddDeclined? ==> decide(records[s.examined - 1]).Offer? && |s.offered| > 0
    decreases |records|
  {
    if |records| == 0 then Scan(list, [], 0, Completed)
    else
      match decide(records[0])
      case Stop => Scan(list, [], 1, TooOld)
      case Fault(e) => Scan(list, [], 1, Faulted(e))
      case Skip =>
        var rest := ScanPage(records[1..], decide, add, list);
        Scan(rest.list, rest.offered, rest.examined + 1, rest.end)
      case Offer(post) =>
        var a := add(list, post);
        if !a.keepGoing then Scan(a.list, [post], 1, AddDeclined)
        else
          var rest := ScanPage(records[1..], decide, add, a.list);
          Scan(rest.list, [post] + rest.offered, rest.examined + 1, rest.end)
  }

  /** The posts offered on a page are those of the examined records, and the list is what
      offering them to `Add` in turn produces. */
  lemma ScanPageOffers<R, P>(records: seq<R>, decide: R -> Verdict<P>, add: (seq<P>, P) -> Added<P>, list: seq<P>)
    ensures var s := ScanPage(records, decide, add, list);
      && s.offered == Offers(records[..s.examined], decide)
      && s.list == Replay(add, list, s.offered).list
  {
    ScanPageOffered(records, decide, add, list);
    ScanPageList(records, decide, add, list);
  }

  lemma {:induction false} ScanPageOffered<R, P>(records: seq<R>, decide: R -> Verdict<P>, add: (seq<P>, P) -> Added<P>, list: seq<P>)
    ensures var s := ScanPage(records, decide, add, list);
      s.offered == Offers(records[..s.examined], decide)
    decreases |records|
  {
    if |records| > 0 {
      OffersStep(records, 0, decide);
      match decide(records[0])
      case Stop =>
      case Fault(e) =>
      case Skip =>
        ScanPageOffered(records[1..], decide, add, list);
        OffersStep(records, ScanPage(records[1..], decide, add, list).examined, decide);
      case Offer(post) =>
        var a := add(list, post);
        if a.keepGoing {
          ScanPageOffered(records[1..], decide, add, a.list);
          OffersStep(records, ScanPage(records[1..], decide, add, a.list).examined, decide);
        }
    }
  }

  /** The offers among the first `n + 1` records: the first record's, then those among
      the next `n`. */
  lemma OffersStep<R, P>(records: seq<R>, n: nat, decide: R -> Verdict<P>)
    requires n < |records|
    ensures Offers(records[..n + 1], decide)
      == (match decide(records[0]) case Offer(p) => [p] case _ => []) + Offers(records[1..][..n], decide)
  {
    assert records[..n + 1][1..] == records[1..][..n];
  }

  lemma {:induction false} ScanPageList<R, P>(records: seq<R>, decide: R -> Verdict<P>, add: (seq<P>, P) -> Added<P>, list: seq<P>)
    ensures var s := ScanPage(records, decide, add, list);
      s.list == Replay(add, list, s.offered).list
    decreases |records|
  {
    if |records| > 0 {
      match decide(records[0])
      case Stop =>
      case Fault(e) =>
      case Skip =>
        ScanPageList(records[1..], decide, add, list);
      case Offer(post) =>
        var a := add(list, post);
        if a.keepGoing {
          ScanPageList(records[1..], decide, add, a.list);
          var rest := ScanPage(records[1..], decide, add, a.list);
          assert ([post] + rest.offered)[1..] == rest.offered;
        }
    }
  }

  /** Every `Add` on a page answered "keep going" except possibly the last, which answered
      false exactly when the page ended because of it. */
  lemma {:induction false} ScanPageAnswers<R, P>(records: seq<R>, decide: R -> Verdict<P>, add: (seq<P>, P) -> Added<P>, list: seq<P>)
    ensures var s := ScanPage(records, decide, add, list);
      && KeptGoing(add, list, s.offered)
      && (Replay(add, list, s.offered).keepGoing <==> !s.end.AddDeclined?)
    decreases |records|
  {
    if |records| > 0 {
      match decide(records[0])
      case Stop =>
      case Fault(e) =>
      case Skip =>
        ScanPageAnswers(records[1..], decide, add, list);
      case Offer(post) =>
        var a := add(list, post);
        if a.keepGoing {
          ScanPageAnswers(records[1..], decide, add, a.list);
          var rest := ScanPage(records[1..], decide, add, a.list);
          assert ([post] + rest.offered)[1..] == rest.offered;
        }
    }
  }

  /** Only the last examined record can stop the walk: every record before it was skipped
      or offered, and so was the last one if the whole page was walked. */
  lemma {:induction false} ScanPageStopsLast<R, P>(records: seq<R>, decide: R -> Verdict<P>, add: (seq<P>, P) -> Added<P>, list: seq<P>)
    ensures var s := ScanPage(records, decide, add, list);
      forall k :: 0 <= k < s.examined && (k < s.examined - 1 || s.end.Completed?) ==>
        decide(records[k]).Skip? || decide(records[k]).Offer?
    decreases |records|
  {
    if |records| > 0 {
      match decide(records[0])
      case Stop =>
      case Fault(e) =>
      case Skip =>
        ScanPageStopsLast(records[1..], decide, add, list);
      case Offer(post) =>
        var a := add(list, post);
        if a.keepGoing {
          ScanPageStopsLast(records[1..], decide, add, a.list);
        }
    }
  }

  /** Some record of a page is older than the cutoff. */
  predicate HasStop<R, P>(records: seq<R>, decide: R -> Verdict<P>) {
    exists k :: 0 <= k < |records| && decide(records[k]).Stop?
  }

  // ---------------------------------------------------------------------------
  // The page loop

  /** What a failed response means to a loop: try again, or give up. */
  datatype Reaction = Retry | Quit

  /** The answer to one request: a decoded page, an unsuccessful response with its text,
      or an exception raised while fetching or decoding. */
  datatype Response<+Pg> = Fetched(page: Pg) | Failed(text: string) | Thrown(error: Exception)

  /** The responses a loop sees when every request first builds its query: when the
      query cannot be built, the first request the loop would send raises instead. */
  function Queried<Pg>(query: Result<string>, responses: seq<Response<Pg>>): (r: seq<Response<Pg>>)
    ensures query.Ok? ==> r == responses
    ensures query.Err? ==> r == [Thrown(query.error)]
  {
    if query.Err? then [Thrown(query.error)] else responses
  }

  /** Why a loop ended. */
  datatype Halt =
    | Enough              // the list reached the amount to gather
    | NoMorePages         // the pagination part of the loop condition failed
    | FetchFailed         // an unsuccessful response that is not retried
    | CutOff              // a record older than the cutoff
    | Declined            // `Add` answered false
    | Raised(error: Exception)
    | OutOfResponses      // the model's finite supply of responses ran out

  /** A source's paging rules.
      - `proceed(cursor, last)`: the pagination part of the loop condition, given the page
        the previous request returned (`None` before any page);
      - `advance`: the loop's increment after a page; `retryAt(cursor, last)`: the cursor
        after a retry, or the exception the increment raises when it reads a page that
        was never fetched;
      - `blank(key)`: the key must be (re)obtained before the next request; `obtain(key, n)`
        is the outcome of the `n`-th attempt to obtain it, starting from the blank key;
        `cleared(key)` is the key after a retry;
      - `react(text)`: what an unsuccessful response means;
      - `records`, `decide`, `add`: the page's records and the per-record rules. */
  datatype Pager<!C, !K, !Pg, !R, !P> = Pager(
    target: int,
    proceed: (C, Option<Pg>) -> bool,
    advance: (C, Pg) -> C,
    retryAt: (C, Option<Pg>) -> Result<C>,
    blank: K -> bool,
    obtain: (K, nat) -> Result<K>,
    cleared: K -> K,
    react: string -> Reaction,
    records: Pg -> seq<R>,
    decide: R -> Verdict<P>,
    add: (seq<P>, P) -> Added<P>)

  /** The loop's variables between iterations. */
  datatype State<C, K, Pg, P> = State(cursor: C, key: K, last: Option<Pg>, list: seq<P>, obtained: nat)

  /** A request: the cursor and the key it was sent with. */
  datatype Request<C, K> = Request(cursor: C, key: K)

  /** The outcome of a loop: the list, the requests sent, the posts offered to `Add`,
      why it ended, and the key-obtaining attempts made. */
  datatype Run<C, K, P> = Run(list: seq<P>, requests: seq<Request<C, K>>, offered: seq<P>, halt: Halt, obtained: nat)

  /** The key a request is sent with: the current one, or a newly obtained one if blank. */
  function KeyFor<C, K, Pg, R, P>(p: Pager<C, K, Pg, R, P>, s: State<C, K, Pg, P>): Result<K> {
    if p.blank(s.key) then p.obtain(s.key, s.obtained) else Ok(s.key)
  }

  function ObtainedAfter<C, K, Pg, R, P>(p: Pager<C, K, Pg, R, P>, s: State<C, K, Pg, P>): nat {
    if p.blank(s.key) then s.obtained + 1 else s.obtained
  }

  /** The loop condition, evaluated before each iteration. */
  predicate Continues<C, K, Pg, R, P>(p: Pager<C, K, Pg, R, P>, s: State<C, K, Pg, P>) {
    |s.list| < p.target && p.proceed(s.cursor, s.last)
  }

  /** The state after a response that does not end the loop. */
  function Next<C, K, Pg, R, P>(p: Pager<C, K, Pg, R, P>, s: State<C, K, Pg, P>, key: K, response: Response<Pg>): State<C, K, Pg, P> {
    match response
    case Fetched(pg) =>
      State(p.advance(s.cursor, pg), key, Some(pg), ScanPage(p.records(pg), p.decide, p.add, s.list).list, ObtainedAfter(p, s))
    case _ =>
      var cursor := if p.retryAt(s.cursor, s.last).Ok? then p.retryAt(s.cursor, s.last).value else s.cursor;
      State(cursor, p.cleared(key), s.last, s.list, ObtainedAfter(p, s))
  }

  /** Whether a response ends the loop, and why; `None` means the loop goes on. */
  function Ending<C, K, Pg, R, P>(p: Pager<C, K, Pg, R, P>, s: State<C, K, Pg, P>, response: Response<Pg>): Option<Halt> {
    match response
    case Thrown(e) => Some(Raised(e))
    case Failed(text) =>
      if p.react(text) == Quit then Some(FetchFailed)
      else if p.retryAt(s.cursor, s.last).Err? then Some(Raised(p.retryAt(s.cursor, s.last).error))
      else None
    case Fetched(pg) =>
      match ScanPage(p.records(pg), p.decide, p.add, s.list).end
      case Completed => None
      case TooOld => Some(CutOff)
      case AddDeclined => Some(Declined)
      case Faulted(e) => Some(Raised(e))
  }

  /** The posts a response offers to `Add`. */
  function OfferedBy<C, K, Pg, R, P>(p: Pager<C, K, Pg, R, P>, s: State<C, K, Pg, P>, response: Response<Pg>): seq<P> {
    match response
    case Fetched(pg) => ScanPage(p.records(pg), p.decide, p.add, s.list).offered
    case _ => []
  }

  /** The list after a response. */
  function ListAfter<C, K, Pg, R, P>(p: Pager<C, K, Pg, R, P>, s: State<C, K, Pg, P>, response: Response<Pg>): seq<P> {
    match response
    case Fetched(pg) => ScanPage(p.records(pg), p.decide, p.add, s.list).list
    case _ => s.list
  }

  lemma ScanPageListIsReplay<C, K, Pg, R, P>(p: Pager<C, K, Pg, R, P>, s: State<C, K, Pg, P>, response: Response<Pg>)
    ensures ListAfter(p, s, response) == Replay(p.add, s.list, OfferedBy(p, s, response)).list
  {
    if response.Fetched? {
      ScanPageOffers(p.records(response.page), p.decide, p.add, s.list);
    }
  }

  /** The loop, run against the given responses. */
  function Gather<C, K, Pg, R, P>(p: Pager<C, K, Pg, R, P>, s: State<C, K, Pg, P>, responses: seq<Response<Pg>>): (r: Run<C, K, P>)
    ensures |r.requests| <= |responses|
    ensures r.halt == OutOfResponses ==> |r.requests| == |responses|
    ensures r.halt == Enough ==> |r.list| >= p.target
    ensures r.list == Replay(p.add, s.list, r.offered).list
    ensures r.obtained >= s.obtained
    decreases |responses|
  {
    if |s.list| >= p.target then Run(s.list, [], [], Enough, s.obtained)
    else if !p.proceed(s.cursor, s.last) then Run(s.list, [], [], NoMorePages, s.obtained)
    else match KeyFor(p, s)
      case Err(e) => Run(s.list, [], [], Raised(e), ObtainedAfter(p, s))
      case Ok(key) =>
        if |responses| == 0 then Run(s.list, [], [], OutOfResponses, ObtainedAfter(p, s))
        else
          var request := Request(s.cursor, key);
          var offered := OfferedBy(p, s, responses[0]);
          match Ending(p, s, responses[0])
          case Some(halt) =>
            ScanPageListIsReplay(p, s, responses[0]);
            Run(ListAfter(p, s, responses[0]), [request], offered, halt, ObtainedAfter(p, s))
          case None =>
            var rest := Gather(p, Next(p, s, key, responses[0]), responses[1..]);
            ScanPageListIsReplay(p, s, responses[0]);
            ReplayListAppend(p.add, s.list, offered, rest.offered);
            Run(rest.list, [request] + rest.requests, offered + rest.offered, rest.halt, rest.obtained)
  }

  // ---------------------------------------------------------------------------
  // What every run satisfies

  /** The first request is sent at the loop's starting cursor, with a key that is not
      blank, and only when the loop condition holds. */
  lemma FirstRequest<C, K, Pg, R, P>(p: Pager<C, K, Pg, R, P>, s: State<C, K, Pg, P>, responses: seq<Response<Pg>>)
    requires |Gather(p, s, responses).requests| > 0
    ensures var r := Gather(p, s, responses);
      && Continues(p, s)
      && r.requests[0].cursor == s.cursor
      && KeyFor(p, s) == Ok(r.requests[0].key)
  {
  }

  /** The loop's variables before request `k`, following the responses before it. */
  function StateAt<C, K, Pg, R, P>(p: Pager<C, K, Pg, R, P>, s: State<C, K, Pg, P>, responses: seq<Response<Pg>>, k: nat): State<C, K, Pg, P>
    requires k <= |responses|
  {
    if k == 0 then s
    else
      var prev := StateAt(p, s, responses, k - 1);
      Next(p, prev, if KeyFor(p, prev).Ok? then KeyFor(p, prev).value else prev.key, responses[k - 1])
  }

  lemma {:induction false} StateAtShift<C, K, Pg, R, P>(p: Pager<C, K, Pg, R, P>, s: State<C, K, Pg, P>, responses: seq<Response<Pg>>, k: nat)
    requires 0 < k <= |responses|
    requires KeyFor(p, s).Ok?
    ensures StateAt(p, s, responses, k) == StateAt(p, Next(p, s, KeyFor(p, s).value, responses[0]), responses[1..], k - 1)
  {
    if k > 1 {
      StateAtShift(p, s, responses, k - 1);
      assert responses[1..][k - 2] == responses[k - 1];
    }
  }

  /** The trace of a run: request `k` is sent from the state the earlier responses lead
      to, only when the loop condition holds there and with a key that is not blank; every
      response but the last lets the loop go on; and a run that ends with `NoMorePages`
      ends because the pagination condition fails in the state after its last response. */
  lemma RunTrace<C, K, Pg, R, P>(p: Pager<C, K, Pg, R, P>, s: State<C, K, Pg, P>, responses: seq<Response<Pg>>)
    ensures var r := Gather(p, s, responses);
      && (forall k :: 0 <= k < |r.requests| ==>
            && Continues(p, StateAt(p, s, responses, k))
            && KeyFor(p, StateAt(p, s, responses, k)) == Ok(r.requests[k].key)
            && r.requests[k].cursor == StateAt(p, s, responses, k).cursor)
      && (forall k :: 0 <= k < |r.requests| - 1 ==> Ending(p, StateAt(p, s, responses, k), responses[k]).None?)
      && (r.halt == NoMorePages ==>
            && |r.list| < p.target
            && !p.proceed(StateAt(p, s, responses, |r.requests|).cursor, StateAt(p, s, responses, |r.requests|).last))
  {
    RunRequests(p, s, responses);
    RunEndings(p, s, responses);
    RunNoMorePages(p, s, responses);
  }

  /** Request `k` is sent from the state the earlier responses lead to, only when the loop
      condition holds there and with a key that is not blank. */
  lemma {:induction false} RunRequests<C, K, Pg, R, P>(p: Pager<C, K, Pg, R, P>, s: State<C, K, Pg, P>, responses: seq<Response<Pg>>)
    ensures var r := Gather(p, s, responses);
      forall k :: 0 <= k < |r.requests| ==>
        && Continues(p, StateAt(p, s, responses, k))
        && KeyFor(p, StateAt(p, s, responses, k)) == Ok(r.requests[k].key)
        && r.requests[k].cursor == StateAt(p, s, responses, k).cursor
    decreases |responses|
  {
    var r := Gather(p, s, responses);
    if Continues(p, s) && KeyFor(p, s).Ok? && |responses| > 0 && Ending(p, s, responses[0]).None? {
      var key := KeyFor(p, s).value;
      var s' := Next(p, s, key, responses[0]);
      var rest := Gather(p, s', responses[1..]);
      RunRequests(p, s', responses[1..]);
      assert r.requests == [Request(s.cursor, key)] + rest.requests;
      forall k | 0 < k < |r.requests|
        ensures StateAt(p, s, responses, k) == StateAt(p, s', responses[1..], k - 1)
      {
        StateAtShift(p, s, responses, k);
      }
    }
  }

  /** Every response but the last lets the loop go on. */
  lemma {:induction false} RunEndings<C, K, Pg, R, P>(p: Pager<C, K, Pg, R, P>, s: State<C, K, Pg, P>, responses: seq<Response<Pg>>)
    ensures var r := Gather(p, s, responses);
      forall k :: 0 <= k < |r.requests| - 1 ==> Ending(p, StateAt(p, s, responses, k), responses[k]).None?
    decreases |responses|
  {
    var r := Gather(p, s, responses);
    if Continues(p, s) && KeyFor(p, s).Ok? && |responses| > 0 && Ending(p, s, responses[0]).None? {
      var key := KeyFor(p, s).value;
      var s' := Next(p, s, key, responses[0]);
      var rest := Gather(p, s', responses[1..]);
      RunEndings(p, s', responses[1..]);
      assert |r.requests| == 1 + |rest.requests|;
      forall k | 0 < k < |r.requests| - 1
        ensures Ending(p, StateAt(p, s, responses, k), responses[k]).None?
      {
        StateAtShift(p, s, responses, k);
        assert responses[1..][k - 1] == responses[k];
      }
    }
  }

  /** A run that ends with `NoMorePages` ends because the pagination condition fails in
      the state after its last response, and that response let the loop go on. */
  lemma {:induction false} RunNoMorePages<C, K, Pg, R, P>(p: Pager<C, K, Pg, R, P>, s: State<C, K, Pg, P>, responses: seq<Response<Pg>>)
    ensures var r := Gather(p, s, responses);
      r.halt == NoMorePages ==>
        && |r.list| < p.target
        && !p.proceed(StateAt(p, s, responses, |r.requests|).cursor, StateAt(p, s, responses, |r.requests|).last)
        && (|r.requests| > 0 ==> Ending(p, StateAt(p, s, responses, |r.requests| - 1), responses[|r.requests| - 1]).None?)
    decreases |responses|
  {
    var r := Gather(p, s, responses);
    if Continues(p, s) && KeyFor(p, s).Ok? && |responses| > 0 && Ending(p, s, responses[0]).None? {
      var key := KeyFor(p, s).value;
      var s' := Next(p, s, key, responses[0]);
      var rest := Gather(p, s', responses[1..]);
      RunNoMorePages(p, s', responses[1..]);
      assert |r.requests| == 1 + |rest.requests|;
      StateAtShift(p, s, responses, |r.requests|);
      if |rest.requests| > 0 {
        StateAtShift(p, s, responses, |rest.requests|);
        assert responses[1..][|rest.requests| - 1] == responses[|rest.requests|];
      }
    }
  }

  /** One step of a run: between request `k` and the next one, the loop's variables move
      from the state before `k` by its response, which was a page or a retried failure. */
  lemma RunStep<C, K, Pg, R, P>(p: Pager<C, K, Pg, R, P>, s: State<C, K, Pg, P>, responses: seq<Response<Pg>>, k: nat)
    requires k + 1 < |Gather(p, s, responses).requests|
    ensures var r := Gather(p, s, responses);
      var st := StateAt(p, s, responses, k);
      var next := StateAt(p, s, responses, k + 1);
      && next == Next(p, st, r.requests[k].key, responses[k])
      && Continues(p, next)
      && r.requests[k].cursor == st.cursor
      && r.requests[k + 1].cursor == next.cursor
      && KeyFor(p, next) == Ok(r.requests[k + 1].key)
      && (responses[k].Fetched? || (responses[k].Failed? && p.react(responses[k].text) == Retry))
      && (responses[k].Fetched? ==> ScanPage(p.records(responses[k].page), p.decide, p.add, st.list).end.Completed?)
  {
    RunTrace(p, s, responses);
  }

  /** A run that `Add` ended: the last answer in the replay of the offered posts is false. */
  lemma {:induction false} DeclinedAnswer<C, K, Pg, R, P>(p: Pager<C, K, Pg, R, P>, s: State<C, K, Pg, P>, responses: seq<Response<Pg>>)
    ensures var r := Gather(p, s, responses);
      r.halt == Declined ==> |r.offered| > 0 && !Replay(p.add, s.list, r.offered).keepGoing
    decreases |responses|
  {
    var r := Gather(p, s, responses);
    if Continues(p, s) && KeyFor(p, s).Ok? && |responses| > 0 {
      var key := KeyFor(p, s).value;
      if responses[0].Fetched? {
        ScanPageAnswers(p.records(responses[0].page), p.decide, p.add, s.list);
        ScanPageOffers(p.records(responses[0].page), p.decide, p.add, s.list);
      }
      if Ending(p, s, responses[0]).None? {
        var s' := Next(p, s, key, responses[0]);
        var rest := Gather(p, s', responses[1..]);
        DeclinedAnswer(p, s', responses[1..]);
        var offered := OfferedBy(p, s, responses[0]);
        if r.halt == Declined && |offered| > 0 {
          ReplayAppend(p.add, s.list, offered, rest.offered);
        } else if r.halt == Declined {
          assert offered + rest.offered == rest.offered;
          ScanPageListIsReplay(p, s, responses[0]);
        }
      }
    }
  }

  /** How a run ended, in terms of the last response it used: a `FetchFailed` halt
      follows a failure the source does not retry, a `CutOff` follows a page holding a
      record older than the cutoff, a `Declined` halt follows a page on which `Add`
      answered false, and `NoMorePages` is reached without any request when the loop
      condition fails at the start. */
  lemma {:induction false} HaltCause<C, K, Pg, R, P>(p: Pager<C, K, Pg, R, P>, s: State<C, K, Pg, P>, responses: seq<Response<Pg>>)
    ensures var r := Gather(p, s, responses);
      && (r.halt == FetchFailed ==>
            && |r.requests| > 0
            && responses[|r.requests| - 1].Failed?
            && p.react(responses[|r.requests| - 1].text) == Quit)
      && (r.halt == CutOff ==>
            && |r.requests| > 0
            && responses[|r.requests| - 1].Fetched?
            && HasStop(p.records(responses[|r.requests| - 1].page), p.decide))
      && (r.halt == Declined ==> |r.offered| > 0)
      && (|r.requests| == 0 && r.halt == NoMorePages ==> !p.proceed(s.cursor, s.last))
    decreases |responses|
  {
    var r := Gather(p, s, responses);
    if Continues(p, s) && KeyFor(p, s).Ok? && |responses| > 0 {
      var key := KeyFor(p, s).value;
      match Ending(p, s, responses[0])
      case Some(halt) =>
        if responses[0].Fetched? {
          var scan := ScanPage(p.records(responses[0].page), p.decide, p.add, s.list);
          if scan.end.TooOld? {
            assert p.decide(p.records(responses[0].page)[scan.examined - 1]).Stop?;
          }
        }
      case None =>
        var s' := Next(p, s, key, responses[0]);
        HaltCause(p, s', responses[1..]);
        var rest := Gather(p, s', responses[1..]);
        assert r.requests == [Request(s.cursor, key)] + rest.requests;
        if |rest.requests| > 0 {
          assert responses[1..][|rest.requests| - 1] == responses[|r.requests| - 1];
        }
    }
  }

  /** A source with no key to obtain, no record it faults on and a retry that cannot
      raise, raises only what a request raised: the last response used is the exception
      the run ended with. */
  lemma {:induction false} RaisedByThrown<C, K, Pg, R, P>(p: Pager<C, K, Pg, R, P>, s: State<C, K, Pg, P>, responses: seq<Response<Pg>>)
    requires forall k :: !p.blank(k)
    requires forall r :: !p.decide(r).Fault?
    requires forall c, l :: p.retryAt(c, l).Ok?
    ensures var r := Gather(p, s, responses);
      r.halt.Raised? ==> |r.requests| > 0 && responses[|r.requests| - 1] == Thrown(r.halt.error)
    decreases |responses|
  {
    if Continues(p, s) && |responses| > 0 {
      if responses[0].Fetched? {
        NoFault(p.records(responses[0].page), p.decide, p.add, s.list);
      }
      if Ending(p, s, responses[0]).None? {
        var s' := Next(p, s, s.key, responses[0]);
        RaisedByThrown(p, s', responses[1..]);
        var rest := Gather(p, s', responses[1..]);
        if |rest.requests| > 0 {
          assert responses[1..][|rest.requests| - 1] == responses[|rest.requests|];
        }
      }
    }
  }

  /** Some record of a page has a verdict that raises `e`. */
  predicate FaultsWith<R, P>(records: seq<R>, decide: R -> Verdict<P>, e: Exception) {
    exists k :: 0 <= k < |records| && decide(records[k]) == Fault(e)
  }

  /** A source with no key to obtain and a retry that cannot raise raises only what a
      request raised or what a record's verdict raised: the last response used is that
      exception, or a page holding a record that faults with it. */
  lemma {:induction false} RaisedByThrownOrFault<C, K, Pg, R, P>(p: Pager<C, K, Pg, R, P>, s: State<C, K, Pg, P>, responses: seq<Response<Pg>>)
    requires forall k :: !p.blank(k)
    requires forall c, l :: p.retryAt(c, l).Ok?
    ensures var r := Gather(p, s, responses);
      r.halt.Raised? ==>
        && |r.requests| > 0
        && (|| responses[|r.requests| - 1] == Thrown(r.halt.error)
            || (&& responses[|r.requests| - 1].Fetched?
                && FaultsWith(p.records(responses[|r.requests| - 1].page), p.decide, r.halt.error)))
    decreases |responses|
  {
    if Continues(p, s) && |responses| > 0 {
      if responses[0].Fetched? {
        var records := p.records(responses[0].page);
        var scan := ScanPage(records, p.decide, p.add, s.list);
        if scan.end.Faulted? {
          assert p.decide(records[scan.examined - 1]) == Fault(scan.end.error);
        }
      }
      if Ending(p, s, responses[0]).None? {
        var s' := Next(p, s, s.key, responses[0]);
        RaisedByThrownOrFault(p, s', responses[1..]);
        var rest := Gather(p, s', responses[1..]);
        if |rest.requests| > 0 {
          assert responses[1..][|rest.requests| - 1] == responses[|rest.requests|];
        }
      }
    }
  }

  /** A page cannot fault when no record's verdict is a fault. */
  lemma {:induction false} NoFault<R, P>(records: seq<R>, decide: R -> Verdict<P>, add: (seq<P>, P) -> Added<P>, list: seq<P>)
    requires forall r :: !decide(r).Fault?
    ensures !ScanPage(records, decide, add, list).end.Faulted?
  {
  }

  /** A source that never retries keeps its key: when the key is present at the start,
      no attempt to obtain one is made and every request carries that key. */
  lemma {:induction false} KeyKept<C, K, Pg, R, P>(p: Pager<C, K, Pg, R, P>, s: State<C, K, Pg, P>, responses: seq<Response<Pg>>)
    requires !p.blank(s.key)
    requires forall t :: p.react(t) == Quit
    ensures Gather(p, s, responses).obtained == s.obtained
    ensures forall k :: 0 <= k < |Gather(p, s, responses).requests| ==> Gather(p, s, responses).requests[k].key == s.key
    decreases |responses|
  {
    if Continues(p, s) && |responses| > 0 && Ending(p, s, responses[0]).None? {
      KeyKept(p, Next(p, s, s.key, responses[0]), responses[1..]);
    }
  }

  /** Bounded lists: when `Add` never lengthens a list past the target and answers false on
      reaching it, a run that starts at or below the target ends at or below it. */
  lemma {:induction false} ScanBounded<R, P>(records: seq<R>, decide: R -> Verdict<P>, add: (seq<P>, P) -> Added<P>, list: seq<P>, target: int)
    requires |list| < target
    requires forall l: seq<P>, x: P {:trigger add(l, x)} :: |l| < target ==>
      |add(l, x).list| <= target && (|add(l, x).list| == target ==> !add(l, x).keepGoing)
    ensures |ScanPage(records, decide, add, list).list| <= target
    ensures ScanPage(records, decide, add, list).end.Completed? ==> |ScanPage(records, decide, add, list).list| < target
    decreases |records|
  {
    if |records| > 0 {
      match decide(records[0])
      case Skip => ScanBounded(records[1..], decide, add, list, target);
      case Offer(post) =>
        var a := add(list, post);
        if a.keepGoing {
          ScanBounded(records[1..], decide, add, a.list, target);
        }
      case _ =>
    }
  }

  lemma {:induction false} GatherBounded<C, K, Pg, R, P>(p: Pager<C, K, Pg, R, P>, s: State<C, K, Pg, P>, responses: seq<Response<Pg>>)
    requires |s.list| <= p.target
    requires forall l: seq<P>, x: P {:trigger p.add(l, x)} :: |l| < p.target ==>
      |p.add(l, x).list| <= p.target && (|p.add(l, x).list| == p.target ==> !p.add(l, x).keepGoing)
    ensures |Gather(p, s, responses).list| <= p.target
    decreases |responses|
  {
    if Continues(p, s) && KeyFor(p, s).Ok? && |responses| > 0 {
      var key := KeyFor(p, s).value;
      if responses[0].Fetched? {
        ScanBounded(p.records(responses[0].page), p.decide, p.add, s.list, p.target);
      }
      if Ending(p, s, responses[0]).None? {
        GatherBounded(p, Next(p, s, key, responses[0]), responses[1..]);
      }
    }
  }
}
