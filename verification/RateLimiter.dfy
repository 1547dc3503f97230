/**
 Models consumeRateLimit and cleanupRateLimitState of src/server/httpGateway.ts: a fixed-window
 limiter whose stale windows are deleted lazily, by whatever request comes next.

 `WindowOf` is the reference: the window of one address computed from that address's requests
 alone, with no cleanup and no other address in sight.
 */
module RateLimiter {
  import opened Options

  datatype Window = Window(start: int, count: int)

  datatype Config = Config(windowMs: int, max: int)

  datatype Request = Request(ip: string, now: int)

  const CLEANUP_FACTOR := 10

  // ---------- One address on its own ----------

  predicate Expired(config: Config, window: Window, now: int) {
    now - window.start >= config.windowMs
  }

  predicate Accepts(config: Config, window: Option<Window>, now: int) {
    window.None? || Expired(config, window.value, now) || window.value.count < config.max
  }

  function NextWindow(config: Config, window: Option<Window>, now: int): Option<Window> {
    if window.None? || Expired(config, window.value, now) then Some(Window(now, 1))
    else if window.value.count >= config.max then window
    else Some(window.value.(count := window.value.count + 1))
  }

  /** The window of address ip after the requests, looking only at its own requests. */
  function WindowOf(config: Config, requests: seq<Request>, ip: string): Option<Window> {
    if requests == [] then None
    else
      var last := requests[|requests| - 1];
      var before := WindowOf(config, requests[..|requests| - 1], ip);
      if last.ip == ip then NextWindow(config, before, last.now) else before
  }

  // ---------- The shared table ----------

  function Cleaned(config: Config, table: map<string, Window>, now: int): map<string, Window> {
    map ip | ip in table && now - table[ip].start < config.windowMs * CLEANUP_FACTOR :: table[ip]
  }

  function Lookup(table: map<string, Window>, ip: string): Option<Window> {
    if ip in table then Some(table[ip]) else None
  }

  /** The table after one request, with or without the lazy cleanup. */
  function NextTable(config: Config, table: map<string, Window>, request: Request, cleanup: bool): map<string, Window> {
    var cleaned := if cleanup then Cleaned(config, table, request.now) else table;
    cleaned[request.ip := NextWindow(config, Lookup(cleaned, request.ip), request.now).value]
  }

  predicate Decision(config: Config, table: map<string, Window>, request: Request, cleanup: bool) {
    var cleaned := if cleanup then Cleaned(config, table, request.now) else table;
    Accepts(config, Lookup(cleaned, request.ip), request.now)
  }

  function TableAfter(config: Config, requests: seq<Request>, cleanup: bool): map<string, Window> {
    if requests == [] then map[]
    else
      var n := |requests| - 1;
      NextTable(config, TableAfter(config, requests[..n], cleanup), requests[n], cleanup)
  }

  /** Whether request i of the run is accepted. */
  predicate Accepted(config: Config, requests: seq<Request>, i: nat, cleanup: bool)
    requires i < |requests|
  {
    Decision(config, TableAfter(config, requests[..i], cleanup), requests[i], cleanup)
  }

  ghost predicate Monotone(requests: seq<Request>) {
    forall i, j | 0 <= i <= j < |requests| :: requests[i].now <= requests[j].now
  }

  // ---------- The limiter as the gateway runs it ----------

  class Limiter {
    const config: Config
    var rateLimitState: map<string, Window>
    ghost var history: seq<Request>

    ghost predicate Valid()
      reads this
    {
      rateLimitState == TableAfter(config, history, true)
    }

    constructor (config: Config)
      ensures Valid() && this.config == config && history == []
    {
      this.config := config;
      rateLimitState := map[];
      history := [];
    }

    method CleanupRateLimitState(now: int)
      modifies this`rateLimitState
      ensures rateLimitState == Cleaned(config, old(rateLimitState), now)
    {
      var expirationWindow := config.windowMs * CLEANUP_FACTOR;
      var unseen := rateLimitState.Keys;
      while unseen != {}
        invariant unseen <= old(rateLimitState).Keys
        invariant rateLimitState.Keys <= old(rateLimitState).Keys
        invariant forall ip | ip in rateLimitState :: rateLimitState[ip] == old(rateLimitState)[ip]
        invariant forall ip | ip in unseen :: ip in rateLimitState
        invariant forall ip | ip in old(rateLimitState) && ip !in unseen ::
                    ip in rateLimitState <==> now - old(rateLimitState)[ip].start < expirationWindow
        decreases |unseen|
      {
        var ip :| ip in unseen;
        if now - rateLimitState[ip].start >= expirationWindow {
          rateLimitState := rateLimitState - {ip};
        }
        unseen := unseen - {ip};
      }
    }

    /** True if the request is accepted; the decision is the one the address alone would get. */
    method ConsumeRateLimit(ip: string, now: int) returns (accepted: bool)
      requires Valid()
      modifies this
      ensures Valid() && history == old(history) + [Request(ip, now)]
      ensures Monotone(history) ==> accepted == Accepts(config, WindowOf(config, old(history), ip), now)
      ensures Monotone(history) ==> accepted == IsAmongFirst(config, history, |old(history)|)
    {
      hide IsAmongFirst, WindowOf, Monotone, Accepted;
      CleanupRateLimitState(now);
      NextDecision(config, history, Request(ip, now));
      history := history + [Request(ip, now)];
      var window := Lookup(rateLimitState, ip);
      if window.None? || now - window.value.start >= config.windowMs {
        rateLimitState := rateLimitState[ip := Window(now, 1)];
        return true;
      }
      if window.value.count >= config.max {
        assert rateLimitState[ip := window.value] == rateLimitState;
        return false;
      }
      rateLimitState := rateLimitState[ip := window.value.(count := window.value.count + 1)];
      return true;
    }
  }

  // ---------- Independence and invisibility of the cleanup ----------

  /** The table agrees with the address's own window, or has dropped a window that has expired. */
  ghost predicate Agrees(config: Config, table: map<string, Window>, window: Option<Window>, ip: string, now: int) {
    Lookup(table, ip) == window || (ip !in table && window.Some? && Expired(config, window.value, now))
  }

  lemma {:induction false} WindowStartsInThePast(config: Config, requests: seq<Request>, ip: string, now: int)
    requires forall r | r in requests :: r.now <= now
    ensures WindowOf(config, requests, ip).Some? ==> WindowOf(config, requests, ip).value.start <= now
  {
    if requests != [] {
      WindowStartsInThePast(config, requests[..|requests| - 1], ip, now);
    }
  }

  lemma {:induction false} TableAgrees(config: Config, requests: seq<Request>, cleanup: bool, ip: string, now: int)
    requires Monotone(requests) && forall r | r in requests :: r.now <= now
    ensures Agrees(config, TableAfter(config, requests, cleanup), WindowOf(config, requests, ip), ip, now)
  {
    if requests != [] {
      var n := |requests| - 1;
      var before, last := requests[..n], requests[n];
      TableAgrees(config, before, cleanup, ip, last.now);
      WindowStartsInThePast(config, before, ip, last.now);
      WindowStartsInThePast(config, requests, ip, now);
    }
  }

  /** Every decision, with or without cleanup, is the one the address's own window gives. */
  lemma DecidedAlone(config: Config, requests: seq<Request>, i: nat, cleanup: bool)
    requires Monotone(requests) && i < |requests|
    ensures Accepted(config, requests, i, cleanup)
            <==> Accepts(config, WindowOf(config, requests[..i], requests[i].ip), requests[i].now)
  {
    var before, request := requests[..i], requests[i];
    assert forall k | 0 <= k < i :: requests[k].now <= request.now;
    TableAgrees(config, before, cleanup, request.ip, request.now);
    WindowStartsInThePast(config, before, request.ip, request.now);
  }

  lemma CleanupIsInvisible(config: Config, requests: seq<Request>, i: nat)
    requires Monotone(requests) && i < |requests|
    ensures Accepted(config, requests, i, true) <==> Accepted(config, requests, i, false)
  {
    DecidedAlone(config, requests, i, true);
    DecidedAlone(config, requests, i, false);
  }

  function OwnRequests(requests: seq<Request>, ip: string): (own: seq<Request>)
    ensures forall r :: r in own <==> r in requests && r.ip == ip
  {
    if requests == [] then []
    else
      var n := |requests| - 1;
      OwnRequests(requests[..n], ip) + (if requests[n].ip == ip then [requests[n]] else [])
  }

  lemma {:induction false} WindowDependsOnOwnRequests(config: Config, requests: seq<Request>, ip: string)
    ensures WindowOf(config, requests, ip) == WindowOf(config, OwnRequests(requests, ip), ip)
  {
    if requests != [] {
      var n := |requests| - 1;
      var own := OwnRequests(requests[..n], ip);
      WindowDependsOnOwnRequests(config, requests[..n], ip);
      assert (own + [requests[n]])[..|own|] == own;
      assert own + [] == own;
    }
  }

  /** Addresses do not affect each other: interleaving two runs that agree on ip's requests changes nothing for ip. */
  lemma AddressesAreIndependent(config: Config, left: seq<Request>, right: seq<Request>, request: Request)
    requires Monotone(left + [request]) && Monotone(right + [request])
    requires OwnRequests(left, request.ip) == OwnRequests(right, request.ip)
    ensures Accepted(config, left + [request], |left|, true) <==> Accepted(config, right + [request], |right|, true)
  {
    DecidedAlone(config, left + [request], |left|, true);
    DecidedAlone(config, right + [request], |right|, true);
    assert (left + [request])[..|left|] == left && (right + [request])[..|right|] == right;
    WindowDependsOnOwnRequests(config, left, request.ip);
    WindowDependsOnOwnRequests(config, right, request.ip);
  }

  // ---------- The bound over any window ----------

  /** How many requests of address ip with lo <= time < hi the limiter accepts. */
  function AcceptedBetween(config: Config, requests: seq<Request>, ip: string, lo: int, hi: int): nat {
    if requests == [] then 0
    else
      var n := |requests| - 1;
      AcceptedBetween(config, requests[..n], ip, lo, hi)
      + (if requests[n].ip == ip && lo <= requests[n].now < hi && Accepted(config, requests, n, true) then 1 else 0)
  }

  function Burst(config: Config): nat {
    if config.max < 1 then 1 else config.max
  }

  /** What the current window says about the accepted requests since lo, while the clock is before hi. */
  lemma {:induction false} WindowBoundsAccepted(config: Config, requests: seq<Request>, ip: string, lo: int, hi: int)
    requires Monotone(requests) && hi == lo + config.windowMs
    ensures var accepted := AcceptedBetween(config, requests, ip, lo, hi);
            match WindowOf(config, requests, ip)
            case None => accepted == 0
            case Some(w) =>
              && 1 <= w.count <= Burst(config)
              && accepted <= 2 * Burst(config) - 1
              && (requests[|requests| - 1].now < hi ==>
                    accepted <= (if w.start < lo then w.count - 1 else Burst(config) - 1 + w.count))
  {
    if requests != [] {
      var n := |requests| - 1;
      var before, last := requests[..n], requests[n];
      WindowBoundsAccepted(config, before, ip, lo, hi);
      DecidedAlone(config, requests, n, true);
      WindowStartsInThePast(config, before, ip, last.now);
      if last.now < lo {
        NothingBefore(config, requests, ip, lo, hi);
      }
    }
  }

  lemma {:induction false} NothingBefore(config: Config, requests: seq<Request>, ip: string, lo: int, hi: int)
    requires forall r | r in requests :: r.now < lo
    ensures AcceptedBetween(config, requests, ip, lo, hi) == 0
  {
    if requests != [] {
      NothingBefore(config, requests[..|requests| - 1], ip, lo, hi);
    }
  }

  /**
   Any half-open window of length windowMs accepts at most 2 * max(1, max) - 1 requests of an address,
   which is one less than the customary bound of two full bursts.
   */
  lemma AnyWindowIsBounded(config: Config, requests: seq<Request>, ip: string, lo: int)
    requires Monotone(requests)
    ensures AcceptedBetween(config, requests, ip, lo, lo + config.windowMs) <= 2 * Burst(config) - 1
  {
    WindowBoundsAccepted(config, requests, ip, lo, lo + config.windowMs);
  }

  // ---------- Which requests are accepted ----------

  /**
   The request opens a window of its address: the first one does, and after that each first one that comes windowMs or
   more after the last that did.
   */
  ghost predicate Opens(config: Config, requests: seq<Request>, i: nat)
    requires i < |requests|
    decreases i
  {
    forall k: nat | k < i && requests[k].ip == requests[i].ip && Opens(config, requests, k) ::
      requests[i].now - requests[k].now >= config.windowMs
  }

  /** How many requests from the k-th on are of address ip. */
  function OwnSince(requests: seq<Request>, k: nat, ip: string): nat {
    if |requests| <= k then 0
    else
      var n := |requests| - 1;
      OwnSince(requests[..n], k, ip) + (if requests[n].ip == ip then 1 else 0)
  }

  /** The k-th request opened the window that the address is in after the requests. */
  ghost predicate IsInWindowOf(config: Config, requests: seq<Request>, ip: string, k: nat, w: Window) {
    && k < |requests| && requests[k].ip == ip && Opens(config, requests, k) && requests[k].now == w.start
    && (forall j: nat | k < j < |requests| && requests[j].ip == ip :: !Opens(config, requests, j))
    && 1 <= w.count
    && w.count == (if OwnSince(requests, k, ip) < Burst(config) then OwnSince(requests, k, ip) else Burst(config))
  }

  lemma {:induction false} OpensInPrefix(config: Config, requests: seq<Request>, n: nat, i: nat)
    requires i < n <= |requests|
    ensures Opens(config, requests[..n], i) <==> Opens(config, requests, i)
    decreases i
  {
    forall k: nat | k < i
      ensures Opens(config, requests[..n], k) <==> Opens(config, requests, k)
    {
      OpensInPrefix(config, requests, n, k);
    }
  }

  /** The next request of the address opens a window exactly when its last window has expired. */
  lemma NextOpensIff(config: Config, requests: seq<Request>, ip: string, k: nat, w: Window)
    requires Monotone(requests) && requests != [] && requests[|requests| - 1].ip == ip
    requires IsInWindowOf(config, requests[..|requests| - 1], ip, k, w)
    ensures Opens(config, requests, |requests| - 1) <==> Expired(config, w, requests[|requests| - 1].now)
  {
    var n := |requests| - 1;
    forall j: nat | j < n
      ensures Opens(config, requests[..n], j) <==> Opens(config, requests, j)
    {
      OpensInPrefix(config, requests, n, j);
    }
    if Expired(config, w, requests[n].now) {
      forall j: nat | j < n && requests[j].ip == ip && Opens(config, requests, j)
        ensures requests[n].now - requests[j].now >= config.windowMs
      {
        assert j <= k;
      }
    }
  }

  lemma {:induction false} WindowIsThatOfOpening(config: Config, requests: seq<Request>, ip: string) returns (k: nat)
    requires Monotone(requests)
    ensures match WindowOf(config, requests, ip)
            case None => forall i | 0 <= i < |requests| :: requests[i].ip != ip
            case Some(w) => IsInWindowOf(config, requests, ip, k, w)
  {
    if requests == [] {
      k := 0;
    } else {
      var n := |requests| - 1;
      var before, last := requests[..n], requests[n];
      k := WindowIsThatOfOpening(config, before, ip);
      forall j: nat | j < n
        ensures Opens(config, before, j) <==> Opens(config, requests, j)
      {
        OpensInPrefix(config, requests, n, j);
      }
      var window := WindowOf(config, before, ip);
      if last.ip == ip && window.Some? {
        NextOpensIff(config, requests, ip, k, window.value);
      }
      if last.ip == ip && (window.None? || Expired(config, window.value, last.now)) {
        k := n;
        assert OwnSince(before, n, ip) == 0;
      } else if window.Some? {
        assert OwnSince(requests, k, ip) == OwnSince(before, k, ip) + (if last.ip == ip then 1 else 0);
      }
    }
  }

  /** The request is one of the first max(1, max) of its window; one that opens a window is the first. */
  ghost predicate IsAmongFirst(config: Config, requests: seq<Request>, i: nat)
    requires i < |requests|
  {
    forall k: nat | k < i && requests[k].ip == requests[i].ip && Opens(config, requests, k)
                    && requests[i].now - requests[k].now < config.windowMs ::
      OwnSince(requests[..i], k, requests[i].ip) < Burst(config)
  }

  /** Of every window exactly the first max(1, max) requests are accepted, whether cleanup runs or not. */
  lemma AcceptedIff(config: Config, requests: seq<Request>, i: nat)
    requires Monotone(requests) && i < |requests|
    ensures Accepted(config, requests, i, true) <==> IsAmongFirst(config, requests, i)
  {
    var before, request := requests[..i], requests[i];
    DecidedAlone(config, requests, i, true);
    assert Monotone(before);
    var k := WindowIsThatOfOpening(config, before, request.ip);
    var window := WindowOf(config, before, request.ip);
    hide WindowOf, Accepted, Monotone;
    if window.None? {
      assert forall j: nat | j < i :: before[j] == requests[j];
      hide Opens, OwnSince;
    } else {
      SinceTheLastOpening(config, requests, i, k, window.value);
      hide Opens, OwnSince;
    }
  }

  /** What the limiter decides on the next request, and its table afterwards. */
  lemma NextDecision(config: Config, history: seq<Request>, request: Request)
    ensures var longer, table := history + [request], TableAfter(config, history, true);
            && TableAfter(config, longer, true) == NextTable(config, table, request, true)
            && (Monotone(longer) ==>
                  && Decision(config, table, request, true) == IsAmongFirst(config, longer, |history|)
                  && Decision(config, table, request, true)
                     == Accepts(config, WindowOf(config, history, request.ip), request.now))
  {
    var longer := history + [request];
    assert longer[..|history|] == history;
    if Monotone(longer) {
      DecidedAlone(config, longer, |history|, true);
      AcceptedIff(config, longer, |history|);
    }
    hide IsAmongFirst, WindowOf, Monotone, Decision, NextTable, Accepts;
  }

  /** Only the last opening can be less than windowMs ago. */
  lemma SinceTheLastOpening(config: Config, requests: seq<Request>, i: nat, k: nat, w: Window)
    requires Monotone(requests) && i < |requests| && IsInWindowOf(config, requests[..i], requests[i].ip, k, w)
    ensures forall j: nat | j < i && requests[j].ip == requests[i].ip && Opens(config, requests, j)
                            && requests[i].now - requests[j].now < config.windowMs :: j == k
    ensures k < i && requests[k].ip == requests[i].ip && Opens(config, requests, k) && requests[k].now == w.start
  {
    forall j: nat | j < i
      ensures Opens(config, requests[..i], j) <==> Opens(config, requests, j)
    {
      OpensInPrefix(config, requests, i, j);
    }
    forall j: nat | j < i && requests[j].ip == requests[i].ip && Opens(config, requests, j)
                    && requests[i].now - requests[j].now < config.windowMs
      ensures j == k
    {
      assert j <= k;
    }
  }

  /** k further requests of ip, all at time t. */
  function Repeated(prefix: seq<Request>, ip: string, t: int, k: nat): seq<Request> {
    if k == 0 then prefix else Repeated(prefix, ip, t, k - 1) + [Request(ip, t)]
  }

  /** One more accepted request at time t, as the last one of the run. */
  lemma OneMore(config: Config, before: seq<Request>, ip: string, t: int, lo: int, hi: int)
    requires Monotone(before) && (before != [] ==> before[|before| - 1].now <= t) && lo <= t < hi
    requires Accepts(config, WindowOf(config, before, ip), t)
    ensures var run := before + [Request(ip, t)];
            && Monotone(run) && run[|run| - 1].now == t
            && WindowOf(config, run, ip) == NextWindow(config, WindowOf(config, before, ip), t)
            && AcceptedBetween(config, run, ip, lo, hi) == AcceptedBetween(config, before, ip, lo, hi) + 1
  {
    var run := before + [Request(ip, t)];
    assert run[..|before|] == before;
    DecidedAlone(config, run, |before|, true);
  }

  lemma {:induction false} FillingAWindow(
    config: Config, prefix: seq<Request>, w: Window, ip: string, t: int, k: nat, lo: int, hi: int)
    requires Monotone(prefix) && prefix != [] && prefix[|prefix| - 1].now <= t && lo <= t < hi
    requires WindowOf(config, prefix, ip) == Some(w) && !Expired(config, w, t) && (k > 0 ==> w.count + k <= config.max)
    ensures Repeated(prefix, ip, t, k) != [] && Repeated(prefix, ip, t, k)[|Repeated(prefix, ip, t, k)| - 1].now <= t
    ensures Monotone(Repeated(prefix, ip, t, k))
    ensures WindowOf(config, Repeated(prefix, ip, t, k), ip) == Some(Window(w.start, w.count + k))
    ensures AcceptedBetween(config, Repeated(prefix, ip, t, k), ip, lo, hi)
            == AcceptedBetween(config, prefix, ip, lo, hi) + k
  {
    hide WindowOf, AcceptedBetween, Monotone;
    if k > 0 {
      FillingAWindow(config, prefix, w, ip, t, k - 1, lo, hi);
      var before := Repeated(prefix, ip, t, k - 1);
      OneMore(config, before, ip, t, lo, hi);
      assert Repeated(prefix, ip, t, k) == before + [Request(ip, t)];
    }
  }

  /** The bound is attained, for every limit and every window of at least two milliseconds. */
  lemma BoundIsTight(config: Config, ip: string) returns (requests: seq<Request>, lo: int)
    requires config.windowMs >= 2
    ensures Monotone(requests)
    ensures AcceptedBetween(config, requests, ip, lo, lo + config.windowMs) == 2 * Burst(config) - 1
  {
    var w, burst := config.windowMs, Burst(config);
    lo := w - 1;
    var hi := lo + w;
    var first := [Request(ip, 0)];
    assert first[..0] == [];
    FillingAWindow(config, first, Window(0, 1), ip, lo, burst - 1, lo, hi);
    var early := Repeated(first, ip, lo, burst - 1);
    OneMore(config, early, ip, w, lo, hi);
    var reopened := early + [Request(ip, w)];
    FillingAWindow(config, reopened, Window(w, 1), ip, w, burst - 1, lo, hi);
    requests := Repeated(reopened, ip, w, burst - 1);
  }
}
