/**
 Models the reconnection delays of src/services/osc/connectionManager.ts: the normalisation of the
 backoff options and computeReconnectDelay, over the reals. Math.random() is the parameter `random`.
 */
module Backoff {
  import opened Options

  datatype BackoffOptions = BackoffOptions(
    initialDelayMs: Option<real>, maxDelayMs: Option<real>, multiplier: Option<real>, jitter: Option<real>)

  datatype ReconnectBackoff = ReconnectBackoff(
    initialDelayMs: real, maxDelayMs: real, multiplier: real, jitter: real)

  function Max(x: real, y: real): real {
    if x < y then y else x
  }

  function Min(x: real, y: real): real {
    if x < y then x else y
  }

  function OrElse(value: Option<real>, fallback: real): real {
    if value.Some? then value.value else fallback
  }

  /** What every reconnection delay is computed from. */
  predicate Normalised(b: ReconnectBackoff) {
    b.initialDelayMs >= 0.0 && b.maxDelayMs >= 0.0 && b.multiplier >= 1.0 && 0.0 <= b.jitter <= 1.0
  }

  function NormaliseBackoff(options: BackoffOptions, reconnectDelayMs: Option<real>): (b: ReconnectBackoff)
    ensures Normalised(b)
    ensures var initial := if options.initialDelayMs.Some? then options.initialDelayMs else reconnectDelayMs;
            && (initial.None? ==> b.initialDelayMs == 1000.0)
            && (initial.Some? && initial.value >= 0.0 ==> b.initialDelayMs == initial.value)
            && (initial.Some? && initial.value < 0.0 ==> b.initialDelayMs == 0.0)
    ensures options.maxDelayMs.None? ==> b.maxDelayMs == 8.0 * b.initialDelayMs
    ensures options.maxDelayMs.Some? && options.maxDelayMs.value >= 0.0 ==> b.maxDelayMs == options.maxDelayMs.value
    ensures options.maxDelayMs.Some? && options.maxDelayMs.value < 0.0 ==> b.maxDelayMs == 0.0
    ensures options.multiplier.None? ==> b.multiplier == 2.0
    ensures options.multiplier.Some? && options.multiplier.value >= 1.0 ==> b.multiplier == options.multiplier.value
    ensures options.multiplier.Some? && options.multiplier.value < 1.0 ==> b.multiplier == 1.0
    ensures options.jitter.None? ==> b.jitter == 0.0
    ensures options.jitter.Some? && 0.0 <= options.jitter.value <= 1.0 ==> b.jitter == options.jitter.value
    ensures options.jitter.Some? && options.jitter.value < 0.0 ==> b.jitter == 0.0
    ensures options.jitter.Some? && options.jitter.value > 1.0 ==> b.jitter == 1.0
  {
    var initialDelay := OrElse(options.initialDelayMs, OrElse(reconnectDelayMs, 1000.0));
    var maxDelay := OrElse(options.maxDelayMs, Max(initialDelay * 8.0, initialDelay));
    ReconnectBackoff(Max(0.0, initialDelay),
                     Max(0.0, maxDelay),
                     Max(1.0, OrElse(options.multiplier, 2.0)),
                     Max(0.0, Min(1.0, OrElse(options.jitter, 0.0))))
  }

  /** Math.round: halves go up. */
  function Round(x: real): int {
    (x + 0.5).Floor
  }

  function Pow(base: real, exponent: nat): real {
    if exponent == 0 then 1.0 else base * Pow(base, exponent - 1)
  }

  /** The exponential delay after this many failures, capped. */
  function CappedDelay(b: ReconnectBackoff, failures: nat): real {
    Min(b.initialDelayMs * Pow(b.multiplier, if failures == 0 then 0 else failures - 1), b.maxDelayMs)
  }

  function ComputeReconnectDelay(b: ReconnectBackoff, failures: nat, random: real): int {
    var capped := CappedDelay(b, failures);
    if b.jitter <= 0.0 then Round(capped)
    else Round(Min(b.maxDelayMs, capped + random * (capped * b.jitter)))
  }

  // ---------- Bounds ----------

  function MinDelay(b: ReconnectBackoff): int {
    Round(CappedDelay(b, 1))
  }

  lemma {:induction false} PowGrows(base: real, m: nat, n: nat)
    requires base >= 1.0 && m <= n
    ensures 1.0 <= Pow(base, m) <= Pow(base, n)
  {
    if n > 0 {
      if m < n {
        PowGrows(base, m, n - 1);
        assert Pow(base, n) == base * Pow(base, n - 1) >= Pow(base, n - 1);
      } else {
        PowGrows(base, m - 1, n - 1);
        assert base * Pow(base, m - 1) >= Pow(base, m - 1);
      }
    }
  }

  lemma ProductGrows(x: real, p: real, q: real)
    requires x >= 0.0 && p <= q
    ensures x * p <= x * q
  {
  }

  lemma RoundIsMonotone(x: real, y: real)
    requires x <= y
    ensures Round(x) <= Round(y)
  {
  }

  lemma CappedDelayGrows(b: ReconnectBackoff, m: nat, n: nat)
    requires Normalised(b) && m <= n
    ensures 0.0 <= CappedDelay(b, m) <= CappedDelay(b, n) <= b.maxDelayMs
  {
    var i, j := if m == 0 then 0 else m - 1, if n == 0 then 0 else n - 1;
    PowGrows(b.multiplier, i, j);
    ProductGrows(b.initialDelayMs, Pow(b.multiplier, i), Pow(b.multiplier, j));
    ProductGrows(b.initialDelayMs, 0.0, Pow(b.multiplier, i));
  }

  /** Without jitter the delay never decreases with the number of failures. */
  lemma DelayNeverDecreases(b: ReconnectBackoff, m: nat, n: nat, random: real, random': real)
    requires Normalised(b) && b.jitter == 0.0 && m <= n
    ensures ComputeReconnectDelay(b, m, random) <= ComputeReconnectDelay(b, n, random')
  {
    CappedDelayGrows(b, m, n);
    RoundIsMonotone(CappedDelay(b, m), CappedDelay(b, n));
  }

  lemma JitterStaysInRange(capped: real, max: real, jitter: real, random: real)
    requires 0.0 <= capped <= max && 0.0 <= jitter && 0.0 <= random
    ensures capped <= Min(max, capped + random * (capped * jitter)) <= max
  {
    ProductGrows(capped, 0.0, jitter);
    ProductGrows(capped * jitter, 0.0, random);
    assert random * (capped * jitter) == (capped * jitter) * random;
  }

  /** Every delay lies between the rounded capped exponential and the rounded maximum. */
  lemma DelayIsBounded(b: ReconnectBackoff, failures: nat, random: real)
    requires Normalised(b) && 0.0 <= random < 1.0
    ensures 0 <= Round(CappedDelay(b, failures)) <= ComputeReconnectDelay(b, failures, random) <= Round(b.maxDelayMs)
    ensures MinDelay(b) <= ComputeReconnectDelay(b, failures, random)
  {
    hide CappedDelay;
    var capped, low := CappedDelay(b, failures), if failures == 0 then 1 else failures;
    CappedDelayGrows(b, failures, failures);
    CappedDelayGrows(b, 1, low);
    SameDelayAtZero(b, failures);
    JitterStaysInRange(capped, b.maxDelayMs, b.jitter, random);
    RoundIsMonotone(CappedDelay(b, 1), capped);
  }

  lemma SameDelayAtZero(b: ReconnectBackoff, failures: nat)
    ensures CappedDelay(b, if failures == 0 then 1 else failures) == CappedDelay(b, failures)
  {
  }

  // ---------- What the delay is ----------

  /**
   The capped delays of successive failures: the first is the initial delay, each next one the multiplier times the
   one before, and the maximum wherever that would exceed it.
   */
  ghost predicate AreCappedDelays(b: ReconnectBackoff, delays: seq<real>) {
    && delays != []
    && delays[0] == (if b.initialDelayMs <= b.maxDelayMs then b.initialDelayMs else b.maxDelayMs)
    && forall k | 0 <= k < |delays| - 1 :: IsNextDelay(b, delays[k], delays[k + 1])
  }

  predicate IsNextDelay(b: ReconnectBackoff, delay: real, next: real) {
    next == if delay * b.multiplier <= b.maxDelayMs then delay * b.multiplier else b.maxDelayMs
  }

  /** The whole number nearest to x, the greater one of two. */
  predicate IsRounded(n: int, x: real) {
    x - 0.5 < n as real <= x + 0.5
  }

  /** A capped delay with its share of jitter, not above the maximum. */
  function Jittered(b: ReconnectBackoff, capped: real, random: real): (r: real)
    ensures r <= b.maxDelayMs
    ensures capped * (1.0 + random * b.jitter) <= b.maxDelayMs ==> r == capped * (1.0 + random * b.jitter)
    ensures capped * (1.0 + random * b.jitter) > b.maxDelayMs ==> r == b.maxDelayMs
  {
    Min(b.maxDelayMs, capped * (1.0 + random * b.jitter))
  }

  /** The delay is what so many failures in a row call for, with this share of the jitter; none counts as one. */
  ghost predicate IsDelayAfter(b: ReconnectBackoff, failures: nat, random: real, delay: int) {
    exists delays ::
      && AreCappedDelays(b, delays) && |delays| == (if failures == 0 then 1 else failures)
      && IsRounded(delay, Jittered(b, delays[|delays| - 1], random))
  }

  lemma OneMoreFailure(b: ReconnectBackoff, failures: nat)
    requires Normalised(b) && failures > 0
    ensures IsNextDelay(b, CappedDelay(b, failures), CappedDelay(b, failures + 1))
  {
    var p := Pow(b.multiplier, failures - 1);
    assert Pow(b.multiplier, failures) == b.multiplier * p;
    PowGrows(b.multiplier, 0, failures - 1);
    ProductGrows(b.initialDelayMs, 0.0, p);
    var plain := b.initialDelayMs * p;
    assert b.initialDelayMs * (b.multiplier * p) == plain * b.multiplier;
    ProductGrows(plain, 1.0, b.multiplier);
    ProductGrows(b.maxDelayMs, 1.0, b.multiplier);
  }

  lemma {:induction false} DelaysUpTo(b: ReconnectBackoff, failures: nat) returns (delays: seq<real>)
    requires Normalised(b) && failures > 0
    ensures AreCappedDelays(b, delays) && |delays| == failures && delays[failures - 1] == CappedDelay(b, failures)
  {
    if failures == 1 {
      delays := [CappedDelay(b, 1)];
      assert b.initialDelayMs * Pow(b.multiplier, 0) == b.initialDelayMs;
    } else {
      var before := DelaysUpTo(b, failures - 1);
      OneMoreFailure(b, failures - 1);
      delays := before + [CappedDelay(b, failures)];
      hide CappedDelay, Normalised;
      OneMoreDelay(b, before, CappedDelay(b, failures));
    }
  }

  lemma OneMoreDelay(b: ReconnectBackoff, delays: seq<real>, next: real)
    requires AreCappedDelays(b, delays)
    requires IsNextDelay(b, delays[|delays| - 1], next)
    ensures AreCappedDelays(b, delays + [next])
  {
    hide IsNextDelay;
    var longer := delays + [next];
    forall k | 0 <= k < |longer| - 1
      ensures IsNextDelay(b, longer[k], longer[k + 1])
    {
      assert longer[k] == delays[k];
      if k + 1 < |delays| {
        assert longer[k + 1] == delays[k + 1];
      }
    }
  }

  /** The delay grows by the multiplier with each failure until it reaches the maximum, and the jitter is added. */
  lemma DelayIsExponential(b: ReconnectBackoff, failures: nat, random: real)
    requires Normalised(b) && 0.0 <= random < 1.0
    ensures IsDelayAfter(b, failures, random, ComputeReconnectDelay(b, failures, random))
  {
    var n := if failures == 0 then 1 else failures;
    var delays := DelaysUpTo(b, n);
    SameDelayAtZero(b, failures);
    CappedDelayGrows(b, n, n);
    hide CappedDelay, AreCappedDelays;
    DelayIsRounded(b, failures, random);
  }

  lemma DelayIsRounded(b: ReconnectBackoff, failures: nat, random: real)
    requires Normalised(b) && 0.0 <= CappedDelay(b, failures) <= b.maxDelayMs
    ensures IsRounded(ComputeReconnectDelay(b, failures, random), Jittered(b, CappedDelay(b, failures), random))
  {
    hide CappedDelay;
    var capped := CappedDelay(b, failures);
    JitterIsAShare(capped, b.jitter, random);
    if b.jitter == 0.0 {
      assert capped * (1.0 + random * 0.0) == capped;
    }
  }

  lemma JitterIsAShare(capped: real, jitter: real, random: real)
    ensures capped + random * (capped * jitter) == capped * (1.0 + random * jitter)
  {
  }

  /** And that says what the delay is: no other whole number would do. */
  lemma DelayIsDetermined(b: ReconnectBackoff, failures: nat, random: real, delay: int)
    requires Normalised(b) && 0.0 <= random < 1.0 && IsDelayAfter(b, failures, random, delay)
    ensures delay == ComputeReconnectDelay(b, failures, random)
  {
    DelayIsExponential(b, failures, random);
    var n := if failures == 0 then 1 else failures;
    hide Jittered, ComputeReconnectDelay;
    var ds :| AreCappedDelays(b, ds) && |ds| == n && IsRounded(delay, Jittered(b, ds[n - 1], random));
    var es :| AreCappedDelays(b, es) && |es| == n &&
              IsRounded(ComputeReconnectDelay(b, failures, random), Jittered(b, es[n - 1], random));
    SameCappedDelays(b, ds, es, n - 1);
  }

  lemma {:induction false} SameCappedDelays(b: ReconnectBackoff, ds: seq<real>, es: seq<real>, k: nat)
    requires AreCappedDelays(b, ds) && AreCappedDelays(b, es) && k < |ds| && k < |es|
    ensures ds[k] == es[k]
  {
    if k > 0 {
      SameCappedDelays(b, ds, es, k - 1);
      assert IsNextDelay(b, ds[k - 1], ds[k - 1 + 1]) && IsNextDelay(b, es[k - 1], es[k - 1 + 1]);
    }
  }

  /** With the default options, whose maximum the fourth failure in a row reaches. */
  lemma DefaultDelays(random: real)
    requires 0.0 <= random < 1.0
    ensures var b := NormaliseBackoff(BackoffOptions(None, None, None, None), None);
            && ComputeReconnectDelay(b, 1, random) == 1000 && ComputeReconnectDelay(b, 2, random) == 2000
            && ComputeReconnectDelay(b, 3, random) == 4000 && ComputeReconnectDelay(b, 4, random) == 8000
            && ComputeReconnectDelay(b, 5, random) == 8000
  {
    var b := NormaliseBackoff(BackoffOptions(None, None, None, None), None);
    assert Pow(2.0, 0) == 1.0 && Pow(2.0, 1) == 2.0 && Pow(2.0, 2) == 4.0 && Pow(2.0, 3) == 8.0 && Pow(2.0, 4) == 16.0;
  }
}
