/**
  The throttle handler: it counts the SMSC's throttling answers over a sampling
  period and denies requests while their share is too high.
 */
module Throttle {
  import opened Bytes
  import opened RealArithmetic

  datatype Config = Config(samplingPeriod: real, sampleSize: real, denyRequestAt: real)

  datatype Window = Window(nonThrottle: nat, throttle: nat, updatedAt: real)

  /** round(x, 2): to the nearest hundredth, ties to the even one. */
  function Round2(x: real): real {
    var hundredths := x * 100.0;
    var below := hundredths.Floor;
    var rest := hundredths - below as real;
    var rounded := if rest < 0.5 || (rest == 0.5 && below % 2 == 0) then below else below + 1;
    rounded as real / 100.0
  }

  /** With no responses and no sample size to wait for, the share is 0 / 0. */
  predicate Raises(c: Config, total: nat) {
    total == 0 && c.sampleSize <= 0.0
  }

  /** percent_throttles; None is ZeroDivisionError. */
  function Percent(c: Config, throttle: nat, nonThrottle: nat): Option<real> {
    var total := nonThrottle + throttle;
    if total as real < c.sampleSize then Some(0.0)
    else if Raises(c, total) then None
    else Some(Round2(throttle as real / total as real * 100.0))
  }

  /** allow_request's answer, from the counts as they stand before any reset; None when it raises. */
  function Allowed(c: Config, throttle: nat, nonThrottle: nat): Option<bool> {
    match Percent(c, throttle, nonThrottle)
    case None => None
    case Some(percent) => Some(!(percent > c.denyRequestAt))
  }

  function AfterAsk(c: Config, w: Window, now: real): Window {
    if Raises(c, w.throttle + w.nonThrottle) then w
    else if now - w.updatedAt > c.samplingPeriod then Window(0, 0, now)
    else w
  }

  class SimpleThrottleHandler {
    const config: Config
    var nonThrottleResponses: nat
    var throttleResponses: nat
    var updatedAt: real

    ghost function View(): Window
      reads this
    {
      Window(nonThrottleResponses, throttleResponses, updatedAt)
    }

    constructor (config: Config, now: real)
      ensures this.config == config && View() == Window(0, 0, now)
    {
      this.config := config;
      nonThrottleResponses, throttleResponses, updatedAt := 0, 0, now;
    }

    method Throttled()
      modifies this
      ensures View() == old(View()).(throttle := old(throttleResponses) + 1)
    {
      throttleResponses := throttleResponses + 1;
    }

    method NotThrottled()
      modifies this
      ensures View() == old(View()).(nonThrottle := old(nonThrottleResponses) + 1)
    {
      nonThrottleResponses := nonThrottleResponses + 1;
    }

    method AllowRequest(now: real) returns (allowed: Option<bool>)
      modifies this
      ensures allowed == Allowed(config, old(throttleResponses), old(nonThrottleResponses))
      ensures View() == AfterAsk(config, old(View()), now)
    {
      var percent := Percent(config, throttleResponses, nonThrottleResponses);
      if percent.None? {
        return None;
      }
      if now - updatedAt > config.samplingPeriod {
        nonThrottleResponses, throttleResponses, updatedAt := 0, 0, now;
      }
      return Some(!(percent.value > config.denyRequestAt));
    }
  }

  lemma Round2IsClose(x: real)
    ensures -0.005 <= Round2(x) - x <= 0.005
  {
  }

  lemma ShareIsPercentage(part: nat, total: nat)
    requires part <= total && total > 0
    ensures 0.0 <= part as real / total as real <= 1.0
  {
    var p, t := part as real, total as real;
    DivideOut(0.0, p, t);
    var q := p / t;
    assert q * t == p;
    ScaleReflects(q, 1.0, t);
  }

  /** The reported share is a percentage, within half a hundredth of the true one, and 0 below the sample size. */
  lemma PercentIsClose(c: Config, throttle: nat, nonThrottle: nat)
    requires Percent(c, throttle, nonThrottle).Some?
    ensures var percent := Percent(c, throttle, nonThrottle).value;
            var total := throttle + nonThrottle;
            if total as real < c.sampleSize then percent == 0.0
            else total > 0 &&
                 -0.005 <= percent <= 100.005 &&
                 -0.005 <= percent - throttle as real / total as real * 100.0 <= 0.005
  {
    var total := throttle + nonThrottle;
    if total > 0 {
      Round2IsClose(throttle as real / total as real * 100.0);
      ShareIsPercentage(throttle, total);
    }
  }

  // ----------------------------------------------------------------- which requests are denied

  /** n hundredths are nearest to x; of two that are equally near, n is the even one. */
  predicate NearestHundredth(x: real, n: int) {
    && -0.5 <= x * 100.0 - n as real <= 0.5
    && (x * 100.0 - n as real in {-0.5, 0.5} ==> n % 2 == 0)
  }

  lemma Round2IsNearest(x: real, n: int)
    ensures NearestHundredth(x, n) <==> Round2(x) == n as real / 100.0
  {
    var below := (x * 100.0).Floor;
    var rounded := if x * 100.0 - below as real < 0.5 || (x * 100.0 - below as real == 0.5 && below % 2 == 0)
      then below else below + 1;
    assert NearestHundredth(x, rounded);
    assert n as real / 100.0 == rounded as real / 100.0 <==> n == rounded;
    if NearestHundredth(x, n) {
      assert n == below || n == below + 1;
    }
  }

  /** The share of throttling responses, in per cent. */
  function Share(throttle: nat, nonThrottle: nat): real
    requires throttle + nonThrottle > 0
  {
    throttle as real / (throttle + nonThrottle) as real * 100.0
  }

  /**
    Which requests are denied, exactly: once there are as many responses as the sample size
    asks for, those for which the throttling share, to the nearest hundredth, is above
    deny_request_at; before that, none, unless deny_request_at is negative; and with nothing
    to divide by, asking raises.
   */
  lemma DeniedExactly(c: Config, throttle: nat, nonThrottle: nat) returns (n: int)
    ensures var total := throttle + nonThrottle;
            if total as real < c.sampleSize then
              Allowed(c, throttle, nonThrottle) == Some(0.0 <= c.denyRequestAt)
            else if total == 0 then
              Allowed(c, throttle, nonThrottle) == None
            else
              && NearestHundredth(Share(throttle, nonThrottle), n)
              && Allowed(c, throttle, nonThrottle) == Some(n as real / 100.0 <= c.denyRequestAt)
  {
    n := 0;
    if throttle + nonThrottle > 0 {
      var share := Share(throttle, nonThrottle);
      n := (Round2(share) * 100.0).Floor;
      var below := (share * 100.0).Floor;
      assert Round2(share) == below as real / 100.0 || Round2(share) == (below + 1) as real / 100.0;
      assert Round2(share) == n as real / 100.0;
      Round2IsNearest(share, n);
    }
  }

  /** Away from the threshold rounding does not matter. */
  lemma DeniedByShare(c: Config, throttle: nat, nonThrottle: nat)
    requires throttle + nonThrottle > 0 && c.sampleSize <= (throttle + nonThrottle) as real
    ensures Share(throttle, nonThrottle) > c.denyRequestAt + 0.005 ==>
              Allowed(c, throttle, nonThrottle) == Some(false)
    ensures Share(throttle, nonThrottle) < c.denyRequestAt - 0.005 ==>
              Allowed(c, throttle, nonThrottle) == Some(true)
  {
    Round2IsClose(Share(throttle, nonThrottle));
  }

  // ----------------------------------------------------------------- refinement of a history

  datatype Event = Response(throttling: bool) | Asked(now: real)

  function Apply(c: Config, w: Window, e: Event): Window {
    match e
    case Response(true) => w.(throttle := w.throttle + 1)
    case Response(false) => w.(nonThrottle := w.nonThrottle + 1)
    case Asked(now) => AfterAsk(c, w, now)
  }

  function Run(c: Config, t0: real, h: seq<Event>): Window {
    if h == [] then Window(0, 0, t0) else Apply(c, Run(c, t0, h[..|h| - 1]), h[|h| - 1])
  }

  function Count(h: seq<Event>, throttling: bool): nat {
    if h == [] then 0
    else Count(h[..|h| - 1], throttling) + (if h[|h| - 1] == Response(throttling) then 1 else 0)
  }

  lemma CountSnoc(h: seq<Event>, e: Event, throttling: bool)
    ensures Count(h + [e], throttling) == Count(h, throttling) + (if e == Response(throttling) then 1 else 0)
  {
    assert (h + [e])[..|h|] == h;
  }

  /** Event i is a question that finds the sampling period over, and so resets the window. */
  ghost predicate ResetAt(c: Config, t0: real, h: seq<Event>, i: nat) {
    && i < |h| && h[i].Asked?
    && var w := Run(c, t0, h[..i]);
       !Raises(c, w.throttle + w.nonThrottle) && h[i].now - w.updatedAt > c.samplingPeriod
  }

  /** p is the position just after the last reset, or 0 if there was none. */
  ghost predicate LastReset(c: Config, t0: real, h: seq<Event>, p: nat) {
    && p <= |h| && (p > 0 ==> ResetAt(c, t0, h, p - 1))
    && forall i :: p <= i < |h| ==> !ResetAt(c, t0, h, i)
  }

  lemma LastResetIsUnique(c: Config, t0: real, h: seq<Event>, p: nat, q: nat)
    requires LastReset(c, t0, h, p) && LastReset(c, t0, h, q)
    ensures p == q
  {
    LastResetIsLatest(c, t0, h, p, q);
    LastResetIsLatest(c, t0, h, q, p);
  }

  lemma LastResetIsLatest(c: Config, t0: real, h: seq<Event>, p: nat, q: nat)
    requires LastReset(c, t0, h, p) && LastReset(c, t0, h, q)
    ensures p >= q
  {
    assert q > 0 ==> ResetAt(c, t0, h, q - 1);
  }

  /** Appending an event that does not reset leaves the last reset where it was. */
  lemma LastResetSnoc(c: Config, t0: real, h: seq<Event>, e: Event, p: nat)
    requires LastReset(c, t0, h, p)
    ensures ResetAt(c, t0, h + [e], |h|) ==> LastReset(c, t0, h + [e], |h| + 1)
    ensures !ResetAt(c, t0, h + [e], |h|) ==> LastReset(c, t0, h + [e], p)
  {
    var all := h + [e];
    forall i | 0 <= i < |h|
      ensures ResetAt(c, t0, all, i) <==> ResetAt(c, t0, h, i)
    {
      assert all[..i] == h[..i] && all[i] == h[i];
    }
  }

  lemma RunSnoc(c: Config, t0: real, h: seq<Event>, e: Event)
    ensures Run(c, t0, h + [e]) == Apply(c, Run(c, t0, h), e)
  {
    assert (h + [e])[..|h|] == h;
  }

  /** An event resets the window, or adds itself to the counts. */
  lemma ApplyCounts(c: Config, t0: real, h: seq<Event>, e: Event)
    ensures var w, next := Run(c, t0, h), Run(c, t0, h + [e]);
            if ResetAt(c, t0, h + [e], |h|) then next == Window(0, 0, e.now)
            else next == Window(w.nonThrottle + (if e == Response(false) then 1 else 0),
                                w.throttle + (if e == Response(true) then 1 else 0), w.updatedAt)
  {
    RunSnoc(c, t0, h, e);
    assert (h + [e])[..|h|] == h;
  }

  lemma TailSnoc(h: seq<Event>, e: Event, p: nat)
    requires p <= |h|
    ensures forall kind :: Count((h + [e])[p..], kind) == Count(h[p..], kind) + (if e == Response(kind) then 1 else 0)
    ensures p > 0 ==> (h + [e])[p - 1] == h[p - 1]
  {
    assert (h + [e])[p..] == h[p..] + [e];
    CountSnoc(h[p..], e, true);
    CountSnoc(h[p..], e, false);
  }

  /**
    The counters are the history since the last reset, its throttling and its other
    responses, and updated_at is the time of that reset.
   */
  lemma {:induction false} CountsSinceReset(c: Config, t0: real, h: seq<Event>) returns (p: nat)
    ensures LastReset(c, t0, h, p)
    ensures Run(c, t0, h) == Window(Count(h[p..], false), Count(h[p..], true), if p == 0 then t0 else h[p - 1].now)
  {
    if h == [] {
      p := 0;
    } else {
      var before, last := h[..|h| - 1], h[|h| - 1];
      assert h == before + [last];
      p := CountsSinceReset(c, t0, before);
      LastResetSnoc(c, t0, before, last, p);
      ApplyCounts(c, t0, before, last);
      if ResetAt(c, t0, h, |before|) {
        p := |h|;
        assert h[p..] == [];
      } else {
        TailSnoc(before, last, p);
      }
    }
  }

  /**
    Every question is answered from exactly the responses since the last reset: with too
    few of them, or none to divide by, as DeniedExactly says, and otherwise by whether the
    throttling ones among them exceed deny_request_at per cent, to the nearest hundredth.
   */
  lemma AnswerSinceReset(c: Config, t0: real, h: seq<Event>) returns (p: nat, n: int)
    ensures LastReset(c, t0, h, p)
    ensures var w := Run(c, t0, h);
            var answer := Allowed(c, w.throttle, w.nonThrottle);
            var throttling, total := Count(h[p..], true), Count(h[p..], true) + Count(h[p..], false);
            if total as real < c.sampleSize then answer == Some(0.0 <= c.denyRequestAt)
            else if total == 0 then answer == None
            else
              && NearestHundredth(throttling as real / total as real * 100.0, n)
              && answer == Some(n as real / 100.0 <= c.denyRequestAt)
  {
    p := CountsSinceReset(c, t0, h);
    n := DeniedExactly(c, Count(h[p..], true), Count(h[p..], false));
  }

  // ----------------------------------------------------------------- bounded denial

  /** Some non-throttling responses, and then a request for permission. */
  datatype Probe = Probe(quiet: nat, now: real)

  function Quieted(w: Window, p: Probe): Window {
    w.(nonThrottle := w.nonThrottle + p.quiet)
  }

  predicate AllDenied(c: Config, w: Window, ps: seq<Probe>)
    decreases |ps|
  {
    ps == [] ||
    (var q := Quieted(w, ps[0]);
     Allowed(c, q.throttle, q.nonThrottle) == Some(false) && AllDenied(c, AfterAsk(c, q, ps[0].now), ps[1..]))
  }

  /** naz sleeps throttle_wait after every denial. */
  predicate WaitApart(ps: seq<Probe>, wait: real) {
    forall i :: 0 <= i < |ps| - 1 ==> ps[i].now + wait <= ps[i + 1].now
  }

  lemma QuietWindowAllows(c: Config, w: Window)
    requires c.sampleSize > 0.0 && c.denyRequestAt >= 0.0 && w.throttle == 0
    ensures Allowed(c, w.throttle, w.nonThrottle) == Some(true)
  {
    var total := w.nonThrottle;
    if total > 0 {
      assert 0.0 / total as real == 0.0;
      assert Round2(0.0) == 0.0;
    }
  }

  lemma ResetEndsDenial(c: Config, w: Window, p: Probe)
    requires c.sampleSize > 0.0 && c.denyRequestAt >= 0.0 && w.throttle == 0
    ensures !AllDenied(c, w, [p])
  {
    QuietWindowAllows(c, Quieted(w, p));
  }

  lemma DenialsBegin(c: Config, w: Window, ps: seq<Probe>)
    requires ps != [] && AllDenied(c, w, ps)
    ensures AllDenied(c, w, [ps[0]])
  {
  }

  /** A denial that is followed by another one has not outlived the sampling period. */
  lemma {:induction false} DeniedWithinPeriod(c: Config, w: Window, ps: seq<Probe>, i: nat)
    requires c.sampleSize > 0.0 && c.denyRequestAt >= 0.0
    requires AllDenied(c, w, ps) && i < |ps| - 1
    ensures ps[i].now - w.updatedAt <= c.samplingPeriod
    decreases |ps|
  {
    var next := AfterAsk(c, Quieted(w, ps[0]), ps[0].now);
    assert AllDenied(c, next, ps[1..]);
    if ps[0].now - w.updatedAt > c.samplingPeriod {
      ResetEndsDenial(c, next, ps[1]);
      DenialsBegin(c, next, ps[1..]);
      assert false;
    } else if i > 0 {
      DeniedWithinPeriod(c, next, ps[1..], i - 1);
    }
  }

  lemma {:induction false} WaitsAddUp(ps: seq<Probe>, wait: real, i: nat)
    requires WaitApart(ps, wait) && i < |ps|
    ensures ps[0].now + Times(i, wait) <= ps[i].now
  {
    if i > 0 {
      WaitsAddUp(ps, wait, i - 1);
    }
  }

  /**
    Denial is bounded: when no further throttling responses arrive and requests are
    throttle_wait apart, at most floor(sampling_period / throttle_wait) + 2 requests
    in a row are denied (one, when the period is negative).
   */
  lemma BoundedDenial(c: Config, w: Window, ps: seq<Probe>, wait: real)
    requires c.sampleSize > 0.0 && c.denyRequestAt >= 0.0 && wait > 0.0
    requires WaitApart(ps, wait) && (ps != [] ==> w.updatedAt <= ps[0].now)
    requires AllDenied(c, w, ps)
    ensures |ps| <= 1 || |ps| <= (c.samplingPeriod / wait).Floor + 2
  {
    if |ps| >= 2 {
      DeniedWithinPeriod(c, w, ps, |ps| - 2);
      WaitsAddUp(ps, wait, |ps| - 2);
      TimesFloor(|ps| - 2, wait, c.samplingPeriod);
    }
  }
}
