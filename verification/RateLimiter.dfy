/**
  The token bucket that paces outgoing messages, over exact arithmetic and a
  monotonic clock whose readings are given from outside.
 */
module RateLimiter {
  import opened Bytes
  import opened RealArithmetic

  const DELAY_FOR_TOKENS := 1.0

  /** max_tokens always equals send_rate. */
  datatype Bucket = Bucket(
    sendRate: real,
    tokens: real,
    updatedAt: real,
    delivered: nat,             // messages_delivered
    effectiveSendRate: real
  )

  function Initial(sendRate: real, now: real): Bucket {
    Bucket(sendRate, sendRate, now, 0, 0.0)
  }

  function Min(x: real, y: real): real {
    if x <= y then x else y
  }

  /** _add_new_tokens; None is ZeroDivisionError, raised before anything changes. */
  function AddNewTokens(b: Bucket, now: real): Option<Bucket> {
    var elapsed := now - b.updatedAt;
    if elapsed == 0.0 then None
    else
      var measured := b.(effectiveSendRate := b.delivered as real / elapsed);
      var newTokens := elapsed * b.sendRate;
      if newTokens > 1.0 then
        Some(measured.(tokens := Min(b.tokens + newTokens, b.sendRate), updatedAt := now, delivered := 0))
      else
        Some(measured)
  }

  /** How a call of limit stands once the given clock readings are used up. */
  datatype Verdict = Admitted | Waiting | DividedByZero

  datatype Limited = Limited(verdict: Verdict, bucket: Bucket, turns: nat)

  function Pace(b: Bucket, readings: seq<real>): Limited
    decreases |readings|
  {
    if b.tokens >= 1.0 then
      Limited(Admitted, b.(delivered := b.delivered + 1, tokens := b.tokens - 1.0), 0)
    else if readings == [] then
      Limited(Waiting, b, 0)
    else
      match AddNewTokens(b, readings[0])
      case None => Limited(DividedByZero, b, 1)
      case Some(b') =>
        var rest := Pace(b', readings[1..]);
        rest.(turns := rest.turns + 1)
  }

  class SimpleRateLimiter {
    const sendRate: real
    var tokens: real
    var updatedAt: real
    var messagesDelivered: nat
    var effectiveSendRate: real

    ghost function View(): Bucket
      reads this
    {
      Bucket(sendRate, tokens, updatedAt, messagesDelivered, effectiveSendRate)
    }

    constructor (sendRate: real, now: real)
      ensures View() == Initial(sendRate, now)
    {
      this.sendRate := sendRate;
      tokens, updatedAt := sendRate, now;
      messagesDelivered, effectiveSendRate := 0, 0.0;
    }

    /** One clock reading per turn of the loop; the sleep after each turn lets the clock move on. */
    method Limit(readings: seq<real>) returns (verdict: Verdict)
      modifies this
      ensures verdict == Pace(old(View()), readings).verdict
      ensures View() == Pace(old(View()), readings).bucket
    {
      var i := 0;
      assert readings[0..] == readings;
      while tokens < 1.0
        invariant 0 <= i <= |readings|
        invariant Pace(old(View()), readings).verdict == Pace(View(), readings[i..]).verdict
        invariant Pace(old(View()), readings).bucket == Pace(View(), readings[i..]).bucket
        decreases |readings| - i
      {
        if i == |readings| {
          return Waiting;
        }
        assert readings[i..][0] == readings[i] && readings[i..][1..] == readings[i + 1..];
        var raised := AddTokens(readings[i]);
        if raised {
          return DividedByZero;
        }
        i := i + 1;
      }
      messagesDelivered := messagesDelivered + 1;
      tokens := tokens - 1.0;
      return Admitted;
    }

    method AddTokens(now: real) returns (raised: bool)
      modifies this
      ensures raised <==> AddNewTokens(old(View()), now).None?
      ensures if raised then View() == old(View()) else Some(View()) == AddNewTokens(old(View()), now)
    {
      var timeSinceUpdate := now - updatedAt;
      if timeSinceUpdate == 0.0 {
        return true;
      }
      effectiveSendRate := messagesDelivered as real / timeSinceUpdate;
      var newTokens := timeSinceUpdate * sendRate;
      if newTokens > 1.0 {
        tokens := Min(tokens + newTokens, sendRate);
        updatedAt := now;
        messagesDelivered := 0;
      }
      return false;
    }
  }

  // ----------------------------------------------------------------- one call

  predicate Sound(b: Bucket) {
    0.0 <= b.tokens <= b.sendRate
  }

  /** The clock never goes back, and each sleep lasts at least the requested second. */
  predicate Spaced(readings: seq<real>, from: real) {
    && (readings != [] ==> from <= readings[0])
    && forall i :: 0 <= i < |readings| - 1 ==> readings[i] + DELAY_FOR_TOKENS <= readings[i + 1]
  }

  lemma RefillIsSound(b: Bucket, now: real)
    requires Sound(b) && b.updatedAt <= now && AddNewTokens(b, now).Some?
    ensures var r := AddNewTokens(b, now).value;
            && Sound(r) && r.sendRate == b.sendRate && b.tokens <= r.tokens
            && b.updatedAt <= r.updatedAt <= now
            && r.tokens - b.tokens <= b.sendRate * (r.updatedAt - b.updatedAt)
  {
    var elapsed := now - b.updatedAt;
    assert elapsed * b.sendRate >= 0.0;
    assert elapsed * b.sendRate == b.sendRate * elapsed;
  }

  /** A call keeps the tokens within [0, max_tokens] and never dates a refill after its last reading. */
  lemma {:induction false} PaceIsSound(b: Bucket, readings: seq<real>, until: real)
    requires Sound(b) && Spaced(readings, b.updatedAt)
    requires b.updatedAt <= until && forall i :: 0 <= i < |readings| ==> readings[i] <= until
    ensures var r := Pace(b, readings).bucket;
            Sound(r) && r.sendRate == b.sendRate && b.updatedAt <= r.updatedAt <= until
    decreases |readings|
  {
    if b.tokens < 1.0 && readings != [] && AddNewTokens(b, readings[0]).Some? {
      RefillIsSound(b, readings[0]);
      var r := AddNewTokens(b, readings[0]).value;
      assert forall i :: 0 <= i < |readings[1..]| ==> readings[1..][i] == readings[i + 1];
      PaceIsSound(r, readings[1..], until);
    }
  }

  /** More than a second after the last refill, a refill fills at least one token. */
  lemma RefillAfterASecond(b: Bucket, now: real)
    requires Sound(b) && b.sendRate >= 1.0 && now - b.updatedAt > 1.0
    ensures AddNewTokens(b, now).Some? && AddNewTokens(b, now).value.tokens >= 1.0
  {
    var elapsed := now - b.updatedAt;
    assert elapsed * (b.sendRate - 1.0) >= 0.0;
    assert elapsed * b.sendRate == elapsed * (b.sendRate - 1.0) + elapsed;
  }

  /** A refill either brings a whole token or leaves the time of the last refill alone. */
  lemma RefillOrWait(b: Bucket, now: real)
    requires Sound(b) && b.sendRate >= 1.0 && b.updatedAt < now
    ensures AddNewTokens(b, now).Some?
    ensures var r := AddNewTokens(b, now).value;
            Sound(r) && r.sendRate == b.sendRate && (r.tokens >= 1.0 || r.updatedAt == b.updatedAt)
  {
    RefillIsSound(b, now);
  }

  /**
    Progress, and its exact condition.  Given two clock readings, the first later than
    the last refill, a call of limit has left its loop, after at most two turns, if and
    only if send_rate is at least one.  Below that, no clock ever lets it out.
   */
  lemma PaceProgress(b: Bucket, readings: seq<real>)
    requires Sound(b) && Spaced(readings, b.updatedAt)
    requires |readings| >= 2 && b.updatedAt < readings[0]
    ensures b.sendRate >= 1.0 <==> Pace(b, readings).verdict == Admitted
    ensures b.sendRate >= 1.0 ==> Pace(b, readings).turns <= 2
  {
    if b.sendRate < 1.0 {
      NeverAdmits(b, readings);
    } else if b.tokens < 1.0 {
      RefillOrWait(b, readings[0]);
      var r := AddNewTokens(b, readings[0]).value;
      if r.tokens >= 1.0 {
        PaceAfterRefill(b, readings, r);
      } else {
        var rest := readings[1..];
        assert rest[0] == readings[1];
        RefillAfterASecond(r, rest[0]);
        PaceAfterRefill(r, rest, AddNewTokens(r, rest[0]).value);
        PaceTurns(b, readings, r);
      }
    }
  }

  lemma PaceTurns(b: Bucket, readings: seq<real>, r: Bucket)
    requires b.tokens < 1.0 && readings != [] && AddNewTokens(b, readings[0]) == Some(r)
    ensures Pace(b, readings).verdict == Pace(r, readings[1..]).verdict
    ensures Pace(b, readings).turns == Pace(r, readings[1..]).turns + 1
  {
  }

  lemma PaceAfterRefill(b: Bucket, readings: seq<real>, r: Bucket)
    requires b.tokens < 1.0 <= r.tokens && readings != [] && AddNewTokens(b, readings[0]) == Some(r)
    ensures Pace(b, readings).verdict == Admitted && Pace(b, readings).turns == 1
  {
    PaceTurns(b, readings, r);
  }

  lemma {:induction false} NeverAdmits(b: Bucket, readings: seq<real>)
    requires b.tokens <= b.sendRate < 1.0
    ensures Pace(b, readings).verdict != Admitted
    decreases |readings|
  {
    if readings != [] && AddNewTokens(b, readings[0]).Some? {
      NeverAdmits(AddNewTokens(b, readings[0]).value, readings[1..]);
    }
  }

  /** Everything admitted since t0 has been paid for by tokens that time has produced. */
  predicate Paid(b: Bucket, t0: real, admitted: nat) {
    b.tokens + admitted as real <= b.sendRate * (1.0 + b.updatedAt - t0)
  }

  lemma Apportion(rate: real, t0: real, t1: real, t2: real)
    ensures rate * (1.0 + t2 - t0) == rate * (1.0 + t1 - t0) + rate * (t2 - t1)
  {
  }

  lemma RefillKeepsPaid(b: Bucket, now: real, t0: real, admitted: nat)
    requires Sound(b) && b.updatedAt <= now && AddNewTokens(b, now).Some? && Paid(b, t0, admitted)
    ensures var r := AddNewTokens(b, now).value;
            && Sound(r) && b.updatedAt <= r.updatedAt <= now && Paid(r, t0, admitted)
  {
    RefillIsSound(b, now);
    Apportion(b.sendRate, t0, b.updatedAt, AddNewTokens(b, now).value.updatedAt);
  }

  lemma {:induction false} PaceKeepsPaid(b: Bucket, readings: seq<real>, t0: real, admitted: nat)
    requires Sound(b) && Spaced(readings, b.updatedAt) && Paid(b, t0, admitted)
    ensures var l := Pace(b, readings);
            Paid(l.bucket, t0, if l.verdict == Admitted then admitted + 1 else admitted)
    decreases |readings|
  {
    if b.tokens < 1.0 && readings != [] && AddNewTokens(b, readings[0]).Some? {
      var r := AddNewTokens(b, readings[0]).value;
      RefillKeepsPaid(b, readings[0], t0, admitted);
      assert forall i :: 0 <= i < |readings[1..]| ==> readings[1..][i] == readings[i + 1];
      PaceKeepsPaid(r, readings[1..], t0, admitted);
    }
  }

  // ----------------------------------------------------------------- how much is let through

  /** The next n calls are all admitted without waiting. */
  predicate AdmitsAtOnce(b: Bucket, n: nat)
    decreases n
  {
    n == 0 || (Pace(b, []).verdict == Admitted && AdmitsAtOnce(Pace(b, []).bucket, n - 1))
  }

  function AfterBurst(b: Bucket, n: nat): Bucket
    decreases n
  {
    if n == 0 then b else AfterBurst(Pace(b, []).bucket, n - 1)
  }

  /** A bucket lets through at once exactly as many calls as it holds whole tokens, and counts them. */
  lemma {:induction false} Burst(b: Bucket, n: nat)
    ensures AdmitsAtOnce(b, n) <==> n == 0 || n as real <= b.tokens
    ensures AdmitsAtOnce(b, n) ==>
              AfterBurst(b, n) == b.(tokens := b.tokens - n as real, delivered := b.delivered + n)
    decreases n
  {
    if n > 0 && b.tokens >= 1.0 {
      Burst(Pace(b, []).bucket, n - 1);
    }
  }

  /** A new limiter starts with a full bucket. */
  lemma FirstBurst(sendRate: real, now: real, n: nat)
    ensures AdmitsAtOnce(Initial(sendRate, now), n) <==> n == 0 || n as real <= sendRate
  {
    Burst(Initial(sendRate, now), n);
  }

  /**
    A refill, exactly: after d seconds that have produced more than one token, the bucket
    holds what it held and d * send_rate more, but no more than send_rate, and reports the
    admissions since the last refill per second; otherwise it only reports them.
   */
  lemma RefillExactly(b: Bucket, now: real)
    ensures AddNewTokens(b, now).None? <==> now == b.updatedAt
    ensures now != b.updatedAt ==>
              var d, r := now - b.updatedAt, AddNewTokens(b, now).value;
              && r.sendRate == b.sendRate && r.effectiveSendRate == b.delivered as real / d
              && (d * b.sendRate <= 1.0 ==>
                    r.tokens == b.tokens && r.updatedAt == b.updatedAt && r.delivered == b.delivered)
              && (d * b.sendRate > 1.0 ==>
                    && r.updatedAt == now && r.delivered == 0
                    && (b.tokens + d * b.sendRate <= b.sendRate ==> r.tokens == b.tokens + d * b.sendRate)
                    && (b.tokens + d * b.sendRate >= b.sendRate ==> r.tokens == b.sendRate))
  {
  }

  /**
    Throughput from below: a call that finds less than one token, d seconds after the last
    refill and with more than one token produced since, refills the bucket; it and further
    calls without waiting, n in all, are admitted if and only if the bucket then holds n.
   */
  lemma BurstAfterRefill(b: Bucket, now: real, n: nat)
    requires b.tokens < 1.0 <= b.sendRate && b.updatedAt < now && (now - b.updatedAt) * b.sendRate > 1.0
    requires 0.0 <= b.tokens && n > 0
    ensures var produced := b.tokens + (now - b.updatedAt) * b.sendRate;
            && Pace(b, [now]).verdict == Admitted && Pace(b, [now]).turns == 1
            && (AdmitsAtOnce(Pace(b, [now]).bucket, n - 1) <==>
                  n as real <= produced && n as real <= b.sendRate)
  {
    RefillExactly(b, now);
    var r := AddNewTokens(b, now).value;
    PaceAfterRefill(b, [now], r);
    assert Pace(b, [now]).bucket == r.(delivered := 1, tokens := r.tokens - 1.0);
    Burst(Pace(b, [now]).bucket, n - 1);
  }

  // ----------------------------------------------------------------- whole runs

  /** A call of limit that is over: the readings its loop took, and when it returned or raised. */
  datatype Call = Call(readings: seq<real>, at: real)

  /**
    A call that begins at the given time ends after exactly its readings.  Every turn of
    its loop is followed by a sleep, except one that raises.
   */
  predicate Ends(b: Bucket, clock: real, c: Call) {
    var limited := Pace(b, c.readings);
    && limited.verdict != Waiting && limited.turns == |c.readings|
    && Spaced(c.readings, clock) && clock <= c.at
    && (c.readings != [] ==>
          c.readings[|c.readings| - 1] + (if limited.verdict == Admitted then DELAY_FOR_TOKENS else 0.0) <= c.at)
  }

  /** The bucket at some time, and how many calls have been admitted by then. */
  datatype Moment = Moment(bucket: Bucket, clock: real, admitted: nat)

  predicate Admits(m: Moment, c: Call) {
    Pace(m.bucket, c.readings).verdict == Admitted
  }

  /** What a call makes of it. */
  function After(m: Moment, c: Call): Moment {
    Moment(Pace(m.bucket, c.readings).bucket, c.at, if Admits(m, c) then m.admitted + 1 else m.admitted)
  }

  predicate Steady(m: Moment) {
    Sound(m.bucket) && m.bucket.updatedAt <= m.clock
  }

  /** A run of one caller, whose calls may also raise. */
  ghost predicate IsRun(moments: seq<Moment>, calls: seq<Call>) {
    && |moments| == |calls| + 1
    && forall k :: 0 <= k < |calls| ==> Ends(moments[k].bucket, moments[k].clock, calls[k]) &&
                                        moments[k + 1] == After(moments[k], calls[k])
  }

  lemma {:induction false} SpacedIsOrdered(readings: seq<real>, from: real)
    requires Spaced(readings, from)
    ensures forall i :: 0 <= i < |readings| ==> from <= readings[i] <= readings[|readings| - 1]
  {
    if |readings| > 1 {
      SpacedIsOrdered(readings[..|readings| - 1], from);
    }
  }

  /** An admitted call spends one token: of what was there, or of at most a full bucket. */
  lemma {:induction false} AdmittedSpends(b: Bucket, readings: seq<real>)
    requires Sound(b) && Spaced(readings, b.updatedAt)
    requires Pace(b, readings).verdict == Admitted && Pace(b, readings).turns == |readings|
    ensures Pace(b, readings).bucket.tokens <= b.sendRate - 1.0
    ensures readings == [] ==> Pace(b, readings).bucket.tokens == b.tokens - 1.0
    decreases |readings|
  {
    if readings != [] {
      RefillIsSound(b, readings[0]);
      assert forall i :: 0 <= i < |readings[1..]| ==> readings[1..][i] == readings[i + 1];
      AdmittedSpends(AddNewTokens(b, readings[0]).value, readings[1..]);
    }
  }

  /** Past its first reading a call never divides by zero: every later one is a second after the last refill. */
  lemma {:induction false} NeverDivides(b: Bucket, readings: seq<real>)
    requires Sound(b) && Spaced(readings, b.updatedAt) && (readings != [] ==> b.updatedAt < readings[0])
    ensures Pace(b, readings).verdict != DividedByZero
    decreases |readings|
  {
    if b.tokens < 1.0 && readings != [] {
      RefillIsSound(b, readings[0]);
      assert forall i :: 0 <= i < |readings[1..]| ==> readings[1..][i] == readings[i + 1];
      NeverDivides(AddNewTokens(b, readings[0]).value, readings[1..]);
    }
  }

  /** A call that raises does so at its first reading, and changes nothing. */
  lemma RaisesAtOnce(b: Bucket, readings: seq<real>)
    requires Sound(b) && Spaced(readings, b.updatedAt) && Pace(b, readings).verdict == DividedByZero
    ensures readings != [] && readings[0] == b.updatedAt && b.tokens < 1.0
    ensures Pace(b, readings).bucket == b && Pace(b, readings).turns == 1
  {
    if readings == [] || readings[0] != b.updatedAt {
      NeverDivides(b, readings);
    }
  }

  /**
    A call can end, at some time or other, exactly when a token is left, or refills bring
    whole tokens, or the clock still stands at the last refill and the call can raise.
   */
  predicate CanEnd(m: Moment) {
    m.bucket.tokens >= 1.0 || m.bucket.sendRate >= 1.0 || m.bucket.updatedAt == m.clock
  }

  lemma EndsOnlyIf(m: Moment, c: Call)
    requires Steady(m) && Ends(m.bucket, m.clock, c)
    ensures CanEnd(m)
  {
    if Pace(m.bucket, c.readings).verdict == DividedByZero {
      RaisesAtOnce(m.bucket, c.readings);
    } else if m.bucket.sendRate < 1.0 {
      NeverAdmits(m.bucket, c.readings);
      assert false;
    }
  }

  lemma EndsIf(m: Moment) returns (c: Call)
    requires Steady(m) && CanEnd(m)
    ensures Ends(m.bucket, m.clock, c)
  {
    if m.bucket.tokens >= 1.0 {
      c := Call([], m.clock);
    } else if m.bucket.sendRate >= 1.0 {
      var now := m.clock + 2.0;
      RefillAfterASecond(m.bucket, now);
      c := Call([now], now + DELAY_FOR_TOKENS);
      PaceAfterRefill(m.bucket, c.readings, AddNewTokens(m.bucket, now).value);
    } else {
      c := Call([m.clock], m.clock);
    }
  }

  /**
    The invariant of a window that began at time from, with n calls admitted before it: the
    admissions since and the tokens left are paid for by k + 1 full buckets, and k refill
    batches have taken k seconds.
   */
  predicate Window(rate: real, from: real, n: nat, m: Moment, k: nat) {
    && Steady(m) && m.bucket.sendRate == rate && n <= m.admitted
    && from + k as real <= m.clock && (m.admitted - n) as real + m.bucket.tokens <= Times(k + 1, rate)
  }

  lemma CallKeepsWindow(rate: real, from: real, n: nat, m: Moment, k: nat, c: Call)
    requires Window(rate, from, n, m, k) && Ends(m.bucket, m.clock, c)
    ensures Window(rate, from, n, After(m, c), if Admits(m, c) && c.readings != [] then k + 1 else k)
  {
    SpacedIsOrdered(c.readings, m.clock);
    PaceIsSound(m.bucket, c.readings, c.at);
    if Admits(m, c) {
      AdmittedSpends(m.bucket, c.readings);
    } else {
      RaisesAtOnce(m.bucket, c.readings);
    }
  }

  lemma {:induction false} RunIsSteady(moments: seq<Moment>, calls: seq<Call>, k: nat)
    requires IsRun(moments, calls) && Steady(moments[0]) && k <= |calls|
    ensures Steady(moments[k]) && moments[k].bucket.sendRate == moments[0].bucket.sendRate
  {
    if k > 0 {
      RunIsSteady(moments, calls, k - 1);
      SpacedIsOrdered(calls[k - 1].readings, moments[k - 1].clock);
      PaceIsSound(moments[k - 1].bucket, calls[k - 1].readings, calls[k - 1].at);
    }
  }

  /** The window of calls i to j - 1, counted from the end of call i. */
  lemma {:induction false} RunKeepsWindow(moments: seq<Moment>, calls: seq<Call>, i: nat, j: nat) returns (k: nat)
    requires IsRun(moments, calls) && Steady(moments[0]) && i < j <= |calls|
    ensures Window(moments[0].bucket.sendRate, calls[i].at, moments[i].admitted, moments[j], k)
    decreases j
  {
    if j == i + 1 {
      k := 0;
      RunIsSteady(moments, calls, i);
      FirstOfWindow(moments[i], calls[i]);
    } else {
      k := RunKeepsWindow(moments, calls, i, j - 1);
      var m, c := moments[j - 1], calls[j - 1];
      CallKeepsWindow(moments[0].bucket.sendRate, calls[i].at, moments[i].admitted, m, k, c);
      if Admits(m, c) && c.readings != [] {
        k := k + 1;
      }
    }
  }

  lemma FirstOfWindow(m: Moment, c: Call)
    requires Steady(m) && Ends(m.bucket, m.clock, c)
    ensures Window(m.bucket.sendRate, c.at, m.admitted, After(m, c), 0)
  {
    SpacedIsOrdered(c.readings, m.clock);
    PaceIsSound(m.bucket, c.readings, c.at);
    if Admits(m, c) {
      AdmittedSpends(m.bucket, c.readings);
    }
    assert Times(1, m.bucket.sendRate) == Times(0, m.bucket.sendRate) + m.bucket.sendRate;
  }

  lemma WindowArithmetic(rate: real, n: real, k: nat, d: real)
    requires rate >= 0.0 && n <= Times(k + 1, rate) && k as real <= d
    ensures n <= rate * (d + 1.0)
  {
    TimesIsProduct(k + 1, rate);
    var x := (k + 1) as real;
    assert x <= d + 1.0;
    assert rate * (d + 1.0 - x) >= 0.0;
    assert rate * (d + 1.0) == rate * x + rate * (d + 1.0 - x);
  }

  lemma WindowBounds(rate: real, from: real, n: nat, m: Moment, k: nat, L: real)
    requires Window(rate, from, n, m, k) && m.clock - from <= L
    ensures (m.admitted - n) as real <= rate * (L + 1.0)
  {
    WindowArithmetic(rate, (m.admitted - n) as real, k, L);
  }

  /**
    The sliding-window bound: of the calls that end within a window of length L, from the
    i-th to the j-th, at most send_rate * (L + 1) are admitted, however many others raise.
   */
  lemma SlidingWindow(moments: seq<Moment>, calls: seq<Call>, i: nat, j: nat, L: real)
    requires IsRun(moments, calls) && Steady(moments[0]) && i <= j < |calls|
    requires calls[j].at - calls[i].at <= L
    ensures (moments[j + 1].admitted - moments[i].admitted) as real <= moments[0].bucket.sendRate * (L + 1.0)
  {
    var k := RunKeepsWindow(moments, calls, i, j + 1);
    WindowBounds(moments[0].bucket.sendRate, calls[i].at, moments[i].admitted, moments[j + 1], k, L);
  }
}
