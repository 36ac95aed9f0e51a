/**
  Whether a shutdown stops the loop.  SHOULD_SHUT_DOWN is looked at only at the top of the
  loop and after a broker error.  A loop that is anywhere else when the flag is set has to
  get back to the top first: through the wait for BOUND_TRX, the rate limiter and the
  broker, each of which can hold it for ever.
 */
module Stopping {
  import opened Bytes
  import opened Commands
  import Delivery
  import RateLimiter
  import Throttle
  import opened SessionSpec
  import opened SessionTheorems
  import opened DequeueLoop

  // ----------------------------------------------------------------- getting bound while shutting down

  predicate FlushedAt(s: Session, k: nat) {
    Delivery.WriteAt(s, k) == Flushed
  }

  /** The k-th write from here will be flushed, and no closing transport is met before it. */
  ghost predicate BindsAt(s: Session, k: nat) {
    FlushedAt(s, k) && forall i: nat :: i < k ==> !Delivery.Dropped(s, i)
  }

  ghost predicate CanBind(s: Session) {
    exists k: nat :: BindsAt(s, k)
  }

  /** Shutting down, and unable to get to BOUND_TRX without a fresh connect. */
  ghost predicate Stuck(s: Session) {
    Valid(s) && s.shutDown && (s.state == Closed || (s.state == Open && !CanBind(s)))
  }

  /** One write on a connection that is not closing uses up one answer of the network of each kind. */
  lemma BindsLater(s: Session, t: Session, k: nat)
    requires t.net == s.net && t.polls == s.polls + 1 && |t.log| == |s.log| + 1 && !s.net.closing(s.polls)
    ensures BindsAt(s, k + 1) <==> BindsAt(t, k)
  {
    assert FlushedAt(s, k + 1) <==> FlushedAt(t, k);
    assert !Delivery.Dropped(s, 0);
    if BindsAt(s, k + 1) {
      forall i: nat | i < k
        ensures !Delivery.Dropped(t, i)
      {
        assert !Delivery.Dropped(s, i + 1);
      }
    }
    if BindsAt(t, k) {
      forall i: nat | 0 < i < k + 1
        ensures !Delivery.Dropped(s, i)
      {
        assert !Delivery.Dropped(t, i - 1);
      }
    }
  }

  lemma CanBindAfterWrite(s: Session, t: Session)
    requires t.net == s.net && t.polls == s.polls + 1 && |t.log| == |s.log| + 1 && !s.net.closing(s.polls)
    requires CanBind(t)
    ensures CanBind(s)
  {
    var k: nat :| BindsAt(t, k);
    BindsLater(s, t, k);
  }

  lemma SendStaysStuck(s: Session, pdu: Pdu, fuel: nat)
    requires Stuck(s)
    ensures SendData(s, pdu, fuel).Done? && Stuck(SendData(s, pdu, fuel).session)
  {
    assert forall t: Session :: t.shutDown ==> ReEstablish(t, fuel) == Done(t.(state := Closed));
    SendDataKeeps(s, pdu, fuel);
    if s.state == Open && Admissible(Open, pdu.command) {
      assert !BindsAt(s, 0);
      var t := SendData(s, pdu, fuel).session;
      if !s.net.closing(s.polls) && CanBind(t) {
        CanBindAfterWrite(s, t);
      }
    }
  }

  lemma DisconnectStaysStuck(s: Session, drained: bool, fuel: nat)
    requires Stuck(s)
    ensures !UnbindAndDisconnect(s, drained, fuel).OutOfFuel?
    ensures Stuck(UnbindAndDisconnect(s, drained, fuel).session)
  {
    SendStaysStuck(s, Pdu(Unbind, Own), fuel);
  }

  lemma StepStaysStuck(s: Session, step: SessionSpec.Step, t: Session)
    requires Stuck(s) && step != DoConnect && SessionSpec.Next(s, step, t)
    ensures Stuck(t)
  {
    var fuel: nat :| Apply(s, step, fuel) == Done(t) || Apply(s, step, fuel) == Raised(t);
    match step
    case DoBind => SendStaysStuck(s, BIND, fuel);
    case DoSend(pdu) => SendStaysStuck(s, pdu, fuel);
    case DoReceive(_) => SendStaysStuck(s.(state := Closed), BIND, fuel);
    case DoDisconnect(drained) => DisconnectStaysStuck(s, drained, fuel);
    case DoShutdown(drained) =>
      assert s.(shutDown := true) == s;
      DisconnectStaysStuck(s, drained, fuel);
  }

  /** One more attempt to bind. */
  lemma BindAgain(s: Session)
    requires Valid(s) && s.shutDown && s.state == Open
    ensures Bind(s, 0).Done?
    ensures var t := Bind(s, 0).session;
            && Valid(t) && t.shutDown && t.net == s.net && |t.log| == |s.log| + 1
            && (FlushedAt(s, 0) ==> t.state == BoundTrx)
            && (!FlushedAt(s, 0) && !s.net.closing(s.polls) ==> t.state == Open && t.polls == s.polls + 1)
  {
    var polled := s.(polls := s.polls + 1);
    assert ReEstablish(polled, 0) == Done(polled.(state := Closed));
    SendDataKeeps(s, BIND, 0);
  }

  // ----------------------------------------------------------------- stopping

  /** Nothing comes to the loop's help: no fresh connect, no new message, no response, no broker error. */
  predicate Unaided(step: DequeueLoop.Step) {
    && step != OtherTask(DoConnect) && step != TakeMessage(true)
    && !step.Accept? && !step.Respond?
  }

  ghost predicate Stops(l: Loop, states: seq<Loop>, steps: seq<DequeueLoop.Step>) {
    && DequeueLoop.IsRun(states, steps) && states[0] == l && states[|states| - 1].pc == Stopped
    && forall k :: 0 <= k < |steps| ==> Unaided(steps[k])
  }

  ghost predicate CanStop(l: Loop) {
    exists states, steps :: Stops(l, states, steps)
  }

  /** What every state of a run satisfies, and the shutdown flag. */
  ghost predicate ShuttingDown(l: Loop) {
    Orderly(l) && l.session.shutDown && RateLimiter.Steady(MomentOf(l))
  }

  predicate MessageWaits(l: Loop) {
    l.taken < |l.accepted|
  }

  predicate PassesLimiter(l: Loop) {
    RateLimiter.CanEnd(MomentOf(l)) && MessageWaits(l)
  }

  predicate PassesThrottle(l: Loop) {
    Throttle.Allowed(l.config, l.window.throttle, l.window.nonThrottle) == Some(true) ==> PassesLimiter(l)
  }

  ghost predicate GetsBound(s: Session) {
    s.state == BoundTrx || (s.state == Open && CanBind(s))
  }

  /** The way back to the top is open, place by place. */
  ghost predicate WayOut(l: Loop) {
    match l.pc
    case Top | Stopped | Holding(_) => true
    case Dequeuing => MessageWaits(l)
    case Limiting => PassesLimiter(l)
    case AskingThrottle => PassesThrottle(l)
    case AwaitingBind => GetsBound(l.session) && PassesThrottle(l)
  }

  lemma {:induction false} NextKeepsShuttingDown(l: Loop, step: DequeueLoop.Step, t: Loop)
    requires ShuttingDown(l) && DequeueLoop.Next(l, step, t)
    ensures ShuttingDown(t)
  {
    NextKeepsOrder(l, step, t);
    if step.PassLimiter? {
      var call := RateLimiter.Call(step.readings, step.at);
      RateLimiter.SpacedIsOrdered(call.readings, l.clock);
      RateLimiter.PaceIsSound(l.bucket, call.readings, call.at);
    }
  }

  // ----------------------------------------------------------------- no way out, no stop

  lemma NextStaysShut(l: Loop, step: DequeueLoop.Step, t: Loop)
    requires ShuttingDown(l) && !WayOut(l) && DequeueLoop.Next(l, step, t) && Unaided(step)
    ensures !WayOut(t)
  {
    match step
    case PassLimiter(readings, at) => RateLimiter.EndsOnlyIf(MomentOf(l), RateLimiter.Call(readings, at));
    case OtherTask(other) =>
      if l.pc == AwaitingBind && PassesThrottle(l) {
        StepStaysStuck(l.session, other, t.session);
      }
    case _ =>
  }

  lemma {:induction false} RunStaysShut(states: seq<Loop>, steps: seq<DequeueLoop.Step>, n: nat)
    requires DequeueLoop.IsRun(states, steps) && n < |states|
    requires forall k :: 0 <= k < |steps| ==> Unaided(steps[k])
    requires ShuttingDown(states[0]) && !WayOut(states[0])
    ensures ShuttingDown(states[n]) && !WayOut(states[n])
  {
    if n > 0 {
      RunStaysShut(states, steps, n - 1);
      NextKeepsShuttingDown(states[n - 1], steps[n - 1], states[n]);
      NextStaysShut(states[n - 1], steps[n - 1], states[n]);
    }
  }

  // ----------------------------------------------------------------- a way out, a stop

  lemma StopsAfter(l: Loop, step: DequeueLoop.Step, t: Loop)
    requires DequeueLoop.Next(l, step, t) && Unaided(step) && CanStop(t)
    ensures CanStop(l)
  {
    var states, steps :| Stops(t, states, steps);
    var more, first := [l] + states, [step] + steps;
    forall i | 0 <= i < |first|
      ensures DequeueLoop.Next(more[i], first[i], more[i + 1]) && Unaided(first[i])
    {
      if i > 0 {
        assert DequeueLoop.Next(states[i - 1], steps[i - 1], states[i]);
      }
    }
    assert Stops(l, more, first);
  }

  lemma TopStops(l: Loop)
    requires l.session.shutDown && l.pc in {Top, Stopped}
    ensures CanStop(l)
  {
    var stopped := l.(pc := Stopped);
    assert Stops(stopped, [stopped], []);
    if l.pc == Top {
      StopsAfter(l, CheckShutdown, stopped);
    }
  }

  /** While shutting down, send_data does not reconnect, so it returns. */
  lemma SendReturns(s: Session, pdu: Pdu)
    requires Valid(s) && s.shutDown
    ensures SendData(s, pdu, 0).Done? && SendData(s, pdu, 0).session.shutDown
  {
    assert forall t: Session :: t.shutDown ==> ReEstablish(t, 0) == Done(t.(state := Closed));
    SendDataKeeps(s, pdu, 0);
  }

  lemma HoldingStops(l: Loop)
    requires ShuttingDown(l) && l.pc.Holding?
    ensures CanStop(l)
  {
    var index := l.pc.index;
    var q := l.accepted[index];
    var session := l.session;
    if Builds(q, NumberFor(l.books, q)) {
      SendReturns(l.session, PduFor(l, index));
      session := SendData(l.session, PduFor(l, index), 0).session;
      assert Sends(l.session, PduFor(l, index), session);
    }
    var top := l.(pc := Top, session := session,
                  books := Entered(l.books, index, q, |l.session.log|, l.clock, l.clock));
    TopStops(top);
    StopsAfter(l, SendMessage(l.clock, l.clock), top);
  }

  lemma DequeuingStops(l: Loop)
    requires ShuttingDown(l) && l.pc == Dequeuing && MessageWaits(l)
    ensures CanStop(l)
  {
    var holding := l.(pc := Holding(l.taken), taken := l.taken + 1);
    NextKeepsShuttingDown(l, TakeMessage(false), holding);
    HoldingStops(holding);
    StopsAfter(l, TakeMessage(false), holding);
  }

  lemma LimitingStops(l: Loop)
    requires ShuttingDown(l) && l.pc == Limiting && PassesLimiter(l)
    ensures CanStop(l)
  {
    var call := RateLimiter.EndsIf(MomentOf(l));
    var m := RateLimiter.After(MomentOf(l), call);
    var passed := l.(pc := Dequeuing, bucket := m.bucket, clock := m.clock, admitted := m.admitted,
                     raised := if RateLimiter.Admits(MomentOf(l), call) then l.raised else l.raised + 1);
    var step := PassLimiter(call.readings, call.at);
    assert RateLimiter.Call(call.readings, call.at) == call;
    NextKeepsShuttingDown(l, step, passed);
    DequeuingStops(passed);
    StopsAfter(l, step, passed);
  }

  lemma AskingStops(l: Loop)
    requires ShuttingDown(l) && l.pc == AskingThrottle && PassesThrottle(l)
    ensures CanStop(l)
  {
    var allowed := Throttle.Allowed(l.config, l.window.throttle, l.window.nonThrottle) == Some(true);
    var asked := l.(pc := if allowed then Limiting else Top,
                    window := Throttle.AfterAsk(l.config, l.window, l.clock));
    NextKeepsShuttingDown(l, AskThrottle(l.clock), asked);
    if allowed {
      LimitingStops(asked);
    } else {
      TopStops(asked);
    }
    StopsAfter(l, AskThrottle(l.clock), asked);
  }

  lemma BoundStops(l: Loop)
    requires ShuttingDown(l) && l.pc == AwaitingBind && l.session.state == BoundTrx && PassesThrottle(l)
    ensures CanStop(l)
  {
    var asking := l.(pc := AskingThrottle);
    AskingStops(asking);
    StopsAfter(l, CheckBound, asking);
  }

  lemma {:induction false} BindingStops(l: Loop, k: nat)
    requires ShuttingDown(l) && l.pc == AwaitingBind && l.session.state == Open && PassesThrottle(l)
    requires BindsAt(l.session, k)
    ensures CanStop(l)
    decreases k
  {
    var s := l.session;
    BindAgain(s);
    var t := Bind(s, 0).session;
    var next := l.(session := t);
    assert Apply(s, DoBind, 0) == Done(t);
    NextKeepsShuttingDown(l, OtherTask(DoBind), next);
    if FlushedAt(s, 0) {
      BoundStops(next);
    } else {
      assert !Delivery.Dropped(s, 0);
      BindsLater(s, t, k - 1);
      BindingStops(next, k - 1);
    }
    StopsAfter(l, OtherTask(DoBind), next);
  }

  /**
    Which shutdowns stop the loop, exactly, wherever it is when the flag is set and as long
    as nothing comes to its help.  At the top, and with a message in hand, it always can.
    At the broker, it needs a message; before the rate limiter, moreover a call that ends;
    before the throttle handler, that or a denial; and waiting for BOUND_TRX, moreover a
    session that is bound, or open with some later bind flushed before a closing transport
    is met.
   */
  lemma StopsExactly(l: Loop)
    requires ShuttingDown(l)
    ensures CanStop(l) <==> WayOut(l)
  {
    if WayOut(l) {
      match l.pc
      case Top | Stopped => TopStops(l);
      case Holding(_) => HoldingStops(l);
      case Dequeuing => DequeuingStops(l);
      case Limiting => LimitingStops(l);
      case AskingThrottle => AskingStops(l);
      case AwaitingBind => WaitingStops(l);
    } else if CanStop(l) {
      var states, steps :| Stops(l, states, steps);
      RunStaysShut(states, steps, |states| - 1);
      assert false;
    }
  }

  lemma WaitingStops(l: Loop)
    requires ShuttingDown(l) && l.pc == AwaitingBind && GetsBound(l.session) && PassesThrottle(l)
    ensures CanStop(l)
  {
    if l.session.state == BoundTrx {
      BoundStops(l);
    } else {
      var k: nat :| BindsAt(l.session, k);
      BindingStops(l, k);
    }
  }

  // ----------------------------------------------------------------- runs that do not stop

  /** What StopsExactly needs is kept by every run. */
  lemma RunShutsDown(states: seq<Loop>, steps: seq<DequeueLoop.Step>, t0: real, n: nat)
    requires DequeueLoop.IsRun(states, steps) && Begins(states[0], t0) && n < |states| && states[n].session.shutDown
    ensures ShuttingDown(states[n])
  {
    AtMostOnceInOrder(states, steps, t0, n);
    RunIsMetered(states, steps, t0, n);
  }

  /**
    A shutdown that comes too early strands the loop, whatever the network: the loop has
    begun to wait, another task connects, and a third shuts the client down before any bind.
   */
  lemma ShutdownStrandsWaitingLoop(l: Loop, t0: real) returns (states: seq<Loop>, steps: seq<DequeueLoop.Step>)
    requires Begins(l, t0)
    ensures DequeueLoop.IsRun(states, steps) && states[0] == l
    ensures steps == [CheckShutdown, OtherTask(DoConnect), OtherTask(DoShutdown(true))]
    ensures states[3].pc == AwaitingBind && states[3].session.shutDown && !CanStop(states[3])
  {
    var waiting := l.(pc := AwaitingBind);
    var connected := Connect(l.session);
    var down := Shutdown(connected, true, 0).session;
    assert Apply(l.session, DoConnect, 0) == Done(connected);
    assert !Apply(connected, DoShutdown(true), 0).OutOfFuel?;
    assert SessionSpec.Next(connected, DoShutdown(true), down);
    states := [l, waiting, waiting.(session := connected), waiting.(session := down)];
    steps := [CheckShutdown, OtherTask(DoConnect), OtherTask(DoShutdown(true))];
    RunShutsDown(states, steps, t0, 3);
    StopsExactly(states[3]);
  }

  /** The session of a client that has connected and bound, and of the same client once it is shut down. */
  lemma ConnectBindShutdown(net: Network) returns (connected: Session, bound: Session, down: Session)
    requires net.connect(0) && !net.closing(0) && net.write(0) == Flushed
    ensures SessionSpec.Next(Initial(net), DoConnect, connected)
    ensures SessionSpec.Next(connected, DoBind, bound) && bound.state == BoundTrx && !bound.shutDown
    ensures SessionSpec.Next(bound, DoShutdown(true), down) && down.shutDown
  {
    connected := Connect(Initial(net));
    assert Apply(Initial(net), DoConnect, 0) == Done(connected);
    SendDataKeeps(connected, BIND, 0);
    bound := Bind(connected, 0).session;
    assert Apply(connected, DoBind, 0) == Done(bound);
    var asked := bound.(shutDown := true);
    SendReturns(asked, Pdu(Unbind, Own));
    down := Shutdown(bound, true, 0).session;
    assert Apply(bound, DoShutdown(true), 0) == Done(down);
  }

  /** The steps lead from l to t. */
  ghost predicate Leads(l: Loop, steps: seq<DequeueLoop.Step>, t: Loop) {
    exists states :: DequeueLoop.IsRun(states, steps) && states[0] == l && states[|steps|] == t
  }

  lemma LeadsOn(l: Loop, steps: seq<DequeueLoop.Step>, m: Loop, step: DequeueLoop.Step, t: Loop)
    requires Leads(l, steps, m) && DequeueLoop.Next(m, step, t)
    ensures Leads(l, steps + [step], t)
  {
    var states :| DequeueLoop.IsRun(states, steps) && states[0] == l && states[|steps|] == m;
    var more := states + [t];
    assert DequeueLoop.IsRun(more, steps + [step]) && more[0] == l && more[|steps| + 1] == t;
  }

  lemma OtherTaskLeadsOn(l: Loop, steps: seq<DequeueLoop.Step>, m: Loop, step: SessionSpec.Step, session: Session)
    requires Leads(l, steps, m) && OwnStep(step) && SessionSpec.Next(m.session, step, session)
    ensures Leads(l, steps + [OtherTask(step)], m.(session := session))
  {
    LeadsOn(l, steps, m, OtherTask(step), m.(session := session));
  }

  const CONNECT_AND_BIND: seq<DequeueLoop.Step> := [OtherTask(DoConnect), OtherTask(DoBind)]

  lemma LeadsToBound(l: Loop, connected: Session, bound: Session)
    requires SessionSpec.Next(l.session, DoConnect, connected) && SessionSpec.Next(connected, DoBind, bound)
    ensures Leads(l, CONNECT_AND_BIND, l.(session := bound))
  {
    assert DequeueLoop.IsRun([l], []);
    assert Leads(l, [], l);
    OtherTaskLeadsOn(l, [], l, DoConnect, connected);
    OtherTaskLeadsOn(l, [OtherTask(DoConnect)], l.(session := connected), DoBind, bound);
    assert [] + [OtherTask(DoConnect)] == [OtherTask(DoConnect)];
    assert [OtherTask(DoConnect)] + [OtherTask(DoBind)] == CONNECT_AND_BIND;
  }

  function ToTheBroker(now: real): seq<DequeueLoop.Step> {
    [CheckShutdown, CheckBound, AskThrottle(now), PassLimiter([], now)]
  }

  /** From the top to the broker, with the throttle handler's permission and a token in the bucket. */
  lemma LeadsToTheBroker(l0: Loop, steps: seq<DequeueLoop.Step>, l: Loop) returns (t: Loop)
    requires Leads(l0, steps, l)
    requires l.pc == Top && l.session.state == BoundTrx && !l.session.shutDown && l.bucket.tokens >= 1.0
    requires Throttle.Allowed(l.config, l.window.throttle, l.window.nonThrottle) == Some(true)
    ensures Leads(l0, steps + ToTheBroker(l.clock), t)
    ensures t.pc == Dequeuing && t.session == l.session && t.taken == l.taken && t.accepted == l.accepted
  {
    var waiting, asking := l.(pc := AwaitingBind), l.(pc := AskingThrottle);
    var limiting := l.(pc := Limiting, window := Throttle.AfterAsk(l.config, l.window, l.clock));
    LeadsOn(l0, steps, l, CheckShutdown, waiting);
    LeadsOn(l0, steps + [CheckShutdown], waiting, CheckBound, asking);
    LeadsOn(l0, steps + [CheckShutdown] + [CheckBound], asking, AskThrottle(l.clock), limiting);
    t := Dequeues(limiting);
    LeadsOn(l0, steps + [CheckShutdown] + [CheckBound] + [AskThrottle(l.clock)], limiting,
            PassLimiter([], l.clock), t);
    assert steps + [CheckShutdown] + [CheckBound] + [AskThrottle(l.clock)] + [PassLimiter([], l.clock)]
        == steps + ToTheBroker(l.clock);
  }

  lemma Dequeues(l: Loop) returns (t: Loop)
    requires l.pc == Limiting && l.bucket.tokens >= 1.0
    ensures DequeueLoop.Next(l, PassLimiter([], l.clock), t)
    ensures t.pc == Dequeuing && t.session == l.session && t.taken == l.taken && t.accepted == l.accepted
  {
    var call := RateLimiter.Call([], l.clock);
    var m := RateLimiter.After(MomentOf(l), call);
    assert RateLimiter.Ends(l.bucket, l.clock, call);
    t := l.(pc := Dequeuing, bucket := m.bucket, clock := m.clock, admitted := m.admitted);
  }

  lemma IdleCannotStop(l: Loop, steps: seq<DequeueLoop.Step>, t: Loop, t0: real)
    requires Begins(l, t0) && Leads(l, steps, t)
    requires t.pc == Dequeuing && t.session.shutDown && !MessageWaits(t)
    ensures !CanStop(t)
  {
    var states :| DequeueLoop.IsRun(states, steps) && states[0] == l && states[|steps|] == t;
    RunShutsDown(states, steps, t0, |steps|);
    StopsExactly(t);
  }

  /**
    An idle client does not stop: it has connected and bound, the loop has been through the
    throttle handler and the rate limiter and waits at an empty broker, and then the client
    is shut down.  Unless a message or a broker error comes, the loop stays there for ever.
   */
  lemma IdleShutdownStrandsLoop(l: Loop, t0: real) returns (t: Loop)
    requires Begins(l, t0) && l.bucket.sendRate >= 1.0
    requires Throttle.Allowed(l.config, l.window.throttle, l.window.nonThrottle) == Some(true)
    requires var net := l.session.net; net.connect(0) && !net.closing(0) && net.write(0) == Flushed
    ensures Leads(l, CONNECT_AND_BIND + ToTheBroker(t0) + [OtherTask(DoShutdown(true))], t)
    ensures t.pc == Dequeuing && t.session.shutDown && !CanStop(t)
  {
    var connected, bound, down := ConnectBindShutdown(l.session.net);
    LeadsToBound(l, connected, bound);
    var idle := LeadsToTheBroker(l, CONNECT_AND_BIND, l.(session := bound));
    var steps := CONNECT_AND_BIND + ToTheBroker(t0);
    OtherTaskLeadsOn(l, steps, idle, DoShutdown(true), down);
    t := idle.(session := down);
    IdleCannotStop(l, steps + [OtherTask(DoShutdown(true))], t, t0);
  }
}
