/**
  dequeue_messages as one task among others.  The loop gives way to other tasks at
  every await, so it is a transition system: its own steps follow its program counter,
  and between any two of them the rest of the client may send, receive, reconnect,
  shut down, enqueue or be throttled.
 */
module DequeueLoop {
  import opened Bytes
  import opened Commands
  import Correlater
  import Dispatch
  import RateLimiter
  import opened RealArithmetic
  import Sequence
  import SubmitSm
  import Throttle
  import opened SessionSpec
  import opened SessionTheorems

  datatype Pc =
    | Top                     // about to look at SHOULD_SHUT_DOWN
    | AwaitingBind            // sleeping until the session is BOUND_TRX
    | AskingThrottle
    | Limiting
    | Dequeuing
    | Holding(index: nat)     // a message has been taken off the broker
    | Stopped

  /** A put of the correlater for a message that is about to be sent. */
  datatype Filing = Filing(
    index: nat,               // the message, by its place in the broker
    number: int,              // the sequence number it was filed under
    logId: string,
    hookMetadata: string,
    draw: nat,                // how many numbers had been drawn by then, this one included
    writes: nat               // how many write calls had been made before
  )

  /** The sequence generator and the correlater, which the loop shares with the other tasks. */
  datatype Books = Books(
    sequence: Sequence.SequenceNumber,
    drawn: nat,               // how many numbers have been drawn, by all tasks
    ttl: real,
    store: Correlater.Store,
    filings: seq<Filing>      // what the loop itself has filed
  )

  datatype Loop = Loop(
    pc: Pc,
    session: Session,
    books: Books,
    config: Throttle.Config,
    window: Throttle.Window,
    bucket: RateLimiter.Bucket,
    accepted: seq<Dispatch.Queued>,    // every message the broker has ever accepted, in order
    taken: nat,               // how many of them have been dequeued
    admitted: nat,            // calls of limit that returned
    raised: nat,              // calls of limit that raised; the loop goes on all the same
    clock: real
  )

  datatype Step =
    | CheckShutdown
    | CheckBound
    | AskThrottle(now: real)
    | PassLimiter(readings: seq<real>, at: real)
    | TakeMessage(fails: bool)
    | SendMessage(storedAt: real, now: real)
    | OtherTask(step: SessionSpec.Step)
    | OtherUse(draws: nat, store: Correlater.Store)
    | Accept(message: Dispatch.Queued)
    | Respond(throttling: bool)

  function CommandFor(q: Dispatch.Queued): Command {
    match q
    case Submission(_) => SubmitSm
    case DeliverSmReply(_) => DeliverSmResp
    case EnquireLinkReply(_) => EnquireLinkResp
  }

  /** The sequence number of the PDU that is built for a message. */
  function NumberFor(books: Books, q: Dispatch.Queued): int {
    match q
    case Submission(_) => Sequence.Next(books.sequence)
    case DeliverSmReply(sequence) => sequence
    case EnquireLinkReply(sequence) => sequence
  }

  predicate Builds(q: Dispatch.Queued, number: int) {
    match q
    case Submission(m) => SubmitSm.Build(m, number).Ok?
    case _ => Dispatch.BuildReply(q).Ok?
  }

  function PduFor(l: Loop, index: nat): Pdu
    requires index < |l.accepted|
  {
    Pdu(CommandFor(l.accepted[index]), Broker(index, NumberFor(l.books, l.accepted[index])))
  }

  /** Building a PDU: a submit_sm whose body can be built draws a number and is filed under it; nothing else does. */
  function Entered(books: Books, index: nat, q: Dispatch.Queued, writes: nat, storedAt: real, now: real): Books {
    if q.Submission? && SubmitSm.Body(q.message).Ok? then
      var number := Sequence.Next(books.sequence);
      var item := Correlater.Item(q.message.logId, q.message.hookMetadata, storedAt);
      Books(number, books.drawn + 1, books.ttl,
            Correlater.Stored(books.store, books.ttl, Correlater.Number(number), item, now),
            books.filings + [Filing(index, number, item.logId, item.hookMetadata, books.drawn + 1, writes)])
    else books
  }

  /** The rate limiter as the loop has left it. */
  function MomentOf(l: Loop): RateLimiter.Moment {
    RateLimiter.Moment(l.bucket, l.clock, l.admitted)
  }

  /** A step of another task sends nothing on behalf of a broker message. */
  predicate OwnStep(step: SessionSpec.Step) {
    step.DoSend? ==> step.pdu.origin == Own
  }

  /** A call of send_data that returns. */
  ghost predicate Sends(s: Session, pdu: Pdu, t: Session) {
    exists fuel: nat :: SendData(s, pdu, fuel) == Done(t)
  }

  ghost predicate Next(l: Loop, step: Step, t: Loop) {
    match step
    case CheckShutdown =>
      l.pc == Top && t == l.(pc := if l.session.shutDown then Stopped else AwaitingBind)
    case CheckBound =>
      l.pc == AwaitingBind && t == (if l.session.state == BoundTrx then l.(pc := AskingThrottle) else l)
    case AskThrottle(now) =>
      && l.pc == AskingThrottle && l.clock <= now
      && t == l.(pc := if Throttle.Allowed(l.config, l.window.throttle, l.window.nonThrottle) == Some(true)
                       then Limiting else Top,
                 window := Throttle.AfterAsk(l.config, l.window, now),
                 clock := now)
    case PassLimiter(readings, at) =>
      && var call := RateLimiter.Call(readings, at);
      && l.pc == Limiting && RateLimiter.Ends(l.bucket, l.clock, call)
      && var m := RateLimiter.After(MomentOf(l), call);
      && t == l.(pc := Dequeuing, bucket := m.bucket, clock := m.clock, admitted := m.admitted,
                 raised := if RateLimiter.Admits(MomentOf(l), call) then l.raised else l.raised + 1)
    case TakeMessage(fails) =>
      && l.pc == Dequeuing
      && (if fails then t == l.(pc := if l.session.shutDown then Stopped else Top)
          else l.taken < |l.accepted| && t == l.(pc := Holding(l.taken), taken := l.taken + 1))
    case SendMessage(storedAt, now) =>
      && l.pc.Holding? && l.pc.index < |l.accepted| && l.clock <= storedAt <= now
      && var q := l.accepted[l.pc.index];
      && t == l.(pc := Top, session := t.session, clock := now,
                 books := Entered(l.books, l.pc.index, q, |l.session.log|, storedAt, now))
      && if Builds(q, NumberFor(l.books, q)) then Sends(l.session, PduFor(l, l.pc.index), t.session)
         else t.session == l.session
    case OtherTask(other) =>
      OwnStep(other) && SessionSpec.Next(l.session, other, t.session) && t == l.(session := t.session)
    case OtherUse(draws, store) =>
      t == l.(books := l.books.(sequence := Sequence.After(l.books.sequence, draws), drawn := l.books.drawn + draws,
                                store := store))
    case Accept(message) =>
      t == l.(accepted := l.accepted + [message])
    case Respond(throttling) =>
      t == l.(window := Dispatch.Tallied(l.window, throttling))
  }

  ghost predicate IsRun(states: seq<Loop>, steps: seq<Step>) {
    && |states| == |steps| + 1
    && forall i :: 0 <= i < |steps| ==> Next(states[i], steps[i], states[i + 1])
  }

  ghost predicate Begins(l: Loop, t0: real) {
    && l.pc == Top && l.session == Initial(l.session.net)
    && l.bucket == RateLimiter.Initial(l.bucket.sendRate, t0) && l.bucket.sendRate >= 0.0
    && l.books.drawn == 0 && l.books.filings == []
    && l.accepted == [] && l.taken == l.admitted == l.raised == 0 && l.clock == t0
  }

  // ----------------------------------------------------------------- at most once, in order

  /** Broker messages reach the wire in the order of the broker, no message twice, each as the PDU it asks for. */
  ghost predicate InOrder(log: seq<Entry>, accepted: seq<Dispatch.Queued>, below: nat) {
    && (forall a :: 0 <= a < |log| && log[a].pdu.origin.Broker? ==>
          && log[a].pdu.origin.index < below && log[a].pdu.origin.index < |accepted|
          && log[a].pdu.command == CommandFor(accepted[log[a].pdu.origin.index]))
    && (forall a, b :: 0 <= a < b < |log| && log[a].pdu.origin.Broker? && log[b].pdu.origin.Broker? ==>
          log[a].pdu.origin.index < log[b].pdu.origin.index)
  }

  /** Messages below this number may be on the wire already; the one in hand is not. */
  function SentBelow(l: Loop): nat {
    if l.pc.Holding? then l.pc.index else l.taken
  }

  ghost predicate Orderly(l: Loop) {
    && Valid(l.session) && l.taken <= |l.accepted|
    && (l.pc.Holding? ==> l.pc.index + 1 == l.taken)
    && InOrder(l.session.log, l.accepted, SentBelow(l))
  }

  /** New entries that are all the client's own leave the order alone. */
  lemma OwnEntriesKeepOrder(before: seq<Entry>, after: seq<Entry>, accepted: seq<Dispatch.Queued>, below: nat)
    requires InOrder(before, accepted, below) && before <= after
    requires forall i :: |before| <= i < |after| ==> after[i].pdu.origin == Own
    ensures InOrder(after, accepted, below)
  {
    assert forall i :: 0 <= i < |before| ==> after[i] == before[i];
  }

  lemma OtherTaskKeepsOrder(l: Loop, step: SessionSpec.Step, session: Session)
    requires Orderly(l) && OwnStep(step) && SessionSpec.Next(l.session, step, session)
    ensures Orderly(l.(session := session))
    ensures l.session.shutDown ==> session.shutDown
  {
    var fuel: nat :| Apply(l.session, step, fuel) == Done(session) || Apply(l.session, step, fuel) == Raised(session);
    StepKeepsValid(l.session, step, fuel);
    assert AskedFor(step).origin == Own;
    OwnEntriesKeepOrder(l.session.log, session.log, l.accepted, SentBelow(l));
  }

  lemma SentMessageKeepsOrder(before: seq<Entry>, after: seq<Entry>, accepted: seq<Dispatch.Queued>, index: nat,
                              number: int, wrote: bool)
    requires InOrder(before, accepted, index) && index < |accepted|
    requires Extends(before, after, Pdu(CommandFor(accepted[index]), Broker(index, number)), wrote)
    ensures InOrder(after, accepted, index + 1)
  {
    assert forall i :: 0 <= i < |before| ==> after[i] == before[i];
  }

  lemma SendKeepsOrder(l: Loop, session: Session)
    requires Orderly(l) && l.pc.Holding? && l.pc.index < |l.accepted|
    requires Sends(l.session, PduFor(l, l.pc.index), session)
    ensures Orderly(l.(pc := Top, session := session)) && session.shutDown == l.session.shutDown
  {
    var pdu := PduFor(l, l.pc.index);
    var fuel: nat :| SendData(l.session, pdu, fuel) == Done(session);
    SendDataKeeps(l.session, pdu, fuel);
    SentMessageKeepsOrder(l.session.log, session.log, l.accepted, l.pc.index, pdu.origin.number,
                          Admissible(l.session.state, pdu.command));
  }

  lemma NextKeepsOrder(l: Loop, step: Step, t: Loop)
    requires Orderly(l) && Next(l, step, t)
    ensures Orderly(t)
    ensures l.session.shutDown ==> t.session.shutDown
  {
    match step
    case SendMessage(_, _) =>
      if Builds(l.accepted[l.pc.index], NumberFor(l.books, l.accepted[l.pc.index])) {
        SendKeepsOrder(l, t.session);
      }
    case OtherTask(other) => OtherTaskKeepsOrder(l, other, t.session);
    case Accept(message) => assert forall i :: 0 <= i < |l.accepted| ==> t.accepted[i] == l.accepted[i];
    case _ =>
  }

  /**
    At most once and in order: in every run, whatever reconnects, build failures and
    write errors it meets, the broker messages written are a subsequence of the broker's
    order, none of them twice; and the log is bind-first throughout.
   */
  lemma {:induction false} AtMostOnceInOrder(states: seq<Loop>, steps: seq<Step>, t0: real, n: nat)
    requires IsRun(states, steps) && Begins(states[0], t0) && n < |states|
    ensures Orderly(states[n])
    ensures InOrder(states[n].session.log, states[n].accepted, states[n].taken)
    ensures BindFirst(states[n].session.log)
  {
    if n > 0 {
      AtMostOnceInOrder(states, steps, t0, n - 1);
      NextKeepsOrder(states[n - 1], steps[n - 1], states[n]);
    }
  }

  // ----------------------------------------------------------------- shutdown

  /** How many more messages the loop can take once the client is shutting down. */
  function Remaining(pc: Pc): nat {
    match pc
    case AwaitingBind | AskingThrottle | Limiting | Dequeuing => 1
    case _ => 0
  }

  lemma NextSpendsRemaining(l: Loop, step: Step, t: Loop)
    requires Orderly(l) && Next(l, step, t) && l.session.shutDown
    ensures t.taken + Remaining(t.pc) <= l.taken + Remaining(l.pc)
  {
    NextKeepsOrder(l, step, t);
  }

  /** After SHOULD_SHUT_DOWN is set, at most one more message is dequeued: the one the loop was on its way to. */
  lemma {:induction false} ShutdownTakesAtMostOne(states: seq<Loop>, steps: seq<Step>, i: nat, n: nat)
    requires IsRun(states, steps) && i <= n < |states|
    requires Orderly(states[i]) && states[i].session.shutDown
    ensures Orderly(states[n]) && states[n].session.shutDown
    ensures states[n].taken + Remaining(states[n].pc) <= states[i].taken + Remaining(states[i].pc)
    ensures states[n].taken <= states[i].taken + 1
  {
    if i < n {
      ShutdownTakesAtMostOne(states, steps, i, n - 1);
      NextKeepsOrder(states[n - 1], steps[n - 1], states[n]);
      NextSpendsRemaining(states[n - 1], steps[n - 1], states[n]);
    }
  }

  // ----------------------------------------------------------------- rate

  ghost predicate Metered(l: Loop, t0: real) {
    && RateLimiter.Steady(MomentOf(l)) && RateLimiter.Paid(l.bucket, t0, l.admitted)
    && l.taken + (if l.pc == Dequeuing then 1 else 0) <= l.admitted + l.raised
  }

  lemma LimiterKeepsMetered(l: Loop, call: RateLimiter.Call, t0: real)
    requires RateLimiter.Steady(MomentOf(l)) && RateLimiter.Paid(l.bucket, t0, l.admitted)
    requires RateLimiter.Ends(l.bucket, l.clock, call)
    ensures var m := RateLimiter.After(MomentOf(l), call);
            && RateLimiter.Steady(m) && m.bucket.sendRate == l.bucket.sendRate
            && RateLimiter.Paid(m.bucket, t0, m.admitted)
  {
    RateLimiter.SpacedIsOrdered(call.readings, l.clock);
    RateLimiter.PaceIsSound(l.bucket, call.readings, call.at);
    RateLimiter.PaceKeepsPaid(l.bucket, call.readings, t0, l.admitted);
  }

  lemma NextKeepsMetered(l: Loop, step: Step, t: Loop, t0: real)
    requires Metered(l, t0) && Next(l, step, t)
    ensures Metered(t, t0) && t.bucket.sendRate == l.bucket.sendRate
  {
    if step.PassLimiter? {
      LimiterKeepsMetered(l, RateLimiter.Call(step.readings, step.at), t0);
    }
  }

  lemma {:induction false} RunIsMetered(states: seq<Loop>, steps: seq<Step>, t0: real, n: nat)
    requires IsRun(states, steps) && Begins(states[0], t0) && n < |states|
    ensures Metered(states[n], t0) && states[n].bucket.sendRate == states[0].bucket.sendRate
  {
    if n > 0 {
      RunIsMetered(states, steps, t0, n - 1);
      NextKeepsMetered(states[n - 1], steps[n - 1], states[n], t0);
    }
  }

  lemma PaidBoundsAdmitted(b: RateLimiter.Bucket, t0: real, admitted: nat, clock: real)
    requires RateLimiter.Sound(b) && RateLimiter.Paid(b, t0, admitted) && b.updatedAt <= clock
    ensures admitted as real <= b.sendRate * (1.0 + clock - t0)
  {
    var early, late := 1.0 + b.updatedAt - t0, 1.0 + clock - t0;
    assert b.sendRate * (late - early) >= 0.0;
    assert b.sendRate * late == b.sendRate * early + b.sendRate * (late - early);
  }

  /**
    The composed rate bound: by any time t, the messages dequeued since t0 are at most
    send_rate * (1 + t - t0), plus one for every time that limit raised and the loop
    dequeued regardless.
   */
  lemma ComposedRate(states: seq<Loop>, steps: seq<Step>, t0: real, n: nat)
    requires IsRun(states, steps) && Begins(states[0], t0) && n < |states|
    ensures var l := states[n];
            l.taken as real <= states[0].bucket.sendRate * (1.0 + l.clock - t0) + l.raised as real
  {
    RunIsMetered(states, steps, t0, n);
    var l := states[n];
    PaidBoundsAdmitted(l.bucket, t0, l.admitted, l.clock);
    assert l.taken as real <= l.admitted as real + l.raised as real;
  }

  // ----------------------------------------------------------------- rate over any window

  /** Messages dequeued, and the one that the loop is about to dequeue. */
  function Due(l: Loop): nat {
    l.taken + (if l.pc == Dequeuing then 1 else 0)
  }

  /** Since l0, k refill batches have taken k seconds, and every message due was admitted or let through by a raise. */
  ghost predicate Since(l0: Loop, l: Loop, k: nat) {
    && RateLimiter.Window(l0.bucket.sendRate, l0.clock, l0.admitted, MomentOf(l), k)
    && l.raised >= l0.raised && Due(l) - Due(l0) <= l.admitted - l0.admitted + l.raised - l0.raised
  }

  lemma NextKeepsSince(l0: Loop, l: Loop, step: Step, t: Loop, k: nat) returns (k': nat)
    requires Since(l0, l, k) && Next(l, step, t)
    ensures Since(l0, t, k')
  {
    k' := k;
    if step.PassLimiter? {
      var call := RateLimiter.Call(step.readings, step.at);
      RateLimiter.CallKeepsWindow(l0.bucket.sendRate, l0.clock, l0.admitted, MomentOf(l), k, call);
      if RateLimiter.Admits(MomentOf(l), call) && call.readings != [] {
        k' := k + 1;
      }
    }
  }

  lemma {:induction false} RunKeepsSince(states: seq<Loop>, steps: seq<Step>, m: nat, n: nat) returns (k: nat)
    requires IsRun(states, steps) && m <= n < |states| && RateLimiter.Steady(MomentOf(states[m]))
    ensures Since(states[m], states[n], k)
    decreases n
  {
    if m == n {
      k := 0;
      OneBucket(states[m].bucket.sendRate);
    } else {
      k := RunKeepsSince(states, steps, m, n - 1);
      k := NextKeepsSince(states[m], states[n - 1], steps[n - 1], states[n], k);
    }
  }

  lemma OneBucket(rate: real)
    ensures Times(1, rate) == rate
  {
    assert Times(1, rate) == Times(0, rate) + rate;
  }

  lemma SinceBounds(l0: Loop, l: Loop, k: nat)
    requires Since(l0, l, k)
    ensures (Due(l) - Due(l0)) as real
            <= l0.bucket.sendRate * (l.clock - l0.clock + 1.0) + (l.raised - l0.raised) as real
  {
    var admitted, raised := l.admitted - l0.admitted, l.raised - l0.raised;
    RateLimiter.WindowBounds(l0.bucket.sendRate, l0.clock, l0.admitted, MomentOf(l), k, l.clock - l0.clock);
    assert (Due(l) - Due(l0)) as real <= admitted as real + raised as real;
  }

  /**
    The rate bound over any window: between two states of a run, of which the first is L
    seconds before the second, at most send_rate * (L + 1) messages are dequeued, plus one
    for every time that limit raised in between, and the one that the loop was already
    waiting for at the broker.
   */
  lemma WindowRate(states: seq<Loop>, steps: seq<Step>, t0: real, m: nat, n: nat)
    requires IsRun(states, steps) && Begins(states[0], t0) && m <= n < |states|
    ensures var l0, l := states[m], states[n];
            (l.taken - l0.taken) as real
            <= l0.bucket.sendRate * (l.clock - l0.clock + 1.0) + (l.raised - l0.raised) as real
               + (if l0.pc == Dequeuing then 1.0 else 0.0)
  {
    RunIsMetered(states, steps, t0, m);
    var k := RunKeepsSince(states, steps, m, n);
    SinceBounds(states[m], states[n], k);
  }
}
