/**
  The body of dequeue_messages, on the real objects: one pass of its loop, during which
  no other task happens to run, is a path of the transition system in DequeueLoop.
 */
module Worker {
  import opened Bytes
  import Correlation
  import opened DequeueLoop
  import Dispatch
  import opened Pdu
  import RateLimiter
  import Session
  import Spec = SessionSpec
  import SubmitSm
  import Throttle

  /** What the outside world contributes to one pass. */
  datatype Inputs = Inputs(
    now: real,                // allow_request's clock reading
    readings: seq<real>,      // limit's clock readings
    at: real,                 // when limit returns
    brokerFails: bool,        // whether broker.dequeue raises
    storedAt: real,           // the two clock readings of the correlater's put
    filedAt: real
  )

  predicate Timely(inputs: Inputs, clock: real) {
    clock <= inputs.now <= inputs.at <= inputs.storedAt <= inputs.filedAt
  }

  /** Some path of the transition system leads from l to t. */
  ghost predicate Reaches(l: Loop, t: Loop) {
    exists states, steps :: IsRun(states, steps) && states[0] == l && states[|states| - 1] == t
  }

  lemma ReachesItself(l: Loop)
    ensures Reaches(l, l)
  {
    assert IsRun([l], []);
  }

  lemma ReachesNext(l: Loop, m: Loop, step: Step, t: Loop)
    requires Reaches(l, m) && Next(m, step, t)
    ensures Reaches(l, t)
  {
    var states, steps :| IsRun(states, steps) && states[0] == l && states[|states| - 1] == m;
    assert IsRun(states + [t], steps + [step]);
    assert (states + [t])[0] == l && (states + [t])[|states|] == t;
  }

  /** Permission has been asked. */
  function Asked(l: Loop, now: real): Loop {
    l.(clock := now, window := Throttle.AfterAsk(l.config, l.window, now))
  }

  /** limit has been called, and has returned or raised. */
  function Limited(l: Loop, inputs: Inputs): Loop {
    var call := RateLimiter.Call(inputs.readings, inputs.at);
    var m := RateLimiter.After(MomentOf(l), call);
    l.(bucket := m.bucket, clock := m.clock, admitted := m.admitted,
       raised := if RateLimiter.Admits(MomentOf(l), call) then l.raised else l.raised + 1)
  }

  /** The message in hand has been built, filed if it is one to file, and sent if it built. */
  ghost predicate HeldSent(l: Loop, index: nat, storedAt: real, now: real, t: Loop)
    requires index < |l.accepted|
  {
    var q := l.accepted[index];
    && t == l.(session := t.session, clock := now,
               books := Entered(l.books, index, q, |l.session.log|, storedAt, now))
    && if Builds(q, NumberFor(l.books, q)) then Sends(l.session, PduFor(l, index), t.session)
       else t.session == l.session
  }

  /** The next message has been taken off the broker and dealt with. */
  ghost predicate Delivered(l: Loop, inputs: Inputs, t: Loop)
    requires l.taken < |l.accepted|
  {
    HeldSent(l.(pc := Top, taken := l.taken + 1), l.taken, inputs.storedAt, inputs.filedAt, t)
  }

  /** The part of a pass behind the throttle handler's permission. */
  ghost predicate Finished(limited: Loop, inputs: Inputs, t: Loop) {
    if inputs.brokerFails then t == limited.(pc := if limited.session.shutDown then Stopped else Top)
    else if limited.taken >= |limited.accepted| then t == limited.(pc := Dequeuing)
    else Delivered(limited, inputs, t)
  }

  /** What one pass from l leaves, whole. */
  ghost predicate Passed(l: Loop, inputs: Inputs, t: Loop) {
    if l.session.shutDown then t == l.(pc := Stopped)
    else if l.session.state != Spec.BoundTrx then t == l.(pc := AwaitingBind)
    else if Throttle.Allowed(l.config, l.window.throttle, l.window.nonThrottle) != Some(true) then
      t == Asked(l, inputs.now).(pc := Top)
    else Finished(Limited(Asked(l, inputs.now), inputs), inputs, t)
  }

  /** Its main points: where it ends, whether it takes a message, and how often it calls limit. */
  lemma PassedPoints(l: Loop, inputs: Inputs, t: Loop)
    requires Passed(l, inputs, t)
    ensures var allowed := Throttle.Allowed(l.config, l.window.throttle, l.window.nonThrottle) == Some(true);
            var active := !l.session.shutDown && l.session.state == Spec.BoundTrx && allowed;
            var takes := active && !inputs.brokerFails && l.taken < |l.accepted|;
            && (t.pc == Stopped <==> l.session.shutDown)
            && (t.pc == AwaitingBind <==> !l.session.shutDown && l.session.state != Spec.BoundTrx)
            && (t.pc == Dequeuing <==> active && !inputs.brokerFails && l.taken >= |l.accepted|)
            && t.taken == (if takes then l.taken + 1 else l.taken)
            && t.admitted + t.raised == l.admitted + l.raised + (if active then 1 else 0)
            && (!takes ==> t.session == l.session && t.books == l.books)
  {
  }

  // ----------------------------------------------------------------- a pass is a path

  lemma DeliveredReaches(l: Loop, limited: Loop, inputs: Inputs, t: Loop)
    requires Reaches(l, limited.(pc := Dequeuing)) && limited.taken < |limited.accepted|
    requires limited.clock <= inputs.storedAt <= inputs.filedAt && Delivered(limited, inputs, t)
    ensures Reaches(l, t)
  {
    var holding := limited.(pc := Holding(limited.taken), taken := limited.taken + 1);
    ReachesNext(l, limited.(pc := Dequeuing), TakeMessage(false), holding);
    ReachesNext(l, holding, SendMessage(inputs.storedAt, inputs.filedAt), t);
  }

  lemma FinishedReaches(l: Loop, limited: Loop, inputs: Inputs, t: Loop)
    requires Reaches(l, limited.(pc := Dequeuing))
    requires limited.clock <= inputs.storedAt <= inputs.filedAt && Finished(limited, inputs, t)
    ensures Reaches(l, t)
  {
    if inputs.brokerFails {
      ReachesNext(l, limited.(pc := Dequeuing), TakeMessage(true), t);
    } else if limited.taken < |limited.accepted| {
      DeliveredReaches(l, limited, inputs, t);
    }
  }

  lemma AskedReaches(l: Loop, now: real)
    requires l.pc == Top && !l.session.shutDown && l.session.state == Spec.BoundTrx && l.clock <= now
    ensures var allowed := Throttle.Allowed(l.config, l.window.throttle, l.window.nonThrottle) == Some(true);
            Reaches(l, Asked(l, now).(pc := if allowed then Limiting else Top))
  {
    var allowed := Throttle.Allowed(l.config, l.window.throttle, l.window.nonThrottle) == Some(true);
    ReachesItself(l);
    ReachesNext(l, l, CheckShutdown, l.(pc := AwaitingBind));
    ReachesNext(l, l.(pc := AwaitingBind), CheckBound, l.(pc := AskingThrottle));
    ReachesNext(l, l.(pc := AskingThrottle), AskThrottle(now), Asked(l, now).(pc := if allowed then Limiting else Top));
  }

  lemma HaltedReaches(l: Loop)
    requires l.pc == Top
    ensures l.session.shutDown ==> Reaches(l, l.(pc := Stopped))
    ensures !l.session.shutDown ==> Reaches(l, l.(pc := AwaitingBind))
  {
    ReachesItself(l);
    ReachesNext(l, l, CheckShutdown, l.(pc := if l.session.shutDown then Stopped else AwaitingBind));
  }

  /** One pass during which no other task runs is a path of the transition system. */
  lemma PassReaches(l: Loop, inputs: Inputs, t: Loop)
    requires l.pc == Top && Timely(inputs, l.clock) && Passed(l, inputs, t)
    requires RateLimiter.Ends(l.bucket, inputs.now, RateLimiter.Call(inputs.readings, inputs.at))
    ensures Reaches(l, t)
  {
    if l.session.shutDown || l.session.state != Spec.BoundTrx {
      HaltedReaches(l);
    } else {
      AskedReaches(l, inputs.now);
      if Throttle.Allowed(l.config, l.window.throttle, l.window.nonThrottle) == Some(true) {
        var asked := Asked(l, inputs.now);
        var limited := Limited(asked, inputs);
        ReachesNext(l, asked.(pc := Limiting), PassLimiter(inputs.readings, inputs.at), limited.(pc := Dequeuing));
        FinishedReaches(l, limited, inputs, t);
      }
    }
  }

  class Dequeuer {
    const client: Session.Client
    const rateLimiter: RateLimiter.SimpleRateLimiter
    const throttleHandler: Throttle.SimpleThrottleHandler
    const requester: Correlation.Requester
    var accepted: seq<Dispatch.Queued>
    var taken: nat
    var admitted: nat
    var raised: nat
    var clock: real
    ghost var drawn: nat
    ghost var filings: seq<Filing>

    constructor (client: Session.Client, rateLimiter: RateLimiter.SimpleRateLimiter,
                 throttleHandler: Throttle.SimpleThrottleHandler, requester: Correlation.Requester, now: real)
      ensures this.client == client && this.rateLimiter == rateLimiter && this.throttleHandler == throttleHandler
      ensures this.requester == requester
      ensures accepted == [] && taken == admitted == raised == 0 && clock == now
      ensures drawn == 0 && filings == []
    {
      this.client, this.rateLimiter, this.throttleHandler := client, rateLimiter, throttleHandler;
      this.requester := requester;
      accepted, taken, admitted, raised, clock := [], 0, 0, 0, now;
      drawn, filings := 0, [];
    }

    ghost function ViewBooks(): Books
      reads this, requester.sequenceGenerator, requester.correlationHandler
    {
      Books(requester.sequenceGenerator.sequenceNumber, drawn, requester.correlationHandler.maxTtl,
            requester.correlationHandler.store, filings)
    }

    ghost function View(pc: Pc): Loop
      reads this, client, rateLimiter, throttleHandler, requester.sequenceGenerator, requester.correlationHandler
    {
      Loop(pc, client.View(), ViewBooks(), throttleHandler.config, throttleHandler.View(), rateLimiter.View(),
           accepted, taken, admitted, raised, clock)
    }

    /** The send at the end of a pass returns, should there be a message to send. */
    ghost predicate SendReturns(fuel: nat)
      reads this, client, rateLimiter, throttleHandler, requester.sequenceGenerator, requester.correlationHandler
    {
      taken < |accepted| ==> !Spec.SendData(client.View(), PduFor(View(Top), taken), fuel).OutOfFuel?
    }

    /** The call of limit, should there be one, ends after exactly the readings given. */
    ghost predicate LimiterEnds(inputs: Inputs)
      reads rateLimiter
    {
      RateLimiter.Ends(rateLimiter.View(), inputs.now, RateLimiter.Call(inputs.readings, inputs.at))
    }

    method CheckShutdownFlag() returns (pc: Pc)
      ensures pc == if client.shouldShutDown then Stopped else AwaitingBind
    {
      pc := if client.shouldShutDown then Stopped else AwaitingBind;
    }

    method CheckSession() returns (pc: Pc)
      ensures pc == if client.currentSessionState == Spec.BoundTrx then AskingThrottle else AwaitingBind
    {
      pc := if client.currentSessionState == Spec.BoundTrx then AskingThrottle else AwaitingBind;
    }

    method AskThrottleHandler(now: real) returns (pc: Pc)
      modifies this`clock, throttleHandler
      ensures View(Top) == Asked(old(View(Top)), now)
      ensures pc == if Throttle.Allowed(throttleHandler.config, old(throttleHandler.throttleResponses),
                                        old(throttleHandler.nonThrottleResponses)) == Some(true)
                    then Limiting else Top
    {
      var allowed := throttleHandler.AllowRequest(now);
      clock := now;
      pc := if allowed == Some(true) then Limiting else Top;
    }

    /** limit, whose exception the loop swallows. */
    method CallLimiter(inputs: Inputs)
      requires clock == inputs.now && LimiterEnds(inputs)
      modifies this`admitted, this`raised, this`clock, rateLimiter
      ensures View(Top) == Limited(old(View(Top)), inputs)
    {
      var verdict := rateLimiter.Limit(inputs.readings);
      clock := inputs.at;
      if verdict == RateLimiter.Admitted {
        admitted := admitted + 1;
      } else {
        raised := raised + 1;
      }
    }

    /** broker.dequeue: an exception sends the loop back to the top, or ends it. */
    method TakeFromBroker(fails: bool) returns (pc: Pc)
      requires fails || taken < |accepted|
      modifies this`taken
      ensures View(Top) == old(View(Top)).(taken := if fails then old(taken) else old(taken) + 1)
      ensures pc == if !fails then Holding(old(taken)) else if client.shouldShutDown then Stopped else Top
    {
      if fails {
        pc := if client.shouldShutDown then Stopped else Top;
      } else {
        pc := Holding(taken);
        taken := taken + 1;
      }
    }

    /** Build the PDU of a message; only a submit_sm whose body can be built draws a number and is filed. */
    method BuildPdu(index: nat, storedAt: real, now: real) returns (pdu: Result<bytes>, number: int)
      requires index < |accepted|
      modifies this`drawn, this`filings, requester.sequenceGenerator, requester.correlationHandler
      ensures pdu.Ok? <==> Builds(accepted[index], NumberFor(old(ViewBooks()), accepted[index]))
      ensures pdu.Ok? ==> number == NumberFor(old(ViewBooks()), accepted[index])
      ensures pdu.Ok? ==> |pdu.value| >= HEADER_LENGTH && ReadHeader(pdu.value).sequenceNumber == number
      ensures ViewBooks() == Entered(old(ViewBooks()), index, accepted[index], |client.log|, storedAt, now)
    {
      match accepted[index]
      case Submission(m) =>
        pdu := requester.BuildSubmitSm(m, storedAt, now);
        number := requester.sequenceGenerator.sequenceNumber;
        if pdu.Ok? {
          FrameReadsBack(SubmitSm.SUBMIT_SM_ID, 0, number, SubmitSm.Body(m).value);
        }
        if SubmitSm.Body(m).Ok? {
          drawn := drawn + 1;
          filings := filings + [Filing(index, number, m.logId, m.hookMetadata, drawn, |client.log|)];
        }
      case DeliverSmReply(sequence) =>
        pdu, number := Dispatch.BuildReply(accepted[index]), sequence;
        if pdu.Ok? {
          FrameReadsBack(0x80000005, 0, sequence, [0]);
        }
      case EnquireLinkReply(sequence) =>
        pdu, number := Dispatch.BuildReply(accepted[index]), sequence;
        if pdu.Ok? {
          FrameReadsBack(0x80000015, 0, sequence, []);
        }
    }

    /** Build the PDU of the message in hand; send it unless building fails. */
    method SendHeld(index: nat, storedAt: real, now: real, ghost fuel: nat)
      requires index < |accepted| && Spec.Valid(client.View()) && clock <= storedAt <= now
      requires !Spec.SendData(client.View(), PduFor(View(Top), index), fuel).OutOfFuel?
      modifies this`clock, this`drawn, this`filings, client, requester.sequenceGenerator, requester.correlationHandler
      ensures HeldSent(old(View(Top)), index, storedAt, now, View(Top))
    {
      ghost var before := View(Top);
      var pdu, number := BuildPdu(index, storedAt, now);
      clock := now;
      if pdu.Ok? {
        client.SendData(Spec.Pdu(CommandFor(accepted[index]), Spec.Broker(index, number)), fuel);
        assert Spec.SendData(before.session, PduFor(before, index), fuel) == Spec.Done(client.View());
        assert Sends(before.session, PduFor(before, index), client.View());
      }
    }

    /** The second half of a pass: permission has been given. */
    method Deliver(inputs: Inputs, ghost fuel: nat) returns (pc: Pc)
      requires Spec.Valid(client.View()) && clock == inputs.now && Timely(inputs, clock) && SendReturns(fuel)
      requires LimiterEnds(inputs)
      modifies this`clock, this`admitted, this`raised, this`taken, this`drawn, this`filings, client, rateLimiter,
               requester.sequenceGenerator, requester.correlationHandler
      ensures Finished(Limited(old(View(Top)), inputs), inputs, View(pc))
    {
      CallLimiter(inputs);
      pc := Dequeuing;
      if inputs.brokerFails || taken < |accepted| {
        pc := TakeFromBroker(inputs.brokerFails);
        if pc.Holding? {
          SendHeld(pc.index, inputs.storedAt, inputs.filedAt, fuel);
          pc := Top;
        }
      }
    }

    /**
      One pass.  It ends back at the top, stopped, asleep until the session is bound, or
      blocked on an empty broker.
     */
    method Pass(inputs: Inputs, ghost fuel: nat) returns (pc: Pc)
      requires Spec.Valid(client.View()) && Timely(inputs, clock) && SendReturns(fuel)
      requires LimiterEnds(inputs)
      modifies this`clock, this`admitted, this`raised, this`taken, this`drawn, this`filings, client, rateLimiter,
               throttleHandler, requester.sequenceGenerator, requester.correlationHandler
      ensures Passed(old(View(Top)), inputs, View(pc))
    {
      pc := CheckShutdownFlag();
      if pc == AwaitingBind {
        pc := CheckSession();
        if pc == AskingThrottle {
          pc := AskThrottleHandler(inputs.now);
          if pc == Limiting {
            pc := Deliver(inputs, fuel);
          }
        }
      }
    }
  }
}
