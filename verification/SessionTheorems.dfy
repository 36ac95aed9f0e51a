/**
  Safety of every run of the session state machine, and the exact condition under
  which the send/reconnect recursion ends.
 */
module SessionTheorems {
  import opened Bytes
  import opened Commands
  import opened SessionSpec

  // ----------------------------------------------------------------- whole runs

  /** The PDU, besides binds, that a step may have to write. */
  function AskedFor(step: Step): Pdu {
    match step
    case DoSend(pdu) => pdu
    case DoReceive(_) => Pdu(UnbindResp, Own)
    case DoDisconnect(_) => Pdu(Unbind, Own)
    case DoShutdown(_) => Pdu(Unbind, Own)
    case _ => BIND
  }

  ghost predicate OnlyWrites(before: seq<Entry>, after: seq<Entry>, pdu: Pdu) {
    before <= after && forall i :: |before| <= i < |after| ==> after[i].pdu == BIND || after[i].pdu == pdu
  }

  ghost predicate Keeps(s: Session, t: Session, pdu: Pdu) {
    && Valid(t) && t.net == s.net && (s.shutDown ==> t.shutDown)
    && OnlyWrites(s.log, t.log, pdu) && (s.writer.Some? ==> t.writer.Some?)
  }

  lemma SendKeeps(s: Session, pdu: Pdu, fuel: nat)
    requires Valid(s) && !SendData(s, pdu, fuel).OutOfFuel?
    ensures SendData(s, pdu, fuel).Done? && Keeps(s, SendData(s, pdu, fuel).session, pdu)
  {
    SendDataKeeps(s, pdu, fuel);
  }

  /**
    Every step of every task keeps the invariant, only appends to the log, writes only
    binds and its own PDU, and never clears the shutdown flag.  No step dereferences a
    missing writer, except a disconnect or a shutdown requested while there is none:
    that one raises.
   */
  lemma StepKeepsValid(s: Session, step: Step, fuel: nat)
    requires Valid(s) && !Apply(s, step, fuel).OutOfFuel?
    ensures var t := Apply(s, step, fuel).session;
            && Valid(t) && t.net == s.net && (s.shutDown ==> t.shutDown)
            && OnlyWrites(s.log, t.log, AskedFor(step))
    ensures Apply(s, step, fuel).Raised? <==> (step.DoDisconnect? || step.DoShutdown?) && s.writer.None?
  {
    match step
    case DoConnect =>
    case DoBind => SendKeeps(s, BIND, fuel);
    case DoSend(pdu) => SendKeeps(s, pdu, fuel);
    case DoReceive(what) =>
      if s.state != BoundTrx {
        ReEstablishKeeps(s, fuel);
      } else if what.UnbindRequested? {
        SendKeeps(s, Pdu(UnbindResp, Own), fuel);
      }
    case DoDisconnect(_) => DisconnectKeeps(s, step.drained, fuel);
    case DoShutdown(_) => DisconnectKeeps(s.(shutDown := true), step.drained, fuel);
  }

  lemma DisconnectKeeps(s: Session, drained: bool, fuel: nat)
    requires Valid(s) && !UnbindAndDisconnect(s, drained, fuel).OutOfFuel?
    ensures var t := UnbindAndDisconnect(s, drained, fuel).session;
            && Valid(t) && t.net == s.net && (s.shutDown ==> t.shutDown)
            && OnlyWrites(s.log, t.log, Pdu(Unbind, Own))
    ensures UnbindAndDisconnect(s, drained, fuel).Raised? <==> s.writer.None?
  {
    if s.writer.Some? {
      SendKeeps(s, Pdu(Unbind, Own), fuel);
    }
  }

  lemma NextKeepsValid(s: Session, step: Step, t: Session)
    requires Valid(s) && Next(s, step, t)
    ensures Valid(t)
  {
    var fuel: nat :| Apply(s, step, fuel) == Done(t) || Apply(s, step, fuel) == Raised(t);
    StepKeepsValid(s, step, fuel);
  }

  /**
    Bind first: in every run from a fresh client, for every behaviour of the
    network, nothing but binds and enquire_links is written on a connection before a
    bind_transceiver is written on that connection; and whenever the client believes
    it is bound, its current writer carries a bind.
   */
  lemma {:induction false} BindFirstAlways(net: Network, states: seq<Session>, steps: seq<Step>, i: nat)
    requires IsRun(states, steps) && states[0] == Initial(net) && i < |states|
    ensures BindFirst(states[i].log)
    ensures states[i].state == BoundTrx ==> WriterBound(states[i])
    ensures Valid(states[i])
  {
    if i > 0 {
      BindFirstAlways(net, states, steps, i - 1);
      assert Next(states[i - 1], steps[i - 1], states[i]);
      NextKeepsValid(states[i - 1], steps[i - 1], states[i]);
    }
  }

  /** receive_data's BOUND_TRX guard is needed: a bind response accepted on an unbound connection breaks bind first. */
  lemma UnguardedBindResponseBreaksValid(net: Network)
    requires net.connect(0) && !net.closing(0)
    ensures var promoted := Connect(Initial(net)).(state := BoundTrx);
            && Valid(Connect(Initial(net)))
            && SendData(promoted, Pdu(SubmitSm, Own), 0).Done?
            && !BindFirst(SendData(promoted, Pdu(SubmitSm, Own), 0).session.log)
  {
    var promoted := Connect(Initial(net)).(state := BoundTrx);
    var log := SendData(promoted, Pdu(SubmitSm, Own), 0).session.log;
    assert |log| == 1 && log[0].pdu.command == SubmitSm && log[..0] == [];
    assert !CarriesBind(log[..0], log[0].conn);
  }

  // ----------------------------------------------------------------- the SMSC's consent

  /** The same step, had the SMSC's acceptance of a bind been any PDU that does not concern the session. */
  function Unheard(step: Step): Step {
    if step == DoReceive(BindAccepted) then DoReceive(Unrelated) else step
  }

  lemma UnheardSame(s: Session, step: Step, t: Session)
    ensures Next(s, step, t) <==> Next(s, Unheard(step), t)
  {
    assert forall fuel: nat :: Apply(s, step, fuel) == Apply(s, Unheard(step), fuel);
  }

  /**
    The SMSC's consent plays no part: with every acceptance replaced by a refusal, the same
    sequences of sessions, states and write logs alike, are the runs of the client.
   */
  lemma ConsentPlaysNoPart(states: seq<Session>, steps: seq<Step>)
    ensures IsRun(states, steps) <==> IsRun(states, seq(|steps|, i requires 0 <= i < |steps| => Unheard(steps[i])))
  {
    forall i | 0 <= i < |steps| && |states| == |steps| + 1
      ensures Next(states[i], steps[i], states[i + 1]) <==> Next(states[i], Unheard(steps[i]), states[i + 1])
    {
      UnheardSame(states[i], steps[i], states[i + 1]);
    }
  }

  /** While BOUND_TRX, receiving the acceptance can also be struck out of the run. */
  lemma ConsentCanBeRemoved(states: seq<Session>, steps: seq<Step>, k: nat)
    requires IsRun(states, steps) && k < |steps| && steps[k] == DoReceive(BindAccepted)
    requires states[k].state == BoundTrx
    ensures states[k + 1] == states[k]
    ensures IsRun(states[..k + 1] + states[k + 2..], steps[..k] + steps[k + 1..])
  {
    assert Next(states[k], steps[k], states[k + 1]);
    var fewer, rest := states[..k + 1] + states[k + 2..], steps[..k] + steps[k + 1..];
    forall i | 0 <= i < |rest|
      ensures Next(fewer[i], rest[i], fewer[i + 1])
    {
      var j := if i < k then i else i + 1;
      assert Next(states[j], steps[j], states[j + 1]);
      assert fewer[i] == states[j] && rest[i] == steps[j] && fewer[i + 1] == states[j + 1];
    }
  }

  /** A bind_transceiver has been written and drained since. */
  ghost predicate BindFlushed(before: seq<Entry>, after: seq<Entry>) {
    exists i :: |before| <= i < |after| && IsFlushedBind(after[i])
  }

  predicate IsFlushedBind(e: Entry) {
    e.pdu.command == BindTransceiver && e.outcome == Flushed
  }

  lemma WriteEntersBound(before: seq<Entry>, s: Session, pdu: Pdu)
    requires before <= s.log && s.writer.Some? && (s.state == BoundTrx <==> BindFlushed(before, s.log))
    ensures var t := Write(s, pdu).session;
            before <= t.log && (t.state == BoundTrx <==> BindFlushed(before, t.log))
  {
    var t := Write(s, pdu).session;
    if BindFlushed(before, s.log) {
      var i :| |before| <= i < |s.log| && IsFlushedBind(s.log[i]);
      assert IsFlushedBind(t.log[i]);
    }
    assert forall i :: |before| <= i < |s.log| ==> t.log[i] == s.log[i];
    assert t.log[|s.log|].pdu == pdu;
  }

  lemma {:induction false} ReEstablishEntersBound(s: Session, fuel: nat)
    requires ReEstablish(s, fuel).Done?
    ensures var t := ReEstablish(s, fuel).session;
            s.log <= t.log && (t.state == BoundTrx <==> BindFlushed(s.log, t.log))
    decreases fuel, 0
  {
    if !s.shutDown && s.net.connect(s.connects) {
      SendEntersBound(Connect(s.(state := Closed)), BIND, fuel - 1);
    }
  }

  lemma {:induction false} SendEntersBound(s: Session, pdu: Pdu, fuel: nat)
    requires s.state != BoundTrx && SendData(s, pdu, fuel).Done?
    ensures var t := SendData(s, pdu, fuel).session;
            s.log <= t.log && (t.state == BoundTrx <==> BindFlushed(s.log, t.log))
    decreases fuel, 1
  {
    if s.state == Closed {
      ReEstablishEntersBound(s, fuel);
    } else if Admissible(s.state, pdu.command) {
      var polled := if s.writer.Some? then s.(polls := s.polls + 1) else s;
      if s.writer.None? || s.net.closing(s.polls) {
        ReEstablishEntersBound(polled, fuel);
        WriteEntersBound(s.log, ReEstablish(polled, fuel).session, pdu);
      } else {
        WriteEntersBound(s.log, polled, pdu);
      }
    }
  }

  /** The step ends by giving up its connection. */
  predicate GivesUp(step: Step) {
    (step.DoDisconnect? || step.DoShutdown?) && step.drained
  }

  lemma DisconnectEntersBound(s: Session, drained: bool, fuel: nat)
    requires s.state != BoundTrx && SendData(s, Pdu(Unbind, Own), fuel).Done? && s.writer.Some?
    ensures var t := UnbindAndDisconnect(s, drained, fuel).session;
            t.state == BoundTrx <==> !drained && BindFlushed(s.log, t.log)
  {
    SendEntersBound(s, Pdu(Unbind, Own), fuel);
  }

  lemma StepEntersBound(s: Session, step: Step, fuel: nat)
    requires s.state != BoundTrx && Apply(s, step, fuel).Done?
    ensures var t := Apply(s, step, fuel).session;
            t.state == BoundTrx <==> !GivesUp(step) && BindFlushed(s.log, t.log)
  {
    match step
    case DoConnect =>
    case DoBind => SendEntersBound(s, BIND, fuel);
    case DoSend(pdu) => SendEntersBound(s, pdu, fuel);
    case DoReceive(_) => ReEstablishEntersBound(s, fuel);
    case DoDisconnect(drained) => DisconnectEntersBound(s, drained, fuel);
    case DoShutdown(drained) => DisconnectEntersBound(s.(shutDown := true), drained, fuel);
  }

  /**
    What takes a session to BOUND_TRX, exactly: a step that had a bind_transceiver written
    and drained, and did not then close the connection.
   */
  lemma BoundByFlushedBind(s: Session, step: Step, t: Session)
    requires Valid(s) && s.state != BoundTrx && Next(s, step, t)
    ensures t.state == BoundTrx <==> !GivesUp(step) && BindFlushed(s.log, t.log)
  {
    var fuel: nat :| Apply(s, step, fuel) == Done(t) || Apply(s, step, fuel) == Raised(t);
    StepKeepsValid(s, step, fuel);
    if Apply(s, step, fuel).Done? {
      StepEntersBound(s, step, fuel);
    }
  }

  // ----------------------------------------------------------------- after shutdown

  /** Shutting down, and the connection has been given up. */
  predicate Silenced(s: Session) {
    s.shutDown && s.state == Closed
  }

  /** From then on only a fresh connect could bring the session back. */
  lemma StepStaysSilenced(s: Session, step: Step, t: Session)
    requires Silenced(s) && step != DoConnect && Next(s, step, t)
    ensures Silenced(t) && t.log == s.log
  {
    var fuel: nat :| Apply(s, step, fuel) == Done(t) || Apply(s, step, fuel) == Raised(t);
    assert ReEstablish(s, fuel) == Done(s);
    match step
    case DoSend(pdu) => assert SendData(s, pdu, fuel) == Done(s);
    case DoShutdown(_) => assert s.(shutDown := true) == s;
    case _ =>
  }

  /** Silence is for good: once shutting down and CLOSED, no task ever writes another PDU, unless connect is called. */
  lemma {:induction false} SilenceLasts(states: seq<Session>, steps: seq<Step>, i: nat, n: nat)
    requires IsRun(states, steps) && i <= n < |states| && Silenced(states[i])
    requires forall k :: i <= k < n ==> steps[k] != DoConnect
    ensures Silenced(states[n]) && states[n].log == states[i].log
  {
    if i < n {
      SilenceLasts(states, steps, i, n - 1);
      assert Next(states[n - 1], steps[n - 1], states[n]);
      StepStaysSilenced(states[n - 1], steps[n - 1], states[n]);
    }
  }

  // ----------------------------------------------------------------- termination

  /** From here on, some reconnection is refused or yields a connection that is not already closing. */
  ghost predicate Settles(s: Session) {
    exists i: nat :: Stops(s, i)
  }

  predicate Stops(s: Session, i: nat) {
    !s.net.connect(s.connects + i) || !s.net.closing(s.polls + i)
  }

  /** Exactly which recursion depths are too small. */
  lemma {:induction false} FuelNeeded(s: Session, fuel: nat)
    ensures ReEstablish(s, fuel).OutOfFuel? <==>
              && !s.shutDown
              && (forall i: nat :: i < fuel ==> !Stops(s, i))
              && s.net.connect(s.connects + fuel)
    decreases fuel
  {
    var t := Connect(s.(state := Closed));
    if !s.shutDown && t.state == Open && fuel > 0 {
      if s.net.closing(s.polls) {
        var next := t.(polls := t.polls + 1);
        FuelNeeded(next, fuel - 1);
        assert forall i: nat :: Stops(next, i) <==> Stops(s, i + 1);
        assert forall i: nat :: 0 < i ==> (Stops(s, i) <==> Stops(next, i - 1));
        assert SendData(t, BIND, fuel - 1).OutOfFuel? <==> ReEstablish(next, fuel - 1).OutOfFuel?;
        assert !Stops(s, 0);
      } else {
        assert Stops(s, 0);
      }
    } else if !s.shutDown && t.state != Open {
      assert Stops(s, 0);
    }
  }

  ghost predicate ReEstablishReturns(s: Session) {
    exists fuel: nat :: !ReEstablish(s, fuel).OutOfFuel?
  }

  ghost predicate SendDataReturns(s: Session, pdu: Pdu) {
    exists fuel: nat :: !SendData(s, pdu, fuel).OutOfFuel?
  }

  /**
    re_establish_conn_bind returns if and only if the client is shutting down or the
    network settles; otherwise it connects and reconnects for ever.
   */
  lemma Termination(s: Session)
    ensures ReEstablishReturns(s) <==> s.shutDown || Settles(s)
  {
    if ReEstablishReturns(s) && !s.shutDown {
      var fuel: nat :| !ReEstablish(s, fuel).OutOfFuel?;
      FuelNeeded(s, fuel);
      assert Stops(s, fuel) || exists i: nat :: i < fuel && Stops(s, i);
    }
    if s.shutDown {
      FuelNeeded(s, 0);
    } else if Settles(s) {
      var i: nat :| Stops(s, i);
      FuelNeeded(s, i + 1);
      assert !ReEstablish(s, i + 1).OutOfFuel?;
    }
  }

  lemma SameDepth(s: Session, next: Session, pdu: Pdu, fuel: nat)
    requires Valid(s)
    requires if s.state == Closed then next == s
             else next == s.(polls := s.polls + 1) && Admissible(s.state, pdu.command) && s.net.closing(s.polls)
    ensures SendData(s, pdu, fuel).OutOfFuel? <==> ReEstablish(next, fuel).OutOfFuel?
  {
  }

  lemma SendDataReturnsWith(s: Session, next: Session, pdu: Pdu)
    requires Valid(s)
    requires if s.state == Closed then next == s
             else next == s.(polls := s.polls + 1) && Admissible(s.state, pdu.command) && s.net.closing(s.polls)
    ensures SendDataReturns(s, pdu) <==> ReEstablishReturns(next)
  {
    if SendDataReturns(s, pdu) {
      var fuel: nat :| !SendData(s, pdu, fuel).OutOfFuel?;
      SameDepth(s, next, pdu, fuel);
    }
    if ReEstablishReturns(next) {
      var fuel: nat :| !ReEstablish(next, fuel).OutOfFuel?;
      SameDepth(s, next, pdu, fuel);
    }
  }

  /** The same for send_data: it may recurse only when CLOSED, or when its writer is closing. */
  lemma SendDataTermination(s: Session, pdu: Pdu)
    requires Valid(s)
    ensures SendDataReturns(s, pdu) <==>
              || s.shutDown
              || (if s.state == Closed then Settles(s)
                  else !Admissible(s.state, pdu.command) || !s.net.closing(s.polls) ||
                       Settles(s.(polls := s.polls + 1)))
  {
    if s.state == Closed {
      SendDataReturnsWith(s, s, pdu);
      Termination(s);
    } else if Admissible(s.state, pdu.command) && s.net.closing(s.polls) {
      SendDataReturnsWith(s, s.(polls := s.polls + 1), pdu);
      Termination(s.(polls := s.polls + 1));
    } else {
      assert !SendData(s, pdu, 0).OutOfFuel?;
    }
  }

  /** The depth does not matter once it is enough: a call has one outcome. */
  lemma {:induction false} FuelIrrelevant(s: Session, pdu: Pdu, fuel: nat, more: nat)
    requires fuel <= more && !SendData(s, pdu, fuel).OutOfFuel?
    ensures SendData(s, pdu, more) == SendData(s, pdu, fuel)
    decreases fuel, 1
  {
    if s.state == Closed {
      ReEstablishFuelIrrelevant(s, fuel, more);
    } else if Admissible(s.state, pdu.command) && (s.writer.None? || s.net.closing(s.polls)) {
      ReEstablishFuelIrrelevant(if s.writer.Some? then s.(polls := s.polls + 1) else s, fuel, more);
    }
  }

  lemma {:induction false} ReEstablishFuelIrrelevant(s: Session, fuel: nat, more: nat)
    requires fuel <= more && !ReEstablish(s, fuel).OutOfFuel?
    ensures ReEstablish(s, more) == ReEstablish(s, fuel)
    decreases fuel, 0
  {
    var t := Connect(s.(state := Closed));
    if !s.shutDown && t.state == Open {
      FuelIrrelevant(t, BIND, fuel - 1, more - 1);
    }
  }
}
