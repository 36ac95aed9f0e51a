/**
  Bind first, counting only what reached the transport.  A bind whose `write` itself
  raises leaves the client OPEN on a new connection, and the send_data that had to
  reconnect still writes its own PDU there.  Delivered bind first is therefore false of
  the client; here is exactly when a call, and a whole run, keeps it.
 */
module Delivery {
  import opened Bytes
  import opened Commands
  import opened SessionSpec
  import opened SessionTheorems

  /** Octets of a bind_transceiver were handed over on the connection: the `write` call did not raise. */
  ghost predicate CarriesDelivered(log: seq<Entry>, conn: nat) {
    exists j :: 0 <= j < |log| && IsDelivered(log[j], conn)
  }

  predicate IsDelivered(e: Entry, conn: nat) {
    e.conn == conn && e.pdu.command == BindTransceiver && e.outcome != WriteError
  }

  ghost predicate DeliveredBindFirst(log: seq<Entry>) {
    forall i :: 0 <= i < |log| && !Exempt(log[i].pdu.command) && log[i].outcome != WriteError ==>
      CarriesDelivered(log[..i], log[i].conn)
  }

  /** Connections are numbered in the order they were made. */
  ghost predicate Numbered(s: Session) {
    && (s.writer.Some? ==> s.writer.value < s.connects)
    && forall i :: 0 <= i < |s.log| ==> s.log[i].conn < s.connects
  }

  /** Unlike bind first, this needs no assumption on the network: BOUND_TRX is entered after a flushed bind only. */
  ghost predicate BoundOnDelivered(s: Session) {
    s.state == BoundTrx ==> s.writer.Some? && CarriesDelivered(s.log, s.writer.value)
  }

  ghost predicate Sound(s: Session) {
    Valid(s) && Numbered(s) && BoundOnDelivered(s)
  }

  // ----------------------------------------------------------------- what a reconnection writes

  /** The answer to the i-th connection attempt, and to the i-th is_closing() query, from s on. */
  predicate Accepted(s: Session, i: nat) {
    s.net.connect(s.connects + i)
  }

  predicate Dropped(s: Session, i: nat) {
    s.net.closing(s.polls + i)
  }

  /** Reconnecting from s writes exactly k binds, k > 0, to judge by the network's answers. */
  ghost predicate Rebinds(s: Session, k: nat) {
    && !s.shutDown && k > 0
    && (forall i: nat :: i < k ==> Accepted(s, i))
    && (forall i: nat :: i < k - 1 ==> Dropped(s, i))
    && (!Accepted(s, k) || !Dropped(s, k - 1))
  }

  lemma RebindsOnce(s: Session, j: nat, k: nat)
    requires Rebinds(s, j) && Rebinds(s, k)
    ensures j == k
  {
    RebindsNoLess(s, j, k);
    RebindsNoLess(s, k, j);
  }

  lemma RebindsNoLess(s: Session, j: nat, k: nat)
    requires Rebinds(s, j) && Rebinds(s, k)
    ensures j <= k
  {
  }

  lemma DeliveredGrows(before: seq<Entry>, after: seq<Entry>, conn: nat)
    requires before <= after && CarriesDelivered(before, conn)
    ensures CarriesDelivered(after, conn)
  {
    var j :| 0 <= j < |before| && IsDelivered(before[j], conn);
    assert IsDelivered(after[j], conn);
  }

  lemma WriteKeepsBoundOnDelivered(s: Session, pdu: Pdu)
    requires s.writer.Some? && Numbered(s) && BoundOnDelivered(s)
    ensures Numbered(Write(s, pdu).session) && BoundOnDelivered(Write(s, pdu).session)
  {
    var t := Write(s, pdu).session;
    if s.state == BoundTrx {
      DeliveredGrows(s.log, t.log, s.writer.value);
    } else if t.state == BoundTrx {
      assert IsDelivered(t.log[|s.log|], s.writer.value);
    }
  }

  /** Every bind of a reconnection is on the connection it ends with, a new one, and the network decides each. */
  ghost predicate Rebound(s: Session, t: Session) {
    && s.log <= t.log && t.writer.Some? && t.writer.value >= s.connects
    && Rebinds(s, |t.log| - |s.log|)
    && forall i :: |s.log| <= i < |t.log| ==> t.log[i] == Entry(t.writer.value, BIND, s.net.write(i))
  }

  ghost predicate Reconnects(s: Session) {
    !s.shutDown && s.net.connect(s.connects)
  }

  /** One more round around a reconnection that was itself interrupted. */
  lemma RebindsShift(s: Session, next: Session, k: nat)
    requires Reconnects(s) && s.net.closing(s.polls)
    requires next.net == s.net && !next.shutDown && next.connects == s.connects + 1 && next.polls == s.polls + 1
    requires if Reconnects(next) then Rebinds(next, k) else k == 0
    ensures Rebinds(s, k + 1)
  {
    assert forall i: nat :: 0 < i ==> (Accepted(s, i) <==> Accepted(next, i - 1));
    assert forall i: nat :: 0 < i ==> (Dropped(s, i) <==> Dropped(next, i - 1));
    assert Accepted(s, 0) && Dropped(s, 0);
    assert Accepted(next, k) <==> Accepted(s, k + 1);
    assert Reconnects(next) <==> Accepted(next, 0);
  }

  lemma BindAfterReconnection(s: Session, inner: Session)
    requires s.log <= inner.log && inner.net == s.net && inner.writer.Some? && inner.writer.value >= s.connects
    requires forall i :: |s.log| <= i < |inner.log| ==>
               inner.log[i] == Entry(inner.writer.value, BIND, s.net.write(i))
    requires Rebinds(s, |inner.log| - |s.log| + 1)
    ensures Rebound(s, Write(inner, BIND).session)
  {
  }

  /** The session of a reconnection once it has asked about its new connection. */
  function Renewed(s: Session): Session {
    var renewed := Connect(s.(state := Closed));
    renewed.(polls := s.polls + 1)
  }

  lemma ReEstablishUnfolds(s: Session, fuel: nat)
    requires Reconnects(s) && ReEstablish(s, fuel).Done?
    ensures fuel > 0
    ensures if s.net.closing(s.polls)
            then var inner := ReEstablish(Renewed(s), fuel - 1);
                 inner.Done? && ReEstablish(s, fuel) == Write(inner.session, BIND)
            else ReEstablish(s, fuel) == Write(Renewed(s), BIND)
  {
  }

  /** What reconnecting from s leaves behind. */
  ghost predicate Restored(s: Session, t: Session) {
    && t.net == s.net && Numbered(t) && BoundOnDelivered(t)
    && if Reconnects(s) then Rebound(s, t) else t.log == s.log && t.writer == s.writer
  }

  lemma InterruptedReconnection(s: Session, inner: Session)
    requires Numbered(s) && Reconnects(s) && s.net.closing(s.polls) && Restored(Renewed(s), inner)
    ensures Restored(s, Write(inner, BIND).session)
  {
    RebindsShift(s, Renewed(s), |inner.log| - |s.log|);
    BindAfterReconnection(s, inner);
    WriteKeepsBoundOnDelivered(inner, BIND);
  }

  lemma PlainReconnection(s: Session)
    requires Numbered(s) && Reconnects(s) && !s.net.closing(s.polls)
    ensures Restored(s, Write(Renewed(s), BIND).session)
  {
    assert Accepted(s, 0) && !Dropped(s, 0);
    BindAfterReconnection(s, Renewed(s));
    WriteKeepsBoundOnDelivered(Renewed(s), BIND);
  }

  lemma {:induction false} ReEstablishWrites(s: Session, fuel: nat)
    requires Numbered(s) && ReEstablish(s, fuel).Done?
    ensures Restored(s, ReEstablish(s, fuel).session)
    decreases fuel
  {
    if Reconnects(s) {
      ReEstablishUnfolds(s, fuel);
      if s.net.closing(s.polls) {
        ReEstablishWrites(Renewed(s), fuel - 1);
        InterruptedReconnection(s, ReEstablish(Renewed(s), fuel - 1).session);
      } else {
        PlainReconnection(s);
      }
    }
  }

  // ----------------------------------------------------------------- one call

  /** The outcome of the i-th write call from s on. */
  function WriteAt(s: Session, i: nat): WriteOutcome {
    s.net.write(|s.log| + i)
  }

  /** Sending from s finds the connection closing, reconnects, loses every bind of it, and then hands over the PDU. */
  ghost predicate Breaks(s: Session) {
    && s.net.closing(s.polls)
    && exists k: nat :: Rebinds(s.(polls := s.polls + 1), k) && AllBindsLost(s, k) && WriteAt(s, k) != WriteError
  }

  ghost predicate AllBindsLost(s: Session, k: nat) {
    forall i: nat :: i < k ==> WriteAt(s, i) == WriteError
  }

  lemma ExemptEntriesKeepDelivery(before: seq<Entry>, after: seq<Entry>)
    requires before <= after && forall i :: |before| <= i < |after| ==> Exempt(after[i].pdu.command)
    ensures DeliveredBindFirst(before) <==> DeliveredBindFirst(after)
  {
    assert forall i :: 0 <= i < |before| ==> after[i] == before[i] && after[..i] == before[..i];
  }

  lemma OwnEntryDelivers(log: seq<Entry>, e: Entry)
    requires DeliveredBindFirst(log) && !Exempt(e.pdu.command)
    ensures DeliveredBindFirst(log + [e]) <==> e.outcome == WriteError || CarriesDelivered(log, e.conn)
  {
    var all := log + [e];
    assert forall i :: 0 <= i < |log| ==> all[i] == log[i] && all[..i] == log[..i];
    assert all[..|log|] == log && all[|log|] == e;
  }

  /** The new connection carries only what the reconnection wrote. */
  lemma ReboundDelivers(s: Session, t: Session)
    requires Numbered(s) && Rebound(s, t)
    ensures CarriesDelivered(t.log, t.writer.value) <==> !AllBindsLost(s, |t.log| - |s.log|)
  {
    var k := |t.log| - |s.log|;
    if CarriesDelivered(t.log, t.writer.value) {
      var j :| 0 <= j < |t.log| && IsDelivered(t.log[j], t.writer.value);
      assert j >= |s.log|;
      assert WriteAt(s, j - |s.log|) != WriteError;
    }
    if !AllBindsLost(s, k) {
      var i: nat :| i < k && WriteAt(s, i) != WriteError;
      assert IsDelivered(t.log[|s.log| + i], t.writer.value);
    }
  }

  lemma ReboundBreaks(s: Session, polled: Session, t: Session, pdu: Pdu)
    requires Numbered(s) && DeliveredBindFirst(s.log) && !Exempt(pdu.command)
    requires polled == s.(polls := s.polls + 1) && s.net.closing(s.polls) && Rebound(polled, t) && t.net == s.net
    ensures DeliveredBindFirst(Write(t, pdu).session.log) <==> !Breaks(s)
  {
    var k := |t.log| - |s.log|;
    ExemptEntriesKeepDelivery(s.log, t.log);
    OwnEntryDelivers(t.log, Entry(t.writer.value, pdu, t.net.write(|t.log|)));
    ReboundDelivers(polled, t);
    assert AllBindsLost(polled, k) <==> AllBindsLost(s, k) by {
      assert forall i: nat :: WriteAt(polled, i) == WriteAt(s, i);
    }
    assert WriteAt(s, k) == t.net.write(|t.log|);
    forall j: nat | Rebinds(polled, j)
      ensures j == k
    {
      RebindsOnce(polled, j, k);
    }
  }

  /**
    From BOUND_TRX, a PDU that needs a bind breaks delivered bind first if and only if
    its connection is found closing, the reconnection succeeds, every bind of it raises in
    `write`, and the PDU's own write does not.
   */
  lemma SendBreaks(s: Session, pdu: Pdu, fuel: nat)
    requires Sound(s) && DeliveredBindFirst(s.log) && s.state == BoundTrx && !Exempt(pdu.command)
    requires SendData(s, pdu, fuel).Done?
    ensures DeliveredBindFirst(SendData(s, pdu, fuel).session.log) <==> !Breaks(s)
  {
    var polled := s.(polls := s.polls + 1);
    if s.net.closing(s.polls) {
      ReEstablishWrites(polled, fuel);
      var t := ReEstablish(polled, fuel).session;
      if Reconnects(polled) {
        ReboundBreaks(s, polled, t, pdu);
      } else {
        OwnEntryDelivers(t.log, Entry(t.writer.value, pdu, t.net.write(|t.log|)));
        assert !Accepted(polled, 0) || s.shutDown;
      }
    } else {
      OwnEntryDelivers(s.log, Entry(s.writer.value, pdu, s.net.write(|s.log|)));
    }
  }

  lemma SendKeepsNumbers(s: Session, pdu: Pdu, fuel: nat)
    requires Sound(s) && SendData(s, pdu, fuel).Done?
    ensures var t := SendData(s, pdu, fuel).session; Numbered(t) && BoundOnDelivered(t)
  {
    if s.state == Closed {
      ReEstablishWrites(s, fuel);
    } else if Admissible(s.state, pdu.command) {
      var polled := s.(polls := s.polls + 1);
      if s.net.closing(s.polls) {
        ReEstablishWrites(polled, fuel);
        WriteKeepsBoundOnDelivered(ReEstablish(polled, fuel).session, pdu);
      } else {
        WriteKeepsBoundOnDelivered(polled, pdu);
      }
    }
  }

  lemma SendKeepsSound(s: Session, pdu: Pdu, fuel: nat)
    requires Sound(s) && !SendData(s, pdu, fuel).OutOfFuel?
    ensures SendData(s, pdu, fuel).Done? && Sound(SendData(s, pdu, fuel).session)
  {
    SendDataKeeps(s, pdu, fuel);
    SendKeepsNumbers(s, pdu, fuel);
  }

  lemma ExemptExtension(before: seq<Entry>, after: seq<Entry>, pdu: Pdu, wrote: bool)
    requires Extends(before, after, pdu, wrote) && (wrote ==> Exempt(pdu.command))
    ensures DeliveredBindFirst(before) <==> DeliveredBindFirst(after)
  {
    ExemptEntriesKeepDelivery(before, after);
  }

  /** A call that cannot write a PDU in need of a bind leaves delivery as it was. */
  lemma QuietSendKeepsDelivery(s: Session, pdu: Pdu, fuel: nat)
    requires Sound(s) && (s.state != BoundTrx || Exempt(pdu.command)) && SendData(s, pdu, fuel).Done?
    ensures DeliveredBindFirst(SendData(s, pdu, fuel).session.log) <==> DeliveredBindFirst(s.log)
  {
    SendDataKeeps(s, pdu, fuel);
    ExemptExtension(s.log, SendData(s, pdu, fuel).session.log, pdu, Admissible(s.state, pdu.command));
  }

  /** Sound and, if the log was in order, in order afterwards exactly unless the call breaks it. */
  ghost predicate Delivers(s: Session, t: Session, breaks: bool) {
    Sound(t) && (DeliveredBindFirst(s.log) ==> (DeliveredBindFirst(t.log) <==> !breaks))
  }

  lemma SendDelivers(s: Session, pdu: Pdu, fuel: nat)
    requires Sound(s) && !SendData(s, pdu, fuel).OutOfFuel?
    ensures SendData(s, pdu, fuel).Done?
    ensures Delivers(s, SendData(s, pdu, fuel).session, s.state == BoundTrx && !Exempt(pdu.command) && Breaks(s))
  {
    SendKeepsSound(s, pdu, fuel);
    if s.state == BoundTrx && !Exempt(pdu.command) {
      if DeliveredBindFirst(s.log) {
        SendBreaks(s, pdu, fuel);
      }
    } else {
      QuietSendKeepsDelivery(s, pdu, fuel);
    }
  }

  // ----------------------------------------------------------------- whole runs

  /** The step asks for a PDU that needs a bind, and may reconnect for it. */
  predicate NeedsBind(step: Step) {
    match step
    case DoSend(pdu) => !Exempt(pdu.command)
    case DoReceive(what) => what.UnbindRequested?
    case DoDisconnect(_) => true
    case _ => false
  }

  ghost predicate BreakingStep(s: Session, step: Step) {
    s.state == BoundTrx && NeedsBind(step) && Breaks(s)
  }

  lemma DisconnectDelivers(s: Session, drained: bool, fuel: nat)
    requires Sound(s) && !UnbindAndDisconnect(s, drained, fuel).OutOfFuel?
    ensures Delivers(s, UnbindAndDisconnect(s, drained, fuel).session, s.state == BoundTrx && Breaks(s))
  {
    if s.writer.Some? {
      SendDelivers(s, Pdu(Unbind, Own), fuel);
    }
  }

  lemma StepDelivers(s: Session, step: Step, fuel: nat)
    requires Sound(s) && !Apply(s, step, fuel).OutOfFuel?
    ensures Delivers(s, Apply(s, step, fuel).session, BreakingStep(s, step))
  {
    match step
    case DoConnect =>
    case DoBind => SendDelivers(s, BIND, fuel);
    case DoSend(pdu) => SendDelivers(s, pdu, fuel);
    case DoReceive(what) =>
      if s.state != BoundTrx {
        SendDelivers(s.(state := Closed), BIND, fuel);
      } else if what.UnbindRequested? {
        SendDelivers(s, Pdu(UnbindResp, Own), fuel);
      }
    case DoDisconnect(drained) => DisconnectDelivers(s, drained, fuel);
    case DoShutdown(drained) => DisconnectDelivers(s.(shutDown := true), drained, fuel);
  }

  lemma PrefixDelivers(before: seq<Entry>, after: seq<Entry>)
    requires before <= after && DeliveredBindFirst(after)
    ensures DeliveredBindFirst(before)
  {
    assert forall i :: 0 <= i < |before| ==> after[i] == before[i] && after[..i] == before[..i];
  }

  lemma NextDelivers(s: Session, step: Step, t: Session)
    requires Sound(s) && Next(s, step, t)
    ensures Sound(t)
    ensures DeliveredBindFirst(t.log) <==> DeliveredBindFirst(s.log) && !BreakingStep(s, step)
  {
    var fuel: nat :| Apply(s, step, fuel) == Done(t) || Apply(s, step, fuel) == Raised(t);
    StepDelivers(s, step, fuel);
    StepKeepsValid(s, step, fuel);
    if DeliveredBindFirst(t.log) {
      PrefixDelivers(s.log, t.log);
    }
  }

  /**
    In every run from a fresh client, whatever the network does: BOUND_TRX means that a
    bind was delivered on the current connection, and every PDU delivered on a connection
    follows a bind delivered on it, except exactly when some step so far was a breaking one.
   */
  lemma {:induction false} DeliveredBindFirstExactly(net: Network, states: seq<Session>, steps: seq<Step>, n: nat)
    requires IsRun(states, steps) && states[0] == Initial(net) && n < |states|
    ensures Sound(states[n])
    ensures DeliveredBindFirst(states[n].log) <==> forall i :: 0 <= i < n ==> !BreakingStep(states[i], steps[i])
  {
    if n > 0 {
      DeliveredBindFirstExactly(net, states, steps, n - 1);
      assert Next(states[n - 1], steps[n - 1], states[n]);
      NextDelivers(states[n - 1], steps[n - 1], states[n]);
    }
  }

  /**
    Such a run exists: a client connects and binds, its connection drops, the bind on the
    next one raises in `write`, and a submit_sm is then the first PDU delivered there.
   */
  lemma RaisingBindWriteBreaksDelivery(net: Network)
    requires net.connect(0) && net.connect(1)
    requires !net.closing(0) && net.closing(1) && !net.closing(2)
    requires net.write(0) == Flushed && net.write(1) == WriteError && net.write(2) == Flushed
    ensures var bound := Bind(Connect(Initial(net)), 0).session;
            var sent := SendData(bound, Pdu(SubmitSm, Broker(0, 2)), 1);
            && bound.state == BoundTrx && sent.Done?
            && sent.session.state == Open
            && !DeliveredBindFirst(sent.session.log)
  {
    var start := Connect(Initial(net));
    SendDelivers(start, BIND, 0);
    var bound := Bind(start, 0).session;
    var polled := bound.(polls := 2);
    assert Accepted(polled, 0) && !Dropped(polled, 0);
    assert Rebinds(polled, 1) && AllBindsLost(bound, 1) && WriteAt(bound, 1) == Flushed;
    var renewed := Connect(polled.(state := Closed));
    assert ReEstablish(polled, 1) == SendData(renewed, BIND, 0) == Write(renewed.(polls := 3), BIND);
    SendBreaks(bound, Pdu(SubmitSm, Broker(0, 2)), 1);
  }
}
