/**
  What the operations of the session write and leave behind, command by command: which
  PDUs get onto the wire in which state, when a call tries to reconnect, and what a
  disconnect, a shutdown and a received unbind end with.
 */
module Sending {
  import opened Bytes
  import opened Commands
  import opened SessionSpec
  import opened SessionTheorems

  /** The call wrote this PDU, last, on its final connection, with the outcome the network gave. */
  ghost predicate Wrote(s: Session, t: Session, pdu: Pdu) {
    && |s.log| < |t.log| && t.writer.Some?
    && t.log[|t.log| - 1] == Entry(t.writer.value, pdu, s.net.write(|t.log| - 1))
  }

  lemma WriteWrites(s: Session, pdu: Pdu)
    requires s.writer.Some?
    ensures Write(s, pdu).Done? && Wrote(s, Write(s, pdu).session, pdu)
    ensures var t := Write(s, pdu).session;
            |t.log| == |s.log| + 1 && t.net == s.net && t.connects == s.connects && t.polls == s.polls
  {
  }

  lemma {:induction false} ReEstablishConnects(s: Session, fuel: nat)
    requires ReEstablish(s, fuel).Done?
    ensures var t := ReEstablish(s, fuel).session;
            t.net == s.net && |s.log| <= |t.log| && (s.writer.Some? ==> t.writer.Some?) &&
            (if s.shutDown then t == s.(state := Closed) else t.connects > s.connects)
    decreases fuel
  {
    if !s.shutDown && s.net.connect(s.connects) {
      var renewed := Connect(s.(state := Closed));
      var polled := renewed.(polls := renewed.polls + 1);
      if s.net.closing(s.polls) {
        ReEstablishConnects(polled, fuel - 1);
        WriteWrites(ReEstablish(polled, fuel - 1).session, BIND);
      } else {
        WriteWrites(polled, BIND);
      }
    }
  }

  /**
    Bound, every command is written; open, exactly enquire_link and the three binds are,
    and any other call changes nothing at all; closed, none is.
   */
  lemma WhichPdusAreWritten(s: Session, pdu: Pdu, fuel: nat)
    requires Valid(s) && SendData(s, pdu, fuel).Done?
    ensures var t := SendData(s, pdu, fuel).session;
            && (s.state == BoundTrx ==> Wrote(s, t, pdu))
            && (s.state == Open && pdu.command in {EnquireLink, BindTransmitter, BindReceiver, BindTransceiver} ==>
                  Wrote(s, t, pdu))
            && (s.state == Open && pdu.command !in {EnquireLink, BindTransmitter, BindReceiver, BindTransceiver} ==>
                  t == s)
            && (s.state == Closed ==> forall i :: |s.log| <= i < |t.log| ==> t.log[i].pdu == Pdu(BindTransceiver, Own))
  {
    SendDataKeeps(s, pdu, fuel);
    if s.state != Closed && s.net.closing(s.polls) {
      var polled := s.(polls := s.polls + 1);
      if ReEstablish(polled, fuel).Done? {
        ReEstablishConnects(polled, fuel);
        WriteWrites(ReEstablish(polled, fuel).session, pdu);
      }
    } else if s.state != Closed {
      WriteWrites(s.(polls := s.polls + 1), pdu);
    }
  }

  /**
    When a call tries to reconnect, exactly: never while shutting down; closed, always; and
    otherwise when it has something to write and finds its transport closing.  So an
    enquire_link on an open connection that is gone brings the client back.
   */
  lemma WhenItReconnects(s: Session, pdu: Pdu, fuel: nat)
    requires Valid(s) && SendData(s, pdu, fuel).Done?
    ensures var t := SendData(s, pdu, fuel).session;
            t.connects > s.connects <==>
              && !s.shutDown
              && (s.state == Closed ||
                  (s.net.closing(s.polls) &&
                   (s.state == BoundTrx ||
                    pdu.command in {EnquireLink, BindTransmitter, BindReceiver, BindTransceiver})))
  {
    if s.state == Closed {
      ReEstablishConnects(s, fuel);
    } else if s.net.closing(s.polls) {
      var polled := s.(polls := s.polls + 1);
      if ReEstablish(polled, fuel).Done? {
        ReEstablishConnects(polled, fuel);
        WriteWrites(ReEstablish(polled, fuel).session, pdu);
      }
    } else {
      WriteWrites(s.(polls := s.polls + 1), pdu);
    }
  }

  /**
    A connect writes nothing: accepted, it leaves an open session on a new connection, and
    refused, whatever session there was, a bound one included.
   */
  lemma WhatConnectLeaves(s: Session)
    ensures var t := Connect(s);
            && t.log == s.log && t.polls == s.polls && t.shutDown == s.shutDown && t.connects == s.connects + 1
            && (s.net.connect(s.connects) ==> t.state == Open && t.writer == Some(s.connects))
            && (!s.net.connect(s.connects) ==> t.state == s.state && t.writer == s.writer)
  {
  }

  /**
    A disconnect: an unbind is the last PDU of a bound session, an open one is left without
    a word; once drained, writer and session are gone, and otherwise they stay.
   */
  lemma WhatDisconnectLeaves(s: Session, drained: bool, fuel: nat)
    requires Valid(s) && UnbindAndDisconnect(s, drained, fuel).Done?
    ensures var t := UnbindAndDisconnect(s, drained, fuel).session;
            && (if drained then t.writer == None && t.state == Closed else t.writer.Some?)
            && (s.state == BoundTrx ==> |s.log| < |t.log| && t.log[|t.log| - 1].pdu == Pdu(Unbind, Own))
            && (s.state == Open ==> t.log == s.log)
            && t.shutDown == s.shutDown
  {
    SendDataKeeps(s, Pdu(Unbind, Own), fuel);
    WhichPdusAreWritten(s, Pdu(Unbind, Own), fuel);
  }

  /** A shutdown sets the flag first, so it never reconnects, and then disconnects. */
  lemma WhatShutdownLeaves(s: Session, drained: bool, fuel: nat)
    requires Valid(s)
    ensures !Shutdown(s, drained, fuel).OutOfFuel?
    ensures var t := Shutdown(s, drained, fuel).session;
            && t.shutDown && t.connects == s.connects
            && (s.writer.Some? && drained ==> t.writer == None && t.state == Closed)
            && (s.state == BoundTrx ==>
                  |t.log| == |s.log| + 1 && t.log[|s.log|].pdu == Pdu(Unbind, Own) &&
                  t.log[|s.log|].conn == s.writer.value)
            && (s.state != BoundTrx ==> t.log == s.log)
  {
    var down := s.(shutDown := true);
    assert forall u: Session :: u.shutDown ==> ReEstablish(u, fuel) == Done(u.(state := Closed));
    if down.writer.Some? {
      assert SendData(down, Pdu(Unbind, Own), fuel).Done?;
      WhatDisconnectLeaves(down, drained, fuel);
    }
  }

  /** Receiving: an unbind is answered, nothing else is written while bound; not bound, the loop only reconnects. */
  lemma WhatReceiveLeaves(s: Session, what: Received, fuel: nat)
    requires Valid(s) && Receive(s, what, fuel).Done?
    ensures var t := Receive(s, what, fuel).session;
            && (s.state == BoundTrx && what == UnbindRequested ==> Wrote(s, t, Pdu(UnbindResp, Own)))
            && (s.state == BoundTrx && what != UnbindRequested ==> t == s)
            && (s.state != BoundTrx ==> (t.connects > s.connects <==> !s.shutDown))
  {
    if s.state != BoundTrx {
      ReEstablishConnects(s, fuel);
    } else if what == UnbindRequested {
      WhichPdusAreWritten(s, Pdu(UnbindResp, Own), fuel);
    }
  }
}
