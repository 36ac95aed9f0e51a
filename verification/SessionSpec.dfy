/**
  The SMPP session as a state machine over values (sections 2.2 and 2.3 of SMPP
  v3.4): what each operation of the client does to the session state, to the
  writer and to the log of write calls, for any behaviour of the network.

  The network is an oracle.  `connect(n)` says whether the n-th connection
  attempt succeeds, `closing(n)` answers the n-th `transport.is_closing()` query,
  and `write(n)` is the outcome of the n-th `writer.write(..); drain()` pair.

  `send_data` and `re_establish_conn_bind` call each other without a bound of
  their own, so their meaning is given up to a recursion depth: `OutOfFuel` is
  the answer while the recursion is deeper than that, and `Termination` below
  says exactly when some depth is enough.
 */
module SessionSpec {
  import opened Bytes
  import opened Commands

  datatype SessionState = Open | BoundTrx | Closed

  /** WriteError: `write` raised, nothing was buffered.  DrainError: it was buffered, `drain` raised. */
  datatype WriteOutcome = Flushed | DrainError | WriteError

  datatype Network = Network(connect: nat -> bool, closing: nat -> bool, write: nat -> WriteOutcome)

  /** Who asked for a PDU: the client itself, or a message of the broker, built with this sequence number. */
  datatype Origin = Own | Broker(index: nat, number: int)

  datatype Pdu = Pdu(command: Command, origin: Origin)

  /** One call of `writer.write`, on connection `conn`. */
  datatype Entry = Entry(conn: nat, pdu: Pdu, outcome: WriteOutcome)

  datatype Session = Session(
    net: Network,
    state: SessionState,
    writer: Option<nat>,      // the connection behind self.writer
    shutDown: bool,           // SHOULD_SHUT_DOWN
    connects: nat,            // connection attempts so far; also the next connection's number
    polls: nat,               // is_closing() queries so far
    log: seq<Entry>           // every write call so far, oldest first
  )

  /** Done: returned to the caller.  Raised: an exception nobody catches left the operation. */
  datatype Outcome = OutOfFuel | Raised(session: Session) | Done(session: Session)

  const BIND := Pdu(BindTransceiver, Own)

  function Initial(net: Network): Session {
    Session(net, Closed, None, false, 0, 0, [])
  }

  /** connect: a failure is logged and swallowed. */
  function Connect(s: Session): Session {
    if s.net.connect(s.connects) then
      s.(writer := Some(s.connects), connects := s.connects + 1, state := Open)
    else
      s.(connects := s.connects + 1)
  }

  /** The commands that pass send_data's session-state check. */
  predicate Admissible(state: SessionState, c: Command) {
    match state
    case Closed => false
    case Open => c in {EnquireLink, BindTransmitter, BindReceiver, BindTransceiver}
    case BoundTrx => true
  }

  /** The tail of send_data: write, drain, and the early move to BOUND_TRX. */
  function Write(s: Session, pdu: Pdu): Outcome {
    if s.writer.None? then
      Raised(s)  // AttributeError on None: not among the exceptions caught
    else
      var outcome := s.net.write(|s.log|);
      Done(s.(log := s.log + [Entry(s.writer.value, pdu, outcome)],
              state := if pdu.command == BindTransceiver && outcome == Flushed then BoundTrx else s.state))
  }

  function SendData(s: Session, pdu: Pdu, fuel: nat): Outcome
    decreases fuel, 1
  {
    if s.state == Closed then
      ReEstablish(s, fuel)
    else if !Admissible(s.state, pdu.command) then
      Done(s)
    else
      var polled := if s.writer.Some? then s.(polls := s.polls + 1) else s;
      if s.writer.None? || s.net.closing(s.polls) then
        match ReEstablish(polled, fuel)
        case Done(t) => Write(t, pdu)
        case other => other
      else
        Write(polled, pdu)
  }

  /** re_establish_conn_bind, with tranceiver_bind's one call of send_data inlined. */
  function ReEstablish(s: Session, fuel: nat): Outcome
    decreases fuel, 0
  {
    var closed := s.(state := Closed);
    if s.shutDown then
      Done(closed)
    else
      var t := Connect(closed);
      if t.state != Open then Done(t)
      else if fuel == 0 then OutOfFuel
      else SendData(t, BIND, fuel - 1)
  }

  /** tranceiver_bind */
  function Bind(s: Session, fuel: nat): Outcome {
    SendData(s, BIND, fuel)
  }

  /**
    _unbind_and_disconnect: unbind, drain, close.  The first line dereferences the
    writer, so a missing writer raises.  A failed drain is swallowed and leaves the
    writer and the state as unbind left them.
   */
  function UnbindAndDisconnect(s: Session, drained: bool, fuel: nat): Outcome {
    if s.writer.None? then
      Raised(s)
    else
      match SendData(s, Pdu(Unbind, Own), fuel)
      case Done(t) => Done(if drained then t.(writer := None, state := Closed) else t)
      case other => other
  }

  function Shutdown(s: Session, drained: bool, fuel: nat): Outcome {
    UnbindAndDisconnect(s.(shutDown := true), drained, fuel)
  }

  /** What command_handlers asks of the session for a PDU that was received. */
  datatype Received = BindAccepted | UnbindRequested | Unrelated

  /** receive_data reads only while BOUND_TRX; otherwise it re-establishes the connection. */
  function Receive(s: Session, what: Received, fuel: nat): Outcome {
    if s.state != BoundTrx then
      ReEstablish(s, fuel)
    else
      match what
      case BindAccepted => Done(s.(state := BoundTrx))
      case UnbindRequested => SendData(s, Pdu(UnbindResp, Own), fuel)
      case Unrelated => Done(s)
  }

  /** One run-to-completion step of any of the client's tasks. */
  datatype Step =
    | DoConnect
    | DoBind
    | DoSend(pdu: Pdu)
    | DoReceive(what: Received)
    | DoDisconnect(drained: bool)
    | DoShutdown(drained: bool)

  function Apply(s: Session, step: Step, fuel: nat): Outcome {
    match step
    case DoConnect => Done(Connect(s))
    case DoBind => Bind(s, fuel)
    case DoSend(pdu) => SendData(s, pdu, fuel)
    case DoReceive(what) => Receive(s, what, fuel)
    case DoDisconnect(drained) => UnbindAndDisconnect(s, drained, fuel)
    case DoShutdown(drained) => Shutdown(s, drained, fuel)
  }

  /** A step that returned, or raised to its own task: either way the session goes on. */
  ghost predicate Next(s: Session, step: Step, t: Session) {
    exists fuel: nat :: Apply(s, step, fuel) == Done(t) || Apply(s, step, fuel) == Raised(t)
  }

  ghost predicate IsRun(states: seq<Session>, steps: seq<Step>) {
    && |states| == |steps| + 1
    && forall i :: 0 <= i < |steps| ==> Next(states[i], steps[i], states[i + 1])
  }

  // ----------------------------------------------------------------- bind first

  predicate Exempt(c: Command) {
    c in {EnquireLink, BindTransmitter, BindReceiver, BindTransceiver}
  }

  /** A bind_transceiver has been written on the connection. */
  ghost predicate CarriesBind(log: seq<Entry>, conn: nat) {
    exists j :: 0 <= j < |log| && log[j].conn == conn && log[j].pdu.command == BindTransceiver
  }

  /** Anything but a bind or an enquire_link follows a bind_transceiver on its own connection. */
  ghost predicate BindFirst(log: seq<Entry>) {
    forall i :: 0 <= i < |log| ==> Exempt(log[i].pdu.command) || CarriesBind(log[..i], log[i].conn)
  }

  ghost predicate WriterBound(s: Session) {
    s.writer.Some? && CarriesBind(s.log, s.writer.value)
  }

  ghost predicate Valid(s: Session) {
    && (s.state != Closed ==> s.writer.Some?)
    && (s.state == BoundTrx ==> WriterBound(s))
    && BindFirst(s.log)
  }

  /** The new log entries of a call that was asked to write pdu: binds, then at most pdu itself, last. */
  ghost predicate Extends(before: seq<Entry>, after: seq<Entry>, pdu: Pdu, wrote: bool) {
    && before <= after
    && (wrote ==> |before| < |after| && after[|after| - 1].pdu == pdu)
    && forall i :: |before| <= i < |after| - (if wrote then 1 else 0) ==> after[i].pdu == BIND
  }

  lemma CarriesBindGrows(before: seq<Entry>, after: seq<Entry>, conn: nat)
    requires before <= after && CarriesBind(before, conn)
    ensures CarriesBind(after, conn)
  {
    var j :| 0 <= j < |before| && before[j].conn == conn && before[j].pdu.command == BindTransceiver;
    assert after[j] == before[j];
  }

  lemma WriteKeepsValid(s: Session, pdu: Pdu)
    requires s.writer.Some? && BindFirst(s.log)
    requires s.state == BoundTrx ==> WriterBound(s)
    requires Exempt(pdu.command) || WriterBound(s)
    ensures Write(s, pdu).Done?
    ensures var t := Write(s, pdu).session;
            && Valid(t) && t.writer == s.writer && Extends(s.log, t.log, pdu, true)
            && (pdu.command == BindTransceiver || WriterBound(s) ==> WriterBound(t))
  {
    var t := Write(s, pdu).session;
    var n := |s.log|;
    assert forall i :: 0 <= i < n ==> t.log[..i] == s.log[..i];
    assert t.log[..n] == s.log;
    if pdu.command == BindTransceiver {
      assert t.log[n].conn == s.writer.value && t.log[n].pdu.command == BindTransceiver;
    }
    if WriterBound(s) {
      CarriesBindGrows(s.log, t.log, s.writer.value);
    }
  }

  /**
    What every call of send_data keeps, for any depth of reconnection: the session
    invariant, the order of the log, and who wrote what.  The PDU is written exactly
    when the state admits it on entry, once and last; everything else written is a bind.
   */
  lemma {:induction false} SendDataKeeps(s: Session, pdu: Pdu, fuel: nat)
    requires Valid(s) && !SendData(s, pdu, fuel).OutOfFuel?
    ensures SendData(s, pdu, fuel).Done?
    ensures var t := SendData(s, pdu, fuel).session;
            && Valid(t) && t.shutDown == s.shutDown && t.net == s.net
            && Extends(s.log, t.log, pdu, Admissible(s.state, pdu.command))
            && (s.writer.Some? ==> t.writer.Some?)
            && (WriterBound(s) || (s.state != Closed && pdu.command == BindTransceiver) ==> WriterBound(t))
    decreases fuel, 1
  {
    if s.state == Closed {
      ReEstablishKeeps(s, fuel);
    } else if Admissible(s.state, pdu.command) {
      var polled := s.(polls := s.polls + 1);
      if s.net.closing(s.polls) {
        ReEstablishKeeps(polled, fuel);
        var t := ReEstablish(polled, fuel).session;
        WriteKeepsValid(t, pdu);
      } else {
        WriteKeepsValid(polled, pdu);
      }
    }
  }

  lemma {:induction false} ReEstablishKeeps(s: Session, fuel: nat)
    requires BindFirst(s.log) && !ReEstablish(s, fuel).OutOfFuel?
    ensures ReEstablish(s, fuel).Done?
    ensures var t := ReEstablish(s, fuel).session;
            && Valid(t) && t.shutDown == s.shutDown && t.net == s.net
            && Extends(s.log, t.log, BIND, false)
            && (s.writer.Some? ==> t.writer.Some?)
            && (WriterBound(s) ==> WriterBound(t))
    decreases fuel, 0
  {
    var t := Connect(s.(state := Closed));
    if !s.shutDown && t.state == Open {
      SendDataKeeps(t, BIND, fuel - 1);
    }
  }
}
