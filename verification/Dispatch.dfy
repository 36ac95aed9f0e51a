/**
  The receive path from octets to hooks: _parse_response_pdu and command_handlers.
  Replies go to the broker, correlation data to the correlater, throttling answers
  to the throttle handler, and every recognised PDU to the user's hook.
 */
module Dispatch {
  import opened Bytes
  import opened Commands
  import opened Pdu
  import Correlater
  import OptionalTags
  import SubmitSm
  import Throttle

  // ----------------------------------------------------------------- message ids

  /** struct.pack(">H", NAME_to_TAG["receipted_message_id"]) */
  const RECEIPT_TAG: bytes := [0x00, 0x1E]

  lemma ReceiptTagIsPacked()
    ensures RECEIPT_TAG == Pack16(OptionalTags.Code(OptionalTags.Text(OptionalTags.ReceiptedMessageId)))
  {
  }

  predicate TagAt(b: bytes, i: nat) {
    i + 1 < |b| && b[i] == RECEIPT_TAG[0] && b[i + 1] == RECEIPT_TAG[1]
  }

  /** body_data.find(target_tag): the first position from i on. */
  function FindTag(b: bytes, i: nat): (r: Option<nat>)
    ensures r.Some? ==> r.value >= i && TagAt(b, r.value) && forall j :: i <= j < r.value ==> !TagAt(b, j)
    ensures r.None? ==> forall j :: i <= j ==> !TagAt(b, j)
    decreases |b| - i
  {
    if i + 1 >= |b| then None
    else if TagAt(b, i) then Some(i)
    else FindTag(b, i + 1)
  }

  /** The octets without their NULs, as ASCII text. */
  function IdText(b: bytes): Result<string> {
    var stripped := StripNul(b);
    if IsAsciiBytes(stripped) then Ok(AsciiText(stripped)) else Err(AsciiDecodeError)
  }

  const MAX_ID := 65

  /**
    The id in a delivery receipt: whatever follows the first occurrence of the tag and
    its length field, up to 65 octets.  The length field itself is not looked at.
   */
  function ReceiptId(body: bytes): Option<Result<string>> {
    match FindTag(body, 0)
    case None => None
    case Some(at) =>
      var start := if at + 4 <= |body| then at + 4 else |body|;
      var end := if start + MAX_ID <= |body| then start + MAX_ID else |body|;
      Some(IdText(body[start..end]))
  }

  // ----------------------------------------------------------------- state

  /** What the broker holds. */
  datatype Queued =
    | Submission(message: SubmitSm.Message)
    | DeliverSmReply(sequence: int)
    | EnquireLinkReply(sequence: int)

  /** _build_deliver_sm_pdu and _build_enquire_link_resp_pdu. */
  function BuildReply(q: Queued): Result<bytes>
    requires !q.Submission?
  {
    match q
    case DeliverSmReply(sequence) => Frame(0x80000005, 0, sequence, [0])
    case EnquireLinkReply(sequence) => Frame(0x80000015, 0, sequence, [])
  }

  datatype HookCall = HookCall(command: Command, logId: string, hookMetadata: string, status: Codes)

  /** What the receive path asks of the session. */
  datatype SessionRequest = MarkBound | SendUnbindResp(sequence: int) | Disconnect

  datatype Receiver = Receiver(
    ttl: real,
    capacity: int,              // asyncio.Queue(maxsize): unbounded unless positive
    store: Correlater.Store,
    window: Throttle.Window,
    broker: seq<Queued>,
    hooks: seq<HookCall>,
    requests: seq<SessionRequest>
  )

  /** The clock readings of one dispatch, in order. */
  datatype Clock = Clock(first: real, storedAt: real, last: real)

  predicate HasRoom(r: Receiver) {
    r.capacity <= 0 || |r.broker| < r.capacity
  }

  /** put_nowait on a full queue raises, and the reply is lost. */
  function Enqueue(r: Receiver, q: Queued): Receiver {
    if HasRoom(r) then r.(broker := r.broker + [q]) else r
  }

  // ----------------------------------------------------------------- handlers

  predicate IsThrottling(status: Codes) {
    status in {ESME_RTHROTTLED, ESME_RMSGQFUL}
  }

  function Tallied(w: Throttle.Window, throttling: bool): Throttle.Window {
    if throttling then w.(throttle := w.throttle + 1) else w.(nonThrottle := w.nonThrottle + 1)
  }

  /** The if-chain of command_handlers: the new state and the log_id and hook_metadata the hook will get. */
  function Route(r: Receiver, command: Command, status: Codes, sequence: int, body: bytes,
                 logId: string, hookMetadata: string, clock: Clock)
    : (Receiver, string, string)
  {
    match command
    case BindTransceiverResp =>
      (if status == ESME_ROK then r.(requests := r.requests + [MarkBound]) else r, logId, hookMetadata)
    case Unbind =>
      (r.(requests := r.requests + [SendUnbindResp(sequence)]), logId, hookMetadata)
    case SubmitSmResp =>
      (match IdText(body)
       case Ok(id) =>
         r.(store := Correlater.Stored(r.store, r.ttl, Correlater.MessageId(id),
                                       Correlater.Item(logId, hookMetadata, clock.storedAt), clock.last))
       case Err(_) => r,
       logId, hookMetadata)
    case DeliverSm =>
      var replied := Enqueue(r, DeliverSmReply(sequence));
      (match ReceiptId(body)
       case None => (replied, logId, hookMetadata)
       case Some(Err(_)) => (replied, "", "")
       case Some(Ok(id)) =>
         var (l, m) := Correlater.Answer(r.store, Correlater.MessageId(id));
         (replied.(store := Correlater.Collect(r.store, r.ttl, clock.last)), l, m))
    case EnquireLink =>
      (Enqueue(r, EnquireLinkReply(sequence)), logId, hookMetadata)
    case _ =>
      (r, logId, hookMetadata)
  }

  function Handle(r: Receiver, command: Command, statusValue: int, sequence: int, body: bytes,
                  logId: string, hookMetadata: string, clock: Clock): Receiver {
    match SearchStatus(statusValue)
    case None => r
    case Some(status) =>
      var counted := r.(window := Tallied(r.window, IsThrottling(status)));
      Notify(Route(counted, command, status, sequence, body, logId, hookMetadata, clock), command, status)
  }

  /** hook.from_smsc comes last, with whatever log_id the handlers ended up with. */
  function Notify(routed: (Receiver, string, string), command: Command, status: Codes): Receiver {
    routed.0.(hooks := routed.0.hooks + [HookCall(command, routed.1, routed.2, status)])
  }

  /** _parse_response_pdu on whatever receive_data hands over. */
  function Parse(r: Receiver, pdu: bytes, clock: Clock): Receiver {
    if |pdu| < HEADER_LENGTH then
      r.(requests := r.requests + [Disconnect])
    else
      var h := ReadHeader(pdu);
      match SearchCommand(h.commandId)
      case None => r
      case Some(command) =>
        var (logId, hookMetadata) :=
          Correlater.Answer(r.store, Correlater.GetKey(command, h.sequenceNumber, None));
        Handle(r.(store := Correlater.Collect(r.store, r.ttl, clock.first)),
               command, h.commandStatus, h.sequenceNumber, pdu[HEADER_LENGTH..], logId, hookMetadata, clock)
  }

  // ----------------------------------------------------------------- the client's receiving half

  class Client {
    const correlationHandler: Correlater.SimpleCorrelater
    const throttleHandler: Throttle.SimpleThrottleHandler
    const capacity: int
    var broker: seq<Queued>
    var hooks: seq<HookCall>
    var requests: seq<SessionRequest>

    ghost function View(): Receiver
      reads this, correlationHandler, throttleHandler
    {
      Receiver(correlationHandler.maxTtl, capacity, correlationHandler.store, throttleHandler.View(),
               broker, hooks, requests)
    }

    constructor (correlationHandler: Correlater.SimpleCorrelater, throttleHandler: Throttle.SimpleThrottleHandler,
                 capacity: int)
      ensures this.correlationHandler == correlationHandler && this.throttleHandler == throttleHandler
      ensures View() == Receiver(correlationHandler.maxTtl, capacity, correlationHandler.store,
                                 throttleHandler.View(), [], [], [])
    {
      this.correlationHandler, this.throttleHandler, this.capacity := correlationHandler, throttleHandler, capacity;
      broker, hooks, requests := [], [], [];
    }

    method PutNoWait(q: Queued)
      modifies this`broker
      ensures View() == Enqueue(old(View()), q)
    {
      if capacity <= 0 || |broker| < capacity {
        broker := broker + [q];
      }
    }

    method ParseResponsePdu(pdu: bytes, clock: Clock)
      modifies this, correlationHandler, throttleHandler
      ensures View() == Parse(old(View()), pdu, clock)
    {
      if |pdu| < HEADER_LENGTH {
        requests := requests + [Disconnect];
        return;
      }
      var h := ReadHeader(pdu);
      var command := SearchCommand(h.commandId);
      if command.None? {
        return;
      }
      var logId, hookMetadata := correlationHandler.Get(command.value, h.sequenceNumber, None, clock.first);
      CommandHandlers(command.value, h.commandStatus, h.sequenceNumber, pdu[HEADER_LENGTH..],
                      logId, hookMetadata, clock);
    }

    method CommandHandlers(command: Command, statusValue: int, sequence: int, body: bytes,
                           logId: string, hookMetadata: string, clock: Clock)
      modifies this, correlationHandler, throttleHandler
      ensures View() == Handle(old(View()), command, statusValue, sequence, body, logId, hookMetadata, clock)
    {
      var status := SearchStatus(statusValue);
      if status.None? {
        return;
      }
      ghost var before := View();
      CallThrottleHandler(status.value);
      ghost var counted := View();
      assert counted == before.(window := Tallied(before.window, IsThrottling(status.value)));
      var l, m := RouteCommand(command, status.value, sequence, body, logId, hookMetadata, clock);
      CallHook(command, l, m, status.value);
    }

    method CallThrottleHandler(status: Codes)
      modifies throttleHandler
      ensures throttleHandler.View() == Tallied(old(throttleHandler.View()), IsThrottling(status))
    {
      if IsThrottling(status) {
        throttleHandler.Throttled();
      } else {
        throttleHandler.NotThrottled();
      }
    }

    method CallHook(command: Command, l: string, m: string, status: Codes)
      modifies this`hooks
      ensures View() == Notify((old(View()), l, m), command, status)
    {
      hooks := hooks + [HookCall(command, l, m, status)];
    }

    method RouteCommand(command: Command, status: Codes, sequence: int, body: bytes,
                        logId: string, hookMetadata: string, clock: Clock)
      returns (l: string, m: string)
      modifies this, correlationHandler
      ensures (View(), l, m) == Route(old(View()), command, status, sequence, body, logId, hookMetadata, clock)
    {
      l, m := logId, hookMetadata;
      if command == BindTransceiverResp {
        if status == ESME_ROK {
          requests := requests + [MarkBound];
        }
      } else if command == Unbind {
        requests := requests + [SendUnbindResp(sequence)];
      } else if command == SubmitSmResp {
        var id := IdText(body);
        if id.Ok? {
          correlationHandler.Put(command, sequence, logId, hookMetadata, Some(id.value), clock.storedAt, clock.last);
        }
      } else if command == DeliverSm {
        PutNoWait(DeliverSmReply(sequence));
        var id := ReceiptId(body);
        if id.Some? {
          if id.value.Ok? {
            l, m := correlationHandler.Get(command, sequence, Some(id.value.value), clock.last);
          } else {
            l, m := "", "";
          }
        }
      } else if command == EnquireLink {
        PutNoWait(EnquireLinkReply(sequence));
      }
    }
  }
}
