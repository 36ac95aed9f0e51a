/**
  What one dispatched PDU does: replies, receipt ids, and the correlation store.
 */
module DispatchTheorems {
  import opened Bytes
  import opened Commands
  import opened Pdu
  import opened Dispatch
  import Correlater

  /** The command of a PDU that is long enough to have one and that the client recognises. */
  function CommandOf(pdu: bytes): Option<Command> {
    if |pdu| < HEADER_LENGTH then None else SearchCommand(ReadHeader(pdu).commandId)
  }

  /** The PDU gets as far as the handlers and the hook. */
  predicate Dispatched(pdu: bytes) {
    CommandOf(pdu).Some? && SearchStatus(ReadHeader(pdu).commandStatus).Some?
  }

  // ----------------------------------------------------------------- replies

  function ReplyTo(command: Command, sequence: int): Option<Queued> {
    match command
    case DeliverSm => Some(DeliverSmReply(sequence))
    case EnquireLink => Some(EnquireLinkReply(sequence))
    case _ => None
  }

  lemma RouteReplies(r: Receiver, command: Command, status: Codes, sequence: int, body: bytes,
                     logId: string, hookMetadata: string, clock: Clock)
    ensures Route(r, command, status, sequence, body, logId, hookMetadata, clock).0.broker ==
              match ReplyTo(command, sequence)
              case Some(q) => Enqueue(r, q).broker
              case None => r.broker
  {
  }

  /** The reply a PDU is owed, if any. */
  function ReplyFor(pdu: bytes): Option<Queued> {
    if Dispatched(pdu) then ReplyTo(CommandOf(pdu).value, ReadHeader(pdu).sequenceNumber) else None
  }

  lemma ParseReplies(r: Receiver, pdu: bytes, clock: Clock)
    ensures Parse(r, pdu, clock).broker ==
              match ReplyFor(pdu)
              case Some(q) => if HasRoom(r) then r.broker + [q] else r.broker
              case None => r.broker
  {
    if Dispatched(pdu) {
      var h := ReadHeader(pdu);
      var command := CommandOf(pdu).value;
      var (logId, hookMetadata) := Correlater.Answer(r.store, Correlater.GetKey(command, h.sequenceNumber, None));
      var collected := r.(store := Correlater.Collect(r.store, r.ttl, clock.first));
      var status := SearchStatus(h.commandStatus).value;
      var counted := collected.(window := Tallied(collected.window, IsThrottling(status)));
      RouteReplies(counted, command, status, h.sequenceNumber, pdu[HEADER_LENGTH..], logId, hookMetadata, clock);
    }
  }

  /** Exactly one id is answered by each of the two requests. */
  lemma RequestIds(id: int)
    requires IsU32(id)
    ensures SearchCommand(id) == Some(DeliverSm) <==> id == 0x5
    ensures SearchCommand(id) == Some(EnquireLink) <==> id == 0x15
  {
    KnownCommands(id);
  }

  /** What is built for a reply answers the request: same sequence number, id plus 0x80000000. */
  lemma ReplyAnswers(pdu: bytes, q: Queued)
    requires ReplyFor(pdu) == Some(q)
    ensures BuildReply(q).Ok?
    ensures var h, reply := ReadHeader(pdu), BuildReply(q).value;
            && |reply| >= HEADER_LENGTH
            && ReadHeader(reply) == Header(|reply|, h.commandId + 0x8000_0000, 0, h.sequenceNumber)
  {
    var h := ReadHeader(pdu);
    RequestIds(h.commandId);
    match q
    case DeliverSmReply(_) => FrameReadsBack(0x80000005, 0, h.sequenceNumber, [0]);
    case EnquireLinkReply(_) => FrameReadsBack(0x80000015, 0, h.sequenceNumber, []);
  }

  /**
    Reply echo.  A PDU is owed a reply exactly when it is an enquire_link (0x15) or a
    deliver_sm (0x5) with a recognised status; while the broker has room, dispatching it
    enqueues that one reply and nothing else, and the PDU built for it carries the
    request's sequence number and the request's id plus 0x80000000.
   */
  lemma ReplyEcho(r: Receiver, pdu: bytes, clock: Clock)
    requires |pdu| >= HEADER_LENGTH
    ensures var h := ReadHeader(pdu);
            ReplyFor(pdu).Some? <==> h.commandId in {0x5, 0x15} && RecognisedStatus(h.commandStatus)
    ensures ReplyFor(pdu).None? || 0 < r.capacity <= |r.broker| ==> Parse(r, pdu, clock).broker == r.broker
    ensures ReplyFor(pdu).Some? && !(0 < r.capacity <= |r.broker|) ==>
              var h, q := ReadHeader(pdu), ReplyFor(pdu).value;
              && Parse(r, pdu, clock).broker == r.broker + [q]
              && BuildReply(q).Ok? && |BuildReply(q).value| >= HEADER_LENGTH
              && ReadHeader(BuildReply(q).value)
                 == Header(|BuildReply(q).value|, h.commandId + 0x8000_0000, 0, h.sequenceNumber)
  {
    var h := ReadHeader(pdu);
    RequestIds(h.commandId);
    StatusSearch(h.commandStatus);
    ParseReplies(r, pdu, clock);
    if ReplyFor(pdu).Some? {
      ReplyAnswers(pdu, ReplyFor(pdu).value);
    }
  }

  // ----------------------------------------------------------------- receipt ids

  lemma IdTextOfId(id: string, tail: bytes)
    requires IsAscii(id) && '\0' !in id
    ensures IdText(AsciiBytes(id) + tail) == Ok(id) <==> forall i :: 0 <= i < |tail| ==> tail[i] == 0
  {
    var raw := AsciiBytes(id);
    assert 0 !in raw by {
      forall i | 0 <= i < |raw|
        ensures raw[i] != 0
      {
        assert id[i] in id;
      }
    }
    StripNulKeeps(raw);
    StripNulConcat(raw, tail);
    StripNulEmpties(tail);
    var stripped := StripNul(raw + tail);
    assert stripped == raw + StripNul(tail);
    AsciiRoundTrip(id);
    if StripNul(tail) == [] {
      assert stripped == raw;
    } else {
      assert |stripped| > |id|;
    }
  }

  /** The part of what follows the id that the 65-octet window still takes in. */
  function InWindow(id: string, post: bytes): bytes
    requires |id| <= MAX_ID
  {
    if |id| + |post| <= MAX_ID then post else post[..MAX_ID - |id|]
  }

  /** What is read when the tag's octets first occur at position `at`: up to 65 octets from behind them. */
  function Window(body: bytes, at: nat): bytes {
    var start := if at + 4 <= |body| then at + 4 else |body|;
    var end := if start + MAX_ID <= |body| then start + MAX_ID else |body|;
    body[start..end]
  }

  predicate OnlyNuls(b: bytes) {
    forall i :: 0 <= i < |b| ==> b[i] == 0
  }

  /** The tag's octets do not occur before position n. */
  predicate NoTagBefore(body: bytes, n: nat) {
    forall i :: 0 <= i < n ==> !TagAt(body, i)
  }

  lemma ReadAtTag(body: bytes, pre: bytes, length: bytes, id: string, post: bytes)
    requires IsAscii(id) && '\0' !in id && |id| <= MAX_ID && |length| == 2
    requires body == pre + RECEIPT_TAG + length + AsciiBytes(id) + post && NoTagBefore(body, |pre|)
    ensures ReceiptId(body) == Some(Ok(id)) <==> OnlyNuls(InWindow(id, post))
  {
    var at := |pre|;
    assert body[at] == RECEIPT_TAG[0] && body[at + 1] == RECEIPT_TAG[1];
    assert TagAt(body, at);
    assert FindTag(body, 0) == Some(at);
    var start := at + 4;
    var end := if start + MAX_ID <= |body| then start + MAX_ID else |body|;
    assert body[start..] == AsciiBytes(id) + post;
    assert body[start..end] == body[start..][..end - start];
    assert body[start..end] == AsciiBytes(id) + InWindow(id, post);
    IdTextOfId(id, InWindow(id, post));
  }

  /** An id is read from octets exactly when they are the id's own, NULs apart. */
  lemma ReadsAs(b: bytes, id: string)
    requires IsAscii(id)
    ensures IdText(b) == Ok(id) <==> StripNul(b) == AsciiBytes(id)
  {
    var stripped := StripNul(b);
    AsciiRoundTrip(id);
    if IsAsciiBytes(stripped) && AsciiText(stripped) == id {
      assert forall i :: 0 <= i < |stripped| ==> stripped[i] == AsciiText(stripped)[i] as int;
    }
  }

  /** Text with anything but NULs in front of the id is not the id. */
  lemma NotTheId(front: bytes, id: string, back: bytes)
    requires IsAscii(id) && '\0' !in id && !OnlyNuls(front)
    ensures IdText(front + AsciiBytes(id) + back) != Ok(id)
  {
    var raw := AsciiBytes(id);
    assert 0 !in raw by {
      assert forall i :: 0 <= i < |raw| ==> id[i] in id;
    }
    StripNulKeeps(raw);
    StripNulEmpties(front);
    StripNulConcat(front + raw, back);
    StripNulConcat(front, raw);
  }

  lemma ThreeSlices(b: bytes, i: nat, j: nat, k: nat, l: nat)
    requires i <= j <= k <= l <= |b|
    ensures b[i..l] == b[i..j] + b[j..k] + b[k..l]
  {
  }

  /** A window that starts in front of the id and takes all of it in is misread. */
  lemma CoveringWindow(body: bytes, pre: bytes, length: bytes, id: string, post: bytes, at: nat)
    requires IsAscii(id) && '\0' !in id && |length| == 2 && !OnlyNuls(length)
    requires body == pre + RECEIPT_TAG + length + AsciiBytes(id) + post
    requires at + 2 <= |pre| && |pre| + |id| <= at + MAX_ID
    ensures IdText(Window(body, at)) != Ok(id)
  {
    var start := at + 4;
    var end := if start + MAX_ID <= |body| then start + MAX_ID else |body|;
    var behind := |pre| + 4;
    var front, back := body[start..behind], body[behind + |id|..end];
    assert body[behind..behind + |id|] == AsciiBytes(id);
    ThreeSlices(body, start, behind, behind + |id|, end);
    if start <= |pre| + 1 {
      assert front[|pre| + 1 - start] == RECEIPT_TAG[1];
    } else {
      assert front == length;
    }
    NotTheId(front, id, back);
  }

  /**
    Whether the id in a receipted_message_id parameter is the one the client finds.  If
    the tag's octets do not occur earlier in the body: if and only if nothing but NULs
    follows the id within the 65-octet window.  If they do: only when that earlier window
    ends before the id does, and happens to spell the id.  (A TLV of size 1 to 65 has a
    length field that is not zero.)
   */
  lemma ReceiptIdExact(body: bytes, pre: bytes, length: bytes, id: string, post: bytes)
    requires IsAscii(id) && '\0' !in id && |id| <= MAX_ID && |length| == 2 && !OnlyNuls(length)
    requires body == pre + RECEIPT_TAG + length + AsciiBytes(id) + post
    ensures ReceiptId(body) == Some(Ok(id)) <==>
              if NoTagBefore(body, |pre|) then OnlyNuls(InWindow(id, post))
              else var at := FindTag(body, 0).value;
                   at + MAX_ID < |pre| + |id| && StripNul(Window(body, at)) == AsciiBytes(id)
  {
    if NoTagBefore(body, |pre|) {
      ReadAtTag(body, pre, length, id, post);
    } else {
      var early :| 0 <= early < |pre| && TagAt(body, early);
      var at := FindTag(body, 0).value;
      assert body[|pre|] == RECEIPT_TAG[0];
      assert at + 2 <= |pre|;
      ReadsAs(Window(body, at), id);
      if |pre| + |id| <= at + MAX_ID {
        CoveringWindow(body, pre, length, id, post, at);
      }
    }
  }

  // ----------------------------------------------------------------- the store

  /** The id under which a submit_sm_resp is filed, if the PDU is one that files anything. */
  function FiledId(pdu: bytes): Option<string> {
    if Dispatched(pdu) && CommandOf(pdu) == Some(SubmitSmResp) then
      match IdText(pdu[HEADER_LENGTH..])
      case Ok(id) => Some(id)
      case Err(_) => None
    else None
  }

  function LookedUp(r: Receiver, pdu: bytes): (string, string)
    requires CommandOf(pdu).Some?
  {
    Correlater.Answer(r.store, Correlater.GetKey(CommandOf(pdu).value, ReadHeader(pdu).sequenceNumber, None))
  }

  /** The tag's octets occur in the body, and what is behind them is text. */
  predicate HasId(body: bytes) {
    ReceiptId(body).Some? && ReceiptId(body).value.Ok?
  }

  /** The PDU is a deliver_sm that makes the client look up a message id. */
  predicate LooksUpReceipt(pdu: bytes) {
    Dispatched(pdu) && CommandOf(pdu) == Some(DeliverSm) && HasId(pdu[HEADER_LENGTH..])
  }

  lemma RouteStore(r: Receiver, command: Command, status: Codes, sequence: int, body: bytes,
                   logId: string, hookMetadata: string, clock: Clock)
    ensures var t := Route(r, command, status, sequence, body, logId, hookMetadata, clock).0;
            && t.ttl == r.ttl && t.capacity == r.capacity
            && (if command == SubmitSmResp && IdText(body).Ok? then
                  t.store == Correlater.Stored(r.store, r.ttl, Correlater.MessageId(IdText(body).value),
                                               Correlater.Item(logId, hookMetadata, clock.storedAt), clock.last)
                else if command == DeliverSm && HasId(body) then
                  t.store == Correlater.Collect(r.store, r.ttl, clock.last)
                else
                  t.store == r.store)
  {
  }

  lemma HandleStore(r: Receiver, command: Command, value: int, sequence: int, body: bytes,
                    logId: string, hookMetadata: string, clock: Clock)
    ensures var t := Handle(r, command, value, sequence, body, logId, hookMetadata, clock);
            && t.ttl == r.ttl && t.capacity == r.capacity
            && (if SearchStatus(value).Some? && command == SubmitSmResp && IdText(body).Ok? then
                  t.store == Correlater.Stored(r.store, r.ttl, Correlater.MessageId(IdText(body).value),
                                               Correlater.Item(logId, hookMetadata, clock.storedAt), clock.last)
                else if SearchStatus(value).Some? && command == DeliverSm && HasId(body) then
                  t.store == Correlater.Collect(r.store, r.ttl, clock.last)
                else
                  t.store == r.store)
  {
    var status := SearchStatus(value);
    if status.Some? {
      var counted := r.(window := Tallied(r.window, IsThrottling(status.value)));
      RouteStore(counted, command, status.value, sequence, body, logId, hookMetadata, clock);
    }
  }

  /** The store after a dispatch, by kind of PDU. */
  lemma ParseStore(r: Receiver, pdu: bytes, clock: Clock)
    ensures var t := Parse(r, pdu, clock);
            && t.ttl == r.ttl && t.capacity == r.capacity
            && (CommandOf(pdu).None? ==> t.store == r.store)
            && (CommandOf(pdu).Some? ==>
                  var first := Correlater.Collect(r.store, r.ttl, clock.first);
                  if FiledId(pdu).Some? then
                    t.store == Correlater.Stored(first, r.ttl, Correlater.MessageId(FiledId(pdu).value),
                                                 Correlater.Item(LookedUp(r, pdu).0, LookedUp(r, pdu).1,
                                                                 clock.storedAt),
                                                 clock.last)
                  else if LooksUpReceipt(pdu) then
                    t.store == Correlater.Collect(first, r.ttl, clock.last)
                  else
                    t.store == first)
  {
    if CommandOf(pdu).Some? {
      var h := ReadHeader(pdu);
      var (logId, hookMetadata) := LookedUp(r, pdu);
      HandleStore(r.(store := Correlater.Collect(r.store, r.ttl, clock.first)), CommandOf(pdu).value,
                  h.commandStatus, h.sequenceNumber, pdu[HEADER_LENGTH..], logId, hookMetadata, clock);
    }
  }

  // ----------------------------------------------------------------- the hook

  /**
    What the hook is told about a PDU: for a delivery receipt, the answer for what was read
    as its id once the first lookup has collected, or two empty strings when that is not
    text; for a deliver_sm without the tag's octets, the answer for no id; and for every
    other PDU the answer for its own sequence number, looked up before anything else happens.
   */
  function HookData(r: Receiver, pdu: bytes, clock: Clock): (string, string)
    requires Dispatched(pdu)
  {
    if CommandOf(pdu) != Some(DeliverSm) then
      Correlater.Answer(r.store, Correlater.Number(ReadHeader(pdu).sequenceNumber))
    else
      match ReceiptId(pdu[HEADER_LENGTH..])
      case None => Correlater.Answer(r.store, Correlater.NoId)
      case Some(Err(_)) => ("", "")
      case Some(Ok(id)) =>
        Correlater.Answer(Correlater.Collect(r.store, r.ttl, clock.first), Correlater.MessageId(id))
  }

  lemma RouteTells(r: Receiver, command: Command, status: Codes, sequence: int, body: bytes,
                   logId: string, hookMetadata: string, clock: Clock)
    ensures var (t, l, m) := Route(r, command, status, sequence, body, logId, hookMetadata, clock);
            && t.hooks == r.hooks
            && (command != DeliverSm ==> (l, m) == (logId, hookMetadata))
            && (command == DeliverSm ==>
                  (l, m) == match ReceiptId(body)
                            case None => (logId, hookMetadata)
                            case Some(Err(_)) => ("", "")
                            case Some(Ok(id)) => Correlater.Answer(r.store, Correlater.MessageId(id)))
  {
  }

  /** Every PDU with a recognised command and status reaches the hook once, with what it is told; no other does. */
  lemma HookIsTold(r: Receiver, pdu: bytes, clock: Clock)
    ensures !Dispatched(pdu) ==> Parse(r, pdu, clock).hooks == r.hooks
    ensures Dispatched(pdu) ==>
              var (l, m) := HookData(r, pdu, clock);
              Parse(r, pdu, clock).hooks ==
                r.hooks + [HookCall(CommandOf(pdu).value, l, m, SearchStatus(ReadHeader(pdu).commandStatus).value)]
  {
    if Dispatched(pdu) {
      var h := ReadHeader(pdu);
      var command := CommandOf(pdu).value;
      var (logId, hookMetadata) := LookedUp(r, pdu);
      var collected := r.(store := Correlater.Collect(r.store, r.ttl, clock.first));
      var status := SearchStatus(h.commandStatus).value;
      var counted := collected.(window := Tallied(collected.window, IsThrottling(status)));
      RouteTells(counted, command, status, h.sequenceNumber, pdu[HEADER_LENGTH..], logId, hookMetadata, clock);
    }
  }

  lemma ReceiptHook(r: Receiver, pdu: bytes, clock: Clock, read: Result<string>)
    requires Dispatched(pdu) && CommandOf(pdu) == Some(DeliverSm)
    requires ReceiptId(pdu[HEADER_LENGTH..]) == Some(read)
    ensures var (l, m) := if read.Err? then ("", "")
                          else Correlater.Answer(Correlater.Collect(r.store, r.ttl, clock.first),
                                                 Correlater.MessageId(read.value));
            Parse(r, pdu, clock).hooks ==
              r.hooks + [HookCall(DeliverSm, l, m, SearchStatus(ReadHeader(pdu).commandStatus).value)]
  {
    HookIsTold(r, pdu, clock);
  }

  // ----------------------------------------------------------------- what is asked of the session

  /** Told from the octets: a short PDU, an accepted bind_transceiver, an unbind. */
  function AskedOfSession(pdu: bytes): seq<SessionRequest> {
    if |pdu| < 16 then [Disconnect]
    else
      var h := ReadHeader(pdu);
      if h.commandId == 0x80000009 && h.commandStatus == 0 then [MarkBound]
      else if h.commandId == 0x6 && RecognisedStatus(h.commandStatus) then [SendUnbindResp(h.sequenceNumber)]
      else []
  }

  lemma RouteAsks(r: Receiver, command: Command, status: Codes, sequence: int, body: bytes,
                  logId: string, hookMetadata: string, clock: Clock)
    ensures Route(r, command, status, sequence, body, logId, hookMetadata, clock).0.requests == r.requests +
              (if command == BindTransceiverResp && status == ESME_ROK then [MarkBound]
               else if command == Unbind then [SendUnbindResp(sequence)]
               else [])
  {
    assert r.requests + [] == r.requests;
  }

  lemma SessionIds(id: int)
    requires IsU32(id)
    ensures SearchCommand(id) == Some(BindTransceiverResp) <==> id == 0x80000009
    ensures SearchCommand(id) == Some(Unbind) <==> id == 0x6
  {
    KnownCommands(id);
  }

  /** What a PDU makes the client ask of its session, and nothing else. */
  lemma SessionIsAsked(r: Receiver, pdu: bytes, clock: Clock)
    ensures Parse(r, pdu, clock).requests == r.requests + AskedOfSession(pdu)
  {
    assert r.requests + [] == r.requests;
    if |pdu| >= HEADER_LENGTH {
      var h := ReadHeader(pdu);
      SessionIds(h.commandId);
      StatusSearch(h.commandStatus);
      if Dispatched(pdu) {
        var (logId, hookMetadata) := LookedUp(r, pdu);
        var collected := r.(store := Correlater.Collect(r.store, r.ttl, clock.first));
        var status := SearchStatus(h.commandStatus).value;
        var counted := collected.(window := Tallied(collected.window, IsThrottling(status)));
        RouteAsks(counted, CommandOf(pdu).value, status, h.sequenceNumber, pdu[HEADER_LENGTH..],
                  logId, hookMetadata, clock);
      }
    }
  }

  // ----------------------------------------------------------------- the throttle handler

  /** A PDU that reaches the handlers, told from its header. */
  predicate Counts(pdu: bytes) {
    |pdu| >= 16 && ReadHeader(pdu).commandId > 2 && RecognisedStatus(ReadHeader(pdu).commandStatus)
  }

  /** ESME_RMSGQFUL and ESME_RTHROTTLED. */
  predicate Throttles(pdu: bytes)
    requires |pdu| >= 16
  {
    ReadHeader(pdu).commandStatus in {0x14, 0x58}
  }

  lemma CountsIsDispatched(pdu: bytes)
    ensures Counts(pdu) <==> Dispatched(pdu)
    ensures Counts(pdu) ==> (Throttles(pdu) <==> IsThrottling(SearchStatus(ReadHeader(pdu).commandStatus).value))
  {
    if |pdu| >= 16 {
      KnownCommands(ReadHeader(pdu).commandId);
      StatusSearch(ReadHeader(pdu).commandStatus);
    }
  }

  /** The throttle window counts a PDU exactly when it is dispatched. */
  lemma ParseTallies(r: Receiver, pdu: bytes, clock: Clock)
    ensures Parse(r, pdu, clock).window ==
              if Dispatched(pdu)
              then Tallied(r.window, IsThrottling(SearchStatus(ReadHeader(pdu).commandStatus).value))
              else r.window
  {
  }
}
