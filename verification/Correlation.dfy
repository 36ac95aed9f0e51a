/**
  Correlation across messages, over every interleaving of outgoing requests, incoming
  PDUs and throttle questions: from the submit_sm that carries a log_id, by way of its
  submit_sm_resp, to the hook that is told about its delivery receipt.
 */
module Correlation {
  import opened Bytes
  import opened Commands
  import opened Pdu
  import opened Dispatch
  import opened DispatchTheorems
  import Correlater
  import Receipts
  import Sequence
  import SubmitSm
  import Throttle

  // ----------------------------------------------------------------- building a request

  /** The part of the client that _build_submit_sm_pdu works on. */
  class Requester {
    const sequenceGenerator: Sequence.SimpleSequenceGenerator
    const correlationHandler: Correlater.SimpleCorrelater

    constructor (sequenceGenerator: Sequence.SimpleSequenceGenerator, correlationHandler: Correlater.SimpleCorrelater)
      ensures this.sequenceGenerator == sequenceGenerator && this.correlationHandler == correlationHandler
    {
      this.sequenceGenerator, this.correlationHandler := sequenceGenerator, correlationHandler;
    }

    /** A message whose body cannot be built draws no number and files nothing. */
    method BuildSubmitSm(m: SubmitSm.Message, storedAt: real, now: real) returns (r: Result<bytes>)
      modifies sequenceGenerator, correlationHandler
      ensures SubmitSm.Body(m).Err? ==>
                && r == Err(SubmitSm.Body(m).error)
                && sequenceGenerator.sequenceNumber == old(sequenceGenerator.sequenceNumber)
                && correlationHandler.store == old(correlationHandler.store)
      ensures SubmitSm.Body(m).Ok? ==>
                var sequence := Sequence.Next(old(sequenceGenerator.sequenceNumber));
                && r == SubmitSm.Build(m, sequence)
                && sequenceGenerator.sequenceNumber == sequence
                && correlationHandler.store ==
                     Correlater.Stored(old(correlationHandler.store), correlationHandler.maxTtl,
                                       Correlater.Number(sequence),
                                       Correlater.Item(m.logId, m.hookMetadata, storedAt), now)
    {
      var body := SubmitSm.Body(m);
      if body.Err? {
        return Err(body.error);
      }
      var sequence := sequenceGenerator.NextSequence();
      correlationHandler.Put(SubmitSm, sequence, m.logId, m.hookMetadata, None, storedAt, now);
      r := Frame(SubmitSm.SUBMIT_SM_ID, 0, sequence, body.value);
    }
  }

  // ----------------------------------------------------------------- runs

  datatype System = System(receiver: Receiver, config: Throttle.Config, sequence: Sequence.SequenceNumber)

  /** Something the client does that touches the generator, the correlater or the throttle handler. */
  datatype Event =
    | Outgoing(command: Command, logId: string, hookMetadata: string, storedAt: real, now: real)
    | Incoming(pdu: bytes, clock: Clock)
    | Asking(now: real)

  /** Only these requests draw a sequence number. */
  predicate Draws(e: Event) {
    e.Outgoing? && e.command in {BindTransceiver, EnquireLink, Unbind, SubmitSm}
  }

  function Apply(s: System, e: Event): System {
    match e
    case Outgoing(command, logId, hookMetadata, storedAt, now) =>
      var sequence := Sequence.Next(s.sequence);
      var item := Correlater.Item(logId, hookMetadata, storedAt);
      s.(sequence := sequence,
         receiver := s.receiver.(store := Correlater.Stored(s.receiver.store, s.receiver.ttl,
                                                            Correlater.PutKey(command, sequence, None), item, now)))
    case Incoming(pdu, clock) => s.(receiver := Parse(s.receiver, pdu, clock))
    case Asking(now) => s.(receiver := s.receiver.(window := Throttle.AfterAsk(s.config, s.receiver.window, now)))
  }

  function Begins(e: Event): real {
    match e
    case Outgoing(_, _, _, storedAt, _) => storedAt
    case Incoming(_, clock) => clock.first
    case Asking(now) => now
  }

  function Ends(e: Event): real {
    match e
    case Outgoing(_, _, _, _, now) => now
    case Incoming(_, clock) => clock.last
    case Asking(now) => now
  }

  /** Within an event the clock does not go back. */
  predicate InOrder(events: seq<Event>, i: nat)
    requires i < |events|
  {
    var e := events[i];
    Begins(e) <= Ends(e) && (e.Incoming? ==> e.clock.first <= e.clock.storedAt <= e.clock.last)
  }

  predicate EndsBefore(events: seq<Event>, i: nat, j: nat)
    requires i < j < |events|
  {
    Ends(events[i]) <= Begins(events[j])
  }

  /** Within an event, and from one event to the next, the clock does not go back. */
  ghost predicate Timed(events: seq<Event>) {
    && (forall i: nat :: i < |events| ==> InOrder(events, i))
    && (forall i: nat, j: nat :: i < j < |events| ==> EndsBefore(events, i, j))
  }

  ghost predicate StepAt(states: seq<System>, events: seq<Event>, i: nat)
    requires |states| == |events| + 1 && i < |events|
  {
    && (events[i].Outgoing? ==> Draws(events[i]))
    && states[i + 1] == Apply(states[i], events[i])
  }

  ghost predicate IsRun(states: seq<System>, events: seq<Event>) {
    && |states| == |events| + 1
    && forall i: nat :: i < |events| ==> StepAt(states, events, i)
  }

  // ----------------------------------------------------------------- sequence numbers

  function DrawCount(events: seq<Event>): nat {
    if events == [] then 0
    else DrawCount(events[..|events| - 1]) + (if events[|events| - 1].Outgoing? then 1 else 0)
  }

  lemma {:induction false} RunConstants(states: seq<System>, events: seq<Event>, i: nat)
    requires IsRun(states, events) && i <= |events|
    ensures states[i].receiver.ttl == states[0].receiver.ttl && states[i].config == states[0].config
  {
    if i > 0 {
      RunConstants(states, events, i - 1);
      assert StepAt(states, events, i - 1);
      if events[i - 1].Incoming? {
        ParseStore(states[i - 1].receiver, events[i - 1].pdu, events[i - 1].clock);
      }
    }
  }

  /** The part of a run that the generator sees. */
  ghost predicate NumbersRun(states: seq<System>, events: seq<Event>) {
    && |states| == |events| + 1
    && forall i :: 0 <= i < |events| ==>
         states[i + 1].sequence ==
           if events[i].Outgoing? then Sequence.Next(states[i].sequence) else states[i].sequence
  }

  lemma RunNumbers(states: seq<System>, events: seq<Event>)
    requires IsRun(states, events)
    ensures NumbersRun(states, events)
  {
    forall i: nat | i < |events|
      ensures states[i + 1].sequence ==
              if events[i].Outgoing? then Sequence.Next(states[i].sequence) else states[i].sequence
    {
      assert StepAt(states, events, i);
    }
  }

  /** The generator's state is determined by how many requests have been sent in between. */
  lemma {:induction false} SequenceAfter(states: seq<System>, events: seq<Event>, i: nat, j: nat)
    requires NumbersRun(states, events) && i <= j <= |events|
    ensures states[j].sequence == Sequence.After(states[i].sequence, DrawCount(events[i..j]))
  {
    if i < j {
      SequenceAfter(states, events, i, j - 1);
      assert events[i..j][..j - i - 1] == events[i..j - 1];
    }
  }

  lemma {:induction false} DrawCountGrows(events: seq<Event>, n: nat)
    requires n <= |events|
    ensures DrawCount(events[..n]) <= DrawCount(events)
    decreases |events|
  {
    if n < |events| {
      var before := events[..|events| - 1];
      assert before[..n] == events[..n];
      DrawCountGrows(before, n);
    } else {
      assert events[..n] == events;
    }
  }

  /** A number drawn by event i is not drawn again before the generator has gone all the way round. */
  lemma NumberIsFresh(states: seq<System>, events: seq<Event>, i: nat, j: nat, m: nat)
    requires NumbersRun(states, events) && i < m < j <= |events| && events[m].Outgoing?
    requires DrawCount(events[i + 1..j]) < Sequence.MAX_SEQUENCE
    ensures states[m + 1].sequence != states[i + 1].sequence
  {
    SequenceAfter(states, events, i + 1, m + 1);
    var between := events[i + 1..j];
    assert between[..m - i] == events[i + 1..m + 1];
    DrawCountGrows(between, m - i);
    var drawn := DrawCount(events[i + 1..m + 1]);
    assert drawn > 0 by {
      assert events[i + 1..m + 1][m - i - 1] == events[m];
    }
    Sequence.Period(states[i + 1].sequence, drawn);
  }

  // ----------------------------------------------------------------- how long an entry lasts

  /** The key an event files something under. */
  function FiledKey(s: System, e: Event): Option<Correlater.Key> {
    match e
    case Outgoing(_, _, _, _, _) => Some(Correlater.Number(Sequence.Next(s.sequence)))
    case Incoming(pdu, _) =>
      (match FiledId(pdu)
       case Some(id) => Some(Correlater.MessageId(id))
       case None => None)
    case Asking(_) => None
  }

  /** The last time at which an event makes the correlater collect. */
  function CollectedAt(e: Event): Option<real> {
    match e
    case Outgoing(_, _, _, _, now) => Some(now)
    case Incoming(pdu, clock) =>
      if CommandOf(pdu).None? then None
      else if FiledId(pdu).Some? || LooksUpReceipt(pdu) then Some(clock.last)
      else Some(clock.first)
    case Asking(_) => None
  }

  /** The last collection of events i to j - 1. */
  function LastCollection(events: seq<Event>, i: nat, j: nat): real
    requires i < j <= |events|
    decreases j
  {
    match CollectedAt(events[j - 1])
    case Some(t) => t
    case None => if j - 1 == i then Ends(events[i]) else LastCollection(events, i, j - 1)
  }

  /** The key is present exactly when told so, and then with this item. */
  ghost predicate Shows(store: Correlater.Store, key: Correlater.Key, item: Correlater.Item, present: bool) {
    (key in store <==> present) && (key in store ==> store[key] == item)
  }

  /** A collection, and a put under another key, keep an entry exactly while it is young enough. */
  lemma StoreShows(store: Correlater.Store, ttl: real, now: real, key: Correlater.Key, item: Correlater.Item,
                   present: bool)
    requires Shows(store, key, item, present)
    ensures Shows(Correlater.Collect(store, ttl, now), key, item, present && now - item.storedAt <= ttl)
    ensures forall other, filed :: other != key ==>
              Shows(Correlater.Stored(store, ttl, other, filed, now), key, item,
                    present && now - item.storedAt <= ttl)
  {
  }

  lemma IncomingShows(r: Receiver, pdu: bytes, clock: Clock, key: Correlater.Key, item: Correlater.Item, present: bool)
    requires Shows(r.store, key, item, present) && clock.first <= clock.last
    requires FiledId(pdu).Some? ==> Correlater.MessageId(FiledId(pdu).value) != key
    ensures var at := CollectedAt(Incoming(pdu, clock));
            Shows(Parse(r, pdu, clock).store, key, item, present && (at.Some? ==> at.value - item.storedAt <= r.ttl))
  {
    ParseStore(r, pdu, clock);
    StoreShows(r.store, r.ttl, clock.first, key, item, present);
    StoreShows(Correlater.Collect(r.store, r.ttl, clock.first), r.ttl, clock.last, key, item,
               present && clock.first - item.storedAt <= r.ttl);
  }

  lemma EventShows(s: System, e: Event, key: Correlater.Key, item: Correlater.Item, present: bool)
    requires Shows(s.receiver.store, key, item, present)
    requires FiledKey(s, e) != Some(key) && (e.Outgoing? ==> Draws(e)) && Begins(e) <= Ends(e)
    ensures var at := CollectedAt(e);
            Shows(Apply(s, e).receiver.store, key, item,
                  present && (at.Some? ==> at.value - item.storedAt <= s.receiver.ttl))
  {
    match e
    case Incoming(pdu, clock) => IncomingShows(s.receiver, pdu, clock, key, item, present);
    case Outgoing(_, _, _, _, now) => StoreShows(s.receiver.store, s.receiver.ttl, now, key, item, present);
    case Asking(_) =>
  }

  /** The same, told from the last collection before the event and the last one after it. */
  lemma EventMovesShow(s: System, e: Event, key: Correlater.Key, item: Correlater.Item, was: real, last: real)
    requires Shows(s.receiver.store, key, item, was - item.storedAt <= s.receiver.ttl)
    requires FiledKey(s, e) != Some(key) && (e.Outgoing? ==> Draws(e)) && Begins(e) <= Ends(e)
    requires if CollectedAt(e).Some? then last == CollectedAt(e).value >= was else last == was
    ensures Shows(Apply(s, e).receiver.store, key, item, last - item.storedAt <= s.receiver.ttl)
  {
    EventShows(s, e, key, item, was - item.storedAt <= s.receiver.ttl);
  }

  lemma {:induction false} LastCollectionIsOver(events: seq<Event>, i: nat, j: nat)
    requires Timed(events) && i < j <= |events|
    ensures LastCollection(events, i, j) <= Ends(events[j - 1])
    decreases j
  {
    if CollectedAt(events[j - 1]).None? && j - 1 > i {
      LastCollectionIsOver(events, i, j - 1);
      assert EndsBefore(events, j - 2, j - 1);
    }
    assert InOrder(events, j - 1);
  }

  /** One event later, the last collection is the new one, if there is one; and it is no earlier. */
  lemma LastCollectionMoves(events: seq<Event>, i: nat, j: nat)
    requires Timed(events) && i + 1 < j <= |events|
    ensures var was, at := LastCollection(events, i, j - 1), CollectedAt(events[j - 1]);
            if at.Some? then LastCollection(events, i, j) == at.value >= was else LastCollection(events, i, j) == was
  {
    LastCollectionIsOver(events, i, j - 1);
    assert EndsBefore(events, j - 2, j - 1) && InOrder(events, j - 1);
  }

  lemma LastCollectionOfOne(events: seq<Event>, i: nat)
    requires i < |events| && CollectedAt(events[i]).Some?
    ensures LastCollection(events, i, i + 1) == CollectedAt(events[i]).value
  {
  }

  /** The entry is in the store of the j-th state exactly if it was young enough at the given time. */
  ghost predicate ShowsAt(states: seq<System>, j: nat, key: Correlater.Key, item: Correlater.Item, last: real)
    requires 0 < |states| && j < |states|
  {
    Shows(states[j].receiver.store, key, item, last - item.storedAt <= states[0].receiver.ttl)
  }

  /** Event m files something under the key. */
  ghost predicate Files(states: seq<System>, events: seq<Event>, m: nat, key: Correlater.Key)
    requires |states| == |events| + 1 && m < |events|
  {
    FiledKey(states[m], events[m]) == Some(key)
  }

  /** Nothing between events i and j is filed under the key. */
  ghost predicate Unfiled(states: seq<System>, events: seq<Event>, i: nat, j: nat, key: Correlater.Key)
    requires |states| == |events| + 1 && j <= |events|
  {
    forall m: nat :: i < m < j ==> !Files(states, events, m, key)
  }

  lemma StepShows(states: seq<System>, events: seq<Event>, j: nat, key: Correlater.Key, item: Correlater.Item,
                  was: real, last: real)
    requires IsRun(states, events) && 0 < j <= |events| && InOrder(events, j - 1)
    requires ShowsAt(states, j - 1, key, item, was) && !Files(states, events, j - 1, key)
    requires var at := CollectedAt(events[j - 1]); if at.Some? then last == at.value >= was else last == was
    ensures ShowsAt(states, j, key, item, last)
  {
    RunConstants(states, events, j - 1);
    assert StepAt(states, events, j - 1);
    EventMovesShow(states[j - 1], events[j - 1], key, item, was, last);
  }

  lemma EntryStep(states: seq<System>, events: seq<Event>, i: nat, j: nat, key: Correlater.Key, item: Correlater.Item)
    requires IsRun(states, events) && Timed(events) && i + 1 < j <= |events|
    requires ShowsAt(states, j - 1, key, item, LastCollection(events, i, j - 1))
    requires !Files(states, events, j - 1, key)
    ensures ShowsAt(states, j, key, item, LastCollection(events, i, j))
  {
    var was, last := LastCollection(events, i, j - 1), LastCollection(events, i, j);
    LastCollectionMoves(events, i, j);
    assert InOrder(events, j - 1);
    StepShows(states, events, j, key, item, was, last);
  }

  /** Event m hands the entry on. */
  ghost predicate HandsOn(states: seq<System>, events: seq<Event>, i: nat, m: nat,
                          key: Correlater.Key, item: Correlater.Item)
    requires |states| == |events| + 1 && i < m < |events|
  {
    ShowsAt(states, m, key, item, LastCollection(events, i, m)) ==>
      ShowsAt(states, m + 1, key, item, LastCollection(events, i, m + 1))
  }

  lemma {:induction false} HandedOnAll(states: seq<System>, events: seq<Event>, i: nat, j: nat,
                                       key: Correlater.Key, item: Correlater.Item)
    requires |states| == |events| + 1 && i < j <= |events|
    requires ShowsAt(states, i + 1, key, item, LastCollection(events, i, i + 1))
    requires forall m: nat :: i < m < j ==> HandsOn(states, events, i, m, key, item)
    ensures ShowsAt(states, j, key, item, LastCollection(events, i, j))
    decreases j
  {
    if j > i + 1 {
      HandedOnAll(states, events, i, j - 1, key, item);
      assert HandsOn(states, events, i, j - 1, key, item);
    }
  }

  lemma EventHandsOn(states: seq<System>, events: seq<Event>, i: nat, m: nat,
                     key: Correlater.Key, item: Correlater.Item)
    requires IsRun(states, events) && Timed(events) && i < m < |events| && !Files(states, events, m, key)
    ensures HandsOn(states, events, i, m, key, item)
  {
    if ShowsAt(states, m, key, item, LastCollection(events, i, m)) {
      EntryStep(states, events, i, m + 1, key, item);
    }
  }

  /** How long an entry lasts: event i files it, and it is there while the last collection finds it young enough. */
  lemma EntryShows(states: seq<System>, events: seq<Event>, i: nat, j: nat,
                   key: Correlater.Key, item: Correlater.Item)
    requires IsRun(states, events) && Timed(events) && i < j <= |events|
    requires ShowsAt(states, i + 1, key, item, LastCollection(events, i, i + 1))
    requires Unfiled(states, events, i, j, key)
    ensures ShowsAt(states, j, key, item, LastCollection(events, i, j))
  {
    forall m: nat | i < m < j
      ensures HandsOn(states, events, i, m, key, item)
    {
      EventHandsOn(states, events, i, m, key, item);
    }
    HandedOnAll(states, events, i, j, key, item);
  }

  // ----------------------------------------------------------------- end to end

  /** Event e is a submit_sm_resp for the given sequence number, carrying the SMSC's id. */
  predicate IsResponse(e: Event, sequence: int, id: string) {
    && e.Incoming? && FiledId(e.pdu) == Some(id) && ReadHeader(e.pdu).sequenceNumber == sequence
  }

  /** Event e is a delivery receipt in which the client finds the id. */
  predicate IsReceipt(e: Event, id: string) {
    && e.Incoming? && Dispatched(e.pdu) && CommandOf(e.pdu) == Some(DeliverSm)
    && ReceiptId(e.pdu[HEADER_LENGTH..]) == Some(Ok(id))
  }

  lemma RequestIsFiled(s: System, e: Event)
    requires Draws(e)
    ensures Shows(Apply(s, e).receiver.store, Correlater.Number(Apply(s, e).sequence),
                  Correlater.Item(e.logId, e.hookMetadata, e.storedAt), e.now - e.storedAt <= s.receiver.ttl)
  {
  }

  /** What a lookup makes of an entry that is there or not. */
  function Told(item: Correlater.Item, present: bool): (string, string) {
    if present then (item.logId, item.hookMetadata) else ("", "")
  }

  lemma ResponseIsFiled(s: System, e: Event, sequence: int, id: string, item: Correlater.Item, present: bool)
    requires IsResponse(e, sequence, id) && Shows(s.receiver.store, Correlater.Number(sequence), item, present)
    ensures var (logId, hookMetadata) := Told(item, present);
            Shows(Apply(s, e).receiver.store, Correlater.MessageId(id),
                  Correlater.Item(logId, hookMetadata, e.clock.storedAt),
                  e.clock.last - e.clock.storedAt <= s.receiver.ttl)
  {
    ParseStore(s.receiver, e.pdu, e.clock);
    assert LookedUp(s.receiver, e.pdu) == Told(item, present);
  }

  lemma ReceiptIsAnswered(s: System, e: Event, id: string, item: Correlater.Item, present: bool)
    requires IsReceipt(e, id) && Shows(s.receiver.store, Correlater.MessageId(id), item, present)
    ensures var (logId, hookMetadata) := Told(item, present && e.clock.first - item.storedAt <= s.receiver.ttl);
            Apply(s, e).receiver.hooks == s.receiver.hooks +
              [HookCall(DeliverSm, logId, hookMetadata, SearchStatus(ReadHeader(e.pdu).commandStatus).value)]
  {
    ReceiptHook(s.receiver, e.pdu, e.clock, Ok(id));
    StoreShows(s.receiver.store, s.receiver.ttl, e.clock.first, Correlater.MessageId(id), item, present);
  }

  /** The request of event i is still on file when event j looks for it. */
  predicate FirstLegInTime(ttl: real, events: seq<Event>, i: nat, j: nat)
    requires i < j <= |events| && events[i].Outgoing?
  {
    LastCollection(events, i, j) - events[i].storedAt <= ttl
  }

  /** The response of event j is still on file when event k looks for it. */
  predicate SecondLegInTime(ttl: real, events: seq<Event>, j: nat, k: nat)
    requires j < k < |events| && events[j].Incoming? && events[k].Incoming?
  {
    events[k].clock.first - events[j].clock.storedAt <= ttl
  }

  /** From the request to its response: what the number leads to, exactly. */
  lemma FirstLeg(states: seq<System>, events: seq<Event>, i: nat, j: nat)
    requires IsRun(states, events) && Timed(events)
    requires i < j <= |events| && events[i].Outgoing?
    requires DrawCount(events[i + 1..j]) < Sequence.MAX_SEQUENCE
    ensures Shows(states[j].receiver.store, Correlater.Number(states[i + 1].sequence),
                  Correlater.Item(events[i].logId, events[i].hookMetadata, events[i].storedAt),
                  FirstLegInTime(states[0].receiver.ttl, events, i, j))
  {
    var number := Correlater.Number(states[i + 1].sequence);
    RunConstants(states, events, i);
    assert StepAt(states, events, i);
    RequestIsFiled(states[i], events[i]);
    LastCollectionOfOne(events, i);
    RunNumbers(states, events);
    forall m: nat | i < m < j
      ensures !Files(states, events, m, number)
    {
      if events[m].Outgoing? {
        NumberIsFresh(states, events, i, j, m);
      }
    }
    EntryShows(states, events, i, j, number,
               Correlater.Item(events[i].logId, events[i].hookMetadata, events[i].storedAt));
  }

  /** From the response to the receipt: what the id leads to, exactly. */
  lemma SecondLeg(states: seq<System>, events: seq<Event>, j: nat, k: nat, sequence: int, id: string,
                  item: Correlater.Item, present: bool)
    requires IsRun(states, events) && Timed(events) && j < k < |events|
    requires IsResponse(events[j], sequence, id)
    requires Shows(states[j].receiver.store, Correlater.Number(sequence), item, present)
    requires forall m :: j < m < k && events[m].Incoming? ==> FiledId(events[m].pdu) != Some(id)
    ensures var (logId, hookMetadata) := Told(item, present);
            Shows(states[k].receiver.store, Correlater.MessageId(id),
                  Correlater.Item(logId, hookMetadata, events[j].clock.storedAt),
                  LastCollection(events, j, k) - events[j].clock.storedAt <= states[0].receiver.ttl)
  {
    RunConstants(states, events, j);
    assert StepAt(states, events, j);
    ResponseIsFiled(states[j], events[j], sequence, id, item, present);
    LastCollectionOfOne(events, j);
    var (logId, hookMetadata) := Told(item, present);
    EntryShows(states, events, j, k, Correlater.MessageId(id),
               Correlater.Item(logId, hookMetadata, events[j].clock.storedAt));
  }

  /**
    End-to-end correlation, exactly.  Take any run, with anything interleaved, in which
    event i sends a request, event j is its response and event k a receipt for the id in
    that response; the generator has not gone round between i and j, and no other response
    filed the same id between j and k.  Then the hook for the receipt gets the log_id and
    hook_metadata of event i if the request was no older than the ttl at the last
    collection before j, and the response no older than that when k begins; and otherwise
    it gets two empty strings.
   */
  lemma EndToEnd(states: seq<System>, events: seq<Event>, i: nat, j: nat, k: nat, id: string)
    requires IsRun(states, events) && Timed(events)
    requires i < j < k < |events| && events[i].Outgoing?
    requires IsResponse(events[j], states[i + 1].sequence, id) && IsReceipt(events[k], id)
    requires DrawCount(events[i + 1..j]) < Sequence.MAX_SEQUENCE
    requires forall m :: j < m < k && events[m].Incoming? ==> FiledId(events[m].pdu) != Some(id)
    ensures var ttl := states[0].receiver.ttl;
            var inTime := FirstLegInTime(ttl, events, i, j) && SecondLegInTime(ttl, events, j, k);
            states[k + 1].receiver.hooks == states[k].receiver.hooks +
              [HookCall(DeliverSm,
                        if inTime then events[i].logId else "",
                        if inTime then events[i].hookMetadata else "",
                        SearchStatus(ReadHeader(events[k].pdu).commandStatus).value)]
  {
    var ttl := states[0].receiver.ttl;
    var first := FirstLegInTime(ttl, events, i, j);
    var request := Correlater.Item(events[i].logId, events[i].hookMetadata, events[i].storedAt);
    FirstLeg(states, events, i, j);
    SecondLeg(states, events, j, k, states[i + 1].sequence, id, request, first);
    RunConstants(states, events, k);
    assert StepAt(states, events, k);
    LastCollectionIsOver(events, j, k);
    assert EndsBefore(events, k - 1, k);
    var (logId, hookMetadata) := Told(request, first);
    ReceiptIsAnswered(states[k], events[k], id, Correlater.Item(logId, hookMetadata, events[j].clock.storedAt),
                      LastCollection(events, j, k) - events[j].clock.storedAt <= ttl);
  }

  /**
    The first leg by itself, for every kind of response: the hook for any PDU but a
    deliver_sm that carries the number of event i's request gets that request's log_id and
    hook_metadata, exactly while the request is on file, and two empty strings otherwise.
   */
  lemma ResponseReachesHook(states: seq<System>, events: seq<Event>, i: nat, j: nat)
    requires IsRun(states, events) && Timed(events)
    requires i < j < |events| && events[i].Outgoing? && events[j].Incoming?
    requires Dispatched(events[j].pdu) && CommandOf(events[j].pdu) != Some(DeliverSm)
    requires ReadHeader(events[j].pdu).sequenceNumber == states[i + 1].sequence
    requires DrawCount(events[i + 1..j]) < Sequence.MAX_SEQUENCE
    ensures var inTime := FirstLegInTime(states[0].receiver.ttl, events, i, j);
            states[j + 1].receiver.hooks == states[j].receiver.hooks +
              [HookCall(CommandOf(events[j].pdu).value,
                        if inTime then events[i].logId else "",
                        if inTime then events[i].hookMetadata else "",
                        SearchStatus(ReadHeader(events[j].pdu).commandStatus).value)]
  {
    FirstLeg(states, events, i, j);
    assert StepAt(states, events, j);
    HookIsTold(states[j].receiver, events[j].pdu, events[j].clock);
  }

  // ----------------------------------------------------------------- the same on octets

  /** The octets of a submit_sm_resp (section 4.4.2) and of a delivery receipt (section 4.6.1). */
  function ResponsePdu(sequence: Sequence.SequenceNumber, id: string): bytes
    requires IsAscii(id) && |id| < MAX_ID
  {
    Frame(0x80000004, 0, sequence, AsciiBytes(id) + [0]).value
  }

  function ReceiptPdu(sequence: Sequence.SequenceNumber, r: Receipts.Receipt): Result<bytes>
    requires Receipts.WellFormed(r)
  {
    Frame(0x5, 0, sequence, Receipts.Body(r))
  }

  lemma ResponsePduFiles(sequence: Sequence.SequenceNumber, id: string)
    requires IsAscii(id) && '\0' !in id && |id| < MAX_ID
    ensures var pdu := ResponsePdu(sequence, id);
            |pdu| >= HEADER_LENGTH && FiledId(pdu) == Some(id) && ReadHeader(pdu).sequenceNumber == sequence
  {
    FrameReadsBack(0x80000004, 0, sequence, AsciiBytes(id) + [0]);
    CommandIdRoundTrip(SubmitSmResp, 0x80000004);
    StatusSearch(0);
    IdTextOfId(id, [0]);
  }

  /** No field and no text of the receipt looks like the tag, and nothing but NULs follows the id within the window. */
  ghost predicate Readable(r: Receipts.Receipt) {
    |r.id| < MAX_ID && Receipts.Clear(r) && OnlyNuls(InWindow(r.id, [0] + r.behind))
  }

  lemma ReceiptPduIsDispatched(sequence: Sequence.SequenceNumber, r: Receipts.Receipt)
    requires Receipts.WellFormed(r) && ReceiptPdu(sequence, r).Ok?
    ensures var pdu := ReceiptPdu(sequence, r).value;
            && Dispatched(pdu) && CommandOf(pdu) == Some(DeliverSm) && pdu[HEADER_LENGTH..] == Receipts.Body(r)
            && SearchStatus(ReadHeader(pdu).commandStatus) == Some(ESME_ROK)
  {
    FrameReadsBack(0x5, 0, sequence, Receipts.Body(r));
    RequestIds(0x5);
    StatusSearch(0);
  }

  /**
    A receipt with a text of thirty octets goes astray: whatever the state, the hook is told
    about the message whose id is spelled by the end of that text and what follows it, if
    there is one, and not about the message the receipt is for.
   */
  lemma ThirtyOctetTextGoesAstray(rcv: Receiver, number: Sequence.SequenceNumber, r: Receipts.Receipt, clock: Clock)
    requires Receipts.WellFormed(r) && ReceiptPdu(number, r).Ok?
    requires Receipts.FalseTag(r) && !Receipts.SomeCollision(Receipts.Leading(r), [])
    requires |r.before| + |r.id| <= 33 || (|r.before| <= 35 && 0x1E as char !in r.id)
    ensures Emit(Receipts.Leading(r)).Ok?
    ensures var read := IdText(Window(Receipts.Body(r), |Emit(Receipts.Leading(r)).value|));
            var (l, m) := if read.Err? then ("", "")
                          else Correlater.Answer(Correlater.Collect(rcv.store, rcv.ttl, clock.first),
                                                 Correlater.MessageId(read.value));
            && read != Ok(r.id)
            && Parse(rcv, ReceiptPdu(number, r).value, clock).hooks == rcv.hooks + [HookCall(DeliverSm, l, m, ESME_ROK)]
  {
    Receipts.ThirtyOctetText(r);
    ReceiptPduIsDispatched(number, r);
    var read := IdText(Window(Receipts.Body(r), |Emit(Receipts.Leading(r)).value|));
    ReceiptHook(rcv, ReceiptPdu(number, r).value, clock, read);
  }

  lemma ReceiptPduIsReceipt(sequence: Sequence.SequenceNumber, r: Receipts.Receipt)
    requires Receipts.WellFormed(r) && ReceiptPdu(sequence, r).Ok? && Readable(r)
    ensures var pdu := ReceiptPdu(sequence, r).value;
            && Dispatched(pdu) && CommandOf(pdu) == Some(DeliverSm)
            && ReceiptId(pdu[HEADER_LENGTH..]) == Some(Ok(r.id))
            && SearchStatus(ReadHeader(pdu).commandStatus) == Some(ESME_ROK)
  {
    ReceiptPduIsDispatched(sequence, r);
    Receipts.ReceiptUnderstood(r);
  }

  /**
    End to end from the fields of the receipt: every receipt for the id that an SMSC
    builds from the parameters of section 4.6.1, and in which neither they nor its text
    happen to contain the tag's octets, reaches the hook as stated by EndToEnd.
   */
  lemma EndToEndFromFields(states: seq<System>, events: seq<Event>, i: nat, j: nat, k: nat,
                           r: Receipts.Receipt, number: Sequence.SequenceNumber)
    requires IsRun(states, events) && Timed(events)
    requires i < j < k < |events| && events[i].Outgoing?
    requires IsResponse(events[j], states[i + 1].sequence, r.id)
    requires Receipts.WellFormed(r) && Readable(r)
    requires events[k].Incoming? && ReceiptPdu(number, r) == Ok(events[k].pdu)
    requires DrawCount(events[i + 1..j]) < Sequence.MAX_SEQUENCE
    requires forall m :: j < m < k && events[m].Incoming? ==> FiledId(events[m].pdu) != Some(r.id)
    ensures var ttl := states[0].receiver.ttl;
            var inTime := FirstLegInTime(ttl, events, i, j) && SecondLegInTime(ttl, events, j, k);
            states[k + 1].receiver.hooks == states[k].receiver.hooks +
              [HookCall(DeliverSm,
                        if inTime then events[i].logId else "",
                        if inTime then events[i].hookMetadata else "", ESME_ROK)]
  {
    ReceiptPduIsReceipt(number, r);
    EndToEnd(states, events, i, j, k, r.id);
  }

  lemma RunOfThree(states: seq<System>, events: seq<Event>)
    requires |states| == 4 && |events| == 3
    requires Draws(events[0]) && events[1].Incoming? && events[2].Incoming?
    requires states[1] == Apply(states[0], events[0])
    requires states[2] == Apply(states[1], events[1])
    requires states[3] == Apply(states[2], events[2])
    ensures IsRun(states, events)
  {
  }

  /** Three events in a row, nothing in between. */
  lemma UndisturbedExchange(states: seq<System>, events: seq<Event>, id: string)
    requires |events| == 3 && IsRun(states, events) && Timed(events) && events[0].Outgoing?
    requires IsResponse(events[1], states[1].sequence, id) && IsReceipt(events[2], id)
    ensures var ttl := states[0].receiver.ttl;
            var inTime := events[0].now - events[0].storedAt <= ttl &&
                          events[2].clock.first - events[1].clock.storedAt <= ttl;
            states[3].receiver.hooks == states[2].receiver.hooks +
              [HookCall(DeliverSm,
                        if inTime then events[0].logId else "",
                        if inTime then events[0].hookMetadata else "",
                        SearchStatus(ReadHeader(events[2].pdu).commandStatus).value)]
  {
    assert events[1..1] == [];
    assert LastCollection(events, 0, 1) == events[0].now;
    EndToEnd(states, events, 0, 1, 2, id);
  }

  lemma TimedThree(request: Event, response: bytes, receipt: bytes, t2: real, t3: real)
    requires Draws(request) && request.storedAt <= request.now <= t2 <= t3
    ensures Timed([request, Incoming(response, Clock(t2, t2, t2)), Incoming(receipt, Clock(t3, t3, t3))])
  {
  }

  lemma ExchangeOf(states: seq<System>, request: Event, response: bytes, receipt: bytes, id: string, t2: real, t3: real)
    requires |states| == 4 && Draws(request) && request.storedAt <= request.now <= t2 <= t3
    requires |response| >= HEADER_LENGTH && FiledId(response) == Some(id)
    requires ReadHeader(response).sequenceNumber == states[1].sequence
    requires Dispatched(receipt) && CommandOf(receipt) == Some(DeliverSm)
    requires ReceiptId(receipt[HEADER_LENGTH..]) == Some(Ok(id))
    requires states[1] == Apply(states[0], request)
    requires states[2] == Apply(states[1], Incoming(response, Clock(t2, t2, t2)))
    requires states[3] == Apply(states[2], Incoming(receipt, Clock(t3, t3, t3)))
    ensures var ttl := states[0].receiver.ttl;
            var inTime := request.now - request.storedAt <= ttl && t3 - t2 <= ttl;
            states[3].receiver.hooks == states[2].receiver.hooks +
              [HookCall(DeliverSm,
                        if inTime then request.logId else "",
                        if inTime then request.hookMetadata else "",
                        SearchStatus(ReadHeader(receipt).commandStatus).value)]
  {
    var events := [request, Incoming(response, Clock(t2, t2, t2)), Incoming(receipt, Clock(t3, t3, t3))];
    assert events[0] == request && events[1].pdu == response && events[2].pdu == receipt;
    TimedThree(request, response, receipt, t2, t3);
    RunOfThree(states, events);
    UndisturbedExchange(states, events, id);
  }

  /**
    The undisturbed exchange: from any state, a request, its response and a receipt for
    it, built octet by octet from their fields, form a run.  It ends in the request's own
    hook data, however late the response is, if and only if filing the request took no
    longer than the ttl and the receipt follows the response within it.
   */
  lemma ThreeMessageExchange(states: seq<System>, request: Event, r: Receipts.Receipt, t2: real, t3: real,
                             number: Sequence.SequenceNumber)
    requires Receipts.WellFormed(r) && Readable(r) && ReceiptPdu(number, r).Ok?
    requires |states| == 4 && Draws(request) && request.storedAt <= request.now <= t2 <= t3
    requires states[1] == Apply(states[0], request)
    requires states[2] == Apply(states[1], Incoming(ResponsePdu(states[1].sequence, r.id), Clock(t2, t2, t2)))
    requires states[3] == Apply(states[2], Incoming(ReceiptPdu(number, r).value, Clock(t3, t3, t3)))
    ensures var ttl := states[0].receiver.ttl;
            var inTime := request.now - request.storedAt <= ttl && t3 - t2 <= ttl;
            states[3].receiver.hooks == states[2].receiver.hooks +
              [HookCall(DeliverSm,
                        if inTime then request.logId else "",
                        if inTime then request.hookMetadata else "", ESME_ROK)]
  {
    ResponsePduFiles(states[1].sequence, r.id);
    ReceiptPduIsReceipt(number, r);
    ExchangeOf(states, request, ResponsePdu(states[1].sequence, r.id), ReceiptPdu(number, r).value, r.id, t2, t3);
  }

  // ----------------------------------------------------------------- throttle accounting

  /** The throttle handler's view of an event. */
  function ThrottleEvents(e: Event): seq<Throttle.Event> {
    match e
    case Outgoing(_, _, _, _, _) => []
    case Incoming(pdu, _) =>
      if Counts(pdu) then [Throttle.Response(Throttles(pdu))] else []
    case Asking(now) => [Throttle.Asked(now)]
  }

  function ThrottleHistory(events: seq<Event>): seq<Throttle.Event> {
    if events == [] then []
    else ThrottleHistory(events[..|events| - 1]) + ThrottleEvents(events[|events| - 1])
  }

  lemma HistoryGrows(events: seq<Event>, n: nat)
    requires 0 < n <= |events|
    ensures ThrottleHistory(events[..n]) == ThrottleHistory(events[..n - 1]) + ThrottleEvents(events[n - 1])
  {
    assert events[..n][..n - 1] == events[..n - 1];
  }

  /** One event does to the window what its entry in the throttle handler's history does. */
  lemma WindowFollowsEvent(s: System, e: Event, t0: real, h: seq<Throttle.Event>)
    requires s.receiver.window == Throttle.Run(s.config, t0, h)
    ensures Apply(s, e).receiver.window == Throttle.Run(s.config, t0, h + ThrottleEvents(e))
  {
    if e.Incoming? {
      ParseTallies(s.receiver, e.pdu, e.clock);
      CountsIsDispatched(e.pdu);
    }
    if ThrottleEvents(e) == [] {
      assert h + ThrottleEvents(e) == h;
    } else {
      Throttle.RunSnoc(s.config, t0, h, ThrottleEvents(e)[0]);
      assert h + ThrottleEvents(e) == h + [ThrottleEvents(e)[0]];
    }
  }

  lemma {:induction false} WindowFollowsHistory(states: seq<System>, events: seq<Event>, t0: real, n: nat)
    requires IsRun(states, events) && states[0].receiver.window == Throttle.Window(0, 0, t0) && n <= |events|
    ensures states[n].receiver.window == Throttle.Run(states[0].config, t0, ThrottleHistory(events[..n]))
  {
    if n > 0 {
      WindowFollowsHistory(states, events, t0, n - 1);
      RunConstants(states, events, n - 1);
      assert StepAt(states, events, n - 1);
      HistoryGrows(events, n);
      WindowFollowsEvent(states[n - 1], events[n - 1], t0, ThrottleHistory(events[..n - 1]));
    }
  }

  function Responses(h: seq<Throttle.Event>): nat {
    Throttle.Count(h, true) + Throttle.Count(h, false)
  }

  /**
    Accounting: at every point of every run, the two counters add up to the number of
    PDUs with a recognised command and status dispatched since the last reset, and the
    throttling ones among them are exactly those with status RTHROTTLED or RMSGQFUL.
   */
  lemma ThrottleAccounting(states: seq<System>, events: seq<Event>, t0: real, n: nat) returns (p: nat)
    requires IsRun(states, events) && states[0].receiver.window == Throttle.Window(0, 0, t0) && n <= |events|
    ensures Throttle.LastReset(states[0].config, t0, ThrottleHistory(events[..n]), p)
    ensures var since := ThrottleHistory(events[..n])[p..];
            && states[n].receiver.window.throttle == Throttle.Count(since, true)
            && states[n].receiver.window.throttle + states[n].receiver.window.nonThrottle == Responses(since)
  {
    WindowFollowsHistory(states, events, t0, n);
    p := Throttle.CountsSinceReset(states[0].config, t0, ThrottleHistory(events[..n]));
  }
}
