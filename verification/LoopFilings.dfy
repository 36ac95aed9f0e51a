/**
  The loop and the correlater: every submit_sm on the wire carries a sequence number under
  which its own log_id and hook_metadata had been filed before it was written, and no two
  of them share a number until the generator has gone all the way round.  So a message of
  the broker reaches the SMSC as itself, and its receipt reaches the hook as its own.
 */
module LoopFilings {
  import opened Bytes
  import opened Commands
  import Correlation
  import Dispatch
  import DispatchTheorems
  import GsmCodec
  import OptionalTags
  import P = Pdu
  import Sequence
  import SubmitSm
  import opened SessionSpec
  import opened SessionTheorems
  import opened DequeueLoop

  predicate IsSubmission(e: Entry) {
    e.pdu.command == Command.SubmitSm && e.pdu.origin.Broker?
  }

  /** Filing f is the one that belongs to log entry number a. */
  predicate FiledAs(f: Filing, e: Entry, a: nat, accepted: seq<Dispatch.Queued>) {
    && IsSubmission(e) && f.index == e.pdu.origin.index && f.number == e.pdu.origin.number
    && f.index < |accepted| && accepted[f.index].Submission?
    && SubmitSm.Build(accepted[f.index].message, f.number).Ok?
    && f.logId == accepted[f.index].message.logId && f.hookMetadata == accepted[f.index].message.hookMetadata
    && f.writes <= a
  }

  ghost predicate HasFiling(filings: seq<Filing>, e: Entry, a: nat, accepted: seq<Dispatch.Queued>) {
    exists k :: 0 <= k < |filings| && FiledAs(filings[k], e, a, accepted)
  }

  ghost predicate AllFiled(filings: seq<Filing>, log: seq<Entry>, accepted: seq<Dispatch.Queued>) {
    forall a :: 0 <= a < |log| && IsSubmission(log[a]) ==> HasFiling(filings, log[a], a, accepted)
  }

  lemma FilingsGrow(filings: seq<Filing>, more: seq<Filing>, log: seq<Entry>, accepted: seq<Dispatch.Queued>,
                    later: seq<Dispatch.Queued>)
    requires AllFiled(filings, log, accepted) && filings <= more && accepted <= later
    ensures AllFiled(more, log, later)
  {
    forall a | 0 <= a < |log| && IsSubmission(log[a])
      ensures HasFiling(more, log[a], a, later)
    {
      var k :| 0 <= k < |filings| && FiledAs(filings[k], log[a], a, accepted);
      assert FiledAs(more[k], log[a], a, later);
    }
  }

  lemma LogGrows(filings: seq<Filing>, before: seq<Entry>, after: seq<Entry>, accepted: seq<Dispatch.Queued>)
    requires AllFiled(filings, before, accepted) && before <= after
    requires forall a :: |before| <= a < |after| && IsSubmission(after[a]) ==> HasFiling(filings, after[a], a, accepted)
    ensures AllFiled(filings, after, accepted)
  {
    assert forall a :: 0 <= a < |before| ==> after[a] == before[a];
  }

  lemma OtherTaskKeepsFiled(l: Loop, step: SessionSpec.Step, session: Session)
    requires Orderly(l) && AllFiled(l.books.filings, l.session.log, l.accepted)
    requires OwnStep(step) && SessionSpec.Next(l.session, step, session)
    ensures AllFiled(l.books.filings, session.log, l.accepted)
  {
    var fuel: nat :| Apply(l.session, step, fuel) == Done(session) || Apply(l.session, step, fuel) == Raised(session);
    StepKeepsValid(l.session, step, fuel);
    assert AskedFor(step).origin == Own;
    LogGrows(l.books.filings, l.session.log, session.log, l.accepted);
  }

  /** A submission that is about to be sent has just been filed. */
  lemma EnteredFirst(books: Books, index: nat, q: Dispatch.Queued, writes: nat, storedAt: real, now: real)
    requires q.Submission? && Builds(q, NumberFor(books, q))
    ensures var entered := Entered(books, index, q, writes, storedAt, now);
            entered.filings == books.filings +
              [Filing(index, NumberFor(books, q), q.message.logId, q.message.hookMetadata, books.drawn + 1, writes)]
  {
  }

  lemma SentKeepsFiled(books: Books, before: seq<Entry>, after: seq<Entry>, accepted: seq<Dispatch.Queued>, index: nat,
                       wrote: bool, storedAt: real, now: real)
    requires AllFiled(books.filings, before, accepted) && index < |accepted|
    requires Builds(accepted[index], NumberFor(books, accepted[index]))
    requires Extends(before, after,
                     Pdu(CommandFor(accepted[index]), Broker(index, NumberFor(books, accepted[index]))), wrote)
    ensures AllFiled(Entered(books, index, accepted[index], |before|, storedAt, now).filings, after, accepted)
  {
    var q := accepted[index];
    var filings := Entered(books, index, q, |before|, storedAt, now).filings;
    FilingsGrow(books.filings, filings, before, accepted, accepted);
    forall a | |before| <= a < |after| && IsSubmission(after[a])
      ensures HasFiling(filings, after[a], a, accepted)
    {
      assert q.Submission?;
      EnteredFirst(books, index, q, |before|, storedAt, now);
      assert FiledAs(filings[|books.filings|], after[a], a, accepted);
    }
    LogGrows(filings, before, after, accepted);
  }

  lemma SendKeepsFiled(l: Loop, storedAt: real, now: real, t: Loop)
    requires Orderly(l) && AllFiled(l.books.filings, l.session.log, l.accepted)
    requires DequeueLoop.Next(l, SendMessage(storedAt, now), t)
    ensures AllFiled(t.books.filings, t.session.log, t.accepted)
  {
    var index := l.pc.index;
    var q := l.accepted[index];
    if Builds(q, NumberFor(l.books, q)) {
      var pdu := PduFor(l, index);
      var fuel: nat :| SendData(l.session, pdu, fuel) == Done(t.session);
      SendDataKeeps(l.session, pdu, fuel);
      SentKeepsFiled(l.books, l.session.log, t.session.log, l.accepted, index,
                     Admissible(l.session.state, pdu.command), storedAt, now);
    } else {
      FilingsGrow(l.books.filings, t.books.filings, l.session.log, l.accepted, l.accepted);
    }
  }

  lemma NextKeepsFiled(l: Loop, step: DequeueLoop.Step, t: Loop)
    requires Orderly(l) && AllFiled(l.books.filings, l.session.log, l.accepted) && DequeueLoop.Next(l, step, t)
    ensures AllFiled(t.books.filings, t.session.log, t.accepted)
  {
    match step
    case SendMessage(storedAt, now) => SendKeepsFiled(l, storedAt, now, t);
    case OtherTask(other) => OtherTaskKeepsFiled(l, other, t.session);
    case Accept(_) => FilingsGrow(l.books.filings, l.books.filings, l.session.log, l.accepted, t.accepted);
    case _ =>
  }

  /**
    Filed before written: in every run, whatever the other tasks do, each submit_sm that a
    broker message caused to be written carries a number under which the log_id and
    hook_metadata of that very message were filed before the write.
   */
  lemma {:induction false} FiledBeforeWritten(states: seq<Loop>, steps: seq<DequeueLoop.Step>, t0: real, n: nat)
    requires DequeueLoop.IsRun(states, steps) && Begins(states[0], t0) && n < |states|
    ensures AllFiled(states[n].books.filings, states[n].session.log, states[n].accepted)
  {
    if n > 0 {
      FiledBeforeWritten(states, steps, t0, n - 1);
      AtMostOnceInOrder(states, steps, t0, n - 1);
      NextKeepsFiled(states[n - 1], steps[n - 1], states[n]);
    }
  }

  // ----------------------------------------------------------------- distinct numbers

  /** Every number is the one that its draw, counted from the first, must yield; draws only go up. */
  ghost predicate Counted(first: Sequence.SequenceNumber, books: Books) {
    && books.sequence == Sequence.After(first, books.drawn)
    && (forall k :: 0 <= k < |books.filings| ==>
          0 < books.filings[k].draw <= books.drawn &&
          books.filings[k].number == Sequence.After(first, books.filings[k].draw))
    && (forall j, k :: 0 <= j < k < |books.filings| ==> books.filings[j].draw < books.filings[k].draw)
  }

  lemma EnteredKeepsCounted(first: Sequence.SequenceNumber, books: Books, index: nat, q: Dispatch.Queued, writes: nat,
                            storedAt: real, now: real)
    requires Counted(first, books)
    ensures Counted(first, Entered(books, index, q, writes, storedAt, now))
  {
  }

  lemma NextKeepsCounted(l: Loop, step: DequeueLoop.Step, t: Loop, first: Sequence.SequenceNumber)
    requires Counted(first, l.books) && DequeueLoop.Next(l, step, t)
    ensures Counted(first, t.books)
  {
    match step
    case OtherUse(draws, _) => Sequence.AfterAdds(first, l.books.drawn, draws);
    case SendMessage(storedAt, now) =>
      EnteredKeepsCounted(first, l.books, l.pc.index, l.accepted[l.pc.index], |l.session.log|, storedAt, now);
    case _ =>
  }

  lemma {:induction false} RunIsCounted(states: seq<Loop>, steps: seq<DequeueLoop.Step>, t0: real, n: nat)
    requires DequeueLoop.IsRun(states, steps) && Begins(states[0], t0) && n < |states|
    ensures Counted(states[0].books.sequence, states[n].books)
  {
    if n > 0 {
      RunIsCounted(states, steps, t0, n - 1);
      NextKeepsCounted(states[n - 1], steps[n - 1], states[n], states[0].books.sequence);
    }
  }

  lemma DifferentDraws(first: Sequence.SequenceNumber, i: nat, j: nat)
    requires i < j < i + Sequence.MAX_SEQUENCE
    ensures Sequence.After(first, i) != Sequence.After(first, j)
  {
    Sequence.AfterAdds(first, i, j - i);
    Sequence.Period(Sequence.After(first, i), j - i);
  }

  lemma FiledNumbersDiffer(first: Sequence.SequenceNumber, books: Books, e: Entry, a: nat, f: Entry, b: nat,
                           accepted: seq<Dispatch.Queued>)
    requires Counted(first, books) && books.drawn <= Sequence.MAX_SEQUENCE
    requires HasFiling(books.filings, e, a, accepted) && HasFiling(books.filings, f, b, accepted)
    requires IsSubmission(e) && IsSubmission(f) && e.pdu.origin.index != f.pdu.origin.index
    ensures e.pdu.origin.number != f.pdu.origin.number
  {
    var filings := books.filings;
    var j :| 0 <= j < |filings| && FiledAs(filings[j], e, a, accepted);
    var k :| 0 <= k < |filings| && FiledAs(filings[k], f, b, accepted);
    if j < k {
      DifferentDraws(first, filings[j].draw, filings[k].draw);
    } else {
      assert k < j;
      DifferentDraws(first, filings[k].draw, filings[j].draw);
    }
  }

  /**
    No two submit_sm of a run carry the same sequence number, as long as all tasks
    together have not drawn more numbers than there are.
   */
  lemma NumbersDiffer(states: seq<Loop>, steps: seq<DequeueLoop.Step>, t0: real, n: nat, a: nat, b: nat)
    requires DequeueLoop.IsRun(states, steps) && Begins(states[0], t0) && n < |states|
    requires a < b < |states[n].session.log|
    requires IsSubmission(states[n].session.log[a]) && IsSubmission(states[n].session.log[b])
    requires states[n].books.drawn <= Sequence.MAX_SEQUENCE
    ensures states[n].session.log[a].pdu.origin.number != states[n].session.log[b].pdu.origin.number
  {
    var l := states[n];
    FiledBeforeWritten(states, steps, t0, n);
    RunIsCounted(states, steps, t0, n);
    AtMostOnceInOrder(states, steps, t0, n);
    FiledNumbersDiffer(states[0].books.sequence, l.books, l.session.log[a], a, l.session.log[b], b, l.accepted);
  }

  // ----------------------------------------------------------------- the octets on the wire

  /** The octets that are built for a broker message under a number. */
  function OctetsOf(q: Dispatch.Queued, number: int): Result<bytes> {
    match q
    case Submission(m) => SubmitSm.Build(m, number)
    case _ => Dispatch.BuildReply(q)
  }

  /** The command that send_data is told is the one in the octets' header, and the number too. */
  lemma CommandIsInTheOctets(q: Dispatch.Queued, books: Books)
    requires OctetsOf(q, NumberFor(books, q)).Ok?
    ensures var octets := OctetsOf(q, NumberFor(books, q)).value;
            && |octets| >= 16
            && SearchCommand(P.ReadHeader(octets).commandId) == Some(CommandFor(q))
            && P.ReadHeader(octets).sequenceNumber == NumberFor(books, q)
  {
    match q
    case Submission(m) => SubmitSm.BuildsSubmitSm(m, NumberFor(books, q));
    case DeliverSmReply(sequence) =>
      P.FrameReadsBack(0x80000005, 0, sequence, [0]);
      CommandIdRoundTrip(DeliverSmResp, 0x80000005);
    case EnquireLinkReply(sequence) =>
      P.FrameReadsBack(0x80000015, 0, sequence, []);
      CommandIdRoundTrip(EnquireLinkResp, 0x80000015);
  }

  /** The message behind a submit_sm on the wire. */
  function MessageOf(e: Entry, accepted: seq<Dispatch.Queued>): SubmitSm.Message
    requires IsSubmission(e) && e.pdu.origin.index < |accepted| && accepted[e.pdu.origin.index].Submission?
  {
    accepted[e.pdu.origin.index].message
  }

  lemma FiledIsBuilt(filings: seq<Filing>, e: Entry, a: nat, accepted: seq<Dispatch.Queued>)
    requires HasFiling(filings, e, a, accepted)
    ensures IsSubmission(e) && e.pdu.origin.index < |accepted| && accepted[e.pdu.origin.index].Submission?
    ensures SubmitSm.Build(MessageOf(e, accepted), e.pdu.origin.number).Ok?
  {
    var k :| 0 <= k < |filings| && FiledAs(filings[k], e, a, accepted);
  }

  /**
    From the broker to the SMSC: in every run, from the octets of each submit_sm on the wire
    a receiver reads back the broker's own message, with the number of its entry in the
    header, under exactly the conditions of SubmitRoundTrip.
   */
  lemma WrittenOctetsReadBack(states: seq<Loop>, steps: seq<DequeueLoop.Step>, t0: real, n: nat, a: nat, skipNul: bool)
    requires DequeueLoop.IsRun(states, steps) && Begins(states[0], t0) && n < |states|
    requires a < |states[n].session.log| && IsSubmission(states[n].session.log[a])
    ensures var e, accepted := states[n].session.log[a], states[n].accepted;
            && e.pdu.origin.index < |accepted| && accepted[e.pdu.origin.index].Submission?
            && var m, number := MessageOf(e, accepted), e.pdu.origin.number;
            && SubmitSm.Build(m, number).Ok?
            && var octets := SubmitSm.Build(m, number).value;
            && (SubmitSm.Parse(octets, skipNul) == Some(SubmitSm.Expected(m, octets, number)) <==>
                  && SubmitSm.NulFreeMessage(m)
                  && GsmCodec.ESC !in GsmCodec.Sanitised(m.shortMessage, m.errors)
                  && (skipNul || !OptionalTags.HasText(OptionalTags.TruthyOnly(m.params))))
  {
    FiledBeforeWritten(states, steps, t0, n);
    var e, accepted := states[n].session.log[a], states[n].accepted;
    FiledIsBuilt(states[n].books.filings, e, a, accepted);
    SubmitSm.SubmitRoundTrip(MessageOf(e, accepted), e.pdu.origin.number, skipNul);
  }

  // ----------------------------------------------------------------- from the broker to the hook

  /** The loop and the receiving half share one generator and one correlater. */
  predicate Shares(books: Books, s: Correlation.System) {
    books.sequence == s.sequence && books.store == s.receiver.store && books.ttl == s.receiver.ttl
  }

  function RequestFor(m: SubmitSm.Message, storedAt: real, now: real): Correlation.Event {
    Correlation.Outgoing(Command.SubmitSm, m.logId, m.hookMetadata, storedAt, now)
  }

  /** Sending a submission is one of the requests that Correlation is about, under the number on the wire. */
  lemma SendIsRequest(books: Books, index: nat, m: SubmitSm.Message, writes: nat, storedAt: real, now: real,
                      s: Correlation.System)
    requires SubmitSm.Body(m).Ok? && Shares(books, s)
    ensures var q := Dispatch.Submission(m);
            var next := Correlation.Apply(s, RequestFor(m, storedAt, now));
            Shares(Entered(books, index, q, writes, storedAt, now), next) && next.sequence == NumberFor(books, q)
  {
  }

  /**
    From the broker to the hook.  When the loop sends the message it holds as event i, a
    response carrying the number of that PDU arrives as event j and a receipt for the
    response's id as event k, then the hook is told the log_id and hook_metadata of that
    very broker message, exactly when EndToEnd says so.
   */
  lemma BrokerMessageReachesHook(l: Loop, storedAt: real, now: real, t: Loop, states: seq<Correlation.System>,
                                 events: seq<Correlation.Event>, i: nat, j: nat, k: nat, id: string)
    requires DequeueLoop.Next(l, SendMessage(storedAt, now), t) && l.accepted[l.pc.index].Submission?
    requires SubmitSm.Body(l.accepted[l.pc.index].message).Ok?
    requires Correlation.IsRun(states, events) && Correlation.Timed(events) && i < j < k < |events|
    requires Shares(l.books, states[i])
    requires events[i] == RequestFor(l.accepted[l.pc.index].message, storedAt, now)
    requires Correlation.IsResponse(events[j], PduFor(l, l.pc.index).origin.number, id)
    requires Correlation.IsReceipt(events[k], id)
    requires Correlation.DrawCount(events[i + 1..j]) < Sequence.MAX_SEQUENCE
    requires forall m :: j < m < k && events[m].Incoming? ==> DispatchTheorems.FiledId(events[m].pdu) != Some(id)
    ensures Shares(t.books, states[i + 1])
    ensures var m, ttl := l.accepted[l.pc.index].message, l.books.ttl;
            var inTime := Correlation.FirstLegInTime(ttl, events, i, j) &&
                          Correlation.SecondLegInTime(ttl, events, j, k);
            states[k + 1].receiver.hooks == states[k].receiver.hooks +
              [Dispatch.HookCall(DeliverSm, if inTime then m.logId else "", if inTime then m.hookMetadata else "",
                                 SearchStatus(P.ReadHeader(events[k].pdu).commandStatus).value)]
  {
    assert Correlation.StepAt(states, events, i);
    SendIsRequest(l.books, l.pc.index, l.accepted[l.pc.index].message, |l.session.log|, storedAt, now, states[i]);
    Correlation.RunConstants(states, events, i);
    Correlation.EndToEnd(states, events, i, j, k, id);
  }
}
