# naz, an SMPP v3.4 client: a verified model

naz keeps one SMPP session to an SMSC: it binds, sends the messages that a broker
queues, reads what comes back, and tells the user's hooks about it. This project models
the parts of it where the difficulty lies, in Dafny 4.11, and proves what they keep.
`dafny verify dfyconfig.toml` checks everything.

| file | what it models |
|---|---|
| `Bytes`, `RealArithmetic` | octets, packing, exceptions; the little non-linear arithmetic the bounds need |
| `GsmCodec` | the GSM 03.38 codec and its error handlers |
| `OptionalTags`, `Pdu`, `SubmitSm` | TLVs, headers and mandatory parameters, the submit_sm PDU, and a strict and a lenient reader of it |
| `Deframing` | `receive_data`: cutting the streams of successive connections back into PDUs |
| `Commands` | the command-id and command-status tables and their searches |
| `SessionSpec`, `Session`, `SessionTheorems` | the session state machine, the client object proved against it, and what holds in every run |
| `Sending`, `Delivery` | what each operation writes and leaves, command by command; bind first, counting only what reached the transport |
| `Sequence`, `Correlater`, `RateLimiter`, `Throttle` | the stateful policies, as classes proved against functions with histories |
| `Dispatch`, `DispatchTheorems`, `Receipts`, `Correlation` | `_parse_response_pdu` and `command_handlers`, delivery receipts, and correlation across messages |
| `DequeueLoop`, `Stopping`, `LoopFilings`, `Worker` | `dequeue_messages` among the other tasks, when a shutdown stops it, its messages from broker to wire to hook, and one pass of its body on the real objects |
| `Protocol` | messages as dictionaries and back |

How the world outside is modelled:

- The network is an oracle: any answer to every connect, every `is_closing()` and every
  write is allowed. Each operation of a task runs to completion; receiving happens only in
  BOUND_TRX, as `receive_data` checks. The log holds every call of `writer.write`, with
  the connection it went to.
- `send_data` and `re_establish_conn_bind` recurse through `tranceiver_bind` without a bound
  of their own. Their meaning is given up to a recursion depth; `SessionTheorems.Termination`
  and `SessionTheorems.SendDataTermination` say exactly when some depth is enough, and
  `SessionTheorems.FuelIrrelevant` that all such depths agree.
- Clocks are readings given from outside, times and token counts are exact reals, and
  Python's float rounding is not modelled (`round(x, 2)` is, with ties to even).

Where code and documentation differ, the model follows the code:

- The comment at naz/state.py:442-447 counts the NUL of a text parameter in its length
  field; `length` and `tlv` do not. A strict reader therefore loses its place after a text:
  `OptionalTags.OptionalRoundTrip` and `SubmitSm.SubmitRoundTrip` prove that it recovers the
  parameters, and the message, exactly when there is none.
- BOUND_TRX is documented as the state after the SMSC's consent (naz/state.py:17-18) but is
  entered when the bind has been written (naz/client.py:1507-1513): by
  `SessionTheorems.ConsentPlaysNoPart` no run depends on the SMSC's answer, and
  `SessionTheorems.BoundByFlushedBind` says what it does depend on; receiving the acceptance
  can even be struck out of a run (`SessionTheorems.ConsentCanBeRemoved`).
- A bind is meant to come first on every connection (naz/client.py:1450-1470). That holds of the calls of
  `write` (`SessionTheorems.BindFirstAlways`), but not of what they hand over:
  `Delivery.RaisingBindWriteBreaksDelivery` is a run that breaks it, and
  `Delivery.SendBreaks` and `Delivery.DeliveredBindFirstExactly` say exactly which calls and runs do.
- `receive_data` is meant to hand on the PDUs of the SMSC. After a connection that was lost
  inside a body, the chunk loop takes the missing octets from the next connection
  (naz/client.py:1829-1884): `Deframing.NextConnectionIsMisframed` is such a pair of
  connections, and `Deframing.ResynchronisesExactly` says that nothing else disturbs the next one.
- `shutdown` promises to stop the consumer (naz/client.py:2327-2331), but SHOULD_SHUT_DOWN is looked
  at only at the top of the loop and after a broker error. `Stopping.StopsExactly` says exactly
  which loops can stop, wherever they are when the flag is set. Two that cannot are reached by
  `Stopping.ShutdownStrandsWaitingLoop`, waiting for BOUND_TRX, and `Stopping.IdleShutdownStrandsLoop`,
  waiting at an empty broker.
- The id of a delivery receipt is looked for as two octets anywhere in the body
  (naz/client.py:2157-2177). `Receipts.ReceiptUnderstood` says exactly which receipts are
  understood; those with a text of thirty octets are not: `Correlation.ThirtyOctetTextGoesAstray`.
- A correlater entry is said to be deleted after max_ttl (naz/correlater.py:154-164), but `get` looks before it
  collects: `Correlater.ExpiredAnswer` says exactly when it answers from an expired entry,
  `Correlater.ExpiredAnswersOnce` that this happens once, and
  `Correlater.ExpiredAnswerExists` that it does happen for every max_ttl.

## Model

| member | source | states |
|---|---|---|
| `SessionSpec.SendDataKeeps` | naz/client.py:1373-1545 | for any depth of reconnection, send_data keeps the session invariant, writes its own PDU at most once and last, and nothing else but binds; it never meets a missing writer |
| `Sending.WhichPdusAreWritten` | naz/client.py:1404-1513 | bound, every command is written, on the final connection; open, exactly enquire_link and the three binds are, and any other call changes nothing; closed, only binds are |
| `Sending.WhenItReconnects` | naz/client.py:1404-1473 | exactly when a call tries to reconnect: never while shutting down; closed, always; otherwise when it has something to write and finds its transport closing, an enquire_link on an open session included |
| `Sending.WhatConnectLeaves` | naz/client.py:588-627 | accepted, an open session on a new connection; refused, whatever session there was; nothing written |
| `Sending.WhatDisconnectLeaves` | naz/client.py:2335-2383 | an unbind as the last PDU of a bound session, nothing from an open one, and once drained no writer and CLOSED |
| `Sending.WhatShutdownLeaves` | naz/client.py:2315-2333 | the flag is set, no connection is attempted, exactly one unbind is written if the session was bound |
| `Sending.WhatReceiveLeaves` | naz/client.py:1744-1758 | a received unbind is answered with unbind_resp; any other PDU changes nothing; not bound, the loop tries to reconnect unless shutting down |
| `SessionSpec.ReEstablishKeeps` | naz/client.py:1319-1371 | reconnecting keeps the invariant, writes only binds, and leaves a writer that carries a bind if there was one before |
| `SessionSpec.WriteKeepsValid` | naz/client.py:1490-1513 | writing a bind, or anything on a connection that carries one, keeps bind-first and the BOUND_TRX invariant |
| `SessionTheorems.StepKeepsValid` | naz/client.py:1319-1545 | every step of every task keeps the invariant, only appends to the log, and raises exactly for a disconnect or shutdown without a writer |
| `SessionTheorems.BindFirstAlways` | naz/client.py:1404-1513 | in every run from a fresh client and for every network, only binds and enquire_links precede the first bind_transceiver on a connection, and BOUND_TRX implies that the current writer carries a bind |
| `Delivery.SendBreaks` | naz/client.py:1472-1535 | from BOUND_TRX, sending a PDU that needs a bind delivers it without a delivered bind on its connection if and only if the writer is closing, the client is not shutting down, the reconnection succeeds, every bind it writes raises, and the PDU's own write does not |
| `Delivery.DeliveredBindFirstExactly` | naz/client.py:1319-1535 | in every run from a fresh client, BOUND_TRX means that a bind was delivered on the current connection, and delivered bind first holds if and only if no step so far was such a breaking one |
| `Delivery.ReEstablishWrites` | naz/client.py:1319-1371 | every bind of a reconnection goes to the connection it ends with, a new one; how many there are, and their fate, follow from the network's answers |
| `Delivery.RaisingBindWriteBreaksDelivery` | naz/client.py:1472-1535 | a run in which the caught error leaves the client OPEN on a new connection where a submit_sm is then the first PDU delivered |
| `SessionTheorems.ConsentPlaysNoPart` | naz/client.py:2087-2092 | the runs of the client stay the same, state by state and write by write, when every accepting bind response is replaced by one that changes nothing |
| `SessionTheorems.BoundByFlushedBind` | naz/client.py:1503-1513 | a step takes a session to BOUND_TRX if and only if it had a bind_transceiver written and drained and did not then close the connection |
| `SessionTheorems.UnguardedBindResponseBreaksValid` | naz/client.py:1744-1758 | accepting a bind response outside BOUND_TRX would break bind-first, so receive_data's guard is needed |
| `SessionTheorems.SilenceLasts` | naz/client.py:1341-1352 | once shutting down and CLOSED, no task ever writes again unless connect is called |
| `SessionTheorems.FuelNeeded` | naz/client.py:1356-1359 | exactly how deep the reconnect recursion goes, from the network's answers |
| `SessionTheorems.Termination` | naz/client.py:1356-1359 | re_establish_conn_bind returns if and only if the client is shutting down or some reconnection is refused or not already closing |
| `SessionTheorems.SendDataTermination` | naz/client.py:1404-1473 | the same condition for send_data, with the branches that do not recurse at all |
| `SessionTheorems.FuelIrrelevant` | naz/client.py:1373-1545 | a call has one outcome, whatever sufficient depth it is computed at |
| `Session.Client.Connect` | naz/client.py:588-627 | connect, success and swallowed failure, against the state machine |
| `Session.Client.TranceiverBind` | naz/client.py:629-726 | sends exactly a bind through send_data |
| `Session.Client.ReEstablishConnBind` | naz/client.py:1319-1371 | the method refines the reconnect step of the state machine |
| `Session.Client.SendData` | naz/client.py:1404-1535 | the method refines the send step, branch by branch, and never dereferences a missing writer |
| `Session.Client.UnbindAndDisconnect` | naz/client.py:2335-2383 | unbind, drain, close: refines the state machine and raises exactly when there is no writer |
| `Session.Client.Shutdown` | naz/client.py:2315-2333 | sets the flag first, then disconnects |
| `DequeueLoop.AtMostOnceInOrder` | naz/client.py:1547-1722 | in every run, broker messages reach the wire in broker order, no message twice, each as the PDU its kind asks for, and the log stays bind-first |
| `DequeueLoop.ShutdownTakesAtMostOne` | naz/client.py:1559-1568 | after SHOULD_SHUT_DOWN is set at most one more message is dequeued |
| `Stopping.StopsExactly` | naz/client.py:1556-1682 | without outside help a loop that is shutting down can stop if and only if its way back to the top is open: always at the top and with a message in hand; at the broker, if a message waits; at the limiter, if moreover a call can end; at the throttle handler, that or a denial; waiting for BOUND_TRX, if moreover the session is bound, or is open and some later bind is flushed before a closing transport is met |
| `Stopping.ShutdownStrandsWaitingLoop` | naz/client.py:1559-1588 | for every network, a three-step run from the start to a loop that waits for BOUND_TRX and cannot stop |
| `Stopping.IdleShutdownStrandsLoop` | naz/client.py:1592-1682 | a run of an idle, bound client whose loop waits at an empty broker when it is shut down, and cannot stop |
| `LoopFilings.FiledBeforeWritten` | naz/client.py:1646-1682 | in every run, each submit_sm written for a broker message carries a number under which that message's own log_id and hook_metadata were filed before the write |
| `LoopFilings.NumbersDiffer` | naz/client.py:1250-1282 | no two submit_sm of a run carry the same number while all tasks together have drawn no more than 0x7FFFFFFF |
| `LoopFilings.WrittenOctetsReadBack` | naz/client.py:1646-1682 | in every run, the octets of each submit_sm on the wire are read back as the broker's own message under exactly the conditions of the submit_sm round trip |
| `LoopFilings.CommandIsInTheOctets` | naz/client.py:1646-1682 | the command that send_data is told for a broker message is the one in the header of the octets built for it, and so is the number |
| `LoopFilings.BrokerMessageReachesHook` | naz/client.py:1646-2182 | the hook for the receipt of a message that the loop took from the broker gets that message's own log_id and hook_metadata, exactly when both legs are in time |
| `DequeueLoop.ComposedRate` | naz/client.py:1592-1682 | messages dequeued by time t never exceed send_rate * (1 + t - t0) plus the number of times limit raised and was ignored |
| `DequeueLoop.WindowRate` | naz/client.py:1592-1682 | between any two states L seconds apart at most send_rate * (L + 1) messages are dequeued, plus one per raise in between and the one already waited for |
| `Worker.Dequeuer.Pass` | naz/client.py:1556-1722 | the whole outcome of one uninterrupted pass: flag, session, throttle handler, limiter, broker, build, file and send, on the real objects |
| `Worker.PassedPoints` | naz/client.py:1556-1722 | it stops exactly if the flag is set, waits exactly if not bound, calls limit once exactly if allowed, and then takes exactly one message if one waits and the broker does not fail |
| `Worker.PassReaches` | naz/client.py:1556-1722 | a pass is a path of the transition system that all the laws of the loop are about |
| `Worker.Dequeuer.BuildPdu` | naz/client.py:1646-1675 | the three builders: only a submit_sm whose body can be built draws a number and is filed, and the PDU carries the number it was filed under |
| `Worker.Dequeuer.SendHeld` | naz/client.py:1646-1682 | a message that cannot be built is dropped and nothing is written; any other goes through send_data under its own number |
| `Sequence.SimpleSequenceGenerator.NextSequence` | naz/sequence.py:35-41 | the next number, with wrap-around |
| `Sequence.Period` | naz/sequence.py:28-41 | a number returns exactly every 0x7FFFFFFF calls, never sooner |
| `Correlater.SimpleCorrelater.Put` | naz/correlater.py:108-133 | files under the message id or the sequence number, then collects |
| `Correlater.SimpleCorrelater.Get` | naz/correlater.py:135-152 | answers from the store as it was before its own collection |
| `Correlater.SimpleCorrelater.DeleteAfterTtl` | naz/correlater.py:154-164 | the deletion loop keeps exactly the entries no older than max_ttl |
| `Correlater.StoreIsRecentPuts` | naz/correlater.py:108-164 | after any history, a key maps to its latest put and is present exactly when that put's age at the last collection is at most max_ttl |
| `Correlater.AnswerIsLatestPut` | naz/correlater.py:135-152 | what a lookup answers, as a function of the history alone |
| `Correlater.ExpiredAnswer` | naz/correlater.py:135-164 | a lookup at time now is answered from an entry older than max_ttl if and only if that entry was within max_ttl at the last collection; the lookup then deletes it |
| `Correlater.ExpiredAnswersOnce` | naz/correlater.py:135-164 | after such an answer, no lookup is answered for that key until it is put again |
| `Correlater.StoreIsBounded` | naz/correlater.py:154-164 | the store never holds more entries than puts within one max_ttl of the last collection |
| `Correlation.Requester.BuildSubmitSm` | naz/client.py:1206-1305 | a message that fails to build draws no number and files nothing; otherwise the PDU, the number and the filed entry belong together |
| `Correlation.ResponseReachesHook` | naz/client.py:1953-2224 | over every interleaving, the hook for a response carrying a request's number gets that request's log_id and hook_metadata exactly while the request is on file |
| `Correlation.EndToEnd` | naz/client.py:1899-2182 | over every interleaving, the hook for a delivery receipt gets the log_id and hook_metadata of the request it goes back to if the request was within the ttl at the last collection before its response, and the response within it at the receipt; otherwise two empty strings |
| `Correlation.EndToEndFromFields` | naz/client.py:2157-2182 | the same for every receipt built from the parameters of section 4.6.1 in which they and its text do not contain the tag's octets |
| `Correlation.ThirtyOctetTextGoesAstray` | naz/client.py:2157-2182 | a receipt with a text of thirty octets is answered with what is filed under an id spelled by that text, never under its own |
| `Correlation.ThreeMessageExchange` | naz/client.py:2097-2182 | from any state, the undisturbed exchange of three PDUs, built octet by octet from all their fields, ends in the request's own hook data if and only if filing it and the receipt were in time |
| `Correlation.NumberIsFresh` | naz/client.py:1250-1278 | a number drawn for one request is not drawn again while fewer than 0x7FFFFFFF requests have followed |
| `Correlation.ThrottleAccounting` | naz/client.py:2013-2062 | at every point of every run the two counters add up to the PDUs dispatched since the last reset, told from their headers; the throttling ones are those with command_status 0x14 or 0x58 |
| `DispatchTheorems.ReplyEcho` | naz/client.py:2124-2198 | exactly enquire_link and deliver_sm with a recognised status enqueue one reply, whose built PDU echoes the sequence number and has the request's id plus 0x80000000 |
| `DispatchTheorems.ReplyAnswers` | naz/client.py:1058-1131 | the two reply builders answer the request they were queued for |
| `DispatchTheorems.HookIsTold` | naz/client.py:1953-2224 | every PDU with a recognised command and status reaches the hook once, under its own command and status: with the answer for its sequence number, or for a deliver_sm the answer for the id read from it |
| `DispatchTheorems.SessionIsAsked` | naz/client.py:1905-2095 | what a PDU makes the client ask of its session, from its header: disconnect for a short one, BOUND_TRX for an accepted bind_transceiver_resp, an unbind_resp with the same number for an unbind, and nothing else |
| `DispatchTheorems.ReceiptIdExact` | naz/client.py:2157-2177 | for every body with a receipted_message_id: if the tag's octets do not occur earlier, the id is found if and only if only NULs follow it within the 65-octet window; if they do, only when that earlier window ends before the id does and spells it by accident |
| `Receipts.ReceiptUnderstood` | naz/client.py:2157-2177 | the same on the fields of a receipt: which neighbouring parameters or texts make the client misread it |
| `Receipts.TagAmongFields` | naz/client.py:2157-2164 | the tag's octets occur among mandatory parameters exactly where a C-octet string or a zero octet is followed by a parameter that begins with 0x1E |
| `Receipts.ThirtyOctetText` | naz/client.py:2162-2177 | sm_default_msg_id 0 and sm_length 30 are taken for the tag, and the text two octets on for the id |
| `Dispatch.Client.ParseResponsePdu` | naz/client.py:1899-1978 | the method refines the dispatch function on any octets, short and unknown PDUs included |
| `Dispatch.Client.CommandHandlers` | naz/client.py:1991-2236 | status lookup, throttle handler, routing and hook, in that order |
| `Dispatch.Client.RouteCommand` | naz/client.py:2064-2211 | the if-chain over commands, with its correlater and broker effects |
| `Dispatch.FindTag` | naz/client.py:2162-2164 | the first occurrence of the octets of receipted_message_id (`Dispatch.ReceiptTagIsPacked`) |
| `Commands.KnownCommands` | naz/client.py:202-250 | the first matching row for every 32-bit id; only 0, 1 and 2 are unknown |
| `Commands.CommandIdRoundTrip` | naz/client.py:527-536 | looking up the id a builder writes gives back its command |
| `Commands.ShadowedRows` | naz/client.py:243-249 | three reserved rows behind the wide 0x00010300-0xFFFFFFFF row never answer |
| `Commands.StatusSearch` | naz/state.py:99-316 | the search answers for every 32-bit status except 0x4A to 0x4F, from the only row that covers it |
| `RateLimiter.SimpleRateLimiter.Limit` | naz/ratelimiter.py:75-94 | the limiter loop refines the pacing function, waiting and division by zero included |
| `RateLimiter.SimpleRateLimiter.AddTokens` | naz/ratelimiter.py:96-104 | the refill, and its exception on zero elapsed time |
| `RateLimiter.RefillExactly` | naz/ratelimiter.py:96-104 | what a refill leaves in the bucket, after how long, and the send rate it reports |
| `RateLimiter.Burst` | naz/ratelimiter.py:75-94 | a bucket lets through at once exactly as many calls as it holds whole tokens, a new one send_rate of them (`RateLimiter.FirstBurst`), and counts them |
| `RateLimiter.BurstAfterRefill` | naz/ratelimiter.py:75-104 | throughput from below: after a refill n calls are admitted with one reading exactly when n tokens have been produced and fit the bucket |
| `RateLimiter.PaceProgress` | naz/ratelimiter.py:75-104 | given two readings, the first later than the last refill, a call leaves its loop within two turns if and only if send_rate is at least 1 |
| `RateLimiter.NeverAdmits` | naz/ratelimiter.py:62-77 | below send_rate 1 no clock ever lets a call out |
| `RateLimiter.PaceIsSound` | naz/ratelimiter.py:96-104 | tokens stay within [0, max_tokens] |
| `RateLimiter.PaceKeepsPaid` | naz/ratelimiter.py:75-104 | tokens plus admissions never exceed max_tokens plus what time has produced |
| `RateLimiter.RaisesAtOnce` | naz/ratelimiter.py:96-104 | a call divides by zero only at its first reading, at the very time of the last refill, and changes nothing |
| `RateLimiter.EndsOnlyIf` | naz/ratelimiter.py:75-104 | a call can end only if a token is left, send_rate is at least 1, or it can raise at once; in each of these cases some call does (`RateLimiter.EndsIf`) |
| `RateLimiter.SlidingWindow` | naz/ratelimiter.py:62-104 | any window of length L admits at most send_rate * (L + 1) calls, in runs whose calls may also raise |
| `Throttle.SimpleThrottleHandler.AllowRequest` | naz/throttle.py:139-186 | the answer comes from the counts before the reset; the reset happens after it |
| `Throttle.CountsSinceReset` | naz/throttle.py:131-192 | for every history the counters are the responses since the last reset, a single position (`Throttle.LastResetIsUnique`), and updated_at is the time of that reset |
| `Throttle.DeniedExactly` | naz/throttle.py:131-186 | a request is denied exactly when there are enough responses and the throttling share, to the nearest hundredth, exceeds deny_request_at |
| `Throttle.DeniedByShare` | naz/throttle.py:156-171 | more than half a hundredth away from deny_request_at the true share decides |
| `Throttle.AnswerSinceReset` | naz/throttle.py:139-186 | every answer is that test over exactly the responses since the last reset |
| `Throttle.BoundedDenial` | naz/throttle.py:139-197 | without new throttling responses, at most floor(sampling_period / throttle_wait) + 2 requests in a row are denied |
| `Throttle.PercentIsClose` | naz/throttle.py:131-137 | the reported share is within half a hundredth of the true one, and 0 below the sample size |
| `GsmCodec.EncodeText` | naz/codec.py:81-109 | the encoding loop, in all error modes |
| `GsmCodec.DecodeBytes` | naz/codec.py:112-137 | the decoding loop, with StopIteration on a trailing ESC and loop-counted error positions |
| `GsmCodec.RoundTrip` | naz/codec.py:64-137 | an encodable text survives encoding and strict decoding if and only if it has no ESC |
| `GsmCodec.DecodeIsStable` | naz/codec.py:112-137 | whatever decodes, in any mode, is a text the codec then carries faithfully |
| `GsmCodec.CharOctets` | naz/codec.py:64-79 | the octets of every character, from the tables of 3GPP TS 23.038 |
| `GsmCodec.EncodeModes` | naz/codec.py:139-163 | ignore and replace always succeed and equal strict encoding of the filtered or substituted text; the other modes succeed only on encodable texts |
| `GsmCodec.EncodeFailsAt` | naz/codec.py:139-163 | strict encoding fails at the first character without octets and names its position; an unknown mode raises NazCodecException there |
| `GsmCodec.DecodeModes` | naz/codec.py:112-190 | decoding with ignore or replace is strict decoding of the octets with the bad ones dropped or replaced |
| `GsmCodec.DecodeFailsAt` | naz/codec.py:112-137 | where strict decoding fails, and with which position |
| `OptionalTags.BuildOptionalParams` | naz/client.py:1308-1317 | the accumulation loop: falsy values are skipped, the first failing tag raises |
| `OptionalTags.BuildsExactly` | naz/state.py:645-795 | optional parameters can be sent exactly when every one that is not zero, empty or False fits its tag's type and size |
| `OptionalTags.TlvOctets` | naz/state.py:719-795 | the octets of one parameter, kind by kind |
| `OptionalTags.OptionalRoundTrip` | naz/state.py:645-795 | size, value-by-value recovery by a reader that skips the texts' NULs, and recovery by a strict section 5.3.2 reader if and only if no text is emitted |
| `OptionalTags.ValueFieldInverts` | naz/state.py:719-795 | a value field determines its value |
| `Pdu.FieldsRoundTrip` | naz/client.py:1212-1237 | mandatory parameters survive the wire if and only if no C-octet string contains a NUL |
| `Pdu.FrameReadsBack` | naz/client.py:1245-1292 | command_length is the PDU's size, and header and body read back |
| `SubmitSm.BuildsSubmitSm` | naz/client.py:1245-1292 | every message that builds goes out under command_id 0x00000004, which is submit_sm's, with status 0 and its own number |
| `SubmitSm.BuildsExactly` | naz/client.py:1206-1305 | which messages can be built, exactly, parameter by parameter |
| `Pdu.EmitsExactly` | naz/client.py:1212-1237 | mandatory parameters can be sent exactly when they are ASCII texts and numbers from 0 to 255 |
| `SubmitSm.SubmitRoundTrip` | naz/client.py:1206-1305 | a reader that skips the NULs behind optional texts recovers the whole message if and only if no C-octet string has a NUL and the text no ESC; a reader that follows sections 4.4.1 and 5.3.2 to the letter, if and only if moreover no optional parameter sent is a text |
| `Deframing.ReceiveData` | naz/client.py:1732-1893 | however the streams are split into reads, what is handed on over successive connections is HandedOn of them, in order: headers cut short are dropped, bodies go on with the next connection; it hangs exactly when the last one ends inside a body |
| `Deframing.CleanConnections` | naz/client.py:1732-1893 | while no earlier connection ends inside a body, the PDUs of each stream are handed on, and nothing else |
| `Deframing.ResynchronisesExactly` | naz/client.py:1829-1893 | after every one of a list of connections the rest is cut up independently of them, whatever it is, if and only if none of them ends inside a body |
| `Deframing.GluedPdu` | naz/client.py:1829-1884 | what is made of the connection after one that was lost inside a body |
| `Deframing.NextConnectionIsMisframed` | naz/client.py:1829-1893 | two connections of which the second one's PDU is lost |
| `Deframing.ReadBody` | naz/client.py:1829-1884 | the chunk loop reads exactly the missing octets of one PDU, from as many connections as it takes |
| `Deframing.DeframeExact` | naz/client.py:1829-1893 | deframing inverts framing exactly for the lists of PDUs that hold their own size, as all the client's own do (`Deframing.FrameIsSelfSized`) |
| `Deframing.DeframePartitions` | naz/client.py:1829-1893 | no octet is lost, added or moved |
| `Protocol.CreateOptTags` | naz/protocol.py:492-503 | the arguments that are not None, in constructor order, validated |
| `Protocol.ArgumentsArrive` | naz/protocol.py:130-260 | every argument of a SubmitSM arrives in its own field, four are required and the others take their defaults |
| `Protocol.OptionsArrive` | naz/protocol.py:492-503 | an optional parameter is in the message exactly when it was given, with the value it was given |
| `Protocol.OptionsExactly` | naz/protocol.py:492-503 | optional arguments are accepted exactly when each has the type its tag insists on |
| `Protocol.ConstructsExactly` | naz/protocol.py:120-503 | which dictionaries construct a SubmitSM, exactly |
| `Protocol.CommandPicksClass` | naz/protocol.py:679-700 | the smpp_command entry alone picks the class; a missing or unknown one raises |
| `Protocol.SerialisationRoundTrip` | naz/protocol.py:505-700 | every message, of any kind and as its constructor leaves it, comes back from its own dictionary unchanged, optional parameters in order, so it builds to the same octets |

## Left out

- Session.Client.SendData: interleavings inside a user hook or a read that suspends, and the drain lock, are not modelled; steps run to completion.
- Session.Client.TranceiverBind: the octets of the bind PDU, its number and its correlater entry are not modelled here; `DequeueLoop` lets other tasks draw numbers and change the store at any time.
- Worker.Dequeuer.Pass: a pass in which limit returns; `RateLimiter.NeverAdmits` is about the others.
- DequeueLoop.AtMostOnceInOrder: the log identifies a PDU by the broker message and the number it was built from, which determine its octets (`LoopFilings.WrittenOctetsReadBack`); the outer `while True` is a transition system because other tasks run at every await.
- Stopping.StopsExactly: about what some continuation of a run can do; that the event loop is fair, so that it does, is not modelled.
- Deframing.ReceiveData: the client is found bound whenever it looks; header reads by `readexactly` are atomic, and a shutdown seen between two failed reads, which ends the loop, is not modelled.
- Deframing.CleanConnections: one way only. For a particular next connection the glued octets can happen to be cut into the same PDUs; `Deframing.ResynchronisesExactly` is the exact statement, for whatever comes next.
- Correlation.EndToEndFromFields: receipts that are readable; `Receipts.ReceiptUnderstood` covers the others.
- RateLimiter.SlidingWindow: one caller at a time, a clock that never goes back, and sleeps that last at least the requested second.
- SubmitSm.SubmitRoundTrip: the gsm0338 encoding only; ucs2 and the standard-library codecs, and the codec registry, are library code.
- Protocol.SerialisationRoundTrip: the JSON text itself is library code; the dictionary is what is dumped and loaded, and an encoding other than gsm0338 is refused. An explicit `alert_on_message_delivery=None` has no counterpart among the values: the source serialises it without the key and it comes back as False, another dictionary that builds to the same octets.
- OptionalTags.BuildOptionalParams: names outside NAME_to_TAG, which raise ValueError, have no counterpart; the type of names excludes them.
- Dispatch.Client.RouteCommand: a reply's random log_id is not modelled; what is asked of the session is recorded as a request.
- Sockets, asyncio streams and the event loop: replaced by oracles and by the log of write calls.
- Redis and RabbitMQ brokers, hooks, logging, `_msg_to_log`, `_retry_after`, random log ids, argument type validation of the client, the command line, benchmarks and examples: I/O, or only easy members.
- docs/: generated and vendored web pages.
