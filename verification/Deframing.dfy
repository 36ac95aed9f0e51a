/**
  receive_data: cutting the octet streams of successive connections back into PDUs,
  however the network happens to split them into reads.

  The loop looks up `self.reader` afresh for every read, and `connect` replaces it
  whenever some task reconnects.  A header that is cut short by the end of a connection
  is dropped, but a body is not: its missing octets are taken from the next connection.
 */
module Deframing {
  import opened Bytes
  import opened Pdu

  const MAX_READ := 2048

  // ----------------------------------------------------------------- what a stream contains

  /** The octets a PDU occupies: its command_length, but never less than the header already read. */
  function FrameSize(b: bytes): (n: nat)
    requires |b| >= HEADER_LENGTH
    ensures n >= HEADER_LENGTH
  {
    var length := Unpack32(b[..4]);
    if length < HEADER_LENGTH then HEADER_LENGTH else length
  }

  predicate Complete(b: bytes) {
    |b| >= HEADER_LENGTH && |b| >= FrameSize(b)
  }

  function Deframe(stream: bytes): seq<bytes>
    decreases |stream|
  {
    if !Complete(stream) then []
    else [stream[..FrameSize(stream)]] + Deframe(stream[FrameSize(stream)..])
  }

  /** What is left when the last complete PDU has been cut off. */
  function Leftover(stream: bytes): (r: bytes)
    ensures !Complete(r)
    decreases |stream|
  {
    if !Complete(stream) then stream else Leftover(stream[FrameSize(stream)..])
  }

  function Flatten(fs: seq<bytes>): bytes {
    if fs == [] then [] else fs[0] + Flatten(fs[1..])
  }

  /** A PDU whose first four octets hold its own size. */
  predicate SelfSized(f: bytes) {
    |f| >= HEADER_LENGTH && FrameSize(f) == |f|
  }

  lemma PieceInFront(stream: bytes, n: nat, fs: seq<bytes>, left: bytes)
    requires n <= |stream| && Flatten(fs) + left == stream[n..]
    ensures Flatten([stream[..n]] + fs) + left == stream
  {
    assert ([stream[..n]] + fs)[1..] == fs;
    Regroup(stream[..n], Flatten(fs), left);
    assert stream[..n] + stream[n..] == stream;
  }

  lemma Regroup<T>(a: seq<T>, b: seq<T>, c: seq<T>)
    ensures a + b + c == a + (b + c)
  {
  }

  /** Nothing is lost, added or moved: the pieces and the leftover are the stream. */
  lemma {:induction false} DeframePartitions(stream: bytes)
    ensures Flatten(Deframe(stream)) + Leftover(stream) == stream
    decreases |stream|
  {
    if Complete(stream) {
      var n := FrameSize(stream);
      DeframePartitions(stream[n..]);
      PieceInFront(stream, n, Deframe(stream[n..]), Leftover(stream[n..]));
    }
  }

  lemma {:induction false} PiecesAreSelfSized(stream: bytes, i: nat)
    requires i < |Deframe(stream)|
    ensures SelfSized(Deframe(stream)[i])
    decreases |stream|
  {
    var n := FrameSize(stream);
    if i == 0 {
      assert stream[..n][..4] == stream[..4];
    } else {
      PiecesAreSelfSized(stream[n..], i - 1);
    }
  }

  lemma FirstFrame(stream: bytes, pdu: bytes, rest: bytes)
    requires stream == pdu + rest && SelfSized(pdu)
    ensures Deframe(stream) == [pdu] + Deframe(rest) && Leftover(stream) == Leftover(rest)
  {
    assert stream[..4] == pdu[..4];
    assert stream[..|pdu|] == pdu && stream[|pdu|..] == rest;
  }

  /** Self-sized PDUs come back one by one, whatever incomplete data follows them. */
  lemma {:induction false} DeframeInvertsFlatten(fs: seq<bytes>, tail: bytes)
    requires (forall i :: 0 <= i < |fs| ==> SelfSized(fs[i])) && !Complete(tail)
    ensures Deframe(Flatten(fs) + tail) == fs && Leftover(Flatten(fs) + tail) == tail
  {
    if fs == [] {
      assert Flatten(fs) + tail == tail;
    } else {
      var rest := Flatten(fs[1..]) + tail;
      Regroup(fs[0], Flatten(fs[1..]), tail);
      FirstFrame(Flatten(fs) + tail, fs[0], rest);
      DeframeInvertsFlatten(fs[1..], tail);
      assert fs == [fs[0]] + fs[1..];
    }
  }

  /** Deframing inverts framing, exactly for the lists whose PDUs are all self-sized. */
  lemma {:induction false} DeframeExact(fs: seq<bytes>)
    ensures Deframe(Flatten(fs)) == fs <==> forall i :: 0 <= i < |fs| ==> SelfSized(fs[i])
  {
    assert Flatten(fs) + [] == Flatten(fs);
    if forall i :: 0 <= i < |fs| ==> SelfSized(fs[i]) {
      DeframeInvertsFlatten(fs, []);
    } else if Deframe(Flatten(fs)) == fs {
      forall i | 0 <= i < |fs|
        ensures SelfSized(fs[i])
      {
        PiecesAreSelfSized(Flatten(fs), i);
      }
    }
  }

  /** Every PDU the client's own builders frame is self-sized. */
  lemma FrameIsSelfSized(id: int, status: int, sequence: int, body: bytes)
    requires Frame(id, status, sequence, body).Ok?
    ensures SelfSized(Frame(id, status, sequence, body).value)
  {
    FrameReadsBack(id, status, sequence, body);
  }

  // ----------------------------------------------------------------- successive connections

  /** The connection is lost inside a body: a whole header has been read, and not all of its PDU. */
  predicate EndsInside(stream: bytes) {
    |Leftover(stream)| >= HEADER_LENGTH
  }

  /** What the loop still holds at the end of a stream: an unfinished PDU, but not an unfinished header. */
  function Held(stream: bytes): bytes {
    if EndsInside(stream) then Leftover(stream) else []
  }

  /**
    The PDUs handed on from successive streams, the octets that each connection yields
    before its reader is replaced; carry is what is held from the connections before.
   */
  function HandedOn(carry: bytes, streams: seq<bytes>): seq<bytes>
    decreases |streams|
  {
    if streams == [] then []
    else Deframe(carry + streams[0]) + HandedOn(Held(carry + streams[0]), streams[1..])
  }

  /** What the loop holds after the last of them. */
  function CarriedOver(carry: bytes, streams: seq<bytes>): bytes
    decreases |streams|
  {
    if streams == [] then carry else CarriedOver(Held(carry + streams[0]), streams[1..])
  }

  /** The PDUs of each stream by itself. */
  function EachDeframed(streams: seq<bytes>): seq<bytes>
    decreases |streams|
  {
    if streams == [] then [] else Deframe(streams[0]) + EachDeframed(streams[1..])
  }

  lemma HandedOnCons(carry: bytes, pending: bytes, later: seq<bytes>)
    ensures HandedOn(carry, [pending] + later) ==
            Deframe(carry + pending) + HandedOn(Held(carry + pending), later)
    ensures CarriedOver(carry, [pending] + later) == CarriedOver(Held(carry + pending), later)
  {
    assert ([pending] + later)[1..] == later;
  }

  lemma {:induction false} HandedOnSplits(carry: bytes, a: seq<bytes>, b: seq<bytes>)
    ensures HandedOn(carry, a + b) == HandedOn(carry, a) + HandedOn(CarriedOver(carry, a), b)
    ensures CarriedOver(carry, a + b) == CarriedOver(CarriedOver(carry, a), b)
    decreases |a|
  {
    if a == [] {
      assert a + b == b;
    } else {
      var first, rest := a[0], a[1..];
      var held := Held(carry + first);
      assert a == [first] + rest && a + b == [first] + (rest + b);
      HandedOnCons(carry, first, rest);
      HandedOnCons(carry, first, rest + b);
      HandedOnSplits(held, rest, b);
      Regroup(Deframe(carry + first), HandedOn(held, rest), HandedOn(CarriedOver(held, rest), b));
    }
  }

  lemma {:induction false} NothingHeld(streams: seq<bytes>)
    requires forall i :: 0 <= i < |streams| ==> !EndsInside(streams[i])
    ensures CarriedOver([], streams) == []
    decreases |streams|
  {
    if streams != [] {
      assert [] + streams[0] == streams[0];
      NothingHeld(streams[1..]);
    }
  }

  lemma HandedOnOne(carry: bytes, stream: bytes)
    ensures HandedOn(carry, [stream]) == Deframe(carry + stream)
  {
    assert [stream][1..] == [];
    assert Deframe(carry + stream) + [] == Deframe(carry + stream);
  }

  /** While no earlier connection was lost inside a body, every stream is cut into its own PDUs. */
  lemma {:induction false} CleanConnections(streams: seq<bytes>)
    requires forall i :: 0 <= i < |streams| - 1 ==> !EndsInside(streams[i])
    ensures HandedOn([], streams) == EachDeframed(streams)
    decreases |streams|
  {
    if streams != [] {
      assert [] + streams[0] == streams[0];
      if |streams| > 1 {
        CleanConnections(streams[1..]);
      }
    }
  }

  /** How many octets an unfinished PDU still lacks. */
  function Missing(held: bytes): (m: nat)
    requires |held| >= HEADER_LENGTH && !Complete(held)
    ensures m > 0
  {
    FrameSize(held) - |held|
  }

  /**
    What happens after a connection that was lost inside a body: the next one pays.  Its
    first octets complete the old PDU, and it is cut up only from there on, wherever
    that is; if it is shorter than that, nothing of it is handed on at all.
   */
  lemma GluedPdu(held: bytes, stream: bytes)
    requires |held| >= HEADER_LENGTH && !Complete(held)
    ensures var m := Missing(held);
            if |stream| >= m then Deframe(held + stream) == [held + stream[..m]] + Deframe(stream[m..])
            else Deframe(held + stream) == [] && Held(held + stream) == held + stream
  {
    var m := Missing(held);
    if |stream| >= m {
      Completed(held, stream[..m], stream[m..]);
      CutBehind(held, stream, m);
    } else {
      StillUnfinished(held, stream);
    }
  }

  lemma CutBehind(held: bytes, stream: bytes, m: nat)
    requires m <= |stream|
    ensures held + stream[..m] + stream[m..] == held + stream
  {
  }

  lemma StillUnfinished(held: bytes, more: bytes)
    requires |held| >= HEADER_LENGTH && !Complete(held) && |more| < Missing(held)
    ensures !Complete(held + more) && Deframe(held + more) == [] && Held(held + more) == held + more
  {
    assert (held + more)[..4] == held[..4];
  }

  lemma Completed(held: bytes, first: bytes, rest: bytes)
    requires |held| >= HEADER_LENGTH && !Complete(held) && |first| == Missing(held)
    ensures Deframe(held + first + rest) == [held + first] + Deframe(rest)
  {
    assert (held + first)[..4] == held[..4];
    FirstFrame(held + first + rest, held + first, rest);
  }

  lemma {:induction false} PieceFits(stream: bytes, i: nat)
    requires i < |Deframe(stream)|
    ensures |Deframe(stream)[i]| <= |stream|
    decreases |stream|
  {
    if i > 0 {
      PieceFits(stream[FrameSize(stream)..], i - 1);
    }
  }

  lemma {:induction false} CarryIsHeld(carry: bytes, streams: seq<bytes>)
    requires carry == [] || (|carry| >= HEADER_LENGTH && !Complete(carry))
    ensures var c := CarriedOver(carry, streams); c == [] || (|c| >= HEADER_LENGTH && !Complete(c))
    decreases |streams|
  {
    if streams != [] {
      CarryIsHeld(Held(carry + streams[0]), streams[1..]);
    }
  }

  /** Whatever comes after these connections is cut up as if they had not been. */
  ghost predicate CleanCut(streams: seq<bytes>) {
    forall next :: HandedOn([], streams + next) == HandedOn([], streams) + HandedOn([], next)
  }

  lemma CarryShows(held: bytes, next: seq<bytes>)
    requires |held| >= HEADER_LENGTH && !Complete(held) && next == [Zeros(Missing(held))]
    ensures HandedOn(held, next) != HandedOn([], next)
  {
    var zeros := next[0];
    HandedOnOne(held, zeros);
    HandedOnOne([], zeros);
    GluedPdu(held, zeros);
    assert [] + zeros == zeros;
    if Deframe(zeros) != [] {
      PieceFits(zeros, 0);
      assert |Deframe(held + zeros)[0]| > |zeros|;
    }
  }

  function Zeros(n: nat): bytes {
    seq(n, _ => 0)
  }

  lemma CleanCutIffNothingHeld(streams: seq<bytes>)
    ensures CleanCut(streams) <==> CarriedOver([], streams) == []
  {
    var held := CarriedOver([], streams);
    CarryIsHeld([], streams);
    if held == [] {
      forall next
        ensures HandedOn([], streams + next) == HandedOn([], streams) + HandedOn([], next)
      {
        HandedOnSplits([], streams, next);
      }
    } else {
      var next := [Zeros(Missing(held))];
      HandedOnSplits([], streams, next);
      CarryShows(held, next);
      DifferentTails(HandedOn([], streams), HandedOn(held, next), HandedOn([], next));
    }
  }

  lemma DifferentTails(a: seq<bytes>, b: seq<bytes>, c: seq<bytes>)
    requires b != c
    ensures a + b != a + c
  {
    assert b == (a + b)[|a|..] && c == (a + c)[|a|..];
  }

  lemma CarriedOverSnoc(streams: seq<bytes>, k: nat)
    requires k < |streams| && CarriedOver([], streams[..k]) == []
    ensures CarriedOver([], streams[..k + 1]) == Held(streams[k])
  {
    assert streams[..k + 1] == streams[..k] + [streams[k]];
    HandedOnSplits([], streams[..k], [streams[k]]);
    assert [] + streams[k] == streams[k];
  }

  /**
    Resynchronisation, exactly: after every one of these connections the rest is cut up
    independently of them, whatever it is, if and only if none of them ends inside a body.
   */
  lemma {:induction false} ResynchronisesExactly(streams: seq<bytes>)
    ensures (forall k :: 0 <= k <= |streams| ==> CleanCut(streams[..k])) <==>
            (forall i :: 0 <= i < |streams| ==> !EndsInside(streams[i]))
  {
    if forall i :: 0 <= i < |streams| ==> !EndsInside(streams[i]) {
      forall k | 0 <= k <= |streams|
        ensures CleanCut(streams[..k])
      {
        NothingHeld(streams[..k]);
        CleanCutIffNothingHeld(streams[..k]);
      }
    }
    if forall k :: 0 <= k <= |streams| ==> CleanCut(streams[..k]) {
      forall i | 0 <= i < |streams|
        ensures !EndsInside(streams[i])
      {
        CleanCutIffNothingHeld(streams[..i]);
        CleanCutIffNothingHeld(streams[..i + 1]);
        CarriedOverSnoc(streams, i);
      }
    }
  }

  /** A PDU that is lost: the connection before it ended three octets short of a 20-octet PDU. */
  lemma NextConnectionIsMisframed(sequence: bytes)
    requires |sequence| == 4
    ensures var cut := [0, 0, 0, 20] + Zeros(13);
            var next := [0, 0, 0, 16, 0, 0, 0, 0x15, 0, 0, 0, 0] + sequence;
            && EachDeframed([cut, next]) == [next]
            && HandedOn([], [cut, next]) == [cut + next[..3]]
  {
    var cut: bytes := [0, 0, 0, 20] + Zeros(13);
    var next: bytes := [0, 0, 0, 16, 0, 0, 0, 0x15, 0, 0, 0, 0] + sequence;
    assert cut[..4] == [0, 0, 0, 20] && next[..4] == [0, 0, 0, 16];
    assert !Complete(cut) && SelfSized(next);
    assert [cut, next][1..] == [next];
    FirstFrame(next, next, []);
    HandedOnOne(cut, next);
    GluedPdu(cut, next);
    assert [] + cut == cut;
    assert EachDeframed([next]) == Deframe(next) + EachDeframed([]);
  }

  // ----------------------------------------------------------------- receive_data

  /** self.reader: asyncio's StreamReader over the current connection, and those that will replace it. */
  class StreamReader {
    var pending: bytes        // the octets still to arrive before the connection ends
    var later: seq<bytes>     // what the connections made later on will yield
    var failures: nat         // how many reads will fail on the way

    constructor (pending: bytes, later: seq<bytes>, failures: nat)
      ensures this.pending == pending && this.later == later && this.failures == failures
    {
      this.pending, this.later, this.failures := pending, later, failures;
    }

    ghost function Streams(): seq<bytes>
      reads this
    {
      [pending] + later
    }

    /** None is IncompleteReadError: the connection ended first. */
    method ReadExactly(n: nat) returns (r: Option<bytes>)
      modifies this
      ensures failures == old(failures) && later == old(later)
      ensures r == if |old(pending)| < n then None else Some(old(pending)[..n])
      ensures pending == if |old(pending)| < n then [] else old(pending)[n..]
    {
      if |pending| < n {
        pending := [];
        return None;
      }
      r := Some(pending[..n]);
      pending := pending[n..];
    }

    /** At least one octet and at most n, as the network pleases; none at the end, or when the read fails. */
    method Read(n: nat) returns (chunk: bytes)
      requires n > 0
      modifies this
      ensures later == old(later)
      ensures |chunk| <= n && old(pending) == chunk + pending
      ensures chunk != [] ==> failures == old(failures)
      ensures chunk == [] ==> old(pending) == [] || failures < old(failures)
    {
      if pending == [] {
        return [];
      }
      if failures > 0 {
        var fails: bool :| true;
        if fails {
          failures := failures - 1;
          return [];
        }
      }
      var k :| 1 <= k <= n && k <= |pending|;
      chunk := pending[..k];
      pending := pending[k..];
    }

    /** Some task has reconnected, and `connect` has put a new reader in place. */
    method Replaced()
      requires later != []
      modifies this
      ensures Streams() == old(later) && failures == old(failures)
    {
      pending, later := later[0], later[1..];
    }
  }

  /**
    receive_data while it finds the client bound: the PDUs handed to _parse_response_pdu,
    in order, over all connections.  It ends in `hung` when a connection is lost inside a
    body and no task reconnects; only a shutdown then ends the loop of retries.
   */
  method ReceiveData(reader: StreamReader) returns (pdus: seq<bytes>, hung: bool)
    modifies reader
    ensures pdus == HandedOn([], old(reader.Streams()))
    ensures hung <==> CarriedOver([], old(reader.Streams())) != []
    ensures reader.Streams() == [[]]
  {
    pdus := [];
    ghost var streams := reader.Streams();
    while true
      invariant HandedOn([], streams) == pdus + HandedOn([], reader.Streams())
      invariant CarriedOver([], streams) == CarriedOver([], reader.Streams())
      decreases |reader.later|, |reader.pending|
    {
      ghost var rest := reader.pending;
      var header := reader.ReadExactly(HEADER_LENGTH);
      if header.None? {
        ShortStream(rest, reader.later);
        if reader.later == [] {
          assert pdus + [] == pdus;
          return pdus, false;
        }
        reader.Replaced();
      } else {
        HeaderRead(rest, header.value, reader.pending, reader.later);
        var pdu := ReadBody(reader, header.value);
        if pdu.None? {
          assert pdus + [] == pdus;
          return pdus, true;
        }
        Regroup(pdus, [pdu.value], HandedOn([], reader.Streams()));
        pdus := pdus + [pdu.value];
      }
    }
  }

  /** From here on, the same PDUs are handed on and the same is held in the end. */
  ghost predicate SameFuture(carry: bytes, streams: seq<bytes>, carry': bytes, streams': seq<bytes>) {
    && HandedOn(carry, streams) == HandedOn(carry', streams')
    && CarriedOver(carry, streams) == CarriedOver(carry', streams')
  }

  lemma ShortStream(pending: bytes, later: seq<bytes>)
    requires |pending| < HEADER_LENGTH
    ensures SameFuture([], [pending] + later, [], later)
  {
    assert ([pending] + later)[1..] == later && [] + pending == pending;
  }

  lemma HeaderRead(stream: bytes, header: bytes, pending: bytes, later: seq<bytes>)
    requires stream == header + pending
    ensures SameFuture([], [stream] + later, header, [pending] + later)
  {
    assert ([stream] + later)[1..] == later && ([pending] + later)[1..] == later && [] + stream == stream;
  }

  lemma ChunkRead(held: bytes, chunk: bytes, pending: bytes, later: seq<bytes>)
    ensures SameFuture(held, [chunk + pending] + later, held + chunk, [pending] + later)
  {
    assert ([chunk + pending] + later)[1..] == later && ([pending] + later)[1..] == later;
    assert held + (chunk + pending) == held + chunk + pending;
  }

  lemma ChunkKept(header: bytes, streams: seq<bytes>, chunks: bytes, chunk: bytes, pending: bytes, later: seq<bytes>)
    requires SameFuture(header, streams, header + chunks, [chunk + pending] + later)
    ensures SameFuture(header, streams, header + (chunks + chunk), [pending] + later)
  {
    ChunkRead(header + chunks, chunk, pending, later);
    assert header + chunks + chunk == header + (chunks + chunk);
  }

  lemma LostInBody(held: bytes, later: seq<bytes>)
    requires |held| >= HEADER_LENGTH && !Complete(held)
    ensures SameFuture(held, [[]] + later, held, later)
  {
    assert ([[]] + later)[1..] == later && held + [] == held;
  }

  lemma PduRead(pdu: bytes, pending: bytes, later: seq<bytes>)
    requires SelfSized(pdu)
    ensures HandedOn(pdu, [pending] + later) == [pdu] + HandedOn([], [pending] + later)
    ensures CarriedOver(pdu, [pending] + later) == CarriedOver([], [pending] + later)
  {
    HandedOnCons(pdu, pending, later);
    HandedOnCons([], pending, later);
    FirstFrame(pdu + pending, pdu, pending);
    assert [] + pending == pending;
    Regroup([pdu], Deframe(pending), HandedOn(Held(pending), later));
  }

  /** What the comparison of bytes_recd with MSGLEN decides. */
  lemma BodyRead(header: bytes, chunks: bytes)
    requires |header| == HEADER_LENGTH
    requires |chunks| <= Unpack32(header[..4]) - HEADER_LENGTH || chunks == []
    ensures |chunks| < Unpack32(header[..4]) - HEADER_LENGTH ==> !Complete(header + chunks)
    ensures |chunks| >= Unpack32(header[..4]) - HEADER_LENGTH ==> SelfSized(header + chunks)
  {
    assert (header + chunks)[..4] == header[..4];
  }

  /** Nothing has been added to the readers, and something may have been taken from them. */
  twostate predicate Consumed(reader: StreamReader)
    reads reader
  {
    || |reader.later| < |old(reader.later)|
    || (reader.later == old(reader.later) && |reader.pending| <= |old(reader.pending)|)
  }

  /**
    The chunk loop: exactly the missing octets of this PDU are read, never one more, from
    as many connections as it takes.  None: the last connection ended before that.
   */
  method ReadBody(reader: StreamReader, header: bytes) returns (r: Option<bytes>)
    requires |header| == HEADER_LENGTH
    modifies reader
    ensures Consumed(reader)
    ensures r.Some? ==> SelfSized(r.value) && header <= r.value
    ensures r.Some? ==> HandedOn(header, old(reader.Streams())) == [r.value] + HandedOn([], reader.Streams())
    ensures r.Some? ==> CarriedOver(header, old(reader.Streams())) == CarriedOver([], reader.Streams())
    ensures r.None? ==> HandedOn(header, old(reader.Streams())) == [] && reader.Streams() == [[]]
    ensures r.None? ==> CarriedOver(header, old(reader.Streams())) != []
  {
    var length := Unpack32(header[..4]) - HEADER_LENGTH;
    var chunks: bytes := [];
    ghost var streams := reader.Streams();
    assert header + chunks == header;
    while |chunks| < length
      invariant |chunks| <= length || chunks == []
      invariant SameFuture(header, streams, header + chunks, reader.Streams())
      invariant Consumed(reader)
      decreases |reader.later|, |reader.pending|, reader.failures
    {
      if reader.pending == [] {
        BodyRead(header, chunks);
        LostInBody(header + chunks, reader.later);
        if reader.later == [] {
          return None;  // every further read is empty: the source sleeps and retries
        }
        reader.Replaced();
      } else {
        ghost var before := reader.pending;
        var room := length - |chunks|;
        var chunk := reader.Read(if room < MAX_READ then room else MAX_READ);
        if chunk == [] {
          assert reader.pending == before;
        } else {
          ChunkKept(header, streams, chunks, chunk, reader.pending, reader.later);
          chunks := chunks + chunk;
        }
      }
    }
    BodyRead(header, chunks);
    PduRead(header + chunks, reader.pending, reader.later);
    return Some(header + chunks);
  }
}
