/**
  Delivery receipts as an SMSC sends them: a deliver_sm with the mandatory parameters of
  section 4.6.1 of SMPP v3.4, the receipt's text, and the receipted_message_id among the
  optional parameters.  The client looks for the two octets of that tag anywhere in the
  body, so the parameters in front of it decide whether it finds the id.
 */
module Receipts {
  import opened Bytes
  import opened Pdu
  import opened Dispatch
  import opened DispatchTheorems

  datatype Receipt = Receipt(
    serviceType: string,
    sourceAddrTon: int,
    sourceAddrNpi: int,
    sourceAddr: string,
    destAddrTon: int,
    destAddrNpi: int,
    destinationAddr: string,
    esmClass: int,
    protocolId: int,
    priorityFlag: int,
    scheduleDeliveryTime: string,
    validityPeriod: string,
    registeredDelivery: int,
    replaceIfPresentFlag: int,
    dataCoding: int,
    smDefaultMsgId: int,
    text: bytes,              // short_message
    before: bytes,            // optional parameters in front of receipted_message_id
    id: string,
    behind: bytes             // and behind it
  )

  /** All mandatory parameters but the last two. */
  function Leading(r: Receipt): seq<Field> {
    [CString(r.serviceType), Octet(r.sourceAddrTon), Octet(r.sourceAddrNpi), CString(r.sourceAddr),
     Octet(r.destAddrTon), Octet(r.destAddrNpi), CString(r.destinationAddr),
     Octet(r.esmClass), Octet(r.protocolId), Octet(r.priorityFlag),
     CString(r.scheduleDeliveryTime), CString(r.validityPeriod),
     Octet(r.registeredDelivery), Octet(r.replaceIfPresentFlag), Octet(r.dataCoding)]
  }

  function Fields(r: Receipt): seq<Field> {
    Leading(r) + [Octet(r.smDefaultMsgId), Octet(|r.text|)]
  }

  /** A receipt whose parameters have the types of section 4.6.1, and an id of section 5.3.2.12. */
  predicate WellFormed(r: Receipt) {
    && Emit(Fields(r)).Ok? && NulFree(Fields(r))
    && IsAscii(r.id) && '\0' !in r.id && |r.id| < MAX_ID
  }

  /** Everything in front of the receipted_message_id parameter. */
  function Front(r: Receipt): bytes
    requires WellFormed(r)
  {
    Emit(Fields(r)).value + (r.text + r.before)
  }

  /** A C-octet string's length field counts its terminating NUL. */
  function LengthField(r: Receipt): bytes
    requires WellFormed(r)
  {
    Pack16(|r.id| + 1)
  }

  function Body(r: Receipt): bytes
    requires WellFormed(r)
  {
    Front(r) + RECEIPT_TAG + LengthField(r) + AsciiBytes(r.id) + ([0] + r.behind)
  }

  // ----------------------------------------------------------------- the tag's octets among the fields

  predicate EndsInNul(f: Field) {
    f.CString? || f.value == 0
  }

  /** The octet 0x1E. */
  predicate StartsWithRs(f: Field) {
    match f
    case CString(text) => text != "" && text[0] as int == 0x1E
    case Octet(value) => value == 0x1E
  }

  predicate BytesStartWithRs(b: bytes) {
    b != [] && b[0] == 0x1E
  }

  /** Field k and what follows it make up the tag's octets. */
  predicate Collides(fs: seq<Field>, k: nat, rest: bytes)
    requires k < |fs|
  {
    EndsInNul(fs[k]) && if k + 1 < |fs| then StartsWithRs(fs[k + 1]) else BytesStartWithRs(rest)
  }

  lemma EmitStarts(fs: seq<Field>, rest: bytes)
    requires Emit(fs).Ok?
    ensures BytesStartWithRs(Emit(fs).value + rest) <==>
              if fs == [] then BytesStartWithRs(rest) else StartsWithRs(fs[0])
  {
    if fs == [] {
      assert Emit(fs).value + rest == rest;
    }
  }

  /** In the octets of one field, the tag can only begin at the very end. */
  lemma TagInField(f: Field, rest: bytes)
    requires EmitField(f).Ok? && (f.CString? ==> '\0' !in f.text)
    ensures var head := EmitField(f).value;
            && head != []
            && forall i :: 0 <= i < |head| ==>
                 (TagAt(head + rest, i) <==> i == |head| - 1 && EndsInNul(f) && BytesStartWithRs(rest))
  {
    if f.CString? {
      assert forall i :: 0 <= i < |f.text| ==> f.text[i] in f.text;
    }
  }

  lemma TagBehind(head: bytes, rest: bytes, i: nat)
    ensures TagAt(head + rest, |head| + i) <==> TagAt(rest, i)
  {
  }

  /** Some tag begins among the octets of the fields. */
  ghost predicate TagAmong(fs: seq<Field>, rest: bytes)
    requires Emit(fs).Ok?
  {
    !NoTagBefore(Emit(fs).value + rest, |Emit(fs).value|)
  }

  ghost predicate SomeCollision(fs: seq<Field>, rest: bytes) {
    exists k :: 0 <= k < |fs| && Collides(fs, k, rest)
  }

  lemma CollisionCons(fs: seq<Field>, rest: bytes)
    requires fs != []
    ensures SomeCollision(fs, rest) <==> Collides(fs, 0, rest) || SomeCollision(fs[1..], rest)
  {
    if SomeCollision(fs[1..], rest) {
      var k :| 0 <= k < |fs[1..]| && Collides(fs[1..], k, rest);
      assert Collides(fs, k + 1, rest);
    }
    if SomeCollision(fs, rest) && !Collides(fs, 0, rest) {
      var k :| 0 <= k < |fs| && Collides(fs, k, rest);
      assert Collides(fs[1..], k - 1, rest);
    }
  }

  lemma TagInTwoParts(head: bytes, tail: bytes, rest: bytes)
    ensures NoTagBefore(head + tail + rest, |head| + |tail|) <==>
              NoTagBefore(head + (tail + rest), |head|) && NoTagBefore(tail + rest, |tail|)
  {
    assert head + tail + rest == head + (tail + rest);
    forall i | 0 <= i < |tail|
      ensures TagAt(head + tail + rest, |head| + i) <==> TagAt(tail + rest, i)
    {
      TagBehind(head, tail + rest, i);
    }
    if NoTagBefore(head + (tail + rest), |head|) && NoTagBefore(tail + rest, |tail|) {
      forall i | 0 <= i < |head| + |tail|
        ensures !TagAt(head + tail + rest, i)
      {
        if i >= |head| {
          assert !TagAt(tail + rest, i - |head|);
        }
      }
    }
  }

  /** Where the tag's octets occur among mandatory parameters: exactly where two neighbours make them up. */
  lemma {:induction false} TagAmongFields(fs: seq<Field>, rest: bytes)
    requires Emit(fs).Ok? && NulFree(fs)
    ensures TagAmong(fs, rest) <==> SomeCollision(fs, rest)
  {
    if fs != [] {
      var head, tail := EmitField(fs[0]).value, Emit(fs[1..]).value;
      assert forall i :: 0 <= i < |fs| - 1 ==> fs[1..][i] == fs[i + 1];
      TagAmongFields(fs[1..], rest);
      TagInField(fs[0], tail + rest);
      EmitStarts(fs[1..], rest);
      TagInTwoParts(head, tail, rest);
      CollisionCons(fs, rest);
      assert BytesStartWithRs(tail + rest) && EndsInNul(fs[0]) ==> TagAt(head + (tail + rest), |head| - 1);
    }
  }

  // ----------------------------------------------------------------- which receipts are understood

  /** The octets 00 1E do not occur in front of the receipted_message_id parameter, told from the receipt's fields. */
  ghost predicate Clear(r: Receipt) {
    !SomeCollision(Fields(r), r.text + r.before) && NoTagBefore(r.text + r.before, |r.text + r.before|)
  }

  lemma NoTagInFront(front: bytes, rest: bytes)
    requires rest != [] && rest[0] == 0
    ensures NoTagBefore(front + rest, |front|) <==> NoTagBefore(front, |front|)
  {
    assert forall i :: 0 <= i < |front| - 1 ==> (TagAt(front + rest, i) <==> TagAt(front, i));
  }

  lemma ClearExactly(r: Receipt)
    requires WellFormed(r)
    ensures Clear(r) <==> NoTagBefore(Body(r), |Front(r)|)
  {
    var head, tail := Emit(Fields(r)).value, r.text + r.before;
    TagAmongFields(Fields(r), tail);
    var rest := RECEIPT_TAG + LengthField(r) + AsciiBytes(r.id) + ([0] + r.behind);
    assert Body(r) == Front(r) + rest;
    NoTagInFront(Front(r), rest);
    TagInTwoParts(head, tail, []);
    assert head + tail + [] == Front(r) && tail + [] == tail;
  }

  /**
    Which receipts are understood, exactly.  A receipt in which no two neighbouring
    parameters and no text make up the tag's octets is understood if and only if only NULs
    follow its id within the window; any other one is misread, unless the window that its
    first false tag opens ends before the id does and happens to spell the id.
   */
  lemma ReceiptUnderstood(r: Receipt)
    requires WellFormed(r)
    ensures ReceiptId(Body(r)) == Some(Ok(r.id)) <==>
              if Clear(r) then OnlyNuls(InWindow(r.id, [0] + r.behind))
              else FindTag(Body(r), 0).Some? &&
                   var at := FindTag(Body(r), 0).value;
                   at + MAX_ID < |Front(r)| + |r.id| && StripNul(Window(Body(r), at)) == AsciiBytes(r.id)
  {
    ClearExactly(r);
    assert !OnlyNuls(LengthField(r));
    ReceiptIdExact(Body(r), Front(r), LengthField(r), r.id, [0] + r.behind);
  }

  // ----------------------------------------------------------------- a text of thirty octets

  lemma {:induction false} EmitSnoc(fs: seq<Field>, f: Field)
    requires Emit(fs + [f]).Ok?
    ensures Emit(fs).Ok? && EmitField(f).Ok? && Emit(fs + [f]).value == Emit(fs).value + EmitField(f).value
  {
    if fs == [] {
      assert fs + [f] == [f];
      assert Emit([f][1..]) == Ok([]);
    } else {
      assert (fs + [f])[0] == fs[0] && (fs + [f])[1..] == fs[1..] + [f];
      EmitSnoc(fs[1..], f);
    }
  }

  lemma EmitLastTwo(fs: seq<Field>, a: int, b: int)
    requires Emit(fs + [Octet(a), Octet(b)]).Ok?
    ensures Emit(fs).Ok? && 0 <= a < 256 && 0 <= b < 256
    ensures Emit(fs + [Octet(a), Octet(b)]).value == Emit(fs).value + [a, b]
  {
    assert fs + [Octet(a), Octet(b)] == fs + [Octet(a)] + [Octet(b)];
    EmitSnoc(fs + [Octet(a)], Octet(b));
    EmitSnoc(fs, Octet(a));
    assert Emit(fs).value + [a] + [b] == Emit(fs).value + [a, b];
  }

  /** sm_default_msg_id = 0 and sm_length = 30 are the tag's octets, unless they occur before that already. */
  predicate FalseTag(r: Receipt) {
    r.smDefaultMsgId == 0 && |r.text| == 30
  }

  lemma FalseTagIsFound(fs: seq<Field>, body: bytes, rest: bytes)
    requires Emit(fs).Ok? && NulFree(fs) && !SomeCollision(fs, [])
    requires body == Emit(fs).value + ([0, 0x1E] + rest)
    ensures FindTag(body, 0) == Some(|Emit(fs).value|)
  {
    var behind := [0, 0x1E] + rest;
    if SomeCollision(fs, behind) {
      var k :| 0 <= k < |fs| && Collides(fs, k, behind);
      assert Collides(fs, k, []);
    }
    TagAmongFields(fs, behind);
    assert TagAt(body, |Emit(fs).value|);
  }

  /** An id is never read from a window that holds an octet the id does not. */
  lemma {:induction false} StripNulMember(b: bytes, i: nat)
    requires i < |b| && b[i] != 0
    ensures b[i] in StripNul(b)
  {
    if i > 0 {
      StripNulMember(b[1..], i - 1);
    }
  }

  lemma NotReadAcross(window: bytes, i: nat, id: string)
    requires i < |window| && window[i] == 0x1E && 0x1E as char !in id
    ensures IdText(window) != Ok(id)
  {
    StripNulMember(window, i);
    var stripped := StripNul(window);
    var j :| 0 <= j < |stripped| && stripped[j] == 0x1E;
    if IsAsciiBytes(stripped) {
      assert AsciiText(stripped)[j] == 0x1E as char;
    }
  }

  lemma FrontOf(r: Receipt)
    requires WellFormed(r)
    ensures Emit(Leading(r)).Ok? && NulFree(Leading(r))
    ensures 0 <= r.smDefaultMsgId < 256 && |r.text| < 256
    ensures Front(r) == Emit(Leading(r)).value + ([r.smDefaultMsgId, |r.text|] + (r.text + r.before))
  {
    EmitLastTwo(Leading(r), r.smDefaultMsgId, |r.text|);
    var fs := Leading(r);
    assert forall i :: 0 <= i < |fs| ==> Fields(r)[i] == fs[i];
  }

  /** The receipted_message_id parameter and what follows it. */
  function Param(r: Receipt): (b: bytes)
    requires WellFormed(r)
    ensures |b| >= 2 && b[..2] == RECEIPT_TAG
  {
    RECEIPT_TAG + LengthField(r) + AsciiBytes(r.id) + ([0] + r.behind)
  }

  lemma BodyOf(r: Receipt)
    requires WellFormed(r)
    ensures Emit(Leading(r)).Ok? && NulFree(Leading(r))
    ensures 0 <= r.smDefaultMsgId < 256 && |r.text| < 256
    ensures Body(r) == Emit(Leading(r)).value + ([r.smDefaultMsgId, |r.text|] + (r.text + r.before + Param(r)))
    ensures |Front(r)| == |Emit(Leading(r)).value| + 2 + |r.text| + |r.before|
  {
    FrontOf(r);
    BodyIsFrontAndParam(r);
    Reassociate(Emit(Leading(r)).value, [r.smDefaultMsgId, |r.text|], r.text + r.before, Param(r));
  }

  lemma BodyIsFrontAndParam(r: Receipt)
    requires WellFormed(r)
    ensures Body(r) == Front(r) + Param(r)
  {
    var length, id, end := LengthField(r), AsciiBytes(r.id), [0] + r.behind;
    assert Front(r) + RECEIPT_TAG + length + id + end == Front(r) + (RECEIPT_TAG + length + id + end);
  }

  lemma Reassociate(a: bytes, b: bytes, c: bytes, d: bytes)
    ensures a + (b + c) + d == a + (b + (c + d))
  {
  }

  /** The window behind a false tag that is followed by thirty octets of text. */
  lemma WindowInText(head: bytes, text: bytes, before: bytes, param: bytes, body: bytes)
    requires |text| == 30 && |param| >= 2 && param[..2] == RECEIPT_TAG
    requires body == head + ([0, 0x1E] + (text + before + param))
    ensures text[2..] <= Window(body, |head|)
    ensures |before| <= 35 ==>
              29 + |before| < |Window(body, |head|)| && Window(body, |head|)[29 + |before|] == 0x1E
  {
    var rest := text + before + param;
    assert body[|head| + 4..] == rest[2..];
    assert rest[2..] == text[2..] + before + param;
    assert rest[2..][29 + |before|] == param[..2][1];
  }

  /**
    Every receipt with a text of thirty octets and no default message is misread, unless
    the parameters before those two already made up the tag: what is taken for the id begins
    two octets into the text.  It is never the id itself, as long as the parameters in front
    of receipted_message_id let the window reach that far.
   */
  lemma ThirtyOctetText(r: Receipt)
    requires WellFormed(r) && FalseTag(r) && !SomeCollision(Leading(r), [])
    ensures Emit(Leading(r)).Ok?
    ensures ReceiptId(Body(r)) == Some(IdText(Window(Body(r), |Emit(Leading(r)).value|)))
    ensures r.text[2..] <= Window(Body(r), |Emit(Leading(r)).value|)
    ensures |r.before| + |r.id| <= 33 || (|r.before| <= 35 && 0x1E as char !in r.id) ==>
              ReceiptId(Body(r)) != Some(Ok(r.id))
  {
    BodyOf(r);
    var body, head := Body(r), Emit(Leading(r)).value;
    FalseTagIsFound(Leading(r), body, r.text + r.before + Param(r));
    WindowInText(head, r.text, r.before, Param(r), body);
    if |r.before| + |r.id| <= 33 {
      FirstTagTooEarly(r, |head|);
    } else if |r.before| <= 35 && 0x1E as char !in r.id {
      NotReadAcross(Window(body, |head|), 29 + |r.before|, r.id);
    }
  }

  lemma FirstTagTooEarly(r: Receipt, at: nat)
    requires WellFormed(r) && FindTag(Body(r), 0) == Some(at) && at < |Front(r)|
    requires |Front(r)| + |r.id| <= at + MAX_ID
    ensures ReceiptId(Body(r)) != Some(Ok(r.id))
  {
    ReceiptUnderstood(r);
    ClearExactly(r);
    assert TagAt(Body(r), at);
  }
}
