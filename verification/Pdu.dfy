/**
  The pieces every PDU is made of: the 16-octet header (section 3.2 of SMPP v3.4)
  and the mandatory parameters, which are C-octet strings and single octets
  (section 3.1).  Builders are the client's; readers are written from the standard.
 */
module Pdu {
  import opened Bytes

  // ----------------------------------------------------------------- mandatory parameters

  datatype Field = CString(text: string) | Octet(value: int)

  /** text.encode("ascii") + NUL, or struct.pack(">B", value). */
  function EmitField(f: Field): Result<bytes> {
    match f
    case CString(text) => if IsAscii(text) then Ok(AsciiBytes(text) + [0]) else Err(AsciiEncodeError)
    case Octet(value) => if 0 <= value < 256 then Ok([value]) else Err(StructError)
  }

  function Emit(fs: seq<Field>): Result<bytes> {
    if fs == [] then Ok([])
    else
      match EmitField(fs[0])
      case Err(e) => Err(e)
      case Ok(head) =>
        match Emit(fs[1..])
        case Err(e) => Err(e)
        case Ok(tail) => Ok(head + tail)
  }

  /** A field that has octets: an ASCII text, or a number from 0 to 255. */
  predicate Fits(f: Field) {
    match f
    case CString(text) => forall i :: 0 <= i < |text| ==> text[i] as int <= 0x7F
    case Octet(value) => 0 <= value <= 0xFF
  }

  /** Mandatory parameters can be sent exactly when each of them fits. */
  lemma {:induction false} EmitsExactly(fs: seq<Field>)
    ensures Emit(fs).Ok? <==> forall i :: 0 <= i < |fs| ==> Fits(fs[i])
  {
    if fs != [] {
      EmitsExactly(fs[1..]);
      assert forall i :: 1 <= i < |fs| ==> fs[i] == fs[1..][i - 1];
      assert EmitField(fs[0]).Ok? <==> Fits(fs[0]);
    }
  }

  datatype Shape = AsCString | AsOctet

  function ShapeOf(f: Field): Shape {
    match f
    case CString(_) => AsCString
    case Octet(_) => AsOctet
  }

  function Shapes(fs: seq<Field>): (r: seq<Shape>)
    ensures |r| == |fs| && forall i :: 0 <= i < |fs| ==> r[i] == ShapeOf(fs[i])
  {
    seq(|fs|, i requires 0 <= i < |fs| => ShapeOf(fs[i]))
  }

  /** ASCII characters up to the first NUL, and what follows that NUL. */
  function ReadCString(b: bytes): (r: Option<(string, bytes)>)
    ensures r.Some? ==> '\0' !in r.value.0
  {
    if b == [] || b[0] >= 128 then None
    else if b[0] == 0 then Some(("", b[1..]))
    else
      match ReadCString(b[1..])
      case None => None
      case Some((text, rest)) => Some(([b[0] as char] + text, rest))
  }

  function ReadField(shape: Shape, b: bytes): Option<(Field, bytes)> {
    match shape
    case AsOctet => if b == [] then None else Some((Octet(b[0]), b[1..]))
    case AsCString =>
      match ReadCString(b)
      case None => None
      case Some((text, rest)) => Some((CString(text), rest))
  }

  function ReadFields(shapes: seq<Shape>, b: bytes): Option<(seq<Field>, bytes)> {
    if shapes == [] then Some(([], b))
    else
      match ReadField(shapes[0], b)
      case None => None
      case Some((f, rest)) =>
        match ReadFields(shapes[1..], rest)
        case None => None
        case Some((fs, end)) => Some(([f] + fs, end))
  }

  predicate NulFree(fs: seq<Field>) {
    forall i :: 0 <= i < |fs| && fs[i].CString? ==> '\0' !in fs[i].text
  }

  lemma {:induction false} ReadCStringInverts(text: string, rest: bytes)
    requires IsAscii(text) && '\0' !in text
    ensures ReadCString(AsciiBytes(text) + [0] + rest) == Some((text, rest))
  {
    var b := AsciiBytes(text) + [0] + rest;
    if text == "" {
      assert b[1..] == rest;
    } else {
      assert text[0] != '\0';
      assert b[1..] == AsciiBytes(text[1..]) + [0] + rest;
      ReadCStringInverts(text[1..], rest);
      assert text == [text[0]] + text[1..];
    }
  }

  lemma {:induction false} ReadFieldsAreNulFree(shapes: seq<Shape>, b: bytes)
    requires ReadFields(shapes, b).Some?
    ensures NulFree(ReadFields(shapes, b).value.0)
  {
    if shapes != [] {
      ReadFieldsAreNulFree(shapes[1..], ReadField(shapes[0], b).value.1);
    }
  }

  lemma {:induction false} ReadFieldsInverts(fs: seq<Field>, rest: bytes)
    requires Emit(fs).Ok? && NulFree(fs)
    ensures ReadFields(Shapes(fs), Emit(fs).value + rest) == Some((fs, rest))
  {
    if fs == [] {
      assert Emit(fs).value + rest == rest;
    } else {
      var tail := Emit(fs[1..]).value + rest;
      var b := Emit(fs).value + rest;
      assert Shapes(fs)[1..] == Shapes(fs[1..]);
      assert forall i :: 0 <= i < |fs| - 1 ==> fs[1..][i] == fs[i + 1];
      ReadFieldsInverts(fs[1..], rest);
      assert fs == [fs[0]] + fs[1..];
      match fs[0]
      case Octet(value) =>
        assert b[1..] == tail;
      case CString(text) =>
        assert b == AsciiBytes(text) + [0] + tail;
        ReadCStringInverts(text, tail);
    }
  }

  /** Mandatory parameters survive the wire if and only if no C-octet string contains a NUL. */
  lemma FieldsRoundTrip(fs: seq<Field>, rest: bytes)
    requires Emit(fs).Ok?
    ensures ReadFields(Shapes(fs), Emit(fs).value + rest) == Some((fs, rest)) <==> NulFree(fs)
  {
    if NulFree(fs) {
      ReadFieldsInverts(fs, rest);
    } else if ReadFields(Shapes(fs), Emit(fs).value + rest) == Some((fs, rest)) {
      ReadFieldsAreNulFree(Shapes(fs), Emit(fs).value + rest);
    }
  }

  // ----------------------------------------------------------------- header

  const HEADER_LENGTH := 16

  datatype Header = Header(commandLength: int, commandId: int, commandStatus: int, sequenceNumber: int)

  predicate IsU32(n: int) {
    0 <= n < 0x1_0000_0000
  }

  /** struct.pack(">IIII", ..) + body: packing fails on a value that does not fit. */
  function Frame(id: int, status: int, sequence: int, body: bytes): Result<bytes> {
    var length := HEADER_LENGTH + |body|;
    if IsU32(length) && IsU32(id) && IsU32(status) && IsU32(sequence) then
      Ok(Pack32(length) + Pack32(id) + Pack32(status) + Pack32(sequence) + body)
    else
      Err(StructError)
  }

  function ReadHeader(pdu: bytes): Header
    requires |pdu| >= HEADER_LENGTH
  {
    Header(Unpack32(pdu[..4]), Unpack32(pdu[4..8]), Unpack32(pdu[8..12]), Unpack32(pdu[12..16]))
  }

  /** A framed PDU says its own size and gives back its header fields and its body. */
  lemma FrameReadsBack(id: int, status: int, sequence: int, body: bytes)
    requires Frame(id, status, sequence, body).Ok?
    ensures var pdu := Frame(id, status, sequence, body).value;
            && |pdu| == HEADER_LENGTH + |body|
            && ReadHeader(pdu) == Header(|pdu|, id, status, sequence)
            && pdu[HEADER_LENGTH..] == body
  {
    var pdu := Frame(id, status, sequence, body).value;
    assert pdu[..4] == Pack32(|pdu|);
    assert pdu[4..8] == Pack32(id);
    assert pdu[8..12] == Pack32(status);
    assert pdu[12..16] == Pack32(sequence);
  }
}
