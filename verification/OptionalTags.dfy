/**
  Optional parameters: the tag-length-value triples at the end of a PDU (section
  5.3.2 of SMPP v3.4) as the client builds them, and two readers for them.
 */
module OptionalTags {
  import opened Bytes

  // The names of NAME_to_TAG, grouped as `length` and `tlv` group them.

  datatype OneOctetName =
    | DestAddrSubunit
    | DestNetworkType
    | DestBearerType
    | SourceAddrSubunit
    | SourceNetworkType
    | SourceBearerType
    | SourceTelematicsId
    | PayloadType
    | MsMsgWaitFacilities
    | PrivacyIndicator
    | UserResponseCode
    | LanguageIndicator
    | SarTotalSegments
    | SarSegmentSeqnum
    | ScInterfaceVersion
    | CallbackNumPresInd
    | NumberOfMessages
    | DpfResult
    | SetDpf
    | MsAvailabilityStatus
    | DeliveryFailureReason
    | MoreMessagesToSend
    | MessageState
    | DisplayTime
    | MsValidity
    | ItsReplyType

  datatype TwoOctetName =
    | DestTelematicsId
    | UserMessageReference
    | SourcePort
    | DestinationPort
    | SarMsgRefNum
    | SmsSignal

  datatype TextName =
    | AdditionalStatusInfoText
    | ReceiptedMessageId
    | SourceSubaddress
    | DestSubaddress
    | CallbackNumAtag
    | CallbackNum
    | NetworkErrorCode
    | MessagePayload
    | UssdServiceOp
    | ItsSessionInfo

  datatype Tag =
    | OneOctet(one: OneOctetName)
    | TwoOctets(two: TwoOctetName)
    | QosTimeToLive
    | Text(text: TextName)
    | AlertOnMessageDelivery

  function OneOctetCode(n: OneOctetName): int {
    match n
    case DestAddrSubunit => 0x0005
    case DestNetworkType => 0x0006
    case DestBearerType => 0x0007
    case SourceAddrSubunit => 0x000D
    case SourceNetworkType => 0x000E
    case SourceBearerType => 0x000F
    case SourceTelematicsId => 0x0010
    case PayloadType => 0x0019
    case MsMsgWaitFacilities => 0x0030
    case PrivacyIndicator => 0x0201
    case UserResponseCode => 0x0205
    case LanguageIndicator => 0x020D
    case SarTotalSegments => 0x020E
    case SarSegmentSeqnum => 0x020F
    case ScInterfaceVersion => 0x0210
    case CallbackNumPresInd => 0x0302
    case NumberOfMessages => 0x0304
    case DpfResult => 0x0420
    case SetDpf => 0x0421
    case MsAvailabilityStatus => 0x0422
    case DeliveryFailureReason => 0x0425
    case MoreMessagesToSend => 0x0426
    case MessageState => 0x0427
    case DisplayTime => 0x1201
    case MsValidity => 0x1204
    case ItsReplyType => 0x1380
  }

  function TwoOctetCode(n: TwoOctetName): int {
    match n
    case DestTelematicsId => 0x0008
    case UserMessageReference => 0x0204
    case SourcePort => 0x020A
    case DestinationPort => 0x020B
    case SarMsgRefNum => 0x020C
    case SmsSignal => 0x1203
  }

  function TextCode(n: TextName): int {
    match n
    case AdditionalStatusInfoText => 0x001D
    case ReceiptedMessageId => 0x001E
    case SourceSubaddress => 0x0202
    case DestSubaddress => 0x0203
    case CallbackNumAtag => 0x0303
    case CallbackNum => 0x0381
    case NetworkErrorCode => 0x0423
    case MessagePayload => 0x0424
    case UssdServiceOp => 0x0501
    case ItsSessionInfo => 0x1383
  }

  function Code(t: Tag): int {
    match t
    case OneOctet(n) => OneOctetCode(n)
    case TwoOctets(n) => TwoOctetCode(n)
    case QosTimeToLive => 0x0017
    case Text(n) => TextCode(n)
    case AlertOnMessageDelivery => 0x130C
  }

  /** The tag with a given code, worked out from section 5.3.2. */
  function FromCode(code: int): Option<Tag> {
    match code
    case 0x0005 => Some(OneOctet(DestAddrSubunit))
    case 0x0006 => Some(OneOctet(DestNetworkType))
    case 0x0007 => Some(OneOctet(DestBearerType))
    case 0x0008 => Some(TwoOctets(DestTelematicsId))
    case 0x000D => Some(OneOctet(SourceAddrSubunit))
    case 0x000E => Some(OneOctet(SourceNetworkType))
    case 0x000F => Some(OneOctet(SourceBearerType))
    case 0x0010 => Some(OneOctet(SourceTelematicsId))
    case 0x0017 => Some(QosTimeToLive)
    case 0x0019 => Some(OneOctet(PayloadType))
    case 0x001D => Some(Text(AdditionalStatusInfoText))
    case 0x001E => Some(Text(ReceiptedMessageId))
    case 0x0030 => Some(OneOctet(MsMsgWaitFacilities))
    case 0x0201 => Some(OneOctet(PrivacyIndicator))
    case 0x0202 => Some(Text(SourceSubaddress))
    case 0x0203 => Some(Text(DestSubaddress))
    case 0x0204 => Some(TwoOctets(UserMessageReference))
    case 0x0205 => Some(OneOctet(UserResponseCode))
    case 0x020A => Some(TwoOctets(SourcePort))
    case 0x020B => Some(TwoOctets(DestinationPort))
    case 0x020C => Some(TwoOctets(SarMsgRefNum))
    case 0x020D => Some(OneOctet(LanguageIndicator))
    case 0x020E => Some(OneOctet(SarTotalSegments))
    case 0x020F => Some(OneOctet(SarSegmentSeqnum))
    case 0x0210 => Some(OneOctet(ScInterfaceVersion))
    case 0x0302 => Some(OneOctet(CallbackNumPresInd))
    case 0x0303 => Some(Text(CallbackNumAtag))
    case 0x0304 => Some(OneOctet(NumberOfMessages))
    case 0x0381 => Some(Text(CallbackNum))
    case 0x0420 => Some(OneOctet(DpfResult))
    case 0x0421 => Some(OneOctet(SetDpf))
    case 0x0422 => Some(OneOctet(MsAvailabilityStatus))
    case 0x0423 => Some(Text(NetworkErrorCode))
    case 0x0424 => Some(Text(MessagePayload))
    case 0x0425 => Some(OneOctet(DeliveryFailureReason))
    case 0x0426 => Some(OneOctet(MoreMessagesToSend))
    case 0x0427 => Some(OneOctet(MessageState))
    case 0x0501 => Some(Text(UssdServiceOp))
    case 0x1201 => Some(OneOctet(DisplayTime))
    case 0x1203 => Some(TwoOctets(SmsSignal))
    case 0x1204 => Some(OneOctet(MsValidity))
    case 0x130C => Some(AlertOnMessageDelivery)
    case 0x1380 => Some(OneOctet(ItsReplyType))
    case 0x1383 => Some(Text(ItsSessionInfo))
    case _ => None
  }

  lemma FromCodeInverts(t: Tag)
    ensures FromCode(Code(t)) == Some(t) && 0 <= Code(t) < 0x1_0000
  {
  }

  /** The Python values an optional parameter may be given. */
  datatype Value = IntValue(n: int) | StrValue(s: string) | BoolValue(b: bool)

  predicate Truthy(v: Value) {
    match v
    case IntValue(n) => n != 0
    case StrValue(s) => s != ""
    case BoolValue(b) => b
  }

  function AsInt(v: Value): int
    requires !v.StrValue?
  {
    match v
    case IntValue(n) => n
    case BoolValue(b) => if b then 1 else 0
  }

  /** _validate_args: in Python a bool is an int, so only the flag insists on a bool. */
  predicate WellTyped(t: Tag, v: Value) {
    match t
    case Text(_) => v.StrValue?
    case AlertOnMessageDelivery => v.BoolValue?
    case _ => !v.StrValue?
  }

  /** The value field of a TLV, as far as its length field counts it. */
  function ValueField(t: Tag, v: Value): Result<bytes> {
    if !WellTyped(t, v) then Err(ValueError)
    else
      match t
      case OneOctet(_) => if 0 <= AsInt(v) < 0x100 then Ok([AsInt(v)]) else Err(StructError)
      case TwoOctets(_) => if 0 <= AsInt(v) < 0x1_0000 then Ok(Pack16(AsInt(v))) else Err(StructError)
      case QosTimeToLive => if 0 <= AsInt(v) < 0x1_0000_0000 then Ok(Pack32(AsInt(v))) else Err(StructError)
      case Text(_) =>
        if !IsAscii(v.s) then Err(AsciiEncodeError)
        else if |v.s| < 0x1_0000 then Ok(AsciiBytes(v.s))
        else Err(StructError)
      case AlertOnMessageDelivery => Ok([])
  }

  /** The NUL that `tlv` appends to a text, and that the length field does not count. */
  function Padding(t: Tag): bytes {
    if t.Text? then [0] else []
  }

  /** Tag, length and value, in octets. */
  function Octets(code: int, field: bytes, padding: bytes): bytes
    requires 0 <= code < 0x1_0000 && |field| < 0x1_0000
  {
    Pack16(code) + Pack16(|field|) + field + padding
  }

  /** OptionalTag(name, value).tlv.  A false presence flag gives no octets at all. */
  function Tlv(t: Tag, v: Value): Result<bytes> {
    match ValueField(t, v)
    case Err(e) => Err(e)
    case Ok(field) =>
      if t == AlertOnMessageDelivery && !v.b then Ok([])
      else
        FromCodeInverts(t);
        Ok(Octets(Code(t), field, Padding(t)))
  }

  /** A parameter dictionary, in its iteration order. */
  type Params = seq<(Tag, Value)>

  function TruthyOnly(ps: Params): (r: Params)
    ensures |r| <= |ps|
    ensures forall p :: p in r ==> p in ps && Truthy(p.1)
  {
    if ps == [] then []
    else if Truthy(ps[0].1) then [ps[0]] + TruthyOnly(ps[1..])
    else TruthyOnly(ps[1..])
  }

  function Append(head: bytes, tail: Result<bytes>): Result<bytes> {
    match tail
    case Err(e) => Err(e)
    case Ok(b) => Ok(head + b)
  }

  /** _build_submit_sm_optional_params_pdu: falsy values are skipped, unvalidated. */
  function Build(ps: Params): Result<bytes> {
    if ps == [] then Ok([])
    else if !Truthy(ps[0].1) then Build(ps[1..])
    else
      match Tlv(ps[0].0, ps[0].1)
      case Err(e) => Err(e)
      case Ok(head) => Append(head, Build(ps[1..]))
  }

  lemma AppendAssociates(a: bytes, b: bytes, tail: Result<bytes>)
    ensures Append(a, Append(b, tail)) == Append(a + b, tail)
    ensures Append([], tail) == tail
  {
    assert tail.Ok? ==> a + (b + tail.value) == (a + b) + tail.value && [] + tail.value == tail.value;
  }

  method BuildOptionalParams(ps: Params) returns (r: Result<bytes>)
    ensures r == Build(ps)
  {
    var pdu: bytes := [];
    var i := 0;
    assert ps[0..] == ps;
    AppendAssociates([], [], Build(ps));
    while i < |ps|
      invariant 0 <= i <= |ps|
      invariant Build(ps) == Append(pdu, Build(ps[i..]))
    {
      ghost var rest := ps[i..];
      assert rest[0] == ps[i] && rest[1..] == ps[i + 1..];
      if Truthy(ps[i].1) {
        var tlv := Tlv(ps[i].0, ps[i].1);
        match tlv {
          case Err(e) => return Err(e);
          case Ok(head) =>
            AppendAssociates(pdu, head, Build(rest[1..]));
            pdu := pdu + head;
        }
      }
      i := i + 1;
    }
    assert pdu + [] == pdu;
    return Ok(pdu);
  }

  // ----------------------------------------------------------------- readers

  /** A parameter as it is read off the wire. */
  datatype Param = Param(tag: Tag, field: bytes)

  /**
    A section 5.3.2 reader: tag, length, and as many octets as the length says.
    With `skipNul` it also steps over one NUL after the value of a text tag.
   */
  function Read(b: bytes, skipNul: bool): Option<seq<Param>>
    decreases |b|
  {
    if b == [] then Some([])
    else if |b| < 4 then None
    else
      match FromCode(Unpack16(b[..2]))
      case None => None
      case Some(tag) => ReadValue(b, tag, if skipNul && tag.Text? then [0] else [], skipNul)
  }

  function ReadValue(b: bytes, tag: Tag, padding: bytes, skipNul: bool): Option<seq<Param>>
    requires |b| >= 4
    decreases |b|, 0
  {
    var end := 4 + Unpack16(b[2..4]);
    if |b| < end + |padding| || b[end..end + |padding|] != padding then None
    else
      match Read(b[end + |padding|..], skipNul)
      case None => None
      case Some(rest) => Some([Param(tag, b[4..end])] + rest)
  }

  /** The parameters that are sent: all but those whose value is zero, the empty string or False. */
  function Sent(ps: Params): Params {
    if ps == [] then []
    else if ps[0].1 in {IntValue(0), StrValue(""), BoolValue(false)} then Sent(ps[1..])
    else [ps[0]] + Sent(ps[1..])
  }

  lemma {:induction false} TruthyIsSent(ps: Params)
    ensures TruthyOnly(ps) == Sent(ps)
  {
    if ps != [] {
      TruthyIsSent(ps[1..]);
    }
  }

  /** A value that its tag can carry; the type that each tag insists on, and what its size leaves room for. */
  predicate Fits(t: Tag, v: Value) {
    match t
    case OneOctet(_) => !v.StrValue? && 0 <= AsInt(v) <= 0xFF
    case TwoOctets(_) => !v.StrValue? && 0 <= AsInt(v) <= 0xFFFF
    case QosTimeToLive => !v.StrValue? && 0 <= AsInt(v) <= 0xFFFFFFFF
    case Text(_) => v.StrValue? && |v.s| <= 0xFFFF && forall i :: 0 <= i < |v.s| ==> v.s[i] as int <= 0x7F
    case AlertOnMessageDelivery => v.BoolValue?
  }

  predicate AllFit(ps: Params) {
    forall i :: 0 <= i < |ps| ==> Fits(ps[i].0, ps[i].1)
  }

  lemma AllFitCons(p: (Tag, Value), rest: Params)
    ensures AllFit([p] + rest) <==> Fits(p.0, p.1) && AllFit(rest)
  {
    var all := [p] + rest;
    assert all[0] == p && forall i :: 0 < i < |all| ==> all[i] == rest[i - 1];
    if AllFit(all) {
      assert forall i :: 0 <= i < |rest| ==> rest[i] == all[i + 1];
    }
  }

  /** A value that does not fit raises: first its type is looked at, then its characters, then its size. */
  lemma FitsExactly(t: Tag, v: Value)
    ensures Tlv(t, v).Ok? <==> Fits(t, v)
    ensures t.Text? && !v.StrValue? ==> Tlv(t, v) == Err(ValueError)
    ensures t == AlertOnMessageDelivery && !v.BoolValue? ==> Tlv(t, v) == Err(ValueError)
    ensures !t.Text? && v.StrValue? ==> Tlv(t, v) == Err(ValueError)
    ensures t.Text? && v.StrValue? && !IsAscii(v.s) ==> Tlv(t, v) == Err(AsciiEncodeError)
    ensures !Fits(t, v) && !(t.Text? && v.StrValue? && !IsAscii(v.s)) ==>
              Tlv(t, v) in {Err(ValueError), Err(StructError)}
  {
  }

  /** Optional parameters can be sent exactly when each that is sent fits its tag. */
  lemma {:induction false} BuildsExactly(ps: Params)
    ensures Build(ps).Ok? <==> AllFit(Sent(ps))
  {
    if ps != [] {
      BuildsExactly(ps[1..]);
      FitsExactly(ps[0].0, ps[0].1);
      AllFitCons(ps[0], Sent(ps[1..]));
    }
  }

  /** The octets of one parameter: tag, size, value, all big-endian; behind a text, a NUL that the size leaves out. */
  lemma TlvOctets(t: Tag, v: Value)
    requires ValueField(t, v).Ok? && Truthy(v)
    ensures 0 <= Code(t) < 0x1_0000 && Tlv(t, v).Ok?
    ensures var b := Tlv(t, v).value;
            match t
            case OneOctet(_) => b == Pack16(Code(t)) + [0, 1] + [AsInt(v)]
            case TwoOctets(_) => b == Pack16(Code(t)) + [0, 2] + [AsInt(v) / 256, AsInt(v) % 256]
            case QosTimeToLive => b == Pack16(Code(t)) + [0, 4] + Pack32(AsInt(v))
            case Text(_) => |v.s| < 0x1_0000 && b == Pack16(Code(t)) + Pack16(|v.s|) + AsciiBytes(v.s) + [0]
            case AlertOnMessageDelivery => b == Pack16(Code(t)) + [0, 0]
  {
    FromCodeInverts(t);
  }

  /** The value field, or nothing for a value that has none. */
  function FieldOf(t: Tag, v: Value): bytes {
    match ValueField(t, v)
    case Ok(field) => field
    case Err(_) => []
  }

  /** What should be read back from a list of parameters. */
  function Wire(ps: Params): (r: seq<Param>)
    ensures |r| == |ps|
  {
    if ps == [] then [] else [Param(ps[0].0, FieldOf(ps[0].0, ps[0].1))] + Wire(ps[1..])
  }

  /** The Python value behind a parameter that was read; True in an integer tag reads back as 1. */
  function ValueOf(p: Param): Option<Value> {
    match p.tag
    case OneOctet(_) => if |p.field| == 1 then Some(IntValue(p.field[0])) else None
    case TwoOctets(_) => if |p.field| == 2 then Some(IntValue(Unpack16(p.field))) else None
    case QosTimeToLive => if |p.field| == 4 then Some(IntValue(Unpack32(p.field))) else None
    case Text(_) => if IsAsciiBytes(p.field) then Some(StrValue(AsciiText(p.field))) else None
    case AlertOnMessageDelivery => Some(BoolValue(true))
  }

  function Canonical(t: Tag, v: Value): Value {
    if t != AlertOnMessageDelivery && v.BoolValue? then IntValue(AsInt(v)) else v
  }

  /** A value field determines its value. */
  lemma ValueFieldInverts(t: Tag, v: Value)
    requires ValueField(t, v).Ok? && Truthy(v)
    ensures ValueOf(Param(t, ValueField(t, v).value)) == Some(Canonical(t, v))
  {
    if t.Text? {
      AsciiRoundTrip(v.s);
    }
  }

  predicate HasText(ps: Params) {
    exists i :: 0 <= i < |ps| && ps[i].0.Text?
  }

  function TextCount(ps: Params): (n: nat)
    ensures n == 0 <==> !HasText(ps)
  {
    if ps == [] then 0
    else
      var n := (if ps[0].0.Text? then 1 else 0) + TextCount(ps[1..]);
      assert n == 0 <==> !HasText(ps) by {
        assert forall i :: 1 <= i < |ps| ==> ps[i] == ps[1..][i - 1];
        assert HasText(ps[1..]) ==> HasText(ps) by {
          if i :| 0 <= i < |ps[1..]| && ps[1..][i].0.Text? {
            assert ps[i + 1].0.Text?;
          }
        }
      }
      n
  }

  /** Octets that the tags and length fields account for. */
  function Accounted(ws: seq<Param>): nat {
    if ws == [] then 0 else 4 + |ws[0].field| + Accounted(ws[1..])
  }

  /** Reading one TLV with the NUL-skipping reader takes exactly its octets. */
  lemma ReadOctets(code: int, t: Tag, field: bytes, rest: bytes)
    requires 0 <= code < 0x1_0000 && FromCode(code) == Some(t) && |field| < 0x1_0000
    ensures Read(Octets(code, field, Padding(t)) + rest, true) ==
              match Read(rest, true)
              case None => None
              case Some(ws) => Some([Param(t, field)] + ws)
  {
    var padding := Padding(t);
    var b := Octets(code, field, padding) + rest;
    var end := 4 + |field|;
    assert b[..2] == Pack16(code);
    assert b[2..4] == Pack16(|field|);
    assert b[4..end] == field;
    assert b[end..end + |padding|] == padding;
    assert b[end + |padding|..] == rest;
  }

  /** Every list that builds is read back, in order, by the NUL-skipping reader. */
  lemma {:induction false} BuildReadsBack(ps: Params)
    requires Build(ps).Ok?
    ensures Read(Build(ps).value, true) == Some(Wire(TruthyOnly(ps)))
    ensures |Build(ps).value| == Accounted(Wire(TruthyOnly(ps))) + TextCount(TruthyOnly(ps))
  {
    if ps != [] {
      BuildReadsBack(ps[1..]);
      if Truthy(ps[0].1) {
        var (t, v) := ps[0];
        FromCodeInverts(t);
        ReadOctets(Code(t), t, FieldOf(t, v), Build(ps[1..]).value);
        ConsAccounts(ps[0], TruthyOnly(ps[1..]));
      }
    }
  }

  lemma ConsAccounts(p: (Tag, Value), rest: Params)
    ensures Wire([p] + rest) == [Param(p.0, FieldOf(p.0, p.1))] + Wire(rest)
    ensures Accounted(Wire([p] + rest)) == 4 + |FieldOf(p.0, p.1)| + Accounted(Wire(rest))
    ensures TextCount([p] + rest) == (if p.0.Text? then 1 else 0) + TextCount(rest)
  {
    assert ([p] + rest)[1..] == rest;
    assert ([Param(p.0, FieldOf(p.0, p.1))] + Wire(rest))[1..] == Wire(rest);
  }

  /** Every emitted parameter reads back to its own value. */
  lemma {:induction false} ValuesReadBack(ps: Params, i: nat)
    requires Build(ps).Ok? && i < |TruthyOnly(ps)|
    ensures var (t, v) := TruthyOnly(ps)[i];
            ValueOf(Wire(TruthyOnly(ps))[i]) == Some(Canonical(t, v))
  {
    if !Truthy(ps[0].1) {
      ValuesReadBack(ps[1..], i);
    } else if i == 0 {
      ValueFieldInverts(ps[0].0, ps[0].1);
    } else {
      ConsAccounts(ps[0], TruthyOnly(ps[1..]));
      ValuesReadBack(ps[1..], i - 1);
    }
  }

  /** A strict reader that succeeds has accounted for every octet. */
  lemma {:induction false} StrictReadAccounts(b: bytes)
    requires Read(b, false).Some?
    ensures |b| == Accounted(Read(b, false).value)
    decreases |b|
  {
    if b != [] {
      var end := 4 + Unpack16(b[2..4]);
      StrictReadAccounts(b[end..]);
      assert Read(b, false).value[1..] == Read(b[end..], false).value;
    }
  }

  /** Without text tags the two readers agree on what they accept. */
  lemma {:induction false} ReadersAgree(b: bytes)
    requires Read(b, true).Some?
    requires forall i :: 0 <= i < |Read(b, true).value| ==> !Read(b, true).value[i].tag.Text?
    ensures Read(b, false) == Read(b, true)
    decreases |b|
  {
    if b != [] {
      var ws := Read(b, true).value;
      assert !ws[0].tag.Text?;
      var end := 4 + Unpack16(b[2..4]);
      assert ws[1..] == Read(b[end..], true).value;
      ReadersAgree(b[end..]);
    }
  }

  lemma {:induction false} WireTags(ps: Params, i: nat)
    requires i < |ps|
    ensures Wire(ps)[i].tag == ps[i].0
  {
    if i > 0 {
      WireTags(ps[1..], i - 1);
    }
  }

  /**
    The optional part round-trips.  Its size is four octets and a value per emitted
    parameter, plus one NUL per text; the reader that knows about that NUL recovers
    the whole truthy list, value by value; and a strict section 5.3.2 reader recovers
    it if and only if no emitted parameter is a text.
   */
  lemma OptionalRoundTrip(ps: Params)
    requires Build(ps).Ok?
    ensures var b := Build(ps).value;
            var emitted := TruthyOnly(ps);
            && emitted == Sent(ps)
            && Read(b, true) == Some(Wire(emitted))
            && (forall i :: 0 <= i < |emitted| ==>
                  ValueOf(Wire(emitted)[i]) == Some(Canonical(emitted[i].0, emitted[i].1)))
            && |b| == Accounted(Wire(emitted)) + TextCount(emitted)
            && (Read(b, false) == Some(Wire(emitted)) <==> !HasText(emitted))
  {
    BuildReadsBack(ps);
    TruthyIsSent(ps);
    var b := Build(ps).value;
    var emitted := TruthyOnly(ps);
    forall i | 0 <= i < |emitted|
      ensures ValueOf(Wire(emitted)[i]) == Some(Canonical(emitted[i].0, emitted[i].1))
      ensures Wire(emitted)[i].tag == emitted[i].0
    {
      ValuesReadBack(ps, i);
      WireTags(emitted, i);
    }
    if Read(b, false) == Some(Wire(emitted)) {
      StrictReadAccounts(b);
    }
    if !HasText(emitted) {
      ReadersAgree(b);
    }
  }
}
