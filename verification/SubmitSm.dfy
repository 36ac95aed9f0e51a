/**
  The submit_sm PDU (section 4.4.1 of SMPP v3.4): what the client builds for a
  message, and a reader of that section that recovers the message.
 */
module SubmitSm {
  import opened Bytes
  import opened Commands
  import Gsm = GsmCodec
  import OptionalTags
  import opened Pdu

  /** naz.protocol.SubmitSM with the gsm0338 encoding, whose data_coding is 0. */
  datatype Message = Message(
    logId: string,
    hookMetadata: string,
    shortMessage: string,
    sourceAddr: string,
    destinationAddr: string,
    serviceType: string,
    sourceAddrTon: int,
    sourceAddrNpi: int,
    destAddrTon: int,
    destAddrNpi: int,
    esmClass: int,
    protocolId: int,
    priorityFlag: int,
    scheduleDeliveryTime: string,
    validityPeriod: string,
    registeredDelivery: int,
    replaceIfPresentFlag: int,
    smDefaultMsgId: int,
    errors: Gsm.Errors,
    params: OptionalTags.Params
  )

  const DATA_CODING_GSM0338 := 0

  /** The mandatory parameters in the order in which the body concatenates them. */
  function Mandatory(m: Message, smLength: int): seq<Field> {
    [CString(m.serviceType), Octet(m.sourceAddrTon), Octet(m.sourceAddrNpi), CString(m.sourceAddr),
     Octet(m.destAddrTon), Octet(m.destAddrNpi), CString(m.destinationAddr),
     Octet(m.esmClass), Octet(m.protocolId), Octet(m.priorityFlag),
     CString(m.scheduleDeliveryTime), CString(m.validityPeriod),
     Octet(m.registeredDelivery), Octet(m.replaceIfPresentFlag), Octet(DATA_CODING_GSM0338),
     Octet(m.smDefaultMsgId), Octet(smLength)]
  }

  function Body(m: Message): Result<bytes> {
    match Gsm.Encode(m.shortMessage, m.errors)
    case Err(e) => Err(e)
    case Ok(text) =>
      match Emit(Mandatory(m, |text|))
      case Err(e) => Err(e)
      case Ok(mandatory) =>
        match OptionalTags.Build(m.params)
        case Err(e) => Err(e)
        case Ok(optional) => Ok(mandatory + text + optional)
  }

  const SUBMIT_SM_ID := 0x4

  /** _build_submit_sm_pdu once a sequence number has been drawn. */
  function Build(m: Message, sequence: int): Result<bytes> {
    match Body(m)
    case Err(e) => Err(e)
    case Ok(body) => Frame(SUBMIT_SM_ID, 0, sequence, body)
  }

  // ----------------------------------------------------------------- readers of section 4.4.1

  /** A submit_sm as its receiver understands it. */
  datatype Submitted = Submitted(
    header: Header,
    serviceType: string,
    sourceAddrTon: int,
    sourceAddrNpi: int,
    sourceAddr: string,
    destAddrTon: int,
    destAddrNpi: int,
    destinationAddr: string,
    esmClass: int,
    protocolId: int,
    priorityFlag: int,
    scheduleDeliveryTime: string,
    validityPeriod: string,
    registeredDelivery: int,
    replaceIfPresentFlag: int,
    dataCoding: int,
    smDefaultMsgId: int,
    shortMessage: string,
    params: seq<OptionalTags.Param>
  )

  const SUBMIT_SM_SHAPES: seq<Shape> :=
    [AsCString, AsOctet, AsOctet, AsCString,
     AsOctet, AsOctet, AsCString,
     AsOctet, AsOctet, AsOctet,
     AsCString, AsCString,
     AsOctet, AsOctet, AsOctet,
     AsOctet, AsOctet]

  predicate HasSubmitShape(fs: seq<Field>) {
    && |fs| == 17
    && fs[0].CString? && fs[1].Octet? && fs[2].Octet? && fs[3].CString?
    && fs[4].Octet? && fs[5].Octet? && fs[6].CString?
    && fs[7].Octet? && fs[8].Octet? && fs[9].Octet?
    && fs[10].CString? && fs[11].CString?
    && fs[12].Octet? && fs[13].Octet? && fs[14].Octet? && fs[15].Octet? && fs[16].Octet?
  }

  /**
    A receiver of section 4.4.1's submit_sm.  With skipNul false it takes the optional
    parameters as section 5.3.2 lays them out; with skipNul true it is lenient towards
    this client, and skips the NUL that follows a text parameter uncounted.
   */
  function Parse(pdu: bytes, skipNul: bool): Option<Submitted> {
    if |pdu| < HEADER_LENGTH then None
    else
      match ReadFields(SUBMIT_SM_SHAPES, pdu[HEADER_LENGTH..])
      case None => None
      case Some((fs, rest)) => ParseText(ReadHeader(pdu), fs, rest, skipNul)
  }

  /** sm_length octets of text, and the optional parameters behind it. */
  function ParseText(header: Header, fs: seq<Field>, rest: bytes, skipNul: bool): Option<Submitted> {
    if !HasSubmitShape(fs) || !(0 <= fs[16].value <= |rest|) then None
    else
      Finish(header, fs,
             Gsm.Decode(rest[..fs[16].value], Gsm.Strict),
             OptionalTags.Read(rest[fs[16].value..], skipNul))
  }

  function Finish(header: Header, fs: seq<Field>, text: Result<string>, params: Option<seq<OptionalTags.Param>>)
    : Option<Submitted>
    requires HasSubmitShape(fs)
  {
    if text.Err? || params.None? then None
    else
      Some(Submitted(
             header,
             fs[0].text, fs[1].value, fs[2].value, fs[3].text,
             fs[4].value, fs[5].value, fs[6].text,
             fs[7].value, fs[8].value, fs[9].value,
             fs[10].text, fs[11].text,
             fs[12].value, fs[13].value, fs[14].value,
             fs[15].value,
             text.value, params.value))
  }

  // ----------------------------------------------------------------- round trip

  /** A message's mandatory parameters, with a given header, text and options. */
  function Describe(m: Message, header: Header, text: string, params: seq<OptionalTags.Param>): Submitted {
    Submitted(
      header,
      m.serviceType, m.sourceAddrTon, m.sourceAddrNpi, m.sourceAddr,
      m.destAddrTon, m.destAddrNpi, m.destinationAddr,
      m.esmClass, m.protocolId, m.priorityFlag,
      m.scheduleDeliveryTime, m.validityPeriod,
      m.registeredDelivery, m.replaceIfPresentFlag, 0,
      m.smDefaultMsgId,
      text, params)
  }

  /** What the receiver ought to read for a message: a submit_sm with data_coding 0. */
  function Expected(m: Message, pdu: bytes, sequence: int): Submitted {
    Describe(m, Header(|pdu|, 0x4, 0, sequence),
             Gsm.Sanitised(m.shortMessage, m.errors),
             OptionalTags.Wire(OptionalTags.TruthyOnly(m.params)))
  }

  predicate NulFreeMessage(m: Message) {
    && '\0' !in m.serviceType && '\0' !in m.sourceAddr && '\0' !in m.destinationAddr
    && '\0' !in m.scheduleDeliveryTime && '\0' !in m.validityPeriod
  }

  lemma MandatoryShapes(m: Message, smLength: int)
    ensures Shapes(Mandatory(m, smLength)) == SUBMIT_SM_SHAPES
    ensures NulFree(Mandatory(m, smLength)) <==> NulFreeMessage(m)
  {
    MandatoryPositions(m, smLength);
  }

  /** The text survives exactly when it is free of ESC. */
  lemma TextRoundTrip(s: string, errors: Gsm.Errors)
    requires Gsm.Encode(s, errors).Ok?
    ensures Gsm.Decode(Gsm.Encode(s, errors).value, Gsm.Strict) == Ok(Gsm.Sanitised(s, errors))
            <==> Gsm.ESC !in Gsm.Sanitised(s, errors)
  {
    Gsm.EncodeModes(s, errors);
    Gsm.RoundTrip(Gsm.Sanitised(s, errors));
  }

  /** The optional parameters survive for the lenient reader; for the strict one unless there is a text among them. */
  predicate OptionsSurvive(m: Message, skipNul: bool) {
    skipNul || !OptionalTags.HasText(OptionalTags.TruthyOnly(m.params))
  }

  /** Behind its own mandatory parameters, a message's text and options read back exactly when each of them survives. */
  lemma TextAndOptionsReadBack(m: Message, pdu: bytes, sequence: int, text: bytes, optional: bytes, skipNul: bool)
    requires |text| < 256
    requires Gsm.Decode(text, Gsm.Strict) == Ok(Gsm.Sanitised(m.shortMessage, m.errors))
             <==> Gsm.ESC !in Gsm.Sanitised(m.shortMessage, m.errors)
    requires OptionalTags.Read(optional, skipNul) == Some(OptionalTags.Wire(OptionalTags.TruthyOnly(m.params)))
             <==> OptionsSurvive(m, skipNul)
    ensures var header := Header(|pdu|, SUBMIT_SM_ID, 0, sequence);
            ParseText(header, Mandatory(m, |text|), text + optional, skipNul) == Some(Expected(m, pdu, sequence))
            <==> Gsm.ESC !in Gsm.Sanitised(m.shortMessage, m.errors) && OptionsSurvive(m, skipNul)
  {
    var header := Header(|pdu|, SUBMIT_SM_ID, 0, sequence);
    var fs := Mandatory(m, |text|);
    MandatoryPositions(m, |text|);
    FinishMandatory(fs, m, header, |text|, Gsm.Decode(text, Gsm.Strict),
                    OptionalTags.Read(optional, skipNul));
    ParseTextSplits(header, fs, text, optional, skipNul);
  }

  lemma ParseTextSplits(header: Header, fs: seq<Field>, text: bytes, optional: bytes, skipNul: bool)
    requires HasSubmitShape(fs) && fs[16].value == |text|
    ensures ParseText(header, fs, text + optional, skipNul)
            == Finish(header, fs, Gsm.Decode(text, Gsm.Strict), OptionalTags.Read(optional, skipNul))
  {
    var rest := text + optional;
    assert rest[..|text|] == text && rest[|text|..] == optional;
  }

  /** The mandatory parameters, position by position. */
  predicate IsMandatory(fs: seq<Field>, m: Message, smLength: int) {
    && |fs| == 17
    && fs[0] == CString(m.serviceType) && fs[1] == Octet(m.sourceAddrTon) && fs[2] == Octet(m.sourceAddrNpi)
    && fs[3] == CString(m.sourceAddr) && fs[4] == Octet(m.destAddrTon) && fs[5] == Octet(m.destAddrNpi)
    && fs[6] == CString(m.destinationAddr) && fs[7] == Octet(m.esmClass) && fs[8] == Octet(m.protocolId)
    && fs[9] == Octet(m.priorityFlag) && fs[10] == CString(m.scheduleDeliveryTime)
    && fs[11] == CString(m.validityPeriod) && fs[12] == Octet(m.registeredDelivery)
    && fs[13] == Octet(m.replaceIfPresentFlag) && fs[14] == Octet(DATA_CODING_GSM0338)
    && fs[15] == Octet(m.smDefaultMsgId) && fs[16] == Octet(smLength)
  }

  lemma MandatoryPositions(m: Message, smLength: int)
    ensures IsMandatory(Mandatory(m, smLength), m, smLength)
  {
  }

  lemma FinishMandatory(fs: seq<Field>, m: Message, header: Header, smLength: int, text: Result<string>,
                        params: Option<seq<OptionalTags.Param>>)
    requires IsMandatory(fs, m, smLength)
    ensures HasSubmitShape(fs) && fs[16].value == smLength
    ensures Finish(header, fs, text, params)
            == if text.Ok? && params.Some? then Some(Describe(m, header, text.value, params.value)) else None
  {
  }

  /** A PDU that reads back was read through NUL-free mandatory parameters. */
  lemma ExpectedFields(m: Message, pdu: bytes, sequence: int, fs: seq<Field>, rest: bytes, skipNul: bool)
    requires NulFree(fs)
    requires ParseText(ReadHeaderOf(pdu), fs, rest, skipNul) == Some(Expected(m, pdu, sequence))
    ensures NulFreeMessage(m)
  {
    assert fs[0].text == m.serviceType && fs[3].text == m.sourceAddr && fs[6].text == m.destinationAddr;
    assert fs[10].text == m.scheduleDeliveryTime && fs[11].text == m.validityPeriod;
  }

  function ReadHeaderOf(pdu: bytes): Header {
    if |pdu| < HEADER_LENGTH then Header(0, 0, 0, 0) else ReadHeader(pdu)
  }

  lemma ParsedIsNulFree(m: Message, pdu: bytes, sequence: int, skipNul: bool)
    requires Parse(pdu, skipNul) == Some(Expected(m, pdu, sequence))
    ensures NulFreeMessage(m)
  {
    var (fs, rest) := ReadFields(SUBMIT_SM_SHAPES, pdu[HEADER_LENGTH..]).value;
    ReadFieldsAreNulFree(SUBMIT_SM_SHAPES, pdu[HEADER_LENGTH..]);
    ExpectedFields(m, pdu, sequence, fs, rest, skipNul);
  }

  /** A NUL-free message is read through its own mandatory parameters. */
  lemma ParsesThroughMandatory(m: Message, pdu: bytes, smLength: int, rest: bytes, skipNul: bool)
    requires Emit(Mandatory(m, smLength)).Ok? && NulFreeMessage(m)
    requires |pdu| >= HEADER_LENGTH && pdu[HEADER_LENGTH..] == Emit(Mandatory(m, smLength)).value + rest
    ensures Parse(pdu, skipNul) == ParseText(ReadHeader(pdu), Mandatory(m, smLength), rest, skipNul)
  {
    MandatoryShapes(m, smLength);
    FieldsRoundTrip(Mandatory(m, smLength), rest);
  }

  lemma BodyParts(m: Message, text: bytes, mandatory: bytes, optional: bytes)
    requires Gsm.Encode(m.shortMessage, m.errors) == Ok(text)
    requires Emit(Mandatory(m, |text|)) == Ok(mandatory)
    requires OptionalTags.Build(m.params) == Ok(optional)
    ensures Body(m) == Ok(mandatory + (text + optional))
  {
    assert mandatory + text + optional == mandatory + (text + optional);
  }

  lemma {:induction false} EmittedOctet(fs: seq<Field>, i: nat)
    requires Emit(fs).Ok? && i < |fs| && fs[i].Octet?
    ensures 0 <= fs[i].value < 256
  {
    if i > 0 {
      EmittedOctet(fs[1..], i - 1);
    }
  }

  /**
    submit_sm round trip.  For every message that builds, command_length is the size
    of the PDU.  The reader that skips the texts' NULs recovers the header, every
    mandatory parameter, the text as its error mode leaves it, and the truthy optional
    parameters in order, if and only if no C-octet string contains a NUL and the text no
    ESC; the reader that follows sections 4.4.1 and 5.3.2 to the letter, if and only if
    moreover no optional parameter sent is a text.
   */
  lemma SubmitRoundTrip(m: Message, sequence: int, skipNul: bool)
    requires Build(m, sequence).Ok?
    ensures var pdu := Build(m, sequence).value;
            && |pdu| >= HEADER_LENGTH && ReadHeader(pdu).commandLength == |pdu|
            && (Parse(pdu, skipNul) == Some(Expected(m, pdu, sequence)) <==>
                  && NulFreeMessage(m)
                  && Gsm.ESC !in Gsm.Sanitised(m.shortMessage, m.errors)
                  && (skipNul || !OptionalTags.HasText(OptionalTags.TruthyOnly(m.params))))
  {
    var text := Gsm.Encode(m.shortMessage, m.errors).value;
    var mandatory := Emit(Mandatory(m, |text|)).value;
    var optional := OptionalTags.Build(m.params).value;
    var pdu := Build(m, sequence).value;
    BodyParts(m, text, mandatory, optional);
    FrameReadsBack(SUBMIT_SM_ID, 0, sequence, mandatory + (text + optional));
    OptionsReadBack(m, skipNul);
    TextRoundTrip(m.shortMessage, m.errors);
    EmittedOctet(Mandatory(m, |text|), 16);
    if NulFreeMessage(m) {
      ParsesThroughMandatory(m, pdu, |text|, text + optional, skipNul);
      TextAndOptionsReadBack(m, pdu, sequence, text, optional, skipNul);
    } else if Parse(pdu, skipNul) == Some(Expected(m, pdu, sequence)) {
      ParsedIsNulFree(m, pdu, sequence, skipNul);
    }
  }

  /** The mandatory parameters of a message, one by one, have octets. */
  predicate MandatoryFit(m: Message) {
    && IsAscii(m.serviceType) && IsAscii(m.sourceAddr) && IsAscii(m.destinationAddr)
    && IsAscii(m.scheduleDeliveryTime) && IsAscii(m.validityPeriod)
    && 0 <= m.sourceAddrTon <= 0xFF && 0 <= m.sourceAddrNpi <= 0xFF
    && 0 <= m.destAddrTon <= 0xFF && 0 <= m.destAddrNpi <= 0xFF
    && 0 <= m.esmClass <= 0xFF && 0 <= m.protocolId <= 0xFF && 0 <= m.priorityFlag <= 0xFF
    && 0 <= m.registeredDelivery <= 0xFF && 0 <= m.replaceIfPresentFlag <= 0xFF && 0 <= m.smDefaultMsgId <= 0xFF
  }

  lemma AllFit(fs: seq<Field>, m: Message, smLength: int)
    requires IsMandatory(fs, m, smLength)
    ensures (forall i :: 0 <= i < |fs| ==> Fits(fs[i])) <==> MandatoryFit(m) && 0 <= smLength <= 0xFF
  {
  }

  /**
    Which messages can be sent, exactly: those whose text the codec encodes into at most 255
    octets, whose mandatory parameters are ASCII texts and octets, whose optional parameters
    fit their tags, and whose PDU and number fit 32 bits.
   */
  lemma BuildsExactly(m: Message, sequence: int)
    ensures Body(m).Ok? <==>
              && Gsm.Encode(m.shortMessage, m.errors).Ok? && |Gsm.Encode(m.shortMessage, m.errors).value| <= 255
              && MandatoryFit(m)
              && OptionalTags.AllFit(OptionalTags.Sent(m.params))
    ensures Build(m, sequence).Ok? <==>
              Body(m).Ok? && 16 + |Body(m).value| < 0x1_0000_0000 && 0 <= sequence < 0x1_0000_0000
  {
    OptionalTags.BuildsExactly(m.params);
    var text := Gsm.Encode(m.shortMessage, m.errors);
    if text.Ok? {
      MandatoryPositions(m, |text.value|);
      EmitsExactly(Mandatory(m, |text.value|));
      AllFit(Mandatory(m, |text.value|), m, |text.value|);
    }
  }

  /** Every message that builds goes out as a submit_sm, with status 0 and its own number. */
  lemma BuildsSubmitSm(m: Message, sequence: int)
    requires Build(m, sequence).Ok?
    ensures var pdu := Build(m, sequence).value;
            && |pdu| >= 16 && ReadHeader(pdu) == Header(|pdu|, 0x4, 0, sequence)
            && SearchCommand(ReadHeader(pdu).commandId) == Some(Command.SubmitSm)
  {
    FrameReadsBack(SUBMIT_SM_ID, 0, sequence, Body(m).value);
    CommandIdRoundTrip(Command.SubmitSm, 0x4);
  }

  lemma OptionsReadBack(m: Message, skipNul: bool)
    requires OptionalTags.Build(m.params).Ok?
    ensures OptionalTags.Read(OptionalTags.Build(m.params).value, skipNul)
              == Some(OptionalTags.Wire(OptionalTags.TruthyOnly(m.params)))
            <==> OptionsSurvive(m, skipNul)
  {
    OptionalTags.OptionalRoundTrip(m.params);
  }
}
