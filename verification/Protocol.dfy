/**
  Broker serialisation: the three messages a broker may hold as dictionaries, and back
  through json_to_Message.  The dictionary is what `json.dumps` is given and what
  `json.loads` returns.
 */
module Protocol {
  import opened Bytes
  import Gsm = GsmCodec
  import opened OptionalTags
  import SubmitSm

  /** The keyword arguments of the message classes. */
  datatype Key =
    | SmppCommand | Version | Encoding | Errors
    | ShortMessage | SourceAddr | DestinationAddr | LogId | HookMetadata | ServiceType
    | SourceAddrTon | SourceAddrNpi | DestAddrTon | DestAddrNpi
    | EsmClass | ProtocolId | PriorityFlag | ScheduleDeliveryTime | ValidityPeriod
    | RegisteredDelivery | ReplaceIfPresentFlag | SmDefaultMsgId
    | SequenceNumber | MessageId
    | Tagged(tag: Tag)

  type Dict = map<Key, Value>

  // ----------------------------------------------------------------- optional parameters

  /** The optional keyword arguments, in the order in which the constructor passes them on. */
  const OPTION_ORDER: seq<Tag> := [
    TwoOctets(UserMessageReference), TwoOctets(SourcePort), OneOctet(SourceAddrSubunit),
    TwoOctets(DestinationPort), OneOctet(DestAddrSubunit), TwoOctets(SarMsgRefNum),
    OneOctet(SarTotalSegments), OneOctet(SarSegmentSeqnum), OneOctet(MoreMessagesToSend),
    OneOctet(PayloadType), Text(MessagePayload), OneOctet(PrivacyIndicator), Text(CallbackNum),
    OneOctet(CallbackNumPresInd), Text(CallbackNumAtag), Text(SourceSubaddress), Text(DestSubaddress),
    OneOctet(UserResponseCode), OneOctet(DisplayTime), TwoOctets(SmsSignal), OneOctet(MsValidity),
    OneOctet(MsMsgWaitFacilities), OneOctet(NumberOfMessages), AlertOnMessageDelivery,
    OneOctet(LanguageIndicator), OneOctet(ItsReplyType), Text(ItsSessionInfo), Text(UssdServiceOp)]

  /** The value of an optional argument; only alert_on_message_delivery defaults to something other than None. */
  function Given(d: Dict, t: Tag): Option<Value> {
    if Tagged(t) in d then Some(d[Tagged(t)])
    else if t == AlertOnMessageDelivery then Some(BoolValue(false))
    else None
  }

  /** The arguments that are not None, in the given order. */
  function NotNone(order: seq<Tag>, d: Dict): Params {
    if order == [] then []
    else
      var before := NotNone(order[..|order| - 1], d);
      var t := order[|order| - 1];
      match Given(d, t)
      case None => before
      case Some(v) => before + [(t, v)]
  }

  predicate AllWellTyped(ps: Params) {
    forall i :: 0 <= i < |ps| ==> WellTyped(ps[i].0, ps[i].1)
  }

  /** _create_opt_tags: fill the dictionary, then validate what is in it. */
  method CreateOptTags(order: seq<Tag>, d: Dict) returns (r: Result<Params>)
    ensures r == if AllWellTyped(NotNone(order, d)) then Ok(NotNone(order, d)) else Err(ValueError)
  {
    var tags: Params := [];
    var i := 0;
    while i < |order|
      invariant 0 <= i <= |order|
      invariant tags == NotNone(order[..i], d)
    {
      assert order[..i + 1][..i] == order[..i];
      var given := Given(d, order[i]);
      if given.Some? {
        tags := tags + [(order[i], given.value)];
      }
      i := i + 1;
    }
    assert order[..i] == order;
    i := 0;
    while i < |tags|
      invariant 0 <= i <= |tags|
      invariant AllWellTyped(tags[..i])
    {
      if !WellTyped(tags[i].0, tags[i].1) {
        return Err(ValueError);
      }
      assert forall k :: 0 <= k < i ==> tags[..i][k] == tags[..i + 1][k];
      i := i + 1;
    }
    assert tags[..i] == tags;
    return Ok(tags);
  }

  // ----------------------------------------------------------------- from a dictionary

  function ErrorsOf(name: string): Gsm.Errors {
    if name == "strict" then Gsm.Strict
    else if name == "ignore" then Gsm.Ignore
    else if name == "replace" then Gsm.Replace
    else Gsm.OtherErrors(name)
  }

  function NameOf(e: Gsm.Errors): string {
    match e
    case Strict => "strict"
    case Ignore => "ignore"
    case Replace => "replace"
    case OtherErrors(name) => name
  }

  /** A str argument: a missing one takes its default, or is a TypeError. */
  function Str(d: Dict, key: Key, default: Option<string>): Result<string> {
    if key in d then (if d[key].StrValue? then Ok(d[key].s) else Err(ValueError))
    else if default.Some? then Ok(default.value)
    else Err(TypeError)
  }

  function Int(d: Dict, key: Key, default: int): Result<int> {
    if key in d then (if d[key].StrValue? then Err(ValueError) else Ok(AsInt(d[key]))) else Ok(default)
  }

  const SUBMIT_SM := "submit_sm"
  const GSM0338 := "gsm0338"

  /** The non-SMPP arguments, which must have the values this model covers. */
  function CheckEnvelope(d: Dict): Result<()> {
    var version :- Int(d, Version, 1);
    var command :- Str(d, SmppCommand, Some(SUBMIT_SM));
    var encoding :- Str(d, Encoding, Some(GSM0338));
    if version != 1 || command != SUBMIT_SM || encoding != GSM0338 then Err(ValueError) else Ok(())
  }

  datatype Texts = Texts(
    logId: string, hookMetadata: string, shortMessage: string, sourceAddr: string, destinationAddr: string,
    serviceType: string, scheduleDeliveryTime: string, validityPeriod: string, errors: string)

  function ReadTexts(d: Dict): Result<Texts> {
    var logId :- Str(d, LogId, None);
    var hookMetadata :- Str(d, HookMetadata, Some(""));
    var shortMessage :- Str(d, ShortMessage, None);
    var sourceAddr :- Str(d, SourceAddr, None);
    var destinationAddr :- Str(d, DestinationAddr, None);
    var serviceType :- Str(d, ServiceType, Some("CMT"));
    var scheduleDeliveryTime :- Str(d, ScheduleDeliveryTime, Some(""));
    var validityPeriod :- Str(d, ValidityPeriod, Some(""));
    var errors :- Str(d, Errors, Some("strict"));
    Ok(Texts(logId, hookMetadata, shortMessage, sourceAddr, destinationAddr,
             serviceType, scheduleDeliveryTime, validityPeriod, errors))
  }

  datatype Numbers = Numbers(
    sourceAddrTon: int, sourceAddrNpi: int, destAddrTon: int, destAddrNpi: int,
    esmClass: int, protocolId: int, priorityFlag: int,
    registeredDelivery: int, replaceIfPresentFlag: int, smDefaultMsgId: int)

  function ReadNumbers(d: Dict): Result<Numbers> {
    var sourceAddrTon :- Int(d, SourceAddrTon, 1);
    var sourceAddrNpi :- Int(d, SourceAddrNpi, 1);
    var destAddrTon :- Int(d, DestAddrTon, 1);
    var destAddrNpi :- Int(d, DestAddrNpi, 1);
    var esmClass :- Int(d, EsmClass, 3);
    var protocolId :- Int(d, ProtocolId, 0);
    var priorityFlag :- Int(d, PriorityFlag, 0);
    var registeredDelivery :- Int(d, RegisteredDelivery, 1);
    var replaceIfPresentFlag :- Int(d, ReplaceIfPresentFlag, 0);
    var smDefaultMsgId :- Int(d, SmDefaultMsgId, 0);
    Ok(Numbers(sourceAddrTon, sourceAddrNpi, destAddrTon, destAddrNpi, esmClass, protocolId, priorityFlag,
               registeredDelivery, replaceIfPresentFlag, smDefaultMsgId))
  }

  function Assemble(t: Texts, n: Numbers, params: Params): SubmitSm.Message {
    SubmitSm.Message(
      t.logId, t.hookMetadata, t.shortMessage, t.sourceAddr, t.destinationAddr, t.serviceType,
      n.sourceAddrTon, n.sourceAddrNpi, n.destAddrTon, n.destAddrNpi,
      n.esmClass, n.protocolId, n.priorityFlag, t.scheduleDeliveryTime, t.validityPeriod,
      n.registeredDelivery, n.replaceIfPresentFlag, n.smDefaultMsgId, ErrorsOf(t.errors), params)
  }

  /** The keyword arguments that SubmitSM knows. */
  predicate Accepts(k: Key) {
    if k.Tagged? then k.tag in OPTION_ORDER else k != SequenceNumber && k != MessageId
  }

  /** SubmitSM(**d). */
  function FromDict(d: Dict): Result<SubmitSm.Message> {
    if exists k :: k in d && !Accepts(k) then Err(TypeError)
    else
      var _ :- CheckEnvelope(d);
      var texts :- ReadTexts(d);
      var numbers :- ReadNumbers(d);
      var params := NotNone(OPTION_ORDER, d);
      if AllWellTyped(params) then Ok(Assemble(texts, numbers, params)) else Err(ValueError)
  }

  /** A message as the broker holds it. */
  datatype Message =
    | SubmitSM(message: SubmitSm.Message)
    | EnquireLinkResp(logId: string, hookMetadata: string, sequenceNumber: int)
    | DeliverSmResp(logId: string, hookMetadata: string, messageId: string, sequenceNumber: int)

  const ENQUIRE_LINK_RESP := "enquire_link_resp"
  const DELIVER_SM_RESP := "deliver_sm_resp"

  /** A required int argument. */
  function RequiredInt(d: Dict, key: Key): Result<int> {
    if key in d then Int(d, key, 0) else Err(TypeError)
  }

  function CheckVersion(d: Dict): Result<()> {
    var version :- Int(d, Version, 1);
    if version == 1 then Ok(()) else Err(ValueError)
  }

  /** EnquireLinkResp(**d). */
  function EnquireLinkRespFrom(d: Dict): Result<Message> {
    if exists k :: k in d && k !in {SmppCommand, Version, LogId, SequenceNumber, HookMetadata} then Err(TypeError)
    else
      var logId :- Str(d, LogId, None);
      var sequenceNumber :- RequiredInt(d, SequenceNumber);
      var _ :- CheckVersion(d);
      var hookMetadata :- Str(d, HookMetadata, Some(""));
      Ok(EnquireLinkResp(logId, hookMetadata, sequenceNumber))
  }

  /** DeliverSmResp(**d). */
  function DeliverSmRespFrom(d: Dict): Result<Message> {
    if exists k :: k in d && k !in {SmppCommand, Version, LogId, MessageId, SequenceNumber, HookMetadata} then
      Err(TypeError)
    else
      var logId :- Str(d, LogId, None);
      var messageId :- Str(d, MessageId, None);
      var sequenceNumber :- RequiredInt(d, SequenceNumber);
      var _ :- CheckVersion(d);
      var hookMetadata :- Str(d, HookMetadata, Some(""));
      Ok(DeliverSmResp(logId, hookMetadata, messageId, sequenceNumber))
  }

  /** json_to_Message: the smpp_command entry picks the class. */
  function JsonToMessage(d: Dict): Result<Message> {
    if SmppCommand !in d then Err(KeyError)
    else if d[SmppCommand] == StrValue(SUBMIT_SM) then
      var m :- FromDict(d);
      Ok(SubmitSM(m))
    else if d[SmppCommand] == StrValue(ENQUIRE_LINK_RESP) then EnquireLinkRespFrom(d)
    else if d[SmppCommand] == StrValue(DELIVER_SM_RESP) then DeliverSmRespFrom(d)
    else Err(NotImplementedError)
  }

  // ----------------------------------------------------------------- to a dictionary

  function EnvelopeDict(): Dict {
    map[SmppCommand := StrValue(SUBMIT_SM), Version := IntValue(1), Encoding := StrValue(GSM0338)]
  }

  function TextDict(m: SubmitSm.Message): Dict {
    map[
      ShortMessage := StrValue(m.shortMessage), SourceAddr := StrValue(m.sourceAddr),
      DestinationAddr := StrValue(m.destinationAddr), LogId := StrValue(m.logId),
      HookMetadata := StrValue(m.hookMetadata), ServiceType := StrValue(m.serviceType),
      ScheduleDeliveryTime := StrValue(m.scheduleDeliveryTime), ValidityPeriod := StrValue(m.validityPeriod),
      Errors := StrValue(NameOf(m.errors))]
  }

  function NumberDict(m: SubmitSm.Message): Dict {
    map[
      SourceAddrTon := IntValue(m.sourceAddrTon), SourceAddrNpi := IntValue(m.sourceAddrNpi),
      DestAddrTon := IntValue(m.destAddrTon), DestAddrNpi := IntValue(m.destAddrNpi),
      EsmClass := IntValue(m.esmClass), ProtocolId := IntValue(m.protocolId),
      PriorityFlag := IntValue(m.priorityFlag), RegisteredDelivery := IntValue(m.registeredDelivery),
      ReplaceIfPresentFlag := IntValue(m.replaceIfPresentFlag), SmDefaultMsgId := IntValue(m.smDefaultMsgId)]
  }

  function FieldDict(m: SubmitSm.Message): Dict {
    EnvelopeDict() + TextDict(m) + NumberDict(m)
  }

  /** dict.update(**optional_tags_dict) */
  function Updated(d: Dict, ps: Params): Dict {
    if ps == [] then d
    else
      var (t, v) := ps[|ps| - 1];
      Updated(d, ps[..|ps| - 1])[Tagged(t) := v]
  }

  function ToDict(m: SubmitSm.Message): Dict {
    Updated(FieldDict(m), m.params)
  }

  /** to_json, before the dump. */
  function MessageToDict(x: Message): Dict {
    match x
    case SubmitSM(m) => ToDict(m)
    case EnquireLinkResp(logId, hookMetadata, sequenceNumber) =>
      map[SmppCommand := StrValue(ENQUIRE_LINK_RESP), Version := IntValue(1), LogId := StrValue(logId),
          SequenceNumber := IntValue(sequenceNumber), HookMetadata := StrValue(hookMetadata)]
    case DeliverSmResp(logId, hookMetadata, messageId, sequenceNumber) =>
      map[SmppCommand := StrValue(DELIVER_SM_RESP), Version := IntValue(1), LogId := StrValue(logId),
          MessageId := StrValue(messageId), SequenceNumber := IntValue(sequenceNumber),
          HookMetadata := StrValue(hookMetadata)]
  }

  // ----------------------------------------------------------------- round trip

  lemma {:induction false} UpdatedKeepsFields(d: Dict, ps: Params)
    ensures forall k: Key :: !k.Tagged? ==> (k in Updated(d, ps) <==> k in d)
    ensures forall k: Key :: !k.Tagged? && k in d ==> Updated(d, ps)[k] == d[k]
  {
    if ps != [] {
      UpdatedKeepsFields(d, ps[..|ps| - 1]);
    }
  }

  /** Only tags of the order are written, each with the value it was given. */
  lemma {:induction false} UpdatedTags(fields: Dict, order: seq<Tag>, d: Dict, t: Tag)
    requires forall k :: k in fields ==> !k.Tagged?
    ensures var u := Updated(fields, NotNone(order, d));
            && (Tagged(t) in u <==> t in order && Given(d, t).Some?)
            && (Tagged(t) in u ==> u[Tagged(t)] == Given(d, t).value)
  {
    if order != [] {
      var n := |order| - 1;
      UpdatedTags(fields, order[..n], d, t);
      assert order == order[..n] + [order[n]];
      var before := NotNone(order[..n], d);
      match Given(d, order[n])
      case None =>
      case Some(v) =>
        assert (before + [(order[n], v)])[..|before|] == before;
    }
  }

  lemma {:induction false} SameGivenSameTags(order: seq<Tag>, d: Dict, e: Dict)
    requires forall i :: 0 <= i < |order| ==> Given(d, order[i]) == Given(e, order[i])
    ensures NotNone(order, d) == NotNone(order, e)
  {
    if order != [] {
      SameGivenSameTags(order[..|order| - 1], d, e);
    }
  }

  /** Updating a dictionary with the arguments that are not None makes it give the same arguments again. */
  lemma TagsSurvive(fields: Dict, order: seq<Tag>, d: Dict)
    requires forall k :: k in fields ==> !k.Tagged?
    requires AlertOnMessageDelivery in order
    ensures var u := Updated(fields, NotNone(order, d));
            && NotNone(order, u) == NotNone(order, d)
            && forall k :: k in u && k.Tagged? ==> k.tag in order
  {
    var u := Updated(fields, NotNone(order, d));
    forall i | 0 <= i < |order|
      ensures Given(d, order[i]) == Given(u, order[i])
    {
      UpdatedTags(fields, order, d, order[i]);
    }
    SameGivenSameTags(order, d, u);
    forall k | k in u && k.Tagged?
      ensures k.tag in order
    {
      UpdatedTags(fields, order, d, k.tag);
    }
  }

  lemma ErrorsRoundTrip(name: string)
    ensures ErrorsOf(NameOf(ErrorsOf(name))) == ErrorsOf(name)
  {
  }

  /** What the constructor establishes. */
  lemma Constructed(d: Dict, m: SubmitSm.Message)
    requires FromDict(d) == Ok(m)
    ensures m.params == NotNone(OPTION_ORDER, d) && AllWellTyped(m.params)
    ensures ErrorsOf(NameOf(m.errors)) == m.errors
  {
    var texts, numbers := ReadTexts(d).value, ReadNumbers(d).value;
    assert m == Assemble(texts, numbers, NotNone(OPTION_ORDER, d));
    ErrorsRoundTrip(texts.errors);
  }

  /** d agrees with a dictionary on that dictionary's keys. */
  ghost predicate Contains(d: Dict, part: Dict) {
    forall k :: k in part ==> k in d && d[k] == part[k]
  }

  lemma TextsSurvive(m: SubmitSm.Message, d: Dict)
    requires Contains(d, TextDict(m))
    ensures ReadTexts(d) == Ok(Texts(m.logId, m.hookMetadata, m.shortMessage, m.sourceAddr, m.destinationAddr,
                                     m.serviceType, m.scheduleDeliveryTime, m.validityPeriod, NameOf(m.errors)))
  {
    var part := TextDict(m);
    assert LogId in part && HookMetadata in part && ShortMessage in part && SourceAddr in part;
    assert DestinationAddr in part && ServiceType in part && ScheduleDeliveryTime in part;
    assert ValidityPeriod in part && Errors in part;
  }

  lemma NumbersSurvive(m: SubmitSm.Message, d: Dict)
    requires Contains(d, NumberDict(m))
    ensures ReadNumbers(d) == Ok(Numbers(m.sourceAddrTon, m.sourceAddrNpi, m.destAddrTon, m.destAddrNpi,
                                         m.esmClass, m.protocolId, m.priorityFlag,
                                         m.registeredDelivery, m.replaceIfPresentFlag, m.smDefaultMsgId))
  {
    var part := NumberDict(m);
    assert SourceAddrTon in part && SourceAddrNpi in part && DestAddrTon in part && DestAddrNpi in part;
    assert EsmClass in part && ProtocolId in part && PriorityFlag in part;
    assert RegisteredDelivery in part && ReplaceIfPresentFlag in part && SmDefaultMsgId in part;
  }

  lemma EnvelopeSurvives(d: Dict)
    requires Contains(d, EnvelopeDict())
    ensures CheckEnvelope(d) == Ok(()) && SmppCommand in d && d[SmppCommand] == StrValue(SUBMIT_SM)
  {
    var part := EnvelopeDict();
    assert SmppCommand in part && Version in part && Encoding in part;
  }

  /** Which part of a SubmitSM's dictionary a key belongs to. */
  function Group(k: Key): int {
    match k
    case SmppCommand | Version | Encoding => 0
    case ShortMessage | SourceAddr | DestinationAddr | LogId | HookMetadata | ServiceType
       | ScheduleDeliveryTime | ValidityPeriod | Errors => 1
    case Tagged(_) | SequenceNumber | MessageId => 3
    case _ => 2
  }

  ghost predicate AllInGroup(d: Dict, g: int) {
    forall k :: k in d ==> Group(k) == g
  }

  lemma FieldGroups(m: SubmitSm.Message)
    ensures AllInGroup(EnvelopeDict(), 0) && AllInGroup(TextDict(m), 1) && AllInGroup(NumberDict(m), 2)
    ensures forall k :: k in FieldDict(m) ==> Group(k) < 3
  {
    TextGroup(m);
    NumberGroup(m);
  }

  lemma TextGroup(m: SubmitSm.Message)
    ensures AllInGroup(TextDict(m), 1)
  {
  }

  lemma NumberGroup(m: SubmitSm.Message)
    ensures AllInGroup(NumberDict(m), 2)
  {
  }

  lemma UnionContains(a: Dict, b: Dict, c: Dict, ps: Params)
    requires AllInGroup(a, 0) && AllInGroup(b, 1) && AllInGroup(c, 2)
    ensures var u := Updated(a + b + c, ps);
            Contains(u, a) && Contains(u, b) && Contains(u, c)
  {
    UpdatedKeepsFields(a + b + c, ps);
  }

  lemma FieldsAreContained(m: SubmitSm.Message)
    ensures Contains(ToDict(m), EnvelopeDict())
    ensures Contains(ToDict(m), TextDict(m)) && Contains(ToDict(m), NumberDict(m))
  {
    FieldGroups(m);
    UnionContains(EnvelopeDict(), TextDict(m), NumberDict(m), m.params);
  }

  ghost predicate CarriesTags(e: Dict, params: Params) {
    && NotNone(OPTION_ORDER, e) == params
    && forall k :: k in e ==> Accepts(k)
  }

  lemma AlertIsAnOption()
    ensures AlertOnMessageDelivery in OPTION_ORDER
  {
    assert OPTION_ORDER[23] == AlertOnMessageDelivery;
  }

  lemma UpdatedCarriesTags(fields: Dict, d: Dict)
    requires forall k :: k in fields ==> Group(k) < 3
    ensures CarriesTags(Updated(fields, NotNone(OPTION_ORDER, d)), NotNone(OPTION_ORDER, d))
  {
    var ps := NotNone(OPTION_ORDER, d);
    AlertIsAnOption();
    TagsSurvive(fields, OPTION_ORDER, d);
    UpdatedKeepsFields(fields, ps);
    forall k | k in Updated(fields, ps)
      ensures Accepts(k)
    {
      assert !k.Tagged? ==> k in fields;
    }
  }

  lemma ToDictCarriesTags(m: SubmitSm.Message, d: Dict)
    requires m.params == NotNone(OPTION_ORDER, d)
    ensures CarriesTags(ToDict(m), m.params)
  {
    FieldGroups(m);
    UpdatedCarriesTags(FieldDict(m), d);
  }

  /** A dictionary with the fields and the tags of a message constructs that message. */
  lemma ConstructsAgain(m: SubmitSm.Message, e: Dict)
    requires Contains(e, EnvelopeDict()) && Contains(e, TextDict(m)) && Contains(e, NumberDict(m))
    requires CarriesTags(e, m.params) && AllWellTyped(m.params) && ErrorsOf(NameOf(m.errors)) == m.errors
    ensures FromDict(e) == Ok(m) && SmppCommand in e && e[SmppCommand] == StrValue(SUBMIT_SM)
  {
    EnvelopeSurvives(e);
    TextsSurvive(m, e);
    NumbersSurvive(m, e);
  }

  lemma SubmitSurvives(d: Dict, m: SubmitSm.Message)
    requires FromDict(d) == Ok(m)
    ensures JsonToMessage(ToDict(m)) == Ok(SubmitSM(m))
  {
    Constructed(d, m);
    ToDictCarriesTags(m, d);
    FieldsAreContained(m);
    ConstructsAgain(m, ToDict(m));
  }

  lemma ReplySurvives(x: Message)
    requires !x.SubmitSM?
    ensures JsonToMessage(MessageToDict(x)) == Ok(x)
  {
    assert |SUBMIT_SM| == 9 && |ENQUIRE_LINK_RESP| == 17 && |DELIVER_SM_RESP| == 15;
  }

  // ----------------------------------------------------------------- argument by argument

  function TextArgument(d: Dict, key: Key, default: string): string {
    if key in d && d[key].StrValue? then d[key].s else default
  }

  function NumberArgument(d: Dict, key: Key, default: int): int {
    if key in d && !d[key].StrValue? then AsInt(d[key]) else default
  }

  lemma TextsArrive(d: Dict, t: Texts)
    requires ReadTexts(d) == Ok(t)
    ensures LogId in d && ShortMessage in d && SourceAddr in d && DestinationAddr in d
    ensures d[LogId] == StrValue(t.logId) && d[ShortMessage] == StrValue(t.shortMessage)
    ensures d[SourceAddr] == StrValue(t.sourceAddr) && d[DestinationAddr] == StrValue(t.destinationAddr)
    ensures t.hookMetadata == TextArgument(d, HookMetadata, "") && t.serviceType == TextArgument(d, ServiceType, "CMT")
    ensures t.scheduleDeliveryTime == TextArgument(d, ScheduleDeliveryTime, "")
    ensures t.validityPeriod == TextArgument(d, ValidityPeriod, "")
    ensures t.errors == TextArgument(d, Errors, "strict")
  {
  }

  lemma NumbersArrive(d: Dict, n: Numbers)
    requires ReadNumbers(d) == Ok(n)
    ensures n.sourceAddrTon == NumberArgument(d, SourceAddrTon, 1)
    ensures n.sourceAddrNpi == NumberArgument(d, SourceAddrNpi, 1)
    ensures n.destAddrTon == NumberArgument(d, DestAddrTon, 1) && n.destAddrNpi == NumberArgument(d, DestAddrNpi, 1)
    ensures n.esmClass == NumberArgument(d, EsmClass, 3) && n.protocolId == NumberArgument(d, ProtocolId, 0)
    ensures n.priorityFlag == NumberArgument(d, PriorityFlag, 0)
    ensures n.registeredDelivery == NumberArgument(d, RegisteredDelivery, 1)
    ensures n.replaceIfPresentFlag == NumberArgument(d, ReplaceIfPresentFlag, 0)
    ensures n.smDefaultMsgId == NumberArgument(d, SmDefaultMsgId, 0)
  {
  }

  /** Every argument arrives in its own field; four are required, and the others have the defaults of SubmitSM. */
  lemma ArgumentsArrive(d: Dict, m: SubmitSm.Message)
    requires FromDict(d) == Ok(m)
    ensures LogId in d && ShortMessage in d && SourceAddr in d && DestinationAddr in d
    ensures d[LogId] == StrValue(m.logId) && d[ShortMessage] == StrValue(m.shortMessage)
    ensures d[SourceAddr] == StrValue(m.sourceAddr) && d[DestinationAddr] == StrValue(m.destinationAddr)
    ensures m.hookMetadata == TextArgument(d, HookMetadata, "") && m.serviceType == TextArgument(d, ServiceType, "CMT")
    ensures m.scheduleDeliveryTime == TextArgument(d, ScheduleDeliveryTime, "")
    ensures m.validityPeriod == TextArgument(d, ValidityPeriod, "")
    ensures m.errors == ErrorsOf(TextArgument(d, Errors, "strict"))
    ensures m.sourceAddrTon == NumberArgument(d, SourceAddrTon, 1)
    ensures m.sourceAddrNpi == NumberArgument(d, SourceAddrNpi, 1)
    ensures m.destAddrTon == NumberArgument(d, DestAddrTon, 1) && m.destAddrNpi == NumberArgument(d, DestAddrNpi, 1)
    ensures m.esmClass == NumberArgument(d, EsmClass, 3) && m.protocolId == NumberArgument(d, ProtocolId, 0)
    ensures m.priorityFlag == NumberArgument(d, PriorityFlag, 0)
    ensures m.registeredDelivery == NumberArgument(d, RegisteredDelivery, 1)
    ensures m.replaceIfPresentFlag == NumberArgument(d, ReplaceIfPresentFlag, 0)
    ensures m.smDefaultMsgId == NumberArgument(d, SmDefaultMsgId, 0)
  {
    var texts, numbers := ReadParts(d, m);
    TextsArrive(d, texts);
    NumbersArrive(d, numbers);
  }

  lemma ReadParts(d: Dict, m: SubmitSm.Message) returns (texts: Texts, numbers: Numbers)
    requires FromDict(d) == Ok(m)
    ensures ReadTexts(d) == Ok(texts) && ReadNumbers(d) == Ok(numbers)
    ensures m == Assemble(texts, numbers, NotNone(OPTION_ORDER, d))
  {
    texts, numbers := ReadTexts(d).value, ReadNumbers(d).value;
  }

  /** An optional parameter is in the message exactly when it was given, with the value it was given. */
  lemma {:induction false} OptionsArrive(order: seq<Tag>, d: Dict, t: Tag, v: Value)
    ensures (t, v) in NotNone(order, d) <==>
              t in order && if Tagged(t) in d then d[Tagged(t)] == v
                            else t == AlertOnMessageDelivery && v == BoolValue(false)
  {
    if order != [] {
      OptionsArrive(order[..|order| - 1], d, t, v);
      assert order == order[..|order| - 1] + [order[|order| - 1]];
    }
  }

  /** The three error modes go by their own names; any other name is kept, to raise when the message is encoded. */
  lemma ModesByName(name: string)
    ensures ErrorsOf(name) == Gsm.Strict <==> name == "strict"
    ensures ErrorsOf(name) == Gsm.Ignore <==> name == "ignore"
    ensures ErrorsOf(name) == Gsm.Replace <==> name == "replace"
    ensures name !in {"strict", "ignore", "replace"} ==> ErrorsOf(name) == Gsm.OtherErrors(name)
  {
    assert |"strict"| == 6 && |"ignore"| == 6 && "strict"[0] == 's' && "ignore"[0] == 'i' && "replace"[0] == 'r';
  }

  /** The tag numbers of the optional arguments, in the order in which the constructor lists them. */
  const ARGUMENT_CODES: seq<int> := [
    0x0204, 0x020A, 0x000D, 0x020B, 0x0005, 0x020C, 0x020E, 0x020F, 0x0426, 0x0019, 0x0424, 0x0201, 0x0381, 0x0302,
    0x0303, 0x0202, 0x0203, 0x0205, 0x1201, 0x1203, 0x1204, 0x0030, 0x0304, 0x130C, 0x020D, 0x1380, 0x1383, 0x0501]

  /** The optional parameters go out in that order. */
  lemma ArgumentOrder(i: nat)
    requires i < |OPTION_ORDER|
    ensures |ARGUMENT_CODES| == |OPTION_ORDER| && Code(OPTION_ORDER[i]) == ARGUMENT_CODES[i]
  {
  }

  predicate TextIfGiven(d: Dict, key: Key) {
    key in d ==> d[key].StrValue?
  }

  predicate NumberIfGiven(d: Dict, key: Key) {
    key in d ==> !d[key].StrValue?
  }

  lemma TextsExactly(d: Dict)
    ensures ReadTexts(d).Ok? <==>
              && LogId in d && ShortMessage in d && SourceAddr in d && DestinationAddr in d
              && TextIfGiven(d, LogId) && TextIfGiven(d, ShortMessage) && TextIfGiven(d, SourceAddr)
              && TextIfGiven(d, DestinationAddr) && TextIfGiven(d, HookMetadata) && TextIfGiven(d, ServiceType)
              && TextIfGiven(d, ScheduleDeliveryTime) && TextIfGiven(d, ValidityPeriod) && TextIfGiven(d, Errors)
  {
  }

  lemma NumbersExactly(d: Dict)
    ensures ReadNumbers(d).Ok? <==>
              && NumberIfGiven(d, SourceAddrTon) && NumberIfGiven(d, SourceAddrNpi) && NumberIfGiven(d, DestAddrTon)
              && NumberIfGiven(d, DestAddrNpi) && NumberIfGiven(d, EsmClass) && NumberIfGiven(d, ProtocolId)
              && NumberIfGiven(d, PriorityFlag) && NumberIfGiven(d, RegisteredDelivery)
              && NumberIfGiven(d, ReplaceIfPresentFlag) && NumberIfGiven(d, SmDefaultMsgId)
  {
  }

  lemma EnvelopeExactly(d: Dict)
    ensures CheckEnvelope(d).Ok? <==>
              && (Version in d ==> !d[Version].StrValue? && AsInt(d[Version]) == 1)
              && (SmppCommand in d ==> d[SmppCommand] == StrValue("submit_sm"))
              && (Encoding in d ==> d[Encoding] == StrValue("gsm0338"))
  {
  }

  /** An optional parameter has a value of the type its tag insists on. */
  predicate OptionTyped(t: Tag, v: Value) {
    if t.Text? then v.StrValue? else if t == AlertOnMessageDelivery then v.BoolValue? else !v.StrValue?
  }

  lemma OptionsExactly(d: Dict)
    ensures AllWellTyped(NotNone(OPTION_ORDER, d)) <==>
              forall t :: t in OPTION_ORDER && Tagged(t) in d ==> OptionTyped(t, d[Tagged(t)])
  {
    var ps := NotNone(OPTION_ORDER, d);
    if AllWellTyped(ps) {
      forall t | t in OPTION_ORDER && Tagged(t) in d
        ensures OptionTyped(t, d[Tagged(t)])
      {
        OptionsArrive(OPTION_ORDER, d, t, d[Tagged(t)]);
        var i :| 0 <= i < |ps| && ps[i] == (t, d[Tagged(t)]);
        assert WellTyped(ps[i].0, ps[i].1);
      }
    }
    if forall t :: t in OPTION_ORDER && Tagged(t) in d ==> OptionTyped(t, d[Tagged(t)]) {
      forall i | 0 <= i < |ps|
        ensures WellTyped(ps[i].0, ps[i].1)
      {
        assert (ps[i].0, ps[i].1) in ps;
        OptionsArrive(OPTION_ORDER, d, ps[i].0, ps[i].1);
      }
    }
  }

  /**
    Which dictionaries construct a SubmitSM, exactly: no key is unknown, and the envelope,
    the texts, the numbers and the optional parameters are each in order, as the four
    lemmas above spell out.
   */
  lemma ConstructsExactly(d: Dict)
    ensures FromDict(d).Ok? <==>
              && (forall k :: k in d ==> Accepts(k))
              && CheckEnvelope(d).Ok? && ReadTexts(d).Ok? && ReadNumbers(d).Ok?
              && (forall t :: t in OPTION_ORDER && Tagged(t) in d ==> OptionTyped(t, d[Tagged(t)]))
  {
    OptionsExactly(d);
  }

  /** The arguments of the two replies arrive in their own fields as well. */
  lemma ReplyArgumentsArrive(d: Dict, x: Message)
    requires JsonToMessage(d) == Ok(x) && !x.SubmitSM?
    ensures LogId in d && d[LogId] == StrValue(x.logId) && x.hookMetadata == TextArgument(d, HookMetadata, "")
    ensures SequenceNumber in d && !d[SequenceNumber].StrValue? && x.sequenceNumber == AsInt(d[SequenceNumber])
    ensures x.DeliverSmResp? ==> MessageId in d && d[MessageId] == StrValue(x.messageId)
  {
  }

  /** The smpp_command entry, and nothing else, picks the class. */
  lemma CommandPicksClass(d: Dict)
    ensures JsonToMessage(d).Ok? ==>
              && SmppCommand in d
              && d[SmppCommand] == match JsonToMessage(d).value
                                   case SubmitSM(_) => StrValue("submit_sm")
                                   case EnquireLinkResp(_, _, _) => StrValue("enquire_link_resp")
                                   case DeliverSmResp(_, _, _, _) => StrValue("deliver_sm_resp")
    ensures SmppCommand in d && d[SmppCommand] !in {StrValue("submit_sm"), StrValue("enquire_link_resp"),
                                                    StrValue("deliver_sm_resp")} ==>
              JsonToMessage(d) == Err(NotImplementedError)
    ensures SmppCommand !in d ==> JsonToMessage(d) == Err(KeyError)
  {
  }

  /**
    Serialisation preserves meaning: every message that can be constructed, a SubmitSM
    from whatever arguments d, comes back from its own dictionary as the same message,
    its optional parameters in the same order, so that it builds to the same octets.
   */
  lemma SerialisationRoundTrip(x: Message, d: Dict)
    requires x.SubmitSM? ==> FromDict(d) == Ok(x.message)
    ensures JsonToMessage(MessageToDict(x)) == Ok(x)
  {
    if x.SubmitSM? {
      SubmitSurvives(d, x.message);
    } else {
      ReplySurvives(x);
    }
  }
}
