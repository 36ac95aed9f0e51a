/**
  The two lookup tables of the receive path: command ids (section 5.1.2.1 of
  SMPP v3.4) and command statuses (section 5.1.3), in the order in which the
  client searches them.
 */
module Commands {
  import opened Bytes

  datatype Command =
    | BindTransceiver
    | BindTransceiverResp
    | BindTransmitter
    | BindReceiver
    | Unbind
    | UnbindResp
    | SubmitSm
    | SubmitSmResp
    | DeliverSm
    | DeliverSmResp
    | EnquireLink
    | EnquireLinkResp
    | GenericNack
    | BindReceiverResp
    | BindTransmitterResp
    | QuerySm
    | QuerySmResp
    | ReplaceSm
    | ReplaceSmResp
    | CancelSm
    | CancelSmResp
    | SubmitMulti
    | SubmitMultiResp
    | Outbind
    | AlertNotification
    | DataSm
    | DataSmResp
    | ReservedA
    | ReservedB
    | ReservedC
    | ReservedD
    | ReservedE
    | ReservedF
    | ReservedG
    | ReservedListA
    | ReservedListB
    | ReservedListC
    | ReservedListD
    | ReservedListE
    | ReservedListF
    | ReservedListG
    | ReservedListH
    | ReservedListI
    | ReservedForSmppExtensionA
    | ReservedForSmppExtensionB
    | ReservedForSmscVendorA
    | ReservedForSmscVendorB

  /** A table entry is one value or a closed range of values. */
  datatype Codes = Exactly(value: int) | Range(low: int, high: int)

  predicate Covers(codes: Codes, v: int) {
    match codes
    case Exactly(value) => v == value
    case Range(low, high) => low <= v <= high
  }

  datatype Row = Row(command: Command, codes: Codes)

  const COMMAND_ROWS := 45

  function CommandRow(i: int): Row
    requires 0 <= i < COMMAND_ROWS
  {
    match i
    case 0 => Row(BindTransceiver, Exactly(0x9))
    case 1 => Row(BindTransceiverResp, Exactly(0x80000009))
    case 2 => Row(Unbind, Exactly(0x6))
    case 3 => Row(UnbindResp, Exactly(0x80000006))
    case 4 => Row(SubmitSm, Exactly(0x4))
    case 5 => Row(SubmitSmResp, Exactly(0x80000004))
    case 6 => Row(DeliverSm, Exactly(0x5))
    case 7 => Row(DeliverSmResp, Exactly(0x80000005))
    case 8 => Row(EnquireLink, Exactly(0x15))
    case 9 => Row(EnquireLinkResp, Exactly(0x80000015))
    case 10 => Row(GenericNack, Exactly(0x80000000))
    case 11 => Row(BindReceiverResp, Exactly(0x80000001))
    case 12 => Row(BindTransmitterResp, Exactly(0x80000002))
    case 13 => Row(QuerySm, Exactly(0x3))
    case 14 => Row(QuerySmResp, Exactly(0x80000003))
    case 15 => Row(ReplaceSm, Exactly(0x7))
    case 16 => Row(ReplaceSmResp, Exactly(0x80000007))
    case 17 => Row(CancelSm, Exactly(0x8))
    case 18 => Row(CancelSmResp, Exactly(0x80000008))
    case 19 => Row(SubmitMulti, Exactly(0x21))
    case 20 => Row(SubmitMultiResp, Exactly(0x80000021))
    case 21 => Row(Outbind, Exactly(0xB))
    case 22 => Row(AlertNotification, Exactly(0x102))
    case 23 => Row(DataSm, Exactly(0x103))
    case 24 => Row(DataSmResp, Exactly(0x80000103))
    case 25 => Row(ReservedA, Exactly(0xA))
    case 26 => Row(ReservedB, Exactly(0x8000000A))
    case 27 => Row(ReservedC, Exactly(0x100))
    case 28 => Row(ReservedD, Exactly(0x80000100))
    case 29 => Row(ReservedE, Exactly(0x101))
    case 30 => Row(ReservedF, Exactly(0x80000101))
    case 31 => Row(ReservedG, Exactly(0x80000102))
    case 32 => Row(ReservedListA, Range(0xC, 0x14))
    case 33 => Row(ReservedListB, Range(0x8000000B, 0x80000014))
    case 34 => Row(ReservedListC, Range(0x16, 0x20))
    case 35 => Row(ReservedListD, Range(0x80000016, 0x80000020))
    case 36 => Row(ReservedListE, Range(0x22, 0xFF))
    case 37 => Row(ReservedListF, Range(0x80000022, 0x800000FF))
    case 38 => Row(ReservedListG, Range(0x10300, 0xFFFFFFFF))
    case 39 => Row(ReservedListH, Range(0x10000, 0x101FF))
    case 40 => Row(ReservedListI, Range(0x80010000, 0x800101FF))
    case 41 => Row(ReservedForSmppExtensionA, Range(0x104, 0xFFFF))
    case 42 => Row(ReservedForSmppExtensionB, Range(0x80000104, 0x8000FFFF))
    case 43 => Row(ReservedForSmscVendorA, Range(0x10200, 0x102FF))
    case _ => Row(ReservedForSmscVendorB, Range(0x80010200, 0x800102FF))
  }

  /** The first row from row i on that covers the id; None when there is none. */
  function SearchCommandFrom(id: int, i: int): Option<Command>
    requires 0 <= i <= COMMAND_ROWS
    decreases COMMAND_ROWS - i
  {
    if i == COMMAND_ROWS then None
    else if Covers(CommandRow(i).codes, id) then Some(CommandRow(i).command)
    else SearchCommandFrom(id, i + 1)
  }

  function SearchCommand(id: int): Option<Command> {
    SearchCommandFrom(id, 0)
  }

  /** The id the client writes into the header of a PDU of this kind. */
  function CommandId(c: Command): Option<int> {
    match c
    case BindTransceiver => Some(0x9)
    case BindTransceiverResp => Some(0x80000009)
    case Unbind => Some(0x6)
    case UnbindResp => Some(0x80000006)
    case SubmitSm => Some(0x4)
    case SubmitSmResp => Some(0x80000004)
    case DeliverSm => Some(0x5)
    case DeliverSmResp => Some(0x80000005)
    case EnquireLink => Some(0x15)
    case EnquireLinkResp => Some(0x80000015)
    case GenericNack => Some(0x80000000)
    case BindReceiverResp => Some(0x80000001)
    case BindTransmitterResp => Some(0x80000002)
    case QuerySm => Some(0x3)
    case QuerySmResp => Some(0x80000003)
    case ReplaceSm => Some(0x7)
    case ReplaceSmResp => Some(0x80000007)
    case CancelSm => Some(0x8)
    case CancelSmResp => Some(0x80000008)
    case SubmitMulti => Some(0x21)
    case SubmitMultiResp => Some(0x80000021)
    case Outbind => Some(0xB)
    case AlertNotification => Some(0x102)
    case DataSm => Some(0x103)
    case DataSmResp => Some(0x80000103)
    case ReservedA => Some(0xA)
    case ReservedB => Some(0x8000000A)
    case ReservedC => Some(0x100)
    case ReservedD => Some(0x80000100)
    case ReservedE => Some(0x101)
    case ReservedF => Some(0x80000101)
    case ReservedG => Some(0x80000102)
    case _ => None
  }

  lemma {:induction false} SearchFindsFirst(id: int, i: int, k: int)
    requires 0 <= i <= k < COMMAND_ROWS && Covers(CommandRow(k).codes, id)
    requires forall j :: i <= j < k ==> !Covers(CommandRow(j).codes, id)
    ensures SearchCommandFrom(id, i) == Some(CommandRow(k).command)
    decreases k - i
  {
    if i < k {
      SearchFindsFirst(id, i + 1, k);
    }
  }

  lemma {:induction false} SearchFindsNone(id: int, i: int)
    requires 0 <= i <= COMMAND_ROWS
    requires forall j :: i <= j < COMMAND_ROWS ==> !Covers(CommandRow(j).codes, id)
    ensures SearchCommandFrom(id, i) == None
    decreases COMMAND_ROWS - i
  {
    if i < COMMAND_ROWS {
      SearchFindsNone(id, i + 1);
    }
  }

  /** The row that answers for an id, worked out by hand from section 5.1.2.1. */
  function AnsweringRow(id: int): (k: int)
    requires 3 <= id < 0x1_0000_0000
    ensures 0 <= k < COMMAND_ROWS
  {
    if id < 0x4 then 13 else
    if id < 0x5 then 4 else
    if id < 0x6 then 6 else
    if id < 0x7 then 2 else
    if id < 0x8 then 15 else
    if id < 0x9 then 17 else
    if id < 0xA then 0 else
    if id < 0xB then 25 else
    if id < 0xC then 21 else
    if id < 0x15 then 32 else
    if id < 0x16 then 8 else
    if id < 0x21 then 34 else
    if id < 0x22 then 19 else
    if id < 0x100 then 36 else
    if id < 0x101 then 27 else
    if id < 0x102 then 29 else
    if id < 0x103 then 22 else
    if id < 0x104 then 23 else
    if id < 0x10000 then 41 else
    if id < 0x10200 then 39 else
    if id < 0x10300 then 43 else
    if id < 0x80000000 then 38 else
    if id < 0x80000001 then 10 else
    if id < 0x80000002 then 11 else
    if id < 0x80000003 then 12 else
    if id < 0x80000004 then 14 else
    if id < 0x80000005 then 5 else
    if id < 0x80000006 then 7 else
    if id < 0x80000007 then 3 else
    if id < 0x80000008 then 16 else
    if id < 0x80000009 then 18 else
    if id < 0x8000000A then 1 else
    if id < 0x8000000B then 26 else
    if id < 0x80000015 then 33 else
    if id < 0x80000016 then 9 else
    if id < 0x80000021 then 35 else
    if id < 0x80000022 then 20 else
    if id < 0x80000100 then 37 else
    if id < 0x80000101 then 28 else
    if id < 0x80000102 then 30 else
    if id < 0x80000103 then 31 else
    if id < 0x80000104 then 24 else
    38
  }

  lemma AnsweringRowIsFirst(id: int)
    requires 3 <= id < 0x1_0000_0000
    ensures Covers(CommandRow(AnsweringRow(id)).codes, id)
    ensures forall j :: 0 <= j < AnsweringRow(id) ==> !Covers(CommandRow(j).codes, id)
  {
  }

  /**
    Every 32-bit id but 0, 1 and 2 is answered, by the row computed above.
    bind_receiver (1) and bind_transmitter (2) are missing from the table.
   */
  lemma KnownCommands(id: int)
    requires 0 <= id < 0x1_0000_0000
    ensures SearchCommand(id) == if id <= 2 then None else Some(CommandRow(AnsweringRow(id)).command)
  {
    if id <= 2 {
      SearchFindsNone(id, 0);
    } else {
      AnsweringRowIsFirst(id);
      SearchFindsFirst(id, 0, AnsweringRow(id));
    }
  }

  lemma AnsweredBy(c: Command, id: int)
    requires CommandId(c) == Some(id)
    ensures 3 <= id < 0x1_0000_0000 && CommandRow(AnsweringRow(id)).command == c
  {
  }

  /** Looking up the id that a builder writes gives back the builder's command. */
  lemma CommandIdRoundTrip(c: Command, id: int)
    requires CommandId(c) == Some(id)
    ensures SearchCommand(id) == Some(c)
  {
    AnsweredBy(c, id);
    KnownCommands(id);
  }

  /** The wide row 0x00010300-0xFFFFFFFF comes first, so three later rows never answer. */
  lemma ShadowedRows(id: int)
    requires 0 <= id < 0x1_0000_0000
    ensures SearchCommand(id) !in {Some(ReservedListI), Some(ReservedForSmppExtensionB), Some(ReservedForSmscVendorB)}
  {
    KnownCommands(id);
  }

  const STATUS_ROWS := 63

  /** SmppCommandStatus, attribute by attribute. */
  function StatusRow(i: int): Codes
    requires 0 <= i < STATUS_ROWS
  {
    match i
    case 0 => Exactly(0x0)  // ESME_ROK
    case 1 => Exactly(0x1)  // ESME_RINVMSGLEN
    case 2 => Exactly(0x2)  // ESME_RINVCMDLEN
    case 3 => Exactly(0x3)  // ESME_RINVCMDID
    case 4 => Exactly(0x4)  // ESME_RINVBNDSTS
    case 5 => Exactly(0x5)  // ESME_RALYBND
    case 6 => Exactly(0x6)  // ESME_RINVPRTFLG
    case 7 => Exactly(0x7)  // ESME_RINVREGDLVFLG
    case 8 => Exactly(0x8)  // ESME_RSYSERR
    case 9 => Exactly(0xA)  // ESME_RINVSRCADR
    case 10 => Exactly(0xB)  // ESME_RINVDSTADR
    case 11 => Exactly(0xC)  // ESME_RINVMSGID
    case 12 => Exactly(0xD)  // ESME_RBINDFAIL
    case 13 => Exactly(0xE)  // ESME_RINVPASWD
    case 14 => Exactly(0xF)  // ESME_RINVSYSID
    case 15 => Exactly(0x11)  // ESME_RCANCELFAIL
    case 16 => Exactly(0x13)  // ESME_RREPLACEFAIL
    case 17 => Exactly(0x14)  // ESME_RMSGQFUL
    case 18 => Exactly(0x15)  // ESME_RINVSERTYP
    case 19 => Exactly(0x33)  // ESME_RINVNUMDESTS
    case 20 => Exactly(0x34)  // ESME_RINVDLNAME
    case 21 => Exactly(0x40)  // ESME_RINVDESTFLAG
    case 22 => Exactly(0x42)  // ESME_RINVSUBREP
    case 23 => Exactly(0x43)  // ESME_RINVESMCLASS
    case 24 => Exactly(0x44)  // ESME_RCNTSUBDL
    case 25 => Exactly(0x45)  // ESME_RSUBMITFAIL
    case 26 => Exactly(0x48)  // ESME_RINVSRCTON
    case 27 => Exactly(0x49)  // ESME_RINVSRCNPI
    case 28 => Exactly(0x50)  // ESME_RINVDSTTON
    case 29 => Exactly(0x51)  // ESME_RINVDSTNPI
    case 30 => Exactly(0x53)  // ESME_RINVSYSTYP
    case 31 => Exactly(0x54)  // ESME_RINVREPFLAG
    case 32 => Exactly(0x55)  // ESME_RINVNUMMSGS
    case 33 => Exactly(0x58)  // ESME_RTHROTTLED
    case 34 => Exactly(0x61)  // ESME_RINVSCHED
    case 35 => Exactly(0x62)  // ESME_RINVEXPIRY
    case 36 => Exactly(0x63)  // ESME_RINVDFTMSGID
    case 37 => Exactly(0x64)  // ESME_RX_T_APPN
    case 38 => Exactly(0x65)  // ESME_RX_P_APPN
    case 39 => Exactly(0x66)  // ESME_RX_R_APPN
    case 40 => Exactly(0x67)  // ESME_RQUERYFAIL
    case 41 => Exactly(0xC0)  // ESME_RINVOPTPARSTREAM
    case 42 => Exactly(0xC1)  // ESME_ROPTPARNOTALLWD
    case 43 => Exactly(0xC2)  // ESME_RINVPARLEN
    case 44 => Exactly(0xC3)  // ESME_RMISSINGOPTPARAM
    case 45 => Exactly(0xC4)  // ESME_RINVOPTPARAMVAL
    case 46 => Exactly(0xFE)  // ESME_RDELIVERYFAILURE
    case 47 => Exactly(0xFF)  // ESME_RUNKNOWNERR
    case 48 => Exactly(0x9)  // RESERVED_A
    case 49 => Exactly(0x10)  // RESERVED_B
    case 50 => Exactly(0x12)  // RESERVED_C
    case 51 => Exactly(0x41)  // RESERVED_D
    case 52 => Exactly(0x52)  // RESERVED_E
    case 53 => Range(0x16, 0x32)  // RESERVED_LIST_A
    case 54 => Range(0x35, 0x3F)  // RESERVED_LIST_B
    case 55 => Range(0x46, 0x47)  // RESERVED_LIST_C
    case 56 => Range(0x56, 0x57)  // RESERVED_LIST_D
    case 57 => Range(0x59, 0x60)  // RESERVED_LIST_E
    case 58 => Range(0x68, 0xBF)  // RESERVED_LIST_F
    case 59 => Range(0xC5, 0xFD)  // RESERVED_LIST_G
    case 60 => Range(0x100, 0x3FF)  // RESERVED_LIST_H
    case 61 => Range(0x400, 0x4FF)  // RESERVED_LIST_I
    case _ => Range(0x500, 0xFFFFFFFF)  // RESERVED_LIST_J
  }

  const ESME_ROK := Exactly(0x0)
  const ESME_RMSGQFUL := Exactly(0x14)
  const ESME_RTHROTTLED := Exactly(0x58)

  function SearchStatusFrom(v: int, i: int): Option<Codes>
    requires 0 <= i <= STATUS_ROWS
    decreases STATUS_ROWS - i
  {
    if i == STATUS_ROWS then None
    else if Covers(StatusRow(i), v) then Some(StatusRow(i))
    else SearchStatusFrom(v, i + 1)
  }

  function SearchStatus(v: int): Option<Codes> {
    SearchStatusFrom(v, 0)
  }

  predicate RecognisedStatus(v: int) {
    !(0x4A <= v <= 0x4F)
  }

  lemma {:induction false} SearchStatusFinds(v: int, i: int)
    requires 0 <= i <= STATUS_ROWS
    ensures match SearchStatusFrom(v, i)
            case None => forall j :: i <= j < STATUS_ROWS ==> !Covers(StatusRow(j), v)
            case Some(codes) => exists j :: i <= j < STATUS_ROWS && Covers(StatusRow(j), v) && codes == StatusRow(j)
    decreases STATUS_ROWS - i
  {
    if i < STATUS_ROWS && !Covers(StatusRow(i), v) {
      SearchStatusFinds(v, i + 1);
    }
  }

  /** The only row that can cover v, worked out by hand from section 5.1.3. */
  function OwningRow(v: int): (k: int)
    requires 0 <= v < 0x1_0000_0000 && RecognisedStatus(v)
    ensures 0 <= k < STATUS_ROWS
  {
    if v < 0x1 then 0 else
    if v < 0x2 then 1 else
    if v < 0x3 then 2 else
    if v < 0x4 then 3 else
    if v < 0x5 then 4 else
    if v < 0x6 then 5 else
    if v < 0x7 then 6 else
    if v < 0x8 then 7 else
    if v < 0x9 then 8 else
    if v < 0xA then 48 else
    if v < 0xB then 9 else
    if v < 0xC then 10 else
    if v < 0xD then 11 else
    if v < 0xE then 12 else
    if v < 0xF then 13 else
    if v < 0x10 then 14 else
    if v < 0x11 then 49 else
    if v < 0x12 then 15 else
    if v < 0x13 then 50 else
    if v < 0x14 then 16 else
    if v < 0x15 then 17 else
    if v < 0x16 then 18 else
    if v < 0x33 then 53 else
    if v < 0x34 then 19 else
    if v < 0x35 then 20 else
    if v < 0x40 then 54 else
    if v < 0x41 then 21 else
    if v < 0x42 then 51 else
    if v < 0x43 then 22 else
    if v < 0x44 then 23 else
    if v < 0x45 then 24 else
    if v < 0x46 then 25 else
    if v < 0x48 then 55 else
    if v < 0x49 then 26 else
    if v < 0x50 then 27 else
    if v < 0x51 then 28 else
    if v < 0x52 then 29 else
    if v < 0x53 then 52 else
    if v < 0x54 then 30 else
    if v < 0x55 then 31 else
    if v < 0x56 then 32 else
    if v < 0x58 then 56 else
    if v < 0x59 then 33 else
    if v < 0x61 then 57 else
    if v < 0x62 then 34 else
    if v < 0x63 then 35 else
    if v < 0x64 then 36 else
    if v < 0x65 then 37 else
    if v < 0x66 then 38 else
    if v < 0x67 then 39 else
    if v < 0x68 then 40 else
    if v < 0xC0 then 58 else
    if v < 0xC1 then 41 else
    if v < 0xC2 then 42 else
    if v < 0xC3 then 43 else
    if v < 0xC4 then 44 else
    if v < 0xC5 then 45 else
    if v < 0xFE then 59 else
    if v < 0xFF then 46 else
    if v < 0x100 then 47 else
    if v < 0x400 then 60 else
    if v < 0x500 then 61 else
    62
  }

  lemma StatusRowsDisjoint(v: int, i: int)
    requires 0 <= v < 0x1_0000_0000 && 0 <= i < STATUS_ROWS
    ensures Covers(StatusRow(i), v) <==> RecognisedStatus(v) && i == OwningRow(v)
  {
  }

  /**
    The status search finds exactly one candidate for every 32-bit value, except
    for 0x4A to 0x4F, which no row covers; ROK, RMSGQFUL and RTHROTTLED answer
    for their own value alone.
   */
  lemma StatusSearch(v: int)
    requires 0 <= v < 0x1_0000_0000
    ensures SearchStatus(v).Some? <==> RecognisedStatus(v)
    ensures RecognisedStatus(v) ==> SearchStatus(v) == Some(StatusRow(OwningRow(v)))
    ensures SearchStatus(v) == Some(ESME_ROK) <==> v == 0
    ensures SearchStatus(v) in {Some(ESME_RMSGQFUL), Some(ESME_RTHROTTLED)} <==> v == 0x14 || v == 0x58
  {
    SearchStatusFinds(v, 0);
    forall i | 0 <= i < STATUS_ROWS
      ensures Covers(StatusRow(i), v) <==> RecognisedStatus(v) && i == OwningRow(v)
    {
      StatusRowsDisjoint(v, i);
    }
    if RecognisedStatus(v) {
      assert Covers(StatusRow(OwningRow(v)), v);
    }
  }
}
