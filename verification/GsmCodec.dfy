/**
  The GSM 03.38 default alphabet (section 6.2.1 of 3GPP TS 23.038) as the client
  encodes and decodes it, with the strict, ignore and replace error handlers.
 */
module GsmCodec {
  import opened Bytes

  /** The two charset strings of the codec; both have 128 positions. */
  datatype Charset = Basic | Extension

  const ESC: char := '\U{001B}'

  function CharAt(t: Charset, i: int): char
    requires 0 <= i < 128
  {
    match t
    case Basic => BasicAt(i)
    case Extension => ExtensionAt(i)
  }

  /** Positions that agree with ASCII, then the others one by one. */
  function BasicAt(i: int): char
    requires 0 <= i < 128
  {
    if 32 <= i <= 35 || 37 <= i <= 63 || 65 <= i <= 90 || 97 <= i <= 122 then
      i as char
    else
      match i
      case 0 => '\U{0040}'  // @
      case 1 => '\U{00A3}'  // £
      case 2 => '\U{0024}'  // $
      case 3 => '\U{00A5}'  // ¥
      case 4 => '\U{00E8}'  // è
      case 5 => '\U{00E9}'  // é
      case 6 => '\U{00F9}'  // ù
      case 7 => '\U{00EC}'  // ì
      case 8 => '\U{00F2}'  // ò
      case 9 => '\U{00C7}'  // Ç
      case 10 => '\U{000A}'
      case 11 => '\U{00D8}'  // Ø
      case 12 => '\U{00F8}'  // ø
      case 13 => '\U{000D}'
      case 14 => '\U{00C5}'  // Å
      case 15 => '\U{00E5}'  // å
      case 16 => '\U{0394}'  // Δ
      case 17 => '\U{005F}'  // _
      case 18 => '\U{03A6}'  // Φ
      case 19 => '\U{0393}'  // Γ
      case 20 => '\U{039B}'  // Λ
      case 21 => '\U{03A9}'  // Ω
      case 22 => '\U{03A0}'  // Π
      case 23 => '\U{03A8}'  // Ψ
      case 24 => '\U{03A3}'  // Σ
      case 25 => '\U{0398}'  // Θ
      case 26 => '\U{039E}'  // Ξ
      case 27 => '\U{001B}'
      case 28 => '\U{00C6}'  // Æ
      case 29 => '\U{00E6}'  // æ
      case 30 => '\U{00DF}'  // ß
      case 31 => '\U{00C9}'  // É
      case 36 => '\U{00A4}'  // ¤
      case 64 => '\U{00A1}'  // ¡
      case 91 => '\U{00C4}'  // Ä
      case 92 => '\U{00D6}'  // Ö
      case 93 => '\U{00D1}'  // Ñ
      case 94 => '\U{00DC}'  // Ü
      case 95 => '\U{0060}'  // `
      case 96 => '\U{00BF}'  // ¿
      case 123 => '\U{00E4}'  // ä
      case 124 => '\U{00F6}'  // ö
      case 125 => '\U{00F1}'  // ñ
      case 126 => '\U{00FC}'  // ü
      case _ => '\U{00E0}'  // à
  }

  /** Every unassigned position of the extension table holds a backtick. */
  function ExtensionAt(i: int): char
    requires 0 <= i < 128
  {
    match i
    case 20 => '\U{005E}'  // ^
    case 40 => '\U{007B}'  // {
    case 41 => '\U{007D}'  // }
    case 47 => '\U{005C}'  // backslash
    case 60 => '\U{005B}'  // [
    case 61 => '\U{007E}'  // ~
    case 62 => '\U{005D}'  // ]
    case 64 => '\U{007C}'  // |
    case 101 => '\U{20AC}'  // €
    case _ => '\U{0060}'
  }

  /** dict((l, i) for i, l in enumerate(charset)): the last position of a character wins. */
  function IndexBelow(t: Charset, c: char, n: int): (r: Option<byte>)
    requires 0 <= n <= 128
    ensures r.Some? ==> r.value < n && CharAt(t, r.value) == c
    ensures r.None? ==> forall i :: 0 <= i < n ==> CharAt(t, i) != c
    ensures r.Some? ==> forall i :: r.value < i < n ==> CharAt(t, i) != c
  {
    if n == 0 then None
    else if CharAt(t, n - 1) == c then Some(n - 1)
    else IndexBelow(t, c, n - 1)
  }

  function Index(t: Charset, c: char): Option<byte> {
    IndexBelow(t, c, 128)
  }

  /** The inverse of the basic charset, worked out by hand. */
  function BasicRank(c: char): int {
    var u := c as int;
    if 32 <= u <= 35 || 37 <= u <= 63 || 65 <= u <= 90 || 97 <= u <= 122 then u
    else if c == '\U{0040}' then 0
    else if c == '\U{00A3}' then 1
    else if c == '\U{0024}' then 2
    else if c == '\U{00A5}' then 3
    else if c == '\U{00E8}' then 4
    else if c == '\U{00E9}' then 5
    else if c == '\U{00F9}' then 6
    else if c == '\U{00EC}' then 7
    else if c == '\U{00F2}' then 8
    else if c == '\U{00C7}' then 9
    else if c == '\U{000A}' then 10
    else if c == '\U{00D8}' then 11
    else if c == '\U{00F8}' then 12
    else if c == '\U{000D}' then 13
    else if c == '\U{00C5}' then 14
    else if c == '\U{00E5}' then 15
    else if c == '\U{0394}' then 16
    else if c == '\U{005F}' then 17
    else if c == '\U{03A6}' then 18
    else if c == '\U{0393}' then 19
    else if c == '\U{039B}' then 20
    else if c == '\U{03A9}' then 21
    else if c == '\U{03A0}' then 22
    else if c == '\U{03A8}' then 23
    else if c == '\U{03A3}' then 24
    else if c == '\U{0398}' then 25
    else if c == '\U{039E}' then 26
    else if c == '\U{001B}' then 27
    else if c == '\U{00C6}' then 28
    else if c == '\U{00E6}' then 29
    else if c == '\U{00DF}' then 30
    else if c == '\U{00C9}' then 31
    else if c == '\U{00A4}' then 36
    else if c == '\U{00A1}' then 64
    else if c == '\U{00C4}' then 91
    else if c == '\U{00D6}' then 92
    else if c == '\U{00D1}' then 93
    else if c == '\U{00DC}' then 94
    else if c == '\U{0060}' then 95
    else if c == '\U{00BF}' then 96
    else if c == '\U{00E4}' then 123
    else if c == '\U{00F6}' then 124
    else if c == '\U{00F1}' then 125
    else if c == '\U{00FC}' then 126
    else if c == '\U{00E0}' then 127
    else -1
  }

  lemma BasicRankInverts(i: int)
    requires 0 <= i < 128
    ensures BasicRank(BasicAt(i)) == i
  {
  }

  /** No character occurs twice in the basic charset. */
  lemma BasicDistinct(i: int, j: int)
    requires 0 <= i < 128 && 0 <= j < 128 && BasicAt(i) == BasicAt(j)
    ensures i == j
  {
    BasicRankInverts(i);
    BasicRankInverts(j);
  }

  // ----------------------------------------------------------------- encoding

  datatype Errors = Strict | Ignore | Replace | OtherErrors(name: string)

  /** The octets of one character, if it has any: basic first, then ESC and the extension. */
  function EncodeChar(c: char): Option<bytes> {
    match Index(Basic, c)
    case Some(i) => Some([i])
    case None =>
      match Index(Extension, c)
      case Some(i) => Some([27, i])
      case None => None
  }

  predicate Encodable(s: string) {
    forall i :: 0 <= i < |s| ==> EncodeChar(s[i]).Some?
  }

  function HandleEncodeError(errors: Errors, position: nat): Result<bytes> {
    match errors
    case Strict => Err(UnicodeEncodeError(position))
    case Ignore => Ok([])
    case Replace => Ok([0x3F])
    case OtherErrors(_) => Err(NazCodecException)
  }

  function EncodePiece(c: char, errors: Errors, position: nat): Result<bytes> {
    match EncodeChar(c)
    case Some(b) => Ok(b)
    case None => HandleEncodeError(errors, position)
  }

  /** The encoding of s when its first character stands at the given position of the input. */
  function EncodeFrom(s: string, errors: Errors, position: nat): Result<bytes> {
    if s == "" then Ok([])
    else
      match EncodePiece(s[0], errors, position)
      case Err(e) => Err(e)
      case Ok(head) =>
        match EncodeFrom(s[1..], errors, position + 1)
        case Err(e) => Err(e)
        case Ok(tail) => Ok(head + tail)
  }

  function Encode(s: string, errors: Errors): Result<bytes> {
    EncodeFrom(s, errors, 0)
  }

  function Prefixed<T>(head: seq<T>, rest: Result<seq<T>>): Result<seq<T>> {
    match rest
    case Err(e) => Err(e)
    case Ok(tail) => Ok(head + tail)
  }

  lemma PrefixedByNothing<T>(rest: Result<seq<T>>)
    ensures Prefixed([], rest) == rest
  {
    assert rest.Ok? ==> [] + rest.value == rest.value;
  }

  /** One turn of the loop, seen from the accumulated result. */
  lemma EncodeTurn(result: bytes, rest: string, errors: Errors, position: nat, piece: Result<bytes>)
    requires rest != "" && piece == EncodePiece(rest[0], errors, position)
    ensures Prefixed(result, EncodeFrom(rest, errors, position)) ==
              match piece
              case Err(e) => Err(e)
              case Ok(b) => Prefixed(result + b, EncodeFrom(rest[1..], errors, position + 1))
  {
    var tail := EncodeFrom(rest[1..], errors, position + 1);
    assert piece.Ok? && tail.Ok? ==> result + (piece.value + tail.value) == (result + piece.value) + tail.value;
  }

  method EncodeText(input: string, errors: Errors) returns (r: Result<bytes>)
    ensures r == Encode(input, errors)
  {
    var result: bytes := [];
    var position := 0;
    assert input[0..] == input;
    PrefixedByNothing(Encode(input, errors));
    while position < |input|
      invariant 0 <= position <= |input|
      invariant Encode(input, errors) == Prefixed(result, EncodeFrom(input[position..], errors, position))
    {
      ghost var rest := input[position..];
      assert rest[0] == input[position] && rest[1..] == input[position + 1..];
      var piece := EncodePiece(input[position], errors, position);
      EncodeTurn(result, rest, errors, position, piece);
      match piece {
        case Err(e) => return Err(e);
        case Ok(b) => result := result + b;
      }
      position := position + 1;
    }
    assert result + [] == result;
    return Ok(result);
  }

  // ----------------------------------------------------------------- octets of section 6.2.1

  lemma RankIsPosition(c: char)
    requires BasicRank(c) >= 0
    ensures BasicRank(c) < 128 && BasicAt(BasicRank(c)) == c
  {
  }

  lemma BasicCode(c: char)
    ensures Index(Basic, c) == if BasicRank(c) < 0 then None else Some(BasicRank(c))
  {
    if Index(Basic, c).Some? {
      BasicRankInverts(Index(Basic, c).value);
    }
    if BasicRank(c) >= 0 {
      RankIsPosition(c);
      assert CharAt(Basic, BasicRank(c)) == c;
    }
  }

  /** The second octets of the extension table, character by character. */
  function ExtensionRank(c: char): int {
    match c
    case '^' => 0x14
    case '{' => 0x28
    case '}' => 0x29
    case '\\' => 0x2F
    case '[' => 0x3C
    case '~' => 0x3D
    case ']' => 0x3E
    case '|' => 0x40
    case '\U{20AC}' => 0x65
    case _ => -1
  }

  lemma ExtensionCode(c: char)
    requires BasicRank(c) < 0
    ensures Index(Extension, c) == if ExtensionRank(c) < 0 then None else Some(ExtensionRank(c))
  {
    if Index(Extension, c).Some? {
      assert ExtensionAt(Index(Extension, c).value) == c;
    }
    if ExtensionRank(c) >= 0 {
      assert CharAt(Extension, ExtensionRank(c)) == c;
    }
  }

  /** The octets of every character, from the tables of sections 6.2.1 and 6.2.1.1: one, an ESC and one, or none. */
  lemma CharOctets(c: char)
    ensures EncodeChar(c) == if BasicRank(c) >= 0 then Some([BasicRank(c)])
                             else if ExtensionRank(c) >= 0 then Some([0x1B, ExtensionRank(c)])
                             else None
  {
    BasicCode(c);
    if BasicRank(c) < 0 {
      ExtensionCode(c);
    }
  }

  // ----------------------------------------------------------------- decoding

  function HandleDecodeError(errors: Errors, position: nat): Result<string> {
    match errors
    case Strict => Err(UnicodeDecodeError(position))
    case Ignore => Ok("")
    case Replace => Ok("?")
    case OtherErrors(_) => Err(NazCodecException)
  }

  function DecodeIn(t: Charset, c: byte, errors: Errors, position: nat): Result<string> {
    if c < 128 then Ok([CharAt(t, c)]) else HandleDecodeError(errors, position)
  }

  /** One turn of decode's loop: the text it appends and the octets it consumes. */
  function DecodePiece(b: bytes, errors: Errors, position: nat): Result<string>
    requires b != []
  {
    if b[0] != 27 then DecodeIn(Basic, b[0], errors, position)
    else if |b| == 1 then Err(StopIteration)  // next() on an exhausted iterator
    else DecodeIn(Extension, b[1], errors, position)
  }

  function Consumed(b: bytes): nat
    requires b != []
  {
    if b[0] == 27 && |b| > 1 then 2 else 1
  }

  /** `position` counts turns of the loop, not octets: an escape pair counts once. */
  function DecodeFrom(b: bytes, errors: Errors, position: nat): Result<string>
    decreases |b|
  {
    if b == [] then Ok("")
    else
      match DecodePiece(b, errors, position)
      case Err(e) => Err(e)
      case Ok(head) => Prefixed(head, DecodeFrom(b[Consumed(b)..], errors, position + 1))
  }

  function Decode(b: bytes, errors: Errors): Result<string> {
    DecodeFrom(b, errors, 0)
  }

  /** One turn of the loop, seen from the accumulated result. */
  lemma DecodeTurn(result: string, rest: bytes, errors: Errors, position: nat, piece: Result<string>, size: nat)
    requires rest != [] && piece == DecodePiece(rest, errors, position) && size == Consumed(rest)
    ensures Prefixed(result, DecodeFrom(rest, errors, position)) ==
              match piece
              case Err(e) => Err(e)
              case Ok(text) => Prefixed(result + text, DecodeFrom(rest[size..], errors, position + 1))
  {
    var tail := DecodeFrom(rest[size..], errors, position + 1);
    assert piece.Ok? && tail.Ok? ==> result + (piece.value + tail.value) == (result + piece.value) + tail.value;
  }

  method DecodeBytes(input: bytes, errors: Errors) returns (r: Result<string>)
    ensures r == Decode(input, errors)
  {
    var result: string := "";
    var next, position := 0, 0;
    assert input[0..] == input;
    PrefixedByNothing(Decode(input, errors));
    while next < |input|
      invariant 0 <= next <= |input| && 0 <= position
      invariant Decode(input, errors) == Prefixed(result, DecodeFrom(input[next..], errors, position))
    {
      ghost var rest := input[next..];
      ghost var start := next;
      var c := input[next];
      next := next + 1;
      var t := Basic;
      if c == 27 {
        if next == |input| {
          DecodeTurn(result, rest, errors, position, Err(StopIteration), 1);
          return Err(StopIteration);
        }
        c := input[next];
        next := next + 1;
        t := Extension;
      }
      var piece := DecodeIn(t, c, errors, position);
      DecodeTurn(result, rest, errors, position, piece, next - start);
      assert rest[next - start..] == input[next..];
      match piece {
        case Err(e) => return Err(e);
        case Ok(text) => result := result + text;
      }
      position := position + 1;
    }
    assert result + [] == result;
    return Ok(result);
  }

  // ----------------------------------------------------------------- round trips

  lemma EncodeCharDecodes(c: char, rest: bytes, position: nat)
    requires EncodeChar(c).Some? && c != ESC
    ensures var b := EncodeChar(c).value + rest;
            b != [] && DecodePiece(b, Strict, position) == Ok([c]) && b[Consumed(b)..] == rest
  {
    var code := EncodeChar(c).value;
    var b := code + rest;
    match Index(Basic, c)
    case Some(i) =>
      BasicRankInverts(i);
      BasicRankInverts(27);
      assert code == [i] && i != 27;
    case None =>
      assert b[..2] == code;
  }

  lemma {:induction false} StrictEncodes(s: string, position: nat)
    ensures EncodeFrom(s, Strict, position).Ok? <==> Encodable(s)
  {
    if s != "" {
      StrictEncodes(s[1..], position + 1);
      assert Encodable(s) <==> EncodeChar(s[0]).Some? && Encodable(s[1..]) by {
        assert forall i :: 1 <= i < |s| ==> s[i] == s[1..][i - 1];
      }
    }
  }

  lemma EncodableTail(s: string)
    requires s != "" && Encodable(s) && ESC !in s
    ensures EncodeChar(s[0]).Some? && s[0] != ESC && Encodable(s[1..]) && ESC !in s[1..]
  {
    assert forall i :: 0 <= i < |s[1..]| ==> s[1..][i] == s[i + 1];
  }

  lemma EncodeCons(s: string, position: nat, tail: bytes)
    requires s != "" && EncodeChar(s[0]).Some? && EncodeFrom(s[1..], Strict, position + 1) == Ok(tail)
    ensures EncodeFrom(s, Strict, position) == Ok(EncodeChar(s[0]).value + tail)
  {
  }

  lemma {:induction false} DecodeInvertsEncode(s: string, position: nat, at: nat)
    requires Encodable(s) && ESC !in s
    ensures EncodeFrom(s, Strict, position).Ok?
    ensures DecodeFrom(EncodeFrom(s, Strict, position).value, Strict, at) == Ok(s)
  {
    if s != "" {
      EncodableTail(s);
      DecodeInvertsEncode(s[1..], position + 1, at + 1);
      var tail := EncodeFrom(s[1..], Strict, position + 1).value;
      EncodeCons(s, position, tail);
      EncodeCharDecodes(s[0], tail, at);
      assert s == [s[0]] + s[1..];
    }
  }

  /** What decoding can produce: basic characters other than ESC, and extension characters. */
  lemma {:induction false} DecodedText(b: bytes, errors: Errors, position: nat)
    requires DecodeFrom(b, errors, position).Ok?
    ensures ESC !in DecodeFrom(b, errors, position).value && Encodable(DecodeFrom(b, errors, position).value)
    decreases |b|
  {
    if b != [] {
      DecodedText(b[Consumed(b)..], errors, position + 1);
      var head := DecodePiece(b, errors, position).value;
      DecodedPiece(b, errors, position);
      var tail := DecodeFrom(b[Consumed(b)..], errors, position + 1).value;
      assert DecodeFrom(b, errors, position).value == head + tail;
    }
  }

  lemma DecodedPiece(b: bytes, errors: Errors, position: nat)
    requires b != [] && DecodePiece(b, errors, position).Ok?
    ensures ESC !in DecodePiece(b, errors, position).value && Encodable(DecodePiece(b, errors, position).value)
  {
    var c := if b[0] == 27 then b[1] else b[0];
    if c < 128 {
      BasicRankInverts(c);
      BasicRankInverts(27);
      assert b[0] != 27 ==> BasicAt(c) != ESC;
      assert CharAt(Basic, c) == BasicAt(c) && CharAt(Extension, c) == ExtensionAt(c);
    } else {
      assert CharAt(Basic, 0x3F) == '?';
    }
  }

  /**
    The codec's round trip, and its exact domain: an encodable text survives encoding
    and strict decoding if and only if it does not contain ESC.
   */
  lemma RoundTrip(s: string)
    requires Encodable(s)
    ensures Encode(s, Strict).Ok?
    ensures Decode(Encode(s, Strict).value, Strict) == Ok(s) <==> ESC !in s
  {
    StrictEncodes(s, 0);
    if ESC !in s {
      DecodeInvertsEncode(s, 0, 0);
    } else if Decode(Encode(s, Strict).value, Strict) == Ok(s) {
      DecodedText(Encode(s, Strict).value, Strict, 0);
    }
  }

  /** Whatever decodes, in any error mode, decodes to a text that the codec carries faithfully. */
  lemma DecodeIsStable(b: bytes, errors: Errors)
    requires Decode(b, errors).Ok?
    ensures var text := Decode(b, errors).value;
            Encode(text, Strict).Ok? && Decode(Encode(text, Strict).value, Strict) == Ok(text)
  {
    DecodedText(b, errors, 0);
    RoundTrip(Decode(b, errors).value);
  }

  /** What the lenient error modes make of a text before it is encoded. */
  function Sanitised(s: string, errors: Errors): string {
    if s == "" then ""
    else
      var head :=
        if EncodeChar(s[0]).Some? then [s[0]]
        else if errors == Ignore then ""
        else if errors == Replace then "?"
        else [s[0]];
      head + Sanitised(s[1..], errors)
  }

  lemma {:induction false} LenientEncodes(s: string, errors: Errors, position: nat, at: nat)
    requires errors == Ignore || errors == Replace
    ensures Encodable(Sanitised(s, errors))
    ensures EncodeFrom(s, errors, position).Ok?
    ensures EncodeFrom(s, errors, position) == EncodeFrom(Sanitised(s, errors), Strict, at)
  {
    if s != "" {
      var rest := Sanitised(s[1..], errors);
      var all := Sanitised(s, errors);
      assert CharAt(Basic, 0x3F) == '?';
      if EncodeChar(s[0]).None? && errors == Ignore {
        LenientEncodes(s[1..], errors, position + 1, at);
        assert all == rest;
        PrefixedByNothing(EncodeFrom(s[1..], errors, position + 1));
      } else {
        LenientEncodes(s[1..], errors, position + 1, at + 1);
        assert all[1..] == rest;
        if EncodeChar(s[0]).None? {
          BasicDistinct(0x3F, Index(Basic, '?').value);
        }
      }
    }
  }

  lemma {:induction false} SanitisedKeepsEncodable(s: string, errors: Errors)
    requires Encodable(s) || errors == Strict || errors.OtherErrors?
    ensures Sanitised(s, errors) == s
  {
    if s != "" {
      assert forall i :: 1 <= i < |s| ==> s[i] == s[1..][i - 1];
      SanitisedKeepsEncodable(s[1..], errors);
    }
  }

  /**
    In every error mode, an encoding that succeeds is the strict encoding of the
    sanitised text; ignore and replace always succeed, the other modes only on
    encodable texts.
   */
  lemma EncodeModes(s: string, errors: Errors)
    ensures Encode(s, errors).Ok? <==> errors == Ignore || errors == Replace || Encodable(s)
    ensures Encode(s, errors).Ok? ==>
              Encodable(Sanitised(s, errors)) && Encode(s, errors) == Encode(Sanitised(s, errors), Strict)
  {
    if errors == Ignore || errors == Replace {
      LenientEncodes(s, errors, 0, 0);
    } else {
      StrictOrRaise(s, errors, 0);
      if Encodable(s) {
        SanitisedKeepsEncodable(s, errors);
      }
    }
  }

  lemma {:induction false} StrictOrRaise(s: string, errors: Errors, position: nat)
    requires errors == Strict || errors.OtherErrors?
    ensures EncodeFrom(s, errors, position).Ok? <==> Encodable(s)
    ensures Encodable(s) ==> EncodeFrom(s, errors, position) == EncodeFrom(s, Strict, position)
  {
    if s != "" {
      StrictOrRaise(s[1..], errors, position + 1);
      assert Encodable(s) <==> EncodeChar(s[0]).Some? && Encodable(s[1..]) by {
        assert forall i :: 1 <= i < |s| ==> s[i] == s[1..][i - 1];
      }
    }
  }

  // ----------------------------------------------------------------- failures

  /** Strict encoding fails at the first character that has no octets, and says where. */
  lemma {:induction false} EncodeFailsAt(s: string, errors: Errors, position: nat, i: nat)
    requires i < |s| && EncodeChar(s[i]).None? && Encodable(s[..i])
    ensures errors == Strict ==> EncodeFrom(s, errors, position) == Err(UnicodeEncodeError(position + i))
    ensures errors.OtherErrors? ==> EncodeFrom(s, errors, position) == Err(NazCodecException)
  {
    if i > 0 {
      assert s[..i][0] == s[0];
      assert s[1..][..i - 1] == s[..i][1..];
      assert forall k :: 0 <= k < |s[..i][1..]| ==> s[..i][1..][k] == s[..i][k + 1];
      EncodeFailsAt(s[1..], errors, position + 1, i - 1);
    }
  }

  /** What the lenient error modes make of octets before they are decoded: a bad one is dropped, or a question mark. */
  function Repaired(b: bytes, errors: Errors): bytes
    decreases |b|
  {
    if b == [] then []
    else
      var unit := b[..Consumed(b)];
      var bad := unit[|unit| - 1] >= 128;
      (if !bad then unit else if errors == Replace then [0x3F] else []) + Repaired(b[Consumed(b)..], errors)
  }

  /** Decoding with replace or ignore is strict decoding of the repaired octets; only a trailing ESC still fails. */
  lemma {:induction false} LenientDecodes(b: bytes, errors: Errors, position: nat, at: nat)
    requires errors == Ignore || errors == Replace
    ensures DecodeFrom(b, errors, position) == DecodeFrom(Repaired(b, errors), Strict, at)
    decreases |b|
  {
    if b != [] {
      var unit, rest := b[..Consumed(b)], b[Consumed(b)..];
      var fixed := Repaired(rest, errors);
      if unit[|unit| - 1] < 128 {
        LenientDecodes(rest, errors, position + 1, at + 1);
        KeptUnit(b, unit, rest, fixed, errors, position, at);
      } else if errors == Replace {
        LenientDecodes(rest, errors, position + 1, at + 1);
        ReplacedUnit(fixed, at);
        assert DecodePiece(b, errors, position) == Ok("?");
      } else {
        LenientDecodes(rest, errors, position + 1, at);
        assert [] + fixed == fixed;
        assert DecodePiece(b, errors, position) == Ok("");
        PrefixedByNothing(DecodeFrom(rest, errors, position + 1));
      }
    }
  }

  lemma ReplacedUnit(fixed: bytes, at: nat)
    ensures DecodeFrom([0x3F] + fixed, Strict, at) == Prefixed("?", DecodeFrom(fixed, Strict, at + 1))
  {
    assert ([0x3F] + fixed)[1..] == fixed;
    assert CharAt(Basic, 0x3F) == '?';
  }

  lemma KeptUnit(b: bytes, unit: bytes, rest: bytes, fixed: bytes, errors: Errors, position: nat, at: nat)
    requires b != [] && unit == b[..Consumed(b)] && rest == b[Consumed(b)..] && unit[|unit| - 1] < 128
    requires fixed == Repaired(rest, errors)
    requires DecodeFrom(rest, errors, position + 1) == DecodeFrom(fixed, Strict, at + 1)
    ensures DecodeFrom(b, errors, position) == DecodeFrom(unit + fixed, Strict, at)
  {
    if unit == [0x1B] {
      assert rest == [] && unit + fixed == unit;
    } else {
      assert (unit + fixed)[..|unit|] == unit;
      assert Consumed(unit + fixed) == |unit|;
      assert (unit + fixed)[|unit|..] == fixed;
      assert DecodePiece(unit + fixed, Strict, at) == DecodePiece(b, errors, position);
    }
  }

  lemma DecodeModes(b: bytes, errors: Errors)
    requires errors == Ignore || errors == Replace
    ensures Decode(b, errors) == Decode(Repaired(b, errors), Strict)
  {
    LenientDecodes(b, errors, 0, 0);
  }

  /** The turns of decode's loop before one that meets a bad octet or a trailing ESC. */
  function GoodTurns(b: bytes): nat
    decreases |b|
  {
    if b == [] || b == [0x1B] || b[Consumed(b) - 1] >= 128 then 0 else 1 + GoodTurns(b[Consumed(b)..])
  }

  /** Strict decoding fails there, with the number of that turn, or without one at the end of the input. */
  lemma {:induction false} DecodeFailsAt(b: bytes, position: nat)
    ensures DecodeFrom(b, Strict, position).Ok? ||
            DecodeFrom(b, Strict, position) in {Err(StopIteration), Err(UnicodeDecodeError(position + GoodTurns(b)))}
    ensures b != [] && b != [0x1B] && b[Consumed(b) - 1] >= 128 ==>
              DecodeFrom(b, Strict, position) == Err(UnicodeDecodeError(position))
    ensures b == [0x1B] ==> DecodeFrom(b, Strict, position) == Err(StopIteration)
    decreases |b|
  {
    if b != [] && b != [0x1B] {
      DecodeFailsAt(b[Consumed(b)..], position + 1);
    }
  }
}
