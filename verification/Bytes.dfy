/**
  Octets, the exceptions the client can meet, and the big-endian integers that
  Python's `struct` packs: the common ground of the wire-format modules.
 */
module Bytes {

  type byte = n: int | 0 <= n < 256
  type bytes = seq<byte>

  datatype Option<+T> = None | Some(value: T)

  /** The exceptions that the modelled code raises or catches. */
  datatype Error =
    | AsciiEncodeError
    | AsciiDecodeError
    | UnicodeEncodeError(position: nat)
    | UnicodeDecodeError(position: nat)
    | NazCodecException
    | StopIteration
    | StructError
    | ValueError
    | TypeError
    | KeyError
    | NotImplementedError

  datatype Result<+T> = Ok(value: T) | Err(error: Error) {

    predicate IsFailure() {
      Err?
    }

    function PropagateFailure<U>(): Result<U>
      requires Err?
    {
      Err(error)
    }

    function Extract(): T
      requires Ok?
    {
      value
    }
  }

  /** struct.pack(">H", n) and its inverse. */
  function Pack16(n: int): (b: bytes)
    requires 0 <= n < 0x1_0000
    ensures |b| == 2 && Unpack16(b) == n
  {
    [n / 256, n % 256]
  }

  function Unpack16(b: bytes): (n: int)
    requires |b| == 2
    ensures 0 <= n < 0x1_0000
  {
    (b[0] as int) * 256 + (b[1] as int)
  }

  /** struct.pack(">I", n) and its inverse. */
  function Pack32(n: int): (b: bytes)
    requires 0 <= n < 0x1_0000_0000
    ensures |b| == 4 && Unpack32(b) == n
  {
    var b := Pack16(n / 0x1_0000) + Pack16(n % 0x1_0000);
    assert b[..2] == Pack16(n / 0x1_0000) && b[2..] == Pack16(n % 0x1_0000);
    b
  }

  function Unpack32(b: bytes): (n: int)
    requires |b| == 4
    ensures 0 <= n < 0x1_0000_0000
  {
    Unpack16(b[..2]) * 0x1_0000 + Unpack16(b[2..])
  }

  /** str.encode("ascii") succeeds exactly on these strings. */
  predicate IsAscii(s: string) {
    forall i :: 0 <= i < |s| ==> s[i] as int < 128
  }

  function AsciiBytes(s: string): (b: bytes)
    requires IsAscii(s)
    ensures |b| == |s| && forall i :: 0 <= i < |s| ==> b[i] == s[i] as int
  {
    seq(|s|, i requires 0 <= i < |s| => s[i] as int)
  }

  /** bytes.decode("ascii") succeeds exactly on these octets. */
  predicate IsAsciiBytes(b: bytes) {
    forall i :: 0 <= i < |b| ==> b[i] < 128
  }

  function AsciiText(b: bytes): (s: string)
    requires IsAsciiBytes(b)
    ensures |s| == |b| && forall i :: 0 <= i < |b| ==> s[i] as int == b[i]
  {
    seq(|b|, i requires 0 <= i < |b| => b[i] as char)
  }

  lemma AsciiRoundTrip(s: string)
    requires IsAscii(s)
    ensures IsAsciiBytes(AsciiBytes(s)) && AsciiText(AsciiBytes(s)) == s
  {
  }

  /** bytes.replace(b"\x00", b"") */
  function StripNul(b: bytes): (r: bytes)
    ensures |r| <= |b| && 0 !in r
  {
    if b == [] then []
    else if b[0] == 0 then StripNul(b[1..])
    else [b[0]] + StripNul(b[1..])
  }

  lemma {:induction false} StripNulConcat(a: bytes, b: bytes)
    ensures StripNul(a + b) == StripNul(a) + StripNul(b)
  {
    if a == [] {
      assert a + b == b;
    } else {
      assert (a + b)[1..] == a[1..] + b;
      StripNulConcat(a[1..], b);
    }
  }

  lemma {:induction false} StripNulKeeps(b: bytes)
    ensures 0 !in b <==> StripNul(b) == b
    ensures 0 !in b <==> |StripNul(b)| == |b|
  {
    if b != [] {
      StripNulKeeps(b[1..]);
      assert b == [b[0]] + b[1..];
    }
  }

  /** Stripping leaves nothing exactly when every octet is NUL. */
  lemma {:induction false} StripNulEmpties(b: bytes)
    ensures StripNul(b) == [] <==> forall i :: 0 <= i < |b| ==> b[i] == 0
  {
    if b != [] {
      StripNulEmpties(b[1..]);
      assert forall i :: 1 <= i < |b| ==> b[i] == b[1..][i - 1];
    }
  }
}
