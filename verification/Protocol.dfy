/** FastCGI record headers and the byte-level types shared by every other module.
  *
  * A record is an 8-byte header, the content and some padding (section 3.3 of the FastCGI
  * Specification 1.0).  Bytes are unsigned; a C `char` compares differently but carries the
  * same eight bits.
  */
module Protocol {
  type byte = x: int | 0 <= x < 0x100
  type uint16 = x: int | 0 <= x < 0x1_0000

  datatype Option<+T> = None | Some(value: T)

  /** A request as the application knows it: the web server's request id and the connection. */
  datatype FullId = FullId(fcgiId: uint16, fd: uint16)

  const VERSION: byte := 1
  const CHUNK_ALIGNMENT: nat := 8
  const HEADER_SIZE: nat := 8

  const BEGIN_REQUEST: byte := 1
  const ABORT_REQUEST: byte := 2
  const END_REQUEST: byte := 3
  const PARAMS: byte := 4
  const IN: byte := 5

  const RESPONDER: uint16 := 1
  const AUTHORIZER: uint16 := 2

  /** `reserved` is never assigned by the program: it keeps whatever the memory held. */
  datatype Header = Header(version: byte, kind: byte, requestId: uint16,
                           contentLength: uint16, paddingLength: byte, reserved: byte)

  function Word(high: byte, low: byte): uint16 {
    high as int * 256 + low as int
  }

  function EncodeHeader(h: Header): (b: seq<byte>)
    ensures |b| == HEADER_SIZE
  {
    [h.version, h.kind, h.requestId / 256, h.requestId % 256,
     h.contentLength / 256, h.contentLength % 256, h.paddingLength, h.reserved]
  }

  function DecodeHeader(b: seq<byte>): Header
    requires |b| >= HEADER_SIZE
  {
    Header(b[0], b[1], Word(b[2], b[3]), Word(b[4], b[5]), b[6], b[7])
  }

  lemma HeaderRoundTrip(h: Header, rest: seq<byte>)
    ensures DecodeHeader(EncodeHeader(h) + rest) == h
  {
    var b := EncodeHeader(h) + rest;
    assert b[2] == h.requestId / 256 && b[3] == h.requestId % 256;
    assert b[4] == h.contentLength / 256 && b[5] == h.contentLength % 256;
  }

  lemma HeaderBytesRoundTrip(b: seq<byte>)
    requires |b| >= HEADER_SIZE
    ensures EncodeHeader(DecodeHeader(b)) == b[..HEADER_SIZE]
  {
    forall high: byte, low: byte
      ensures Word(high, low) / 256 == high && Word(high, low) % 256 == low
    {
    }
  }

  // ---- Byte order -------------------------------------------------------------------------

  /** The memory image of a `width`-byte integer on the little-endian hosts the code targets. */
  function LittleEndian(v: nat, width: nat): (b: seq<byte>)
    ensures |b| == width
  {
    if width == 0 then [] else [v % 256] + LittleEndian(v / 256, width - 1)
  }

  /** The value of a big-endian byte string. */
  function BigEndianValue(b: seq<byte>): nat {
    if b == [] then 0 else BigEndianValue(b[..|b| - 1]) * 256 + b[|b| - 1]
  }

  function Reversed(b: seq<byte>): (r: seq<byte>)
    ensures |r| == |b|
  {
    seq(|b|, i requires 0 <= i < |b| => b[|b| - 1 - i])
  }

  function Pow256(k: nat): (p: nat)
    ensures p > 0
  {
    if k == 0 then 1 else 256 * Pow256(k - 1)
  }

  /** The byte-swapping loop: `pResult` runs down while `pValue` runs up. */
  method ReadBigEndian(value: array<byte>, result: array<byte>)
    requires value != result && value.Length == result.Length
    modifies result
    ensures result[..] == Reversed(value[..])
    ensures value[..] == old(value[..])
  {
    var pValue, pResult := 0, result.Length;
    while pValue != value.Length
      invariant 0 <= pValue <= value.Length && pResult == result.Length - pValue
      invariant value[..] == old(value[..])
      invariant forall i :: pResult <= i < result.Length ==> result[i] == value[value.Length - 1 - i]
    {
      pResult := pResult - 1;
      result[pResult] := value[pValue];
      pValue := pValue + 1;
    }
  }

  /** What is stored after the swap is the big-endian form, whatever the width: swapping the
    * host image of `v` gives bytes whose big-endian value is `v`. */
  lemma {:induction false} SwappedIsBigEndian(v: nat, width: nat)
    requires v < Pow256(width)
    ensures BigEndianValue(Reversed(LittleEndian(v, width))) == v
  {
    var r := Reversed(LittleEndian(v, width));
    if width > 0 {
      SwappedIsBigEndian(v / 256, width - 1);
      assert r[..width - 1] == Reversed(LittleEndian(v / 256, width - 1));
      assert r[width - 1] == v % 256;
    }
  }
}
