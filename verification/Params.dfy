/** Name-value pairs in the body of a PARAMS record (section 3.4 of the FastCGI Specification 1.0):
  * the pointer-advancing decoder, the loop that drains a record body, and their encoder. */
module Params {
  import opened Protocol

  datatype Pair = Pair(name: seq<byte>, value: seq<byte>)

  /** A pair together with the sender's choice of length forms: a length below 128 may be sent
    * in one byte or in four. */
  datatype Encoding = Encoding(pair: Pair, longName: bool, longValue: bool)

  const MAX_LENGTH: nat := 0x8000_0000

  predicate Sendable(e: Encoding) {
    && |e.pair.name| < MAX_LENGTH && |e.pair.value| < MAX_LENGTH
    && (!e.longName ==> |e.pair.name| < 128) && (!e.longValue ==> |e.pair.value| < 128)
  }

  predicate AllSendable(es: seq<Encoding>) {
    forall i :: 0 <= i < |es| ==> Sendable(es[i])
  }

  function EncodeLength(n: nat, long: bool): (b: seq<byte>)
    requires n < MAX_LENGTH && (!long ==> n < 128)
    ensures |b| == if long then 4 else 1
  {
    if long then [128 + n / 0x100_0000, n / 0x1_0000 % 256, n / 256 % 256, n % 256] else [n]
  }

  function Encode(e: Encoding): seq<byte>
    requires Sendable(e)
  {
    EncodeLength(|e.pair.name|, e.longName) + EncodeLength(|e.pair.value|, e.longValue)
    + e.pair.name + e.pair.value
  }

  function EncodeAll(es: seq<Encoding>): seq<byte>
    requires AllSendable(es)
  {
    if es == [] then [] else Encode(es[0]) + EncodeAll(es[1..])
  }

  function PairsOf(es: seq<Encoding>): (ps: seq<Pair>)
    ensures |ps| == |es|
  {
    seq(|es|, i requires 0 <= i < |es| => es[i].pair)
  }

  // ---- Decoding -------------------------------------------------------------------------------

  /** Bytes taken by the length field at the front of `b`. */
  function LengthSize(b: seq<byte>): nat
    requires b != []
  {
    if b[0] >= 128 then 4 else 1
  }

  function LengthValue(b: seq<byte>): nat
    requires b != [] && |b| >= LengthSize(b)
  {
    if b[0] >= 128 then
      (b[0] as int - 128) * 0x100_0000 + b[1] as int * 0x1_0000 + b[2] as int * 256 + b[3] as int
    else b[0]
  }

  /** Both length fields lie inside `b`. */
  predicate HasHeader(b: seq<byte>) {
    && b != [] && |b| > LengthSize(b)
    && |b| >= LengthSize(b) + LengthSize(b[LengthSize(b)..])
  }

  function HeaderSize(b: seq<byte>): nat
    requires HasHeader(b)
  {
    LengthSize(b) + LengthSize(b[LengthSize(b)..])
  }

  /** The first pair of `b` lies inside `b` as a whole. */
  predicate HasPair(b: seq<byte>) {
    && HasHeader(b)
    && |b| >= HeaderSize(b) + LengthValue(b) + LengthValue(b[LengthSize(b)..])
  }

  function PairSize(b: seq<byte>): (n: nat)
    requires HasPair(b)
    ensures 2 <= n <= |b|
  {
    HeaderSize(b) + LengthValue(b) + LengthValue(b[LengthSize(b)..])
  }

  function FirstPair(b: seq<byte>): Pair
    requires HasPair(b)
  {
    var h, n, v := HeaderSize(b), LengthValue(b), LengthValue(b[LengthSize(b)..]);
    Pair(b[h..h + n], b[h + n..h + n + v])
  }

  /** The pairs of a body made of whole pairs; the body is not one otherwise. */
  function Decode(b: seq<byte>): Option<seq<Pair>>
    decreases |b|
  {
    if b == [] then Some([])
    else if !HasPair(b) then None
    else match Decode(b[PairSize(b)..])
      case None => None
      case Some(rest) => Some([FirstPair(b)] + rest)
  }

  /** Four bytes read in big-endian order with the top bit masked away. */
  function Word31(b: seq<byte>): nat
    requires |b| == 4
  {
    BigEndianValue(b) % MAX_LENGTH
  }

  lemma Word31Value(b: seq<byte>)
    requires |b| == 4 && b[0] >= 128
    ensures Word31(b) == LengthValue(b)
  {
    assert b[..3][..2][..1][..0] == [];
    assert BigEndianValue(b[..3][..2][..1]) == b[0];
    assert BigEndianValue(b[..3][..2]) == b[0] as int * 256 + b[1];
    assert BigEndianValue(b[..3]) == (b[0] as int * 256 + b[1]) * 256 + b[2];
  }

  /** The decoder itself.  It looks at nothing but the bytes at `data` and trusts the lengths. */
  method ProcessParamHeader(memory: seq<byte>, start: nat)
    returns (name: nat, nameSize: nat, value: nat, valueSize: nat)
    requires start <= |memory| && HasHeader(memory[start..])
    ensures name == start + HeaderSize(memory[start..]) && value == name + nameSize
    ensures nameSize == LengthValue(memory[start..])
    ensures valueSize == LengthValue(memory[start..][LengthSize(memory[start..])..])
  {
    var data := start;
    ghost var rest := memory[start..];
    assert rest[0] == memory[start];
    if memory[data] >= 128 {
      assert memory[data..data + 4] == rest[..4];
      Word31Value(rest[..4]);
      nameSize := Word31(memory[data..data + 4]);
      data := data + 4;
    } else {
      nameSize := memory[data];
      data := data + 1;
    }
    ghost var second := rest[LengthSize(rest)..];
    assert second == memory[data..];
    if memory[data] >= 128 {
      assert memory[data..data + 4] == second[..4];
      Word31Value(second[..4]);
      valueSize := Word31(memory[data..data + 4]);
      data := data + 4;
    } else {
      valueSize := memory[data];
      data := data + 1;
    }
    name := data;
    value := name + nameSize;
  }

  /** Pointers into the body name the same bytes as the first pair of the rest of the body. */
  lemma FirstPairAt(body: seq<byte>, data: nat)
    requires data <= |body| && HasPair(body[data..])
    ensures var rest := body[data..];
            var name := data + HeaderSize(rest);
            var value := name + LengthValue(rest);
            var end := value + LengthValue(rest[LengthSize(rest)..]);
            && end == data + PairSize(rest) <= |body|
            && FirstPair(rest) == Pair(body[name..value], body[value..end])
            && rest[PairSize(rest)..] == body[end..]
  {
    var rest := body[data..];
    var h, n, v := HeaderSize(rest), LengthValue(rest), LengthValue(rest[LengthSize(rest)..]);
    SliceOfRest(body, data, h, h + n);
    SliceOfRest(body, data, h + n, h + n + v);
  }

  lemma SliceOfRest(body: seq<byte>, data: nat, i: nat, j: nat)
    requires data <= |body| && i <= j <= |body| - data
    ensures body[data..][i..j] == body[data + i..data + j]
    ensures body[data..][j..] == body[data + j..]
  {
  }

  /** The pairs that a body begins with, up to the first that does not lie inside it. */
  function Leading(b: seq<byte>): (ps: seq<Pair>)
    decreases |b|
  {
    if b == [] || !HasPair(b) then [] else [FirstPair(b)] + Leading(b[PairSize(b)..])
  }

  lemma {:induction false} LeadingDecoded(b: seq<byte>)
    requires Decode(b).Some?
    ensures Decode(b) == Some(Leading(b))
    decreases |b|
  {
    if b != [] {
      DecodeStep(b);
      LeadingDecoded(b[PairSize(b)..]);
    }
  }

  /** A body that ends inside a pair. */
  lemma CutShort()
    ensures Decode([5]) == None && Leading([5]) == []
  {
  }

  /** The loop over one record body.  It hands on every pair of a body made of whole pairs and ends
    * exactly at the end of the body; the remaining size is its measure.  In any other body it comes,
    * after the pairs that lie inside, to one that does not: there the program goes on behind the body,
    * and the method stops with `whole` false. */
  method Fill(body: seq<byte>) returns (seen: seq<Pair>, whole: bool)
    ensures seen == Leading(body)
    ensures whole <==> Decode(body).Some?
    ensures whole ==> Decode(body) == Some(seen)
  {
    var data, size := 0, |body|;
    seen := [];
    assert body[data..] == body;
    while size != 0
      invariant data <= |body| && size == |body| - data
      invariant Leading(body) == seen + Leading(body[data..])
      invariant Decode(body).Some? <==> Decode(body[data..]).Some?
      decreases size
    {
      if !HasPair(body[data..]) {
        assert seen + [] == seen;
        return seen, false;
      }
      LeadingStep(body[data..], seen);
      var pair, next := NextPair(body, data);
      size := size - (next - data);
      data := next;
      seen := seen + [pair];
    }
    assert body[data..] == [] && seen + [] == seen;
    LeadingDecoded(body);
    whole := true;
  }

  lemma LeadingStep(b: seq<byte>, seen: seq<Pair>)
    requires b != [] && HasPair(b)
    ensures seen + Leading(b) == seen + [FirstPair(b)] + Leading(b[PairSize(b)..])
    ensures Decode(b).Some? <==> Decode(b[PairSize(b)..]).Some?
  {
    var first, more := [FirstPair(b)], Leading(b[PairSize(b)..]);
    assert Leading(b) == first + more;
    assert seen + (first + more) == seen + first + more;
  }

  method NextPair(body: seq<byte>, data: nat) returns (pair: Pair, next: nat)
    requires data <= |body| && HasPair(body[data..])
    ensures pair == FirstPair(body[data..])
    ensures next == data + PairSize(body[data..]) <= |body|
    ensures body[next..] == body[data..][PairSize(body[data..])..]
  {
    FirstPairAt(body, data);
    var name, nameSize, value, valueSize := ProcessParamHeader(body, data);
    pair := Pair(body[name..name + nameSize], body[value..value + valueSize]);
    next := value + valueSize;
  }

  lemma DecodeStep(b: seq<byte>)
    requires b != [] && Decode(b).Some?
    ensures HasPair(b) && Decode(b[PairSize(b)..]).Some?
    ensures Decode(b).value == [FirstPair(b)] + Decode(b[PairSize(b)..]).value
  {
  }

  // ---- Round trips -------------------------------------------------------------------------------

  lemma FourDigits(n: nat)
    ensures n / 0x100_0000 * 0x100_0000 + n / 0x1_0000 % 256 * 0x1_0000 + n / 256 % 256 * 256 + n % 256 == n
  {
    assert n / 256 / 256 == n / 0x1_0000;
    assert n / 0x1_0000 / 256 == n / 0x100_0000;
  }

  lemma LengthRoundTrip(n: nat, long: bool, rest: seq<byte>)
    requires n < MAX_LENGTH && (!long ==> n < 128)
    ensures var b := EncodeLength(n, long) + rest;
            && |b| >= LengthSize(b) == |EncodeLength(n, long)|
            && LengthValue(b) == n
            && b[LengthSize(b)..] == rest
  {
    var length := EncodeLength(n, long);
    var b := length + rest;
    assert b[0] == length[0] && b[|length|..] == rest;
    if long {
      FourDigits(n);
      assert b[1] == length[1] && b[2] == length[2] && b[3] == length[3];
    }
  }

  /** Two length fields followed by the bytes they announce. */
  lemma EncodeOne(e: Encoding, rest: seq<byte>)
    requires Sendable(e)
    ensures var b := Encode(e) + rest;
            && HasPair(b) && FirstPair(b) == e.pair && PairSize(b) == |Encode(e)|
            && b[PairSize(b)..] == rest
  {
    var name, value := e.pair.name, e.pair.value;
    var n, v := EncodeLength(|name|, e.longName), EncodeLength(|value|, e.longValue);
    var body := name + value + rest;
    var b := n + (v + body);
    assert Encode(e) + rest == b;
    LengthRoundTrip(|name|, e.longName, v + body);
    LengthRoundTrip(|value|, e.longValue, body);
    assert b[|n|..] == v + body;
    assert b == (n + v) + name + value + rest;
    PairFromParts(b, n + v, e.pair, rest);
  }

  lemma PairFromParts(b: seq<byte>, header: seq<byte>, p: Pair, rest: seq<byte>)
    requires HasHeader(b) && |header| == HeaderSize(b)
    requires LengthValue(b) == |p.name| && LengthValue(b[LengthSize(b)..]) == |p.value|
    requires b == header + p.name + p.value + rest
    ensures HasPair(b) && FirstPair(b) == p && b[PairSize(b)..] == rest
    ensures PairSize(b) == |header| + |p.name| + |p.value|
  {
    Slices(header, p.name, p.value, rest);
  }

  lemma Slices(h: seq<byte>, name: seq<byte>, value: seq<byte>, rest: seq<byte>)
    ensures var b := h + name + value + rest;
            && b[|h|..|h| + |name|] == name
            && b[|h| + |name|..|h| + |name| + |value|] == value
            && b[|h| + |name| + |value|..] == rest
  {
  }

  lemma DecodeFirst(e: Encoding, rest: seq<byte>)
    requires Sendable(e) && Decode(rest).Some?
    ensures Decode(Encode(e) + rest) == Some([e.pair] + Decode(rest).value)
  {
    EncodeOne(e, rest);
  }

  lemma PairsOfFirst(es: seq<Encoding>)
    requires es != []
    ensures PairsOf(es) == [es[0].pair] + PairsOf(es[1..])
  {
  }

  /** Any list of pairs, in any mixture of length forms, is recovered from its encoding. */
  lemma {:induction false} EncodeDecode(es: seq<Encoding>)
    requires AllSendable(es)
    ensures Decode(EncodeAll(es)) == Some(PairsOf(es))
  {
    if es != [] {
      EncodeDecode(es[1..]);
      DecodeFirst(es[0], EncodeAll(es[1..]));
      PairsOfFirst(es);
    }
  }

  lemma Digits(a: nat, b: byte, c: byte, d: byte)
    ensures var n := a * 0x100_0000 + b as int * 0x1_0000 + c as int * 256 + d as int;
            n / 0x100_0000 == a && n / 0x1_0000 % 256 == b && n / 256 % 256 == c && n % 256 == d
  {
    var n := a * 0x100_0000 + b as int * 0x1_0000 + c as int * 256 + d as int;
    assert n / 256 == a * 0x1_0000 + b as int * 256 + c as int;
    assert n / 0x1_0000 == a * 256 + b as int;
  }

  lemma LengthForm(b: seq<byte>)
    requires b != [] && |b| >= LengthSize(b)
    ensures var n := LengthValue(b);
            && n < MAX_LENGTH && (b[0] < 128 ==> n < 128)
            && EncodeLength(n, b[0] >= 128) == b[..LengthSize(b)]
  {
    if b[0] >= 128 {
      Digits(b[0] as int - 128, b[1], b[2], b[3]);
    }
  }

  /** Conversely, the bodies the loop can drain are exactly the encodings: each is the encoding
    * of the pairs it yields in some choice of length forms. */
  lemma {:induction false} DecodeEncode(b: seq<byte>) returns (es: seq<Encoding>)
    requires Decode(b).Some?
    ensures AllSendable(es) && EncodeAll(es) == b && PairsOf(es) == Decode(b).value
    decreases |b|
  {
    if b == [] {
      es := [];
    } else {
      var e, tail := TakeEncoding(b);
      var rest := DecodeEncode(tail);
      es := [e] + rest;
      EncodeAllFirst(e, rest);
    }
  }

  lemma TakeEncoding(b: seq<byte>) returns (e: Encoding, tail: seq<byte>)
    requires b != [] && Decode(b).Some?
    ensures Sendable(e) && b == Encode(e) + tail && |tail| < |b|
    ensures Decode(tail).Some? && Decode(b).value == [e.pair] + Decode(tail).value
  {
    DecodeStep(b);
    e := EncodingOf(b);
    tail := b[PairSize(b)..];
  }

  lemma EncodeAllFirst(e: Encoding, rest: seq<Encoding>)
    requires Sendable(e) && AllSendable(rest)
    ensures AllSendable([e] + rest)
    ensures EncodeAll([e] + rest) == Encode(e) + EncodeAll(rest)
    ensures PairsOf([e] + rest) == [e.pair] + PairsOf(rest)
  {
    assert ([e] + rest)[1..] == rest;
  }

  /** Both length fields are the encodings of their values in the forms they are in. */
  lemma HeaderForm(b: seq<byte>)
    requires HasHeader(b)
    ensures var second := b[LengthSize(b)..];
            var n, v := LengthValue(b), LengthValue(second);
            && n < MAX_LENGTH && v < MAX_LENGTH && (b[0] < 128 ==> n < 128) && (second[0] < 128 ==> v < 128)
            && EncodeLength(n, b[0] >= 128) + EncodeLength(v, second[0] >= 128) == b[..HeaderSize(b)]
  {
    var second := b[LengthSize(b)..];
    LengthForm(b);
    LengthForm(second);
    assert b[..HeaderSize(b)] == b[..LengthSize(b)] + second[..LengthSize(second)];
  }

  lemma EncodingOf(b: seq<byte>) returns (e: Encoding)
    requires HasPair(b)
    ensures Sendable(e) && e.pair == FirstPair(b) && Encode(e) == b[..PairSize(b)]
  {
    hide EncodeLength;
    HeaderForm(b);
    e := Encoding(FirstPair(b), b[0] >= 128, b[LengthSize(b)..][0] >= 128);
    var h, n, v := HeaderSize(b), |e.pair.name|, |e.pair.value|;
    Join(b, EncodeLength(n, e.longName) + EncodeLength(v, e.longValue), e.pair, h + n, h + n + v);
  }

  lemma Join(b: seq<byte>, lengths: seq<byte>, p: Pair, j: nat, k: nat)
    requires |lengths| <= j <= k <= |b| && lengths == b[..|lengths|]
    requires p == Pair(b[|lengths|..j], b[j..k])
    ensures lengths + p.name + p.value == b[..k]
  {
  }
}
