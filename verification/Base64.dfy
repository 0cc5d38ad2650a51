/** Base64 (section 4 of RFC 4648): the bit-shifting encoder and decoder loops against the
  * grouping of three bytes into four symbols. */
module Base64 {
  import opened Protocol

  type sextet = x: int | 0 <= x < 64

  /** The table of the sixty-four symbols: upper case, lower case, digits, plus and slash. */
  function Symbol(v: sextet): char {
    if v < 26 then (v as int + 'A' as int) as char
    else if v < 52 then (v as int - 26 + 'a' as int) as char
    else if v < 62 then (v as int - 52 + '0' as int) as char
    else if v == 62 then '+'
    else '/'
  }

  /** The value of a character, by the decoder's comparisons; none for padding and strangers. */
  function ValueOf(c: char): Option<sextet> {
    if 'A' <= c <= 'Z' then Some(c as int - 'A' as int)
    else if 'a' <= c <= 'z' then Some(c as int - ('a' as int - 26))
    else if '0' <= c <= '9' then Some(c as int - ('0' as int - 52))
    else if c == '+' then Some(62)
    else if c == '/' then Some(63)
    else None
  }

  lemma SymbolValue(v: sextet)
    ensures ValueOf(Symbol(v)) == Some(v) && Symbol(v) != '='
  {
  }

  lemma ValueSymbol(c: char)
    requires ValueOf(c).Some?
    ensures Symbol(ValueOf(c).value) == c
  {
  }

  // ---- Groups ----------------------------------------------------------------------------------

  /** Twenty-four bits as three bytes or as four symbol values. */
  function FromBytes(a: byte, b: byte, c: byte): nat {
    a as int * 0x1_0000 + b as int * 0x100 + c as int
  }

  function FromSextets(a: sextet, b: sextet, c: sextet, d: sextet): nat {
    a as int * 0x4_0000 + b as int * 0x1000 + c as int * 0x40 + d as int
  }

  /** Shifting by one of the bit positions that occur in the loops. */
  function ShiftLeft(v: nat, bitPos: int): nat {
    if bitPos == 18 then v * 0x4_0000
    else if bitPos == 16 then v * 0x1_0000
    else if bitPos == 12 then v * 0x1000
    else if bitPos == 8 then v * 0x100
    else if bitPos == 6 then v * 0x40
    else v
  }

  function ShiftRight(n: nat, bitPos: int): nat {
    if bitPos == 18 then n / 0x4_0000
    else if bitPos == 16 then n / 0x1_0000
    else if bitPos == 12 then n / 0x1000
    else if bitPos == 8 then n / 0x100
    else if bitPos == 6 then n / 0x40
    else n
  }

  function SextetAt(n: nat, bitPos: int): sextet
    requires bitPos == 18 || bitPos == 12 || bitPos == 6 || bitPos == 0
  {
    ShiftRight(n, bitPos) % 64
  }

  function ByteAt(n: nat, bitPos: int): byte
    requires bitPos == 16 || bitPos == 8 || bitPos == 0
  {
    ShiftRight(n, bitPos) % 256
  }

  lemma SextetsOf(n: nat)
    requires n < 0x100_0000
    ensures FromSextets(SextetAt(n, 18), SextetAt(n, 12), SextetAt(n, 6), SextetAt(n, 0)) == n
  {
    assert n / 0x40 / 0x40 == n / 0x1000;
    assert n / 0x1000 / 0x40 == n / 0x4_0000;
  }

  lemma BytesOf(a: byte, b: byte, c: byte)
    ensures var n := FromBytes(a, b, c);
            n < 0x100_0000 && ByteAt(n, 16) == a && ByteAt(n, 8) == b && ByteAt(n, 0) == c
  {
    var n := FromBytes(a, b, c);
    assert n / 0x100 == a as int * 0x100 + b as int;
    assert n / 0x1_0000 == a as int;
  }

  lemma SextetsBack(a: sextet, b: sextet, c: sextet, d: sextet)
    ensures var n := FromSextets(a, b, c, d);
            && n < 0x100_0000 && SextetAt(n, 18) == a && SextetAt(n, 12) == b
            && SextetAt(n, 6) == c && SextetAt(n, 0) == d
  {
    var n := FromSextets(a, b, c, d);
    assert n / 0x40 == a as int * 0x1000 + b as int * 0x40 + c as int;
    assert n / 0x1000 == a as int * 0x40 + b as int;
    assert n / 0x4_0000 == a as int;
  }

  lemma BytesBack(n: nat)
    requires n < 0x100_0000
    ensures FromBytes(ByteAt(n, 16), ByteAt(n, 8), ByteAt(n, 0)) == n
  {
    assert n / 0x100 / 0x100 == n / 0x1_0000;
  }

  // ---- Encoding ----------------------------------------------------------------------------------

  /** Four symbols for one to three bytes, the missing bytes read as zero and marked by padding. */
  function EncodeGroup(b: seq<byte>): (s: string)
    requires 1 <= |b| <= 3
    ensures |s| == 4
  {
    var n := FromBytes(b[0], if |b| > 1 then b[1] else 0, if |b| > 2 then b[2] else 0);
    BytesOf(b[0], if |b| > 1 then b[1] else 0, if |b| > 2 then b[2] else 0);
    [Symbol(SextetAt(n, 18)), Symbol(SextetAt(n, 12)),
     if |b| > 1 then Symbol(SextetAt(n, 6)) else '=',
     if |b| > 2 then Symbol(SextetAt(n, 0)) else '=']
  }

  function Encode(b: seq<byte>): string {
    if b == [] then ""
    else if |b| <= 3 then EncodeGroup(b)
    else EncodeGroup(b[..3]) + Encode(b[3..])
  }

  // ---- Decoding ----------------------------------------------------------------------------------

  /** What one group of up to four characters amounts to: an error, padding met at a bit position,
    * or twenty-four bits. */
  datatype Group = Broken | Padded(n: nat, at: int) | Full(n: nat)

  /** How many characters of a group are read from `bitPos` on. */
  function Wanted(bitPos: int): nat {
    if bitPos == 18 then 4 else if bitPos == 12 then 3 else if bitPos == 6 then 2 else if bitPos == 0 then 1 else 0
  }

  function Collect(text: string, bitPos: int, n: nat): (g: Group)
    requires bitPos == 18 || bitPos == 12 || bitPos == 6 || bitPos == 0 || bitPos == -6
    ensures g.Full? ==> |text| >= Wanted(bitPos)
    ensures g.Padded? ==> Wanted(g.at) > 0 && |text| > Wanted(bitPos) - Wanted(g.at) >= 0
    decreases Wanted(bitPos)
  {
    if bitPos == -6 then Full(n)
    else if text == "" then Broken
    else if text[0] == '=' then Padded(n, bitPos)
    else if ValueOf(text[0]).None? then Broken
    else Collect(text[1..], bitPos - 6, n + ShiftLeft(ValueOf(text[0]).value, bitPos))
  }

  /** The bytes a padded group yields; padding at the front yields none. */
  function PaddedBytes(n: nat, at: int): seq<byte> {
    if at == 0 then [ByteAt(n, 16), ByteAt(n, 8)]
    else if at == 18 then []
    else [ByteAt(n, 16)]
  }

  function FullBytes(n: nat): seq<byte> {
    [ByteAt(n, 16), ByteAt(n, 8), ByteAt(n, 0)]
  }

  /** The decoder stops at the first padded group and does not look at what follows. */
  function Decode(text: string): Option<seq<byte>>
    decreases |text|
  {
    if text == "" then Some([])
    else match Collect(text, 18, 0)
      case Broken => None
      case Padded(n, at) => Some(PaddedBytes(n, at))
      case Full(n) =>
        match Decode(text[4..])
        case None => None
        case Some(rest) => Some(FullBytes(n) + rest)
  }

  // ---- Round trips ---------------------------------------------------------------------------------

  /** Reading four symbols. */
  lemma {:induction false} CollectFull(a: sextet, b: sextet, c: sextet, d: sextet, rest: string)
    ensures Collect([Symbol(a), Symbol(b), Symbol(c), Symbol(d)] + rest, 18, 0) == Full(FromSextets(a, b, c, d))
  {
    SymbolValue(a);
    SymbolValue(b);
    SymbolValue(c);
    SymbolValue(d);
    var t := [Symbol(a), Symbol(b), Symbol(c), Symbol(d)] + rest;
    assert t[1..] == [Symbol(b), Symbol(c), Symbol(d)] + rest;
    assert t[1..][1..] == [Symbol(c), Symbol(d)] + rest;
    assert t[1..][1..][1..] == [Symbol(d)] + rest;
    CollectStep(t, 18, 0, a);
    CollectStep(t[1..], 12, ShiftLeft(a, 18), b);
    CollectStep(t[1..][1..], 6, ShiftLeft(a, 18) + ShiftLeft(b, 12), c);
    CollectStep(t[1..][1..][1..], 0, ShiftLeft(a, 18) + ShiftLeft(b, 12) + ShiftLeft(c, 6), d);
  }

  lemma {:induction false} CollectGoesOn(text: string, bitPos: int, n: nat, v: sextet, g: Group)
    requires bitPos == 18 || bitPos == 12 || bitPos == 6 || bitPos == 0
    requires text != "" && text[0] != '=' && ValueOf(text[0]) == Some(v)
    requires g == Collect(text[1..], bitPos - 6, n + ShiftLeft(v, bitPos))
    ensures Collect(text, bitPos, n) == g
  {
    hide ShiftLeft, ValueOf, Wanted;
  }

  lemma {:induction false} CollectStep(text: string, bitPos: int, n: nat, v: sextet)
    requires bitPos == 18 || bitPos == 12 || bitPos == 6 || bitPos == 0
    requires text != "" && text[0] != '=' && ValueOf(text[0]) == Some(v)
    ensures Collect(text, bitPos, n) == Collect(text[1..], bitPos - 6, n + ShiftLeft(v, bitPos))
  {
    hide Collect;
    CollectGoesOn(text, bitPos, n, v, Collect(text[1..], bitPos - 6, n + ShiftLeft(v, bitPos)));
  }

  lemma {:induction false} CollectPadded(a: sextet, b: sextet, c: sextet, rest: string)
    ensures Collect([Symbol(a), Symbol(b), '='] + rest, 18, 0) == Padded(FromSextets(a, b, 0, 0), 6)
    ensures Collect([Symbol(a), Symbol(b), Symbol(c), '='] + rest, 18, 0) == Padded(FromSextets(a, b, c, 0), 0)
  {
    SymbolValue(a);
    SymbolValue(b);
    SymbolValue(c);
    var t := [Symbol(a), Symbol(b), '='] + rest;
    assert t[1..] == [Symbol(b), '='] + rest;
    assert t[1..][1..] == ['='] + rest;
    CollectStep(t, 18, 0, a);
    CollectStep(t[1..], 12, ShiftLeft(a, 18), b);
    var u := [Symbol(a), Symbol(b), Symbol(c), '='] + rest;
    assert u[1..] == [Symbol(b), Symbol(c), '='] + rest;
    assert u[1..][1..] == [Symbol(c), '='] + rest;
    assert u[1..][1..][1..] == ['='] + rest;
    CollectStep(u, 18, 0, a);
    CollectStep(u[1..], 12, ShiftLeft(a, 18), b);
    CollectStep(u[1..][1..], 6, ShiftLeft(a, 18) + ShiftLeft(b, 12), c);
  }

  lemma FourTimes(k: nat)
    ensures 4 * k % 64 == 4 * (k % 16) && 4 * (k % 16) % 4 == 0
  {
  }

  lemma SixteenTimes(k: nat)
    ensures 16 * k % 64 == 16 * (k % 4) && 16 * (k % 4) % 16 == 0
  {
  }

  /** The bits that belong to a missing third byte are zero. */
  lemma ThirdMissing(a: byte, b: byte)
    ensures var n := FromBytes(a, b, 0);
            SextetAt(n, 0) == 0 && SextetAt(n, 6) % 4 == 0
  {
    var k := a as int * 0x100 + b as int;
    assert FromBytes(a, b, 0) == 64 * (4 * k);
    FourTimes(k);
  }

  lemma SecondMissing(a: byte)
    ensures var n := FromBytes(a, 0, 0);
            SextetAt(n, 0) == 0 && SextetAt(n, 6) == 0 && SextetAt(n, 12) % 16 == 0
  {
    var n := FromBytes(a, 0, 0);
    assert n == 64 * (64 * (16 * a as int));
    assert n / 64 == 64 * (16 * a as int) && n / 0x1000 == 16 * a as int;
    SixteenTimes(a);
  }

  lemma GroupOfThree(a: byte, b: byte, c: byte, rest: string)
    ensures var g := Collect(EncodeGroup([a, b, c]) + rest, 18, 0);
            g.Full? && FullBytes(g.n) == [a, b, c]
  {
    var n := FromBytes(a, b, c);
    BytesOf(a, b, c);
    SextetsOf(n);
    var p, q, r, s := SextetAt(n, 18), SextetAt(n, 12), SextetAt(n, 6), SextetAt(n, 0);
    assert EncodeGroup([a, b, c]) == [Symbol(p), Symbol(q), Symbol(r), Symbol(s)];
    CollectFull(p, q, r, s, rest);
  }

  lemma GroupOfTwo(a: byte, b: byte)
    ensures var g := Collect(EncodeGroup([a, b]), 18, 0);
            g.Padded? && PaddedBytes(g.n, g.at) == [a, b]
  {
    var n := FromBytes(a, b, 0);
    BytesOf(a, b, 0);
    SextetsOf(n);
    ThirdMissing(a, b);
    var p, q, r := SextetAt(n, 18), SextetAt(n, 12), SextetAt(n, 6);
    assert EncodeGroup([a, b]) == [Symbol(p), Symbol(q), Symbol(r), '='] + "";
    CollectPadded(p, q, r, "");
  }

  lemma GroupOfOne(a: byte)
    ensures var g := Collect(EncodeGroup([a]), 18, 0);
            g.Padded? && PaddedBytes(g.n, g.at) == [a]
  {
    var n := FromBytes(a, 0, 0);
    BytesOf(a, 0, 0);
    SextetsOf(n);
    SecondMissing(a);
    var p, q := SextetAt(n, 18), SextetAt(n, 12);
    assert EncodeGroup([a]) == [Symbol(p), Symbol(q), '='] + ['='];
    CollectPadded(p, q, 0, ['=']);
  }

  /** ENCODE, THEN DECODE: every byte string is recovered. */
  lemma {:induction false} EncodeDecode(b: seq<byte>)
    ensures Decode(Encode(b)) == Some(b)
  {
    hide Encode, Decode, Collect, EncodeGroup, PaddedBytes, FullBytes;
    if |b| < 3 {
      EncodeShort(b);
    }
    if |b| == 1 {
      assert b == [b[0]];
      GroupOfOne(b[0]);
      DecodePadded(EncodeGroup(b));
    } else if |b| == 2 {
      assert b == [b[0], b[1]];
      GroupOfTwo(b[0], b[1]);
      DecodePadded(EncodeGroup(b));
    } else if |b| >= 3 {
      var rest := Encode(b[3..]);
      EncodeCons(b[..3], b[3..]);
      assert b == b[..3] + b[3..];
      assert b[..3] == [b[0], b[1], b[2]];
      GroupOfThree(b[0], b[1], b[2], rest);
      EncodeDecode(b[3..]);
      DecodeCons(EncodeGroup(b[..3]), rest);
    }
  }

  lemma EncodeShort(b: seq<byte>)
    requires |b| < 3
    ensures if b == [] then Encode(b) == "" && Decode("") == Some([]) else Encode(b) == EncodeGroup(b) != ""
  {
    hide Collect;
  }

  lemma DecodePadded(text: string)
    requires text != "" && Collect(text, 18, 0).Padded?
    ensures Decode(text) == Some(PaddedBytes(Collect(text, 18, 0).n, Collect(text, 18, 0).at))
  {
    hide Collect;
  }

  lemma DecodeCons(group: string, rest: string)
    requires |group| == 4 && Collect(group + rest, 18, 0).Full? && Decode(rest).Some?
    ensures Decode(group + rest) == Some(FullBytes(Collect(group + rest, 18, 0).n) + Decode(rest).value)
  {
    assert (group + rest)[4..] == rest;
  }

  lemma EncodeCons(group: seq<byte>, rest: seq<byte>)
    requires |group| == 3
    ensures Encode(group + rest) == EncodeGroup(group) + Encode(rest)
  {
    if rest == [] {
      assert group + rest == group && EncodeGroup(group) + "" == EncodeGroup(group);
    } else {
      assert (group + rest)[..3] == group && (group + rest)[3..] == rest;
    }
  }

  /** Bytes missing from the last group. */
  function Missing(length: nat): nat {
    (3 - length % 3) % 3
  }

  /** Groups of three bytes, the last one possibly incomplete. */
  function Groups(length: nat): nat {
    (length + 2) / 3
  }

  /** The same two numbers, counted down group by group. */
  function Count(length: nat): (c: (nat, nat)) {
    if length == 0 then (0, 0)
    else if length <= 3 then (1, 3 - length)
    else (Count(length - 3).0 + 1, Count(length - 3).1)
  }

  lemma {:induction false} CountClosed(length: nat)
    ensures Count(length) == (Groups(length), Missing(length))
  {
    hide Count, Groups, Missing;
    if length > 3 {
      CountStep(length);
      CountClosed(length - 3);
      OneGroupMore(length - 3);
    } else {
      CountSmall(length);
    }
  }

  lemma CountStep(length: nat)
    requires length > 3
    ensures Count(length) == (Count(length - 3).0 + 1, Count(length - 3).1)
  {
    hide Groups, Missing;
  }

  lemma CountSmall(length: nat)
    requires length <= 3
    ensures Count(length) == (Groups(length), Missing(length))
  {
    if length == 0 {
    } else if length == 1 {
    } else if length == 2 {
    } else {
    }
  }

  lemma OneGroupMore(length: nat)
    ensures Groups(length + 3) == Groups(length) + 1 && Missing(length + 3) == Missing(length)
  {
    assert (length + 3) % 3 == length % 3;
  }

  /** The first group of an encoding and the encoding of the rest. */
  lemma EncodeFirst(b: seq<byte>) returns (head: string)
    requires b != []
    ensures |head| == 4 && Encode(b) == head + (if |b| > 3 then Encode(b[3..]) else "")
    ensures forall i :: 0 <= i < 4 ==> (head[i] == '=' <==> i > |b|)
  {
    head := EncodeGroup(if |b| > 3 then b[..3] else b);
    PaddingOfGroup(if |b| > 3 then b[..3] else b);
    assert head + "" == head;
  }

  /** Four characters for every three bytes begun, and padding at the end only, as often as bytes are
    * missing, both counted group by group. */
  lemma {:induction false} EncodeShape(b: seq<byte>)
    ensures |Encode(b)| == 4 * Count(|b|).0 && |Encode(b)| >= Count(|b|).1
    ensures PaddedBy(Encode(b), Count(|b|).1)
  {
    if b != [] {
      var head := EncodeFirst(b);
      if |b| > 3 {
        EncodeShape(b[3..]);
        PaddingShift(head, Encode(b[3..]), Count(|b|).1);
      } else {
        assert head + "" == head;
      }
    }
  }

  /** The last `missing` characters are padding, and no others. */
  predicate PaddedBy(t: string, missing: nat) {
    forall i :: 0 <= i < |t| ==> (t[i] == '=' <==> i >= |t| - missing)
  }

  /** Four characters for every three bytes begun. */
  lemma EncodeLength(b: seq<byte>)
    ensures |Encode(b)| == 4 * Groups(|b|)
  {
    EncodeShape(b);
    CountClosed(|b|);
  }

  lemma PaddingOfGroup(b: seq<byte>)
    requires 1 <= |b| <= 3
    ensures forall i :: 0 <= i < 4 ==> (EncodeGroup(b)[i] == '=' <==> i > |b|)
  {
    GroupSymbols(b[0], if |b| > 1 then b[1] else 0, if |b| > 2 then b[2] else 0);
  }

  /** Padding occurs only at the end, as often as bytes are missing. */
  lemma EncodePadding(b: seq<byte>)
    ensures |Encode(b)| >= Missing(|b|) && PaddedBy(Encode(b), Missing(|b|))
  {
    EncodeShape(b);
    CountClosed(|b|);
  }

  lemma PaddingShift(group: string, rest: string, missing: nat)
    requires |group| == 4 && '=' !in group && |rest| >= missing && PaddedBy(rest, missing)
    ensures PaddedBy(group + rest, missing)
  {
    var t := group + rest;
    forall i | 0 <= i < |t| ensures t[i] == '=' <==> i >= |t| - missing {
      if i >= 4 {
        assert t[i] == rest[i - 4];
      } else {
        assert t[i] == group[i];
      }
    }
  }

  // ---- Canonical text ------------------------------------------------------------------------------

  predicate Four(t: string) {
    |t| >= 4 && ValueOf(t[0]).Some? && ValueOf(t[1]).Some? && ValueOf(t[2]).Some? && ValueOf(t[3]).Some?
  }

  /** Text in groups of four, padded only at its end, with zero bits where bytes are missing. */
  predicate Canonical(t: string)
    decreases |t|
  {
    || t == ""
    || (Four(t) && Canonical(t[4..]))
    || (|t| == 4 && ValueOf(t[0]).Some? && ValueOf(t[1]).Some? && t[3] == '='
        && (|| (ValueOf(t[2]).Some? && ValueOf(t[2]).value % 4 == 0)
            || (t[2] == '=' && ValueOf(t[1]).value % 16 == 0)))
  }

  lemma FullBack(t: string)
    requires Four(t)
    ensures var g := Collect(t, 18, 0);
            g.Full? && EncodeGroup(FullBytes(g.n)) == t[..4]
  {
    var a, b, c, d := ValueOf(t[0]).value, ValueOf(t[1]).value, ValueOf(t[2]).value, ValueOf(t[3]).value;
    ValueSymbol(t[0]);
    ValueSymbol(t[1]);
    ValueSymbol(t[2]);
    ValueSymbol(t[3]);
    assert t == [Symbol(a), Symbol(b), Symbol(c), Symbol(d)] + t[4..];
    CollectFull(a, b, c, d, t[4..]);
    SextetsBack(a, b, c, d);
    BytesBack(FromSextets(a, b, c, d));
  }

  lemma LowByteClear(a: sextet, b: sextet, c: sextet)
    requires c % 4 == 0
    ensures ByteAt(FromSextets(a, b, c, 0), 0) == 0
  {
    var quarter := c as int / 4;
    assert c == 4 * quarter;
    assert FromSextets(a, b, c, 0) == 0x100 * (a as int * 0x400 + b as int * 0x10 + quarter);
  }

  lemma LowBytesClear(a: sextet, b: sextet)
    requires b % 16 == 0
    ensures ByteAt(FromSextets(a, b, 0, 0), 0) == 0 && ByteAt(FromSextets(a, b, 0, 0), 8) == 0
  {
    var part := b as int / 16;
    var k := a as int * 4 + part;
    assert b == 16 * part;
    assert FromSextets(a, b, 0, 0) == 0x1_0000 * k;
    assert 0x1_0000 * k / 0x100 == 0x100 * k;
  }

  lemma TwoBytesBack(n: nat)
    requires n < 0x100_0000 && ByteAt(n, 0) == 0
    ensures EncodeGroup(PaddedBytes(n, 0))
         == [Symbol(SextetAt(n, 18)), Symbol(SextetAt(n, 12)), Symbol(SextetAt(n, 6)), '=']
  {
    BytesBack(n);
    var b := PaddedBytes(n, 0);
    assert FromBytes(b[0], b[1], 0) == n;
  }

  lemma OneByteBack(n: nat)
    requires n < 0x100_0000 && ByteAt(n, 0) == 0 && ByteAt(n, 8) == 0
    ensures EncodeGroup(PaddedBytes(n, 6)) == [Symbol(SextetAt(n, 18)), Symbol(SextetAt(n, 12)), '=', '=']
  {
    BytesBack(n);
    var b := PaddedBytes(n, 6);
    assert FromBytes(b[0], 0, 0) == n;
  }

  lemma TwoBack(a: sextet, b: sextet, c: sextet)
    requires c % 4 == 0
    ensures var t := [Symbol(a), Symbol(b), Symbol(c), '='];
            var g := Collect(t, 18, 0);
            g.Padded? && g.at == 0 && EncodeGroup(PaddedBytes(g.n, g.at)) == t
  {
    SextetsBack(a, b, c, 0);
    LowByteClear(a, b, c);
    TwoBytesBack(FromSextets(a, b, c, 0));
    assert [Symbol(a), Symbol(b), Symbol(c), '='] == [Symbol(a), Symbol(b), Symbol(c), '='] + [];
    CollectPadded(a, b, c, []);
  }

  lemma OneBack(a: sextet, b: sextet)
    requires b % 16 == 0
    ensures var t := [Symbol(a), Symbol(b), '=', '='];
            var g := Collect(t, 18, 0);
            g.Padded? && g.at == 6 && EncodeGroup(PaddedBytes(g.n, g.at)) == t
  {
    SextetsBack(a, b, 0, 0);
    LowBytesClear(a, b);
    OneByteBack(FromSextets(a, b, 0, 0));
    assert [Symbol(a), Symbol(b), '=', '='] == [Symbol(a), Symbol(b), '='] + ['='];
    CollectPadded(a, b, 0, ['=']);
  }

  lemma PaddedBack(t: string)
    requires |t| == 4 && ValueOf(t[0]).Some? && ValueOf(t[1]).Some? && t[3] == '='
    requires || (ValueOf(t[2]).Some? && ValueOf(t[2]).value % 4 == 0)
             || (t[2] == '=' && ValueOf(t[1]).value % 16 == 0)
    ensures var g := Collect(t, 18, 0);
            g.Padded? && var bytes := PaddedBytes(g.n, g.at);
            1 <= |bytes| <= 2 && EncodeGroup(bytes) == t
  {
    var a, b := ValueOf(t[0]).value, ValueOf(t[1]).value;
    ValueSymbol(t[0]);
    ValueSymbol(t[1]);
    if t[2] == '=' {
      OneBack(a, b);
      assert t == [Symbol(a), Symbol(b), '=', '='];
    } else {
      var c := ValueOf(t[2]).value;
      ValueSymbol(t[2]);
      TwoBack(a, b, c);
      assert t == [Symbol(a), Symbol(b), Symbol(c), '='];
    }
  }

  /** DECODE, THEN ENCODE: canonical text is recovered. */
  lemma {:induction false} DecodeEncode(t: string)
    requires Canonical(t)
    ensures Decode(t).Some? && Encode(Decode(t).value) == t
    decreases |t|
  {
    if t != "" {
      if Four(t) && Canonical(t[4..]) {
        FullBack(t);
        DecodeEncode(t[4..]);
        EncodeCons(FullBytes(Collect(t, 18, 0).n), Decode(t[4..]).value);
        assert t == t[..4] + t[4..];
      } else {
        PaddedBack(t);
      }
    }
  }

  /** Encodings are canonical, so canonical texts are exactly the encodings. */
  lemma {:induction false} EncodeCanonical(b: seq<byte>)
    ensures Canonical(Encode(b))
  {
    if b != [] {
      var c1, c2: byte := if |b| > 1 then b[1] else 0, if |b| > 2 then b[2] else 0;
      GroupSymbols(b[0], c1, c2);
      ThirdMissing(b[0], c1);
      SecondMissing(b[0]);
      if |b| >= 3 {
        EncodeCanonical(b[3..]);
        EncodeCons(b[..3], b[3..]);
        assert b == b[..3] + b[3..];
        assert (EncodeGroup(b[..3]) + Encode(b[3..]))[4..] == Encode(b[3..]);
      }
    }
  }

  lemma GroupSymbols(a: byte, b: byte, c: byte)
    ensures var n := FromBytes(a, b, c);
            && ValueOf(Symbol(SextetAt(n, 18))) == Some(SextetAt(n, 18))
            && ValueOf(Symbol(SextetAt(n, 12))) == Some(SextetAt(n, 12))
            && ValueOf(Symbol(SextetAt(n, 6))) == Some(SextetAt(n, 6))
            && ValueOf(Symbol(SextetAt(n, 0))) == Some(SextetAt(n, 0))
  {
    var n := FromBytes(a, b, c);
    SymbolValue(SextetAt(n, 18));
    SymbolValue(SextetAt(n, 12));
    SymbolValue(SextetAt(n, 6));
    SymbolValue(SextetAt(n, 0));
  }

  lemma CanonicalIffEncoded(t: string)
    ensures Canonical(t) <==> exists b :: Encode(b) == t
  {
    if Canonical(t) {
      DecodeEncode(t);
    }
    if exists b :: Encode(b) == t {
      var b :| Encode(b) == t;
      EncodeCanonical(b);
    }
  }
}
