/** Percent decoding and form scanning, character by character and pair by pair, for texts that no
  * encoder produces as well. */
module FormLaws {
  import opened Protocol
  import opened FormDecode

  /** `b` is the hexadecimal digit of `n`, in either case. */
  predicate HexDigitOf(b: byte, n: nat) {
    || (48 <= b <= 57 && n == b - 48)
    || (65 <= b <= 70 && n == b - 55)
    || (97 <= b <= 102 && n == b - 87)
  }

  /** No hexadecimal digit. */
  predicate NoDigit(b: byte) {
    b < 48 || 57 < b < 65 || 70 < b < 97 || b > 102
  }

  /** The nibble a character adds. */
  predicate Adds(b: byte, n: nat) {
    HexDigitOf(b, n) || (NoDigit(b) && n == 0)
  }

  lemma NibbleAdds(b: byte, n: nat)
    requires Adds(b, n)
    ensures Nibble(b) == n
  {
  }

  /** Every character adds one nibble. */
  lemma AddsOne(b: byte) returns (n: nat)
    ensures n < 16 && Adds(b, n) && forall m :: Adds(b, m) ==> m == n
  {
    n := Nibble(b);
  }

  /** A plus is a space, and any other character but a percent sign stands for itself. */
  lemma DecodePlain(c: byte, rest: seq<byte>)
    requires c != PERCENT
    ensures Decode([c] + rest) == [if c == PLUS then SPACE else c] + Decode(rest)
  {
    assert ([c] + rest)[1..] == rest;
  }

  /** An escape is the byte of its two digits, upper or lower case; a character that is no digit counts as zero. */
  lemma DecodeEscape(a: byte, b: byte, high: nat, low: nat, rest: seq<byte>)
    requires Adds(a, high) && Adds(b, low)
    ensures high < 16 && low < 16 && Decode([PERCENT, a, b] + rest) == [high * 16 + low] + Decode(rest)
  {
    NibbleAdds(a, high);
    NibbleAdds(b, low);
    assert ([PERCENT, a, b] + rest)[3..] == rest;
  }

  /** An escape that the end cuts off is the byte of the digits that are there. */
  lemma DecodeCut(a: byte, high: nat)
    requires Adds(a, high)
    ensures Decode([PERCENT]) == [0] && high < 16 && Decode([PERCENT, a]) == [high * 16]
  {
    NibbleAdds(a, high);
    assert [PERCENT][1..] == [] && [PERCENT, a][2..] == [];
  }

  // ---- Forms ---------------------------------------------------------------------------------------

  lemma {:induction false} SpacesCounted(s: seq<byte>)
    ensures Spaces(s) == multiset(s)[SPACE]
  {
    if s != [] {
      SpacesCounted(s[..|s| - 1]);
      assert s == s[..|s| - 1] + [s[|s| - 1]];
    }
  }

  /** A text without an equals sign adds nothing. */
  lemma NoEquals(s: seq<byte>, separator: byte, fields: Fields)
    requires EQUALS !in s
    ensures Form(s, separator, fields) == fields
  {
    assert s[..|s|] == s;
    IndexOfAt(s, EQUALS, |s|);
  }

  lemma NameSlices(name: seq<byte>, behind: seq<byte>, skip: nat)
    requires skip <= |name|
    ensures var s := name + [EQUALS] + behind;
            s[..|name|] == name && s[|name|] == EQUALS && s[|name| + 1..] == behind && s[skip..|name|] == name[skip..]
  {
  }

  lemma ValueSlices(value: seq<byte>, separator: byte, rest: seq<byte>)
    ensures var s := value + [separator] + rest;
            s[..|value|] == value && s[|value|] == separator && s[|value| + 1..] == rest
  {
  }

  lemma SkippedSpaces(name: seq<byte>, separator: byte)
    ensures Skipped(name, separator) == if separator == SPACE then 0 else multiset(name)[SPACE]
    ensures Skipped(name, separator) <= |name|
  {
    SpacesCounted(name);
  }

  /** Up to the first equals sign. */
  lemma NameRead(name: seq<byte>, behind: seq<byte>, separator: byte, fields: Fields)
    requires EQUALS !in name && separator != EQUALS
    ensures Skipped(name, separator) <= |name|
    ensures Form(name + [EQUALS] + behind, separator, fields)
         == Valued(Decode(name[Skipped(name, separator)..]), behind, separator, fields)
  {
    hide Decode, Form, Valued, Skipped;
    var skip := Skipped(name, separator);
    SkippedSpaces(name, separator);
    NameSlices(name, behind, skip);
    FormAt(name + [EQUALS] + behind, |name|, name, name[skip..], behind, separator, fields);
  }

  /** The first pair of a text: everything up to the first equals sign is its name, separators included, of which
    * every space costs one character at the front unless it is the separator; everything up to the next
    * separator is its value; the scan goes on behind that. */
  lemma FirstPair(name: seq<byte>, value: seq<byte>, rest: seq<byte>, separator: byte, fields: Fields)
    requires EQUALS !in name && separator !in value && separator != EQUALS
    ensures var skip := if separator == SPACE then 0 else multiset(name)[SPACE];
            && skip <= |name|
            && Form(name + [EQUALS] + (value + [separator] + rest), separator, fields)
                 == Form(rest, separator, fields[Decode(name[skip..]) := Decode(value)])
  {
    hide Decode, Form, Valued, Skipped;
    var behind := value + [separator] + rest;
    SkippedSpaces(name, separator);
    NameRead(name, behind, separator, fields);
    ValueSlices(value, separator, rest);
    ValuedAt(Decode(name[Skipped(name, separator)..]), behind, |value|, value, rest, separator, fields);
  }

  /** The last pair, whose value the end of the text ends. */
  lemma LastPair(name: seq<byte>, value: seq<byte>, separator: byte, fields: Fields)
    requires EQUALS !in name && separator !in value && separator != EQUALS
    ensures var skip := if separator == SPACE then 0 else multiset(name)[SPACE];
            && skip <= |name|
            && Form(name + [EQUALS] + value, separator, fields) == fields[Decode(name[skip..]) := Decode(value)]
  {
    hide Decode, Form, Valued, Skipped;
    SkippedSpaces(name, separator);
    NameRead(name, value, separator, fields);
    ValuedLast(Decode(name[Skipped(name, separator)..]), value, separator, fields);
  }

  /** With an equals sign for separator no name ever ends. */
  lemma EqualsSeparates(s: seq<byte>, fields: Fields)
    ensures Form(s, EQUALS, fields) == fields
  {
  }
}
