/** Percent decoding in place, and url-encoded forms (section 2.1 of RFC 3986 and the form
  * encoding of HTML). */
module FormDecode {
  import opened Protocol
  import opened Seqs

  const PERCENT: byte := 37
  const PLUS: byte := 43
  const SPACE: byte := 32
  const EQUALS: byte := 61
  const AMPERSAND: byte := 38
  const SEMICOLON: byte := 59

  /** `b | 0x20`. */
  function WithBit5(b: byte): byte {
    if b / 32 % 2 == 0 then b + 32 else b
  }

  /** What a character adds as a hexadecimal digit; a stranger adds nothing. */
  function Nibble(b: byte): (n: nat)
    ensures n < 16
  {
    if 97 <= WithBit5(b) <= 102 then WithBit5(b) - 0x57
    else if 48 <= b <= 57 then b % 16
    else 0
  }

  /** The digit at position `i` of an escape; one that is cut off adds nothing. */
  function NibbleAt(s: seq<byte>, i: nat): (n: nat)
    ensures n < 16
  {
    if i < |s| then Nibble(s[i]) else 0
  }

  function Decode(s: seq<byte>): (d: seq<byte>)
    ensures |d| <= |s|
  {
    if s == [] then []
    else if s[0] == PERCENT then
      [NibbleAt(s, 1) * 16 + NibbleAt(s, 2)] + Decode(s[if |s| < 3 then |s| else 3..])
    else [if s[0] == PLUS then SPACE else s[0]] + Decode(s[1..])
  }

  /** How far the first character or escape of `s` reaches. */
  function Step(s: seq<byte>): (n: nat)
    requires s != []
    ensures 1 <= n <= |s|
  {
    if s[0] != PERCENT then 1 else if |s| < 3 then |s| else 3
  }

  function FirstByte(s: seq<byte>): byte
    requires s != []
  {
    if s[0] == PERCENT then NibbleAt(s, 1) * 16 + NibbleAt(s, 2)
    else if s[0] == PLUS then SPACE else s[0]
  }

  lemma DecodeStep(s: seq<byte>)
    requires s != []
    ensures Decode(s) == [FirstByte(s)] + Decode(s[Step(s)..])
  {
  }

  lemma {:induction false} DecodeAdvance(input: seq<byte>, done: seq<byte>, i: nat)
    requires i < |input| && Decode(input) == done + Decode(input[i..])
    ensures i + Step(input[i..]) <= |input|
    ensures Decode(input) == done + [FirstByte(input[i..])] + Decode(input[i + Step(input[i..])..])
  {
    DecodeStep(input[i..]);
    assert input[i..][Step(input[i..])..] == input[i + Step(input[i..])..];
  }

  /** One turn of the decoder: a character or an escape is read at `source` and one byte is
    * written at `destination`, which never lies ahead. */
  method DecodeOne(a: array<byte>, source: nat, destination: nat, left: nat, ghost rest: seq<byte>)
    returns (used: nat)
    requires 0 < left && destination <= source && source + left <= a.Length
    requires rest == a[source..source + left]
    modifies a
    ensures used == Step(rest) && a[destination] == FirstByte(rest)
    ensures forall k :: 0 <= k < a.Length && k != destination ==> a[k] == old(a[k])
  {
    used := 1;
    if a[source] == PERCENT {
      a[destination] := 0;
      if used < left {
        a[destination] := a[destination] + Nibble(a[source + 1]) * 16;
        used := used + 1;
        if used < left {
          a[destination] := a[destination] + Nibble(a[source + 2]);
          used := used + 1;
        }
      }
    } else if a[source] == PLUS {
      a[destination] := SPACE;
    } else {
      a[destination] := a[source];
    }
  }

  /** Only the bytes from `at` to `destination` have changed. */
  predicate Untouched(was: seq<byte>, now: seq<byte>, at: nat, destination: nat) {
    && |was| == |now|
    && (forall k :: 0 <= k < at && k < |was| ==> now[k] == was[k])
    && (forall k :: destination <= k < |was| ==> now[k] == was[k])
  }

  /** `out` has been decoded to the front of the region; the unread input is still in place. */
  predicate Decoding(was: seq<byte>, memory: seq<byte>, at: nat, size: nat, i: nat, destination: nat,
                     input: seq<byte>, out: seq<byte>)
  {
    && |input| == size && i <= size && at + size <= |memory| && destination == at + |out| <= at + i
    && memory[at..destination] == out
    && memory[at + i..at + size] == input[i..]
    && Decode(input) == out + Decode(input[i..])
    && Untouched(was, memory, at, destination)
  }

  lemma OneMore(was: seq<byte>, before: seq<byte>, after: seq<byte>, at: nat, size: nat, i: nat, destination: nat,
                input: seq<byte>, out: seq<byte>)
    requires Decoding(was, before, at, size, i, destination, input, out) && i < size
    requires after == before[destination := FirstByte(input[i..])]
    ensures Decoding(was, after, at, size, i + Step(input[i..]), destination + 1, input, out + [FirstByte(input[i..])])
  {
    hide Decode, Step, FirstByte;
    var used := Step(input[i..]);
    DecodeAdvance(input, out, i);
    OneLonger(before, after, at, destination, FirstByte(input[i..]));
    StillInPlace(before, after, at + i, used, at + size, input[i..]);
    assert input[i..][used..] == input[i + used..];
  }

  lemma OneLonger(before: seq<byte>, after: seq<byte>, at: nat, destination: nat, b: byte)
    requires at <= destination < |before| && after == before[destination := b]
    ensures after[at..destination + 1] == before[at..destination] + [b]
  {
  }

  lemma StillInPlace(before: seq<byte>, after: seq<byte>, from: nat, used: nat, to: nat, rest: seq<byte>)
    requires from + used <= to <= |before| == |after| && before[from..to] == rest
    requires forall k :: from + used <= k < to ==> after[k] == before[k]
    ensures after[from + used..to] == rest[used..]
  {
  }

  /** One turn of the decoder's loop. */
  method DecodeNext(a: array<byte>, ghost was: seq<byte>, at: nat, size: nat, i: nat, destination: nat,
                    ghost input: seq<byte>, ghost out: seq<byte>)
    returns (used: nat, ghost more: seq<byte>)
    requires Decoding(was, a[..], at, size, i, destination, input, out) && i < size
    modifies a
    ensures used > 0 && Decoding(was, a[..], at, size, i + used, destination + 1, input, more)
  {
    hide Decode, Untouched;
    ghost var before := a[..];
    assert a[at + i..at + size] == before[at + i..at + size];
    used := DecodeOne(a, at + i, destination, size - i, input[i..]);
    assert a[..] == before[destination := FirstByte(input[i..])];
    more := out + [FirstByte(input[i..])];
    OneMore(was, before, a[..], at, size, i, destination, input, out);
  }

  /** The decoder with source and destination in one array, the source starting where the
    * destination does: what is read has not been overwritten yet. */
  method DecodeInPlace(a: array<byte>, at: nat, size: nat) returns (count: nat)
    requires at + size <= a.Length
    modifies a
    ensures count <= size && a[..][at..at + count] == Decode(old(a[..])[at..at + size])
    ensures Untouched(old(a[..]), a[..], at, at + count)
  {
    ghost var was, out: seq<byte> := a[..], [];
    ghost var input := was[at..at + size];
    var i, destination := 0, at;
    DecodingStarts(was, at, size);
    while i < size
      invariant Decoding(was, a[..], at, size, i, destination, input, out)
    {
      var used;
      used, out := DecodeNext(a, was, at, size, i, destination, input, out);
      destination := destination + 1;
      i := i + used;
    }
    DecodingEnds(was, a[..], at, size, destination, input, out);
    count := destination - at;
  }

  lemma Sliced(a: array<byte>, i: nat, j: nat)
    requires i <= j <= a.Length
    ensures a[i..j] == a[..][i..j]
  {
  }

  lemma DecodingStarts(was: seq<byte>, at: nat, size: nat)
    requires at + size <= |was|
    ensures Decoding(was, was, at, size, 0, at, was[at..at + size], [])
  {
    var input := was[at..at + size];
    assert input[0..] == input && [] + Decode(input) == Decode(input);
  }

  lemma DecodingEnds(was: seq<byte>, memory: seq<byte>, at: nat, size: nat, destination: nat,
                     input: seq<byte>, out: seq<byte>)
    requires Decoding(was, memory, at, size, size, destination, input, out)
    ensures memory[at..destination] == Decode(input) && destination <= at + size
  {
    assert input[size..] == [] && out + [] == out;
  }

  // ---- Escaping ------------------------------------------------------------------------------------

  /** The characters the stream encoder's URL table replaces. */
  const TABLE: set<byte> := {33, 93, 91, 35, 63, 47, 44, 36, 43, 61, 38, 64, 58, 59, 41, 40, 39, 42, 60, 62, 34, 32, 37}

  function HexDigit(n: nat): byte
    requires n < 16
  {
    if n < 10 then 48 + n else 55 + n
  }

  /** A character of the table becomes a percent sign and its two hexadecimal digits. */
  function EscapeByte(b: byte): (s: seq<byte>)
    ensures s != []
  {
    if b in TABLE then [PERCENT, HexDigit(b as int / 16), HexDigit(b as int % 16)] else [b]
  }

  function Escape(s: seq<byte>): seq<byte> {
    if s == [] then [] else EscapeByte(s[0]) + Escape(s[1..])
  }

  lemma NibbleOfDigit(n: nat)
    requires n < 16
    ensures Nibble(HexDigit(n)) == n
  {
  }

  lemma EscapeByteDecodes(b: byte, rest: seq<byte>)
    ensures var s := EscapeByte(b) + rest;
            Step(s) == |EscapeByte(b)| && FirstByte(s) == b && s[|EscapeByte(b)|..] == rest
  {
    NibbleOfDigit(b as int / 16);
    NibbleOfDigit(b as int % 16);
  }

  /** ESCAPE, THEN DECODE: any byte string is recovered. */
  lemma {:induction false} EscapeDecode(s: seq<byte>)
    ensures Decode(Escape(s)) == s
  {
    if s != [] {
      EscapeByteDecodes(s[0], Escape(s[1..]));
      DecodeStep(Escape(s));
      EscapeDecode(s[1..]);
    }
  }

  /** Nothing of the table except percent signs is left in escaped text. */
  lemma {:induction false} EscapeClean(s: seq<byte>, c: byte)
    requires c in TABLE && c != PERCENT
    ensures c !in Escape(s)
  {
    if s != [] {
      EscapeClean(s[1..], c);
      forall n: nat | n < 16 ensures HexDigit(n) !in TABLE {
      }
      assert c !in EscapeByte(s[0]);
    }
  }

  // ---- Forms ---------------------------------------------------------------------------------------

  type Fields = map<seq<byte>, seq<byte>>

  datatype Pair = Pair(name: seq<byte>, value: seq<byte>)

  /** Index of the first `c` in `s`; the length if there is none. */
  function IndexOf(s: seq<byte>, c: byte): (i: nat)
    ensures i <= |s| && (i < |s| ==> s[i] == c)
    ensures c !in s[..i]
  {
    if s == [] || s[0] == c then 0 else
      var i := IndexOf(s[1..], c);
      assert s[..i + 1] == [s[0]] + s[1..][..i];
      1 + i
  }

  /** The spaces in a name: the scanner skips one character of the name for each. */
  function Spaces(s: seq<byte>): (n: nat)
    ensures n <= |s|
  {
    if s == [] then 0 else Spaces(s[..|s| - 1]) + (if s[|s| - 1] == SPACE then 1 else 0)
  }

  /** How much of a name its spaces cut off at the front; a space that separates cuts off nothing. */
  function Skipped(lead: seq<byte>, separator: byte): (n: nat)
    ensures n <= |lead|
  {
    if separator == SPACE then 0 else Spaces(lead)
  }

  /** What a form text adds to the fields: names up to an equals sign, values up to a separator.
    * A separator inside a name does not end it, and a name without an equals sign is dropped.  If
    * the equals sign is the separator it ends no name. */
  function Form(s: seq<byte>, separator: byte, fields: Fields): Fields
    decreases |s|, 0
  {
    var e := IndexOf(s, EQUALS);
    if e == |s| || separator == EQUALS then fields
    else Valued(Decode(s[Skipped(s[..e], separator)..e]), s[e + 1..], separator, fields)
  }

  /** The text behind the equals sign of `name`. */
  function Valued(name: seq<byte>, s: seq<byte>, separator: byte, fields: Fields): Fields
    decreases |s|, 1
  {
    var v := IndexOf(s, separator);
    var more := fields[name := Decode(s[..v])];
    if v == |s| then more else Form(s[v + 1..], separator, more)
  }

  function Print(pairs: seq<Pair>, separator: byte): seq<byte> {
    if pairs == [] then []
    else
      var first := Escape(pairs[0].name) + [EQUALS] + Escape(pairs[0].value);
      if |pairs| == 1 then first else first + [separator] + Print(pairs[1..], separator)
  }

  /** The last of several pairs with the same name counts. */
  function Enter(fields: Fields, pairs: seq<Pair>): Fields
    decreases |pairs|
  {
    if pairs == [] then fields else Enter(fields[pairs[0].name := pairs[0].value], pairs[1..])
  }

  lemma {:induction false} NoSpaces(s: seq<byte>)
    requires SPACE !in s
    ensures Spaces(s) == 0
  {
    if s != [] {
      NoSpaces(s[..|s| - 1]);
    }
  }

  /** A name without equals sign or space, the sign, a value without separator, and the rest. */
  lemma {:induction false} FormUnfold(n: seq<byte>, v: seq<byte>, rest: seq<byte>, separator: byte, fields: Fields)
    requires EQUALS !in n && SPACE !in n && separator !in v && separator != EQUALS
    requires rest == [] || rest[0] == separator
    ensures var more := fields[Decode(n) := Decode(v)];
            Form(n + [EQUALS] + v + rest, separator, fields)
              == if rest == [] then more else Form(rest[1..], separator, more)
  {
    Regroup(n + [EQUALS], v, rest);
    NameThen(n, v + rest, separator, fields);
    ValueThen(Decode(n), v, rest, separator, fields);
  }

  lemma NameThen(n: seq<byte>, tail: seq<byte>, separator: byte, fields: Fields)
    requires EQUALS !in n && SPACE !in n && separator != EQUALS
    ensures Form(n + [EQUALS] + tail, separator, fields) == Valued(Decode(n), tail, separator, fields)
  {
    NoSpaces(n);
    Parts(n, EQUALS, tail);
    FormAt(n + [EQUALS] + tail, |n|, n, n, tail, separator, fields);
  }

  lemma ValueThen(name: seq<byte>, v: seq<byte>, rest: seq<byte>, separator: byte, fields: Fields)
    requires separator !in v && (rest == [] || rest[0] == separator)
    ensures var more := fields[name := Decode(v)];
            Valued(name, v + rest, separator, fields) == if rest == [] then more else Form(rest[1..], separator, more)
  {
    if rest == [] {
      assert v + rest == v;
      ValuedLast(name, v, separator, fields);
    } else {
      assert v + rest == v + [separator] + rest[1..];
      Parts(v, separator, rest[1..]);
      ValuedAt(name, v + [separator] + rest[1..], |v|, v, rest[1..], separator, fields);
    }
  }

  lemma Parts(a: seq<byte>, c: byte, b: seq<byte>)
    ensures var s := a + [c] + b;
            s[..|a|] == a && s[0..|a|] == a && s[|a|] == c && s[|a| + 1..] == b
  {
  }

  /** One pair at the front of a form text. */
  lemma FormPair(name: seq<byte>, value: seq<byte>, rest: seq<byte>, separator: byte, fields: Fields)
    requires separator == AMPERSAND || separator == SEMICOLON
    requires rest == [] || rest[0] == separator
    ensures var s := Escape(name) + [EQUALS] + Escape(value) + rest;
            var more := fields[name := value];
            Form(s, separator, fields) == if rest == [] then more else Form(rest[1..], separator, more)
  {
    EscapeClean(name, EQUALS);
    EscapeClean(name, SPACE);
    EscapeClean(value, separator);
    EscapeDecode(name);
    EscapeDecode(value);
    FormUnfold(Escape(name), Escape(value), rest, separator, fields);
  }

  /** PRINT, THEN SCAN: any list of name/value pairs is recovered from its escaped, joined form, the
    * last duplicate winning. */
  lemma {:induction false} FormRoundTrip(pairs: seq<Pair>, separator: byte, fields: Fields)
    requires separator == AMPERSAND || separator == SEMICOLON
    ensures Form(Print(pairs, separator), separator, fields) == Enter(fields, pairs)
  {
    if pairs != [] {
      PrintSplit(pairs, separator);
      FormPair(pairs[0].name, pairs[0].value, PrintRest(pairs, separator), separator, fields);
      if |pairs| > 1 {
        FormRoundTrip(pairs[1..], separator, fields[pairs[0].name := pairs[0].value]);
      }
    }
  }

  /** What follows the first printed pair. */
  function PrintRest(pairs: seq<Pair>, separator: byte): (r: seq<byte>)
    requires pairs != []
    ensures |pairs| > 1 ==> r != [] && r[0] == separator && r[1..] == Print(pairs[1..], separator)
  {
    if |pairs| == 1 then [] else [separator] + Print(pairs[1..], separator)
  }

  lemma {:induction false} PrintSplit(pairs: seq<Pair>, separator: byte)
    requires pairs != []
    ensures Print(pairs, separator)
         == Escape(pairs[0].name) + [EQUALS] + Escape(pairs[0].value) + PrintRest(pairs, separator)
  {
    var first := Escape(pairs[0].name) + [EQUALS] + Escape(pairs[0].value);
    if |pairs| == 1 {
      assert first + [] == first;
    } else {
      assert first + [separator] + Print(pairs[1..], separator) == first + ([separator] + Print(pairs[1..], separator));
    }
  }

  // ---- The scanner -----------------------------------------------------------------------------------

  lemma {:induction false} IndexOfAt(s: seq<byte>, c: byte, k: nat)
    requires k <= |s| && c !in s[..k] && (k < |s| ==> s[k] == c)
    ensures IndexOf(s, c) == k
  {
    if k > 0 {
      assert s[0] == s[..k][0];
      forall j | 0 <= j < k - 1 ensures s[1..][j] != c {
        assert s[1..][j] == s[..k][j + 1];
      }
      IndexOfAt(s[1..], c, k - 1);
    }
  }

  /** Reading a name that began at `g`, spaces skipped so far. */
  predicate InName(data: seq<byte>, g: nat, i: nat, nameStart: nat, separator: byte) {
    && g <= i <= |data| && (separator != EQUALS ==> EQUALS !in data[g..i])
    && nameStart == g + Skipped(data[g..i], separator)
  }

  lemma NameGoesOn(data: seq<byte>, g: nat, i: nat, nameStart: nat, separator: byte)
    requires InName(data, g, i, nameStart, separator) && i < |data| && (data[i] != EQUALS || separator == EQUALS)
    ensures InName(data, g, i + 1,
                   if data[i] == SPACE && separator != SPACE then nameStart + 1 else nameStart, separator)
  {
    assert data[g..i + 1][..i - g] == data[g..i];
    assert data[g..i + 1] == data[g..i] + [data[i]];
  }

  lemma SuffixSlices(data: seq<byte>, g: nat, j: nat, i: nat)
    requires g <= j <= i <= |data|
    ensures data[g..][..i - g] == data[g..i] && data[g..][j - g..i - g] == data[j..i]
    ensures i < |data| ==> data[g..][i - g] == data[i] && data[g..][i - g + 1..] == data[i + 1..]
  {
  }

  /** A text whose first equals sign is at `k`, where `lead`, the name and `rest` are its parts. */
  lemma FormAt(s: seq<byte>, k: nat, lead: seq<byte>, name: seq<byte>, rest: seq<byte>, separator: byte, fields: Fields)
    requires k < |s| && s[..k] == lead && EQUALS !in lead && s[k] == EQUALS && separator != EQUALS
    requires s[Skipped(lead, separator)..k] == name && s[k + 1..] == rest
    ensures Form(s, separator, fields) == Valued(Decode(name), rest, separator, fields)
  {
    IndexOfAt(s, EQUALS, k);
  }

  /** A value that a separator ends. */
  lemma ValuedAt(name: seq<byte>, s: seq<byte>, k: nat, value: seq<byte>, rest: seq<byte>,
                 separator: byte, fields: Fields)
    requires k < |s| && s[..k] == value && separator !in value && s[k] == separator && s[k + 1..] == rest
    ensures Valued(name, s, separator, fields) == Form(rest, separator, fields[name := Decode(value)])
  {
    IndexOfAt(s, separator, k);
  }

  /** A value that the end of the text ends. */
  lemma ValuedLast(name: seq<byte>, s: seq<byte>, separator: byte, fields: Fields)
    requires separator !in s
    ensures Valued(name, s, separator, fields) == fields[name := Decode(s)]
  {
    assert s[..|s|] == s;
    IndexOfAt(s, separator, |s|);
  }

  lemma NameEnds(data: seq<byte>, g: nat, i: nat, nameStart: nat, separator: byte, fields: Fields)
    requires InName(data, g, i, nameStart, separator) && i < |data| && data[i] == EQUALS && separator != EQUALS
    ensures nameStart <= i
    ensures Form(data[g..], separator, fields)
         == Valued(Decode(data[nameStart..i]), data[i + 1..], separator, fields)
  {
    SuffixSlices(data, g, nameStart, i);
    FormAt(data[g..], i - g, data[g..i], data[nameStart..i], data[i + 1..], separator, fields);
  }

  lemma NameUnfinished(data: seq<byte>, g: nat, nameStart: nat, separator: byte, fields: Fields)
    requires InName(data, g, |data|, nameStart, separator)
    ensures Form(data[g..], separator, fields) == fields
  {
    if separator != EQUALS {
      var s := data[g..];
      assert s[..|s|] == s == data[g..|data|];
      IndexOfAt(s, EQUALS, |s|);
    }
  }

  lemma ValueEnds(data: seq<byte>, v: nat, i: nat, name: seq<byte>, separator: byte, fields: Fields)
    requires v <= i <= |data| && separator !in data[v..i] && (i < |data| ==> data[i] == separator)
    ensures var more := fields[name := Decode(data[v..i])];
            Valued(name, data[v..], separator, fields)
              == if i == |data| then more else Form(data[i + 1..], separator, more)
  {
    if i == |data| {
      assert data[v..] == data[v..i];
      ValuedLast(name, data[v..], separator, fields);
    } else {
      SuffixSlices(data, v, v, i);
      ValuedAt(name, data[v..], i - v, data[v..i], data[i + 1..], separator, fields);
    }
  }

  /** The scanner's state while it reads a name, for a text with the fields `expected`. */
  predicate NameState(data: seq<byte>, memory: seq<byte>, g: nat, i: nat, nameStart: nat,
                      separator: byte, fields: Fields, expected: Fields)
  {
    && InName(data, g, i, nameStart, separator) && |memory| == |data| && memory[g..] == data[g..]
    && expected == Form(data[g..], separator, fields)
  }

  /** The scanner's state while it reads a value; the decoded name stands in the memory. */
  predicate ValueState(data: seq<byte>, memory: seq<byte>, i: nat, nameStart: nat, nameSize: nat, valueStart: nat,
                       separator: byte, fields: Fields, expected: Fields)
  {
    && nameStart + nameSize < valueStart <= i <= |data| == |memory|
    && separator !in data[valueStart..i] && memory[valueStart..] == data[valueStart..]
    && expected == Valued(memory[nameStart..nameStart + nameSize], data[valueStart..], separator, fields)
  }

  /** At the equals sign. */
  method EndName(buffer: array<byte>, ghost data: seq<byte>, ghost g: nat, i: nat, nameStart: nat,
                 ghost separator: byte, ghost fields: Fields, ghost expected: Fields)
    returns (nameSize: nat)
    requires NameState(data, buffer[..], g, i, nameStart, separator, fields, expected)
    requires i < buffer.Length && data[i] == EQUALS && separator != EQUALS
    modifies buffer
    ensures ValueState(data, buffer[..], i + 1, nameStart, nameSize, i + 1, separator, fields, expected)
  {
    ghost var before := buffer[..];
    nameSize := DecodeInPlace(buffer, nameStart, i - nameStart);
    NameDone(data, before, buffer[..], g, i, nameStart, nameSize, separator, fields, expected);
  }

  lemma NameDone(data: seq<byte>, before: seq<byte>, after: seq<byte>, g: nat, i: nat, nameStart: nat, nameSize: nat,
                 separator: byte, fields: Fields, expected: Fields)
    requires NameState(data, before, g, i, nameStart, separator, fields, expected)
    requires i < |data| && data[i] == EQUALS && separator != EQUALS && nameStart + nameSize <= i
    requires Untouched(before, after, nameStart, nameStart + nameSize)
    requires after[nameStart..nameStart + nameSize] == Decode(before[nameStart..i])
    ensures ValueState(data, after, i + 1, nameStart, nameSize, i + 1, separator, fields, expected)
  {
    NameEnds(data, g, i, nameStart, separator, fields);
    SameSlice(before, data, g, nameStart, i);
    LaterSuffix(before, data, g, i);
    UntouchedLater(before, after, nameStart, nameStart + nameSize, i + 1);
    ValueBegins(data, after, i, nameStart, nameSize, separator, fields, expected);
  }

  lemma UntouchedLater(was: seq<byte>, now: seq<byte>, at: nat, destination: nat, i: nat)
    requires Untouched(was, now, at, destination) && destination <= i <= |was|
    ensures now[i..] == was[i..]
  {
  }

  lemma UntouchedBefore(was: seq<byte>, now: seq<byte>, at: nat, destination: nat, i: nat, j: nat)
    requires Untouched(was, now, at, destination) && i <= j <= at <= |was|
    ensures now[i..j] == was[i..j]
  {
  }

  lemma SameSlice(a: seq<byte>, b: seq<byte>, from: nat, i: nat, j: nat)
    requires from <= i <= j <= |a| == |b| && a[from..] == b[from..]
    ensures a[i..j] == b[i..j]
  {
    SuffixSlice(a, from, i, j);
    SuffixSlice(b, from, i, j);
  }

  lemma SuffixSlice(a: seq<byte>, from: nat, i: nat, j: nat)
    requires from <= i <= j <= |a|
    ensures a[i..j] == a[from..][i - from..j - from]
  {
  }

  lemma ValueBegins(data: seq<byte>, memory: seq<byte>, i: nat, nameStart: nat, nameSize: nat,
                    separator: byte, fields: Fields, expected: Fields)
    requires i < |data| == |memory| && nameStart + nameSize <= i && memory[i + 1..] == data[i + 1..]
    requires expected == Valued(memory[nameStart..nameStart + nameSize], data[i + 1..], separator, fields)
    ensures ValueState(data, memory, i + 1, nameStart, nameSize, i + 1, separator, fields, expected)
  {
    assert data[i + 1..i + 1] == [];
  }

  /** At a separator or at the end of the text. */
  method EndValue(buffer: array<byte>, ghost data: seq<byte>, i: nat, nameStart: nat, nameSize: nat, valueStart: nat,
                  separator: byte, fields: Fields, ghost expected: Fields)
    returns (output: Fields)
    requires ValueState(data, buffer[..], i, nameStart, nameSize, valueStart, separator, fields, expected)
    requires i < |data| ==> data[i] == separator
    modifies buffer
    ensures if i == |data| then expected == output
            else NameState(data, buffer[..], i + 1, i + 1, i + 1, separator, output, expected)
  {
    ghost var before := buffer[..];
    var size := DecodeInPlace(buffer, valueStart, i - valueStart);
    output := fields[buffer[..][nameStart..nameStart + nameSize] := buffer[..][valueStart..valueStart + size]];
    ValueDone(data, before, buffer[..], i, nameStart, nameSize, valueStart, size, separator, fields, output, expected);
  }

  lemma ValueDone(data: seq<byte>, before: seq<byte>, after: seq<byte>, i: nat, nameStart: nat, nameSize: nat,
                  valueStart: nat, size: nat, separator: byte, fields: Fields, output: Fields, expected: Fields)
    requires ValueState(data, before, i, nameStart, nameSize, valueStart, separator, fields, expected)
    requires (i < |data| ==> data[i] == separator) && valueStart + size <= i
    requires Untouched(before, after, valueStart, valueStart + size)
    requires after[valueStart..valueStart + size] == Decode(before[valueStart..i])
    requires output == fields[after[nameStart..nameStart + nameSize] := after[valueStart..valueStart + size]]
    ensures if i == |data| then expected == output
            else NameState(data, after, i + 1, i + 1, i + 1, separator, output, expected)
  {
    hide Decode, Form, Valued;
    SameSlice(before, data, valueStart, valueStart, i);
    ValueEnds(data, valueStart, i, before[nameStart..nameStart + nameSize], separator, fields);
    UntouchedBefore(before, after, valueStart, valueStart + size, nameStart, nameStart + nameSize);
    if i < |data| {
      LaterSuffix(before, data, valueStart, i);
      UntouchedLater(before, after, valueStart, valueStart + size, i + 1);
      NextName(data, after, i, separator, output, expected);
    }
  }

  lemma LaterSuffix(a: seq<byte>, b: seq<byte>, from: nat, i: nat)
    requires from <= i < |a| == |b| && a[from..] == b[from..]
    ensures a[i + 1..] == b[i + 1..]
  {
    assert a[from..][i + 1 - from..] == a[i + 1..];
  }

  lemma NextName(data: seq<byte>, memory: seq<byte>, i: nat, separator: byte, fields: Fields, expected: Fields)
    requires i < |data| == |memory| && memory[i + 1..] == data[i + 1..]
    requires expected == Form(data[i + 1..], separator, fields)
    ensures NameState(data, memory, i + 1, i + 1, i + 1, separator, fields, expected)
  {
    assert data[i + 1..i + 1] == [];
  }

  lemma ValueGoesOn(data: seq<byte>, memory: seq<byte>, i: nat, nameStart: nat, nameSize: nat, valueStart: nat,
                    separator: byte, fields: Fields, expected: Fields)
    requires ValueState(data, memory, i, nameStart, nameSize, valueStart, separator, fields, expected)
    requires i < |data| && memory[i] != separator
    ensures ValueState(data, memory, i + 1, nameStart, nameSize, valueStart, separator, fields, expected)
    ensures memory[i] == data[i]
  {
    assert memory[valueStart..][i - valueStart] == data[valueStart..][i - valueStart];
    assert data[valueStart..i + 1] == data[valueStart..i] + [data[i]];
  }

  lemma SameCharacter(data: seq<byte>, memory: seq<byte>, from: nat, i: nat)
    requires from <= i < |data| == |memory| && memory[from..] == data[from..]
    ensures memory[i] == data[i]
  {
    assert memory[from..][i - from] == data[from..][i - from];
  }

  lemma NameBegins(data: seq<byte>, separator: byte, fields: Fields)
    ensures NameState(data, data, 0, 0, 0, separator, fields, Form(data, separator, fields))
  {
    assert data[0..] == data && data[0..0] == [];
  }

  /** The scanner's state at `i`, or behind the end when it is done. */
  predicate ScanState(data: seq<byte>, memory: seq<byte>, g: nat, i: nat, nameStart: nat, nameSize: nat,
                      valueStart: nat, inValue: bool, separator: byte, fields: Fields, expected: Fields)
  {
    if i > |data| then i == |data| + 1 && !inValue && expected == fields
    else if inValue then ValueState(data, memory, i, nameStart, nameSize, valueStart, separator, fields, expected)
    else NameState(data, memory, g, i, nameStart, separator, fields, expected)
  }

  /** The character at `i` has not been touched yet. */
  lemma StillThere(data: seq<byte>, memory: seq<byte>, g: nat, i: nat, nameStart: nat, nameSize: nat,
                   valueStart: nat, inValue: bool, separator: byte, fields: Fields, expected: Fields)
    requires ScanState(data, memory, g, i, nameStart, nameSize, valueStart, inValue, separator, fields, expected)
    requires i < |data|
    ensures |memory| == |data| && memory[i] == data[i]
  {
    SameCharacter(data, memory, if inValue then valueStart else g, i);
  }

  /** One character while a name is read. */
  method ScanName(buffer: array<byte>, ghost data: seq<byte>, ghost g: nat, i: nat, nameStart: nat,
                  separator: byte, ghost fields: Fields, ghost expected: Fields)
    returns (start: nat, size: nat, found: bool)
    requires NameState(data, buffer[..], g, i, nameStart, separator, fields, expected)
    requires i < |data| && buffer[i] == data[i]
    modifies buffer
    ensures ScanState(data, buffer[..], g, i + 1, start, size, i + 1, found, separator, fields, expected)
  {
    start, size, found := nameStart, 0, false;
    if buffer[i] != separator && buffer[i] == EQUALS {
      size := EndName(buffer, data, g, i, nameStart, separator, fields, expected);
      found := true;
    } else {
      NameGoesOn(data, g, i, nameStart, separator);
      if buffer[i] != separator && buffer[i] == SPACE {
        start := nameStart + 1;
      }
    }
  }

  /** The scanner over a private copy of the text: names and values are decoded where they stand. */
  method DecodeUrlEncoded(data: seq<byte>, fields: Fields, separator: byte) returns (output: Fields)
    ensures output == Form(data, separator, fields)
  {
    output := fields;
    var buffer := new byte[|data|](k requires 0 <= k < |data| => data[k]);
    var nameStart: nat, nameSize: nat, valueStart: nat, inValue := 0, 0, 0, false;
    ghost var g: nat, expected := 0, Form(data, separator, fields);
    assert buffer[..] == data;
    NameBegins(data, separator, fields);
    var i: nat := 0;
    while i <= |data|
      invariant buffer.Length == |data|
      invariant ScanState(data, buffer[..], g, i, nameStart, nameSize, valueStart, inValue, separator, output, expected)
    {
      if i < |data| {
        StillThere(data, buffer[..], g, i, nameStart, nameSize, valueStart, inValue, separator, output, expected);
      }
      if inValue {
        if i == |data| || buffer[i] == separator {
          output := EndValue(buffer, data, i, nameStart, nameSize, valueStart, separator, output, expected);
          nameStart, inValue := i + 1, false;
          g := i + 1;
        } else {
          ValueGoesOn(data, buffer[..], i, nameStart, nameSize, valueStart, separator, output, expected);
        }
      } else if i == |data| {
        NameUnfinished(data, g, nameStart, separator, output);
      } else {
        nameStart, nameSize, inValue := ScanName(buffer, data, g, i, nameStart, separator, output, expected);
        valueStart := i + 1;
      }
      i := i + 1;
    }
  }
}
