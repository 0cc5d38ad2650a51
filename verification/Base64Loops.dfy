/** The encoder and decoder loops themselves. */
module Base64Loops {
  import opened Protocol
  import opened Base64

  /** The bytes of a group, the missing ones read as zero. */
  function GroupBits(b: seq<byte>): nat
    requires 1 <= |b| <= 3
  {
    FromBytes(b[0], if |b| > 1 then b[1] else 0, if |b| > 2 then b[2] else 0)
  }

  function ByteOr0(data: seq<byte>, i: nat): byte {
    if i < |data| then data[i] else 0
  }

  /** The inner loop of the encoder: shift up to three bytes in, and move the padding mark by six
    * bits for each one missing. */
  method FillBuffer(data: seq<byte>, from: nat) returns (start: nat, buffer: nat, padded: int)
    requires from < |data|
    ensures start == if from + 3 <= |data| then from + 3 else |data|
    ensures buffer == GroupBits(data[from..start])
    ensures padded == -6 + 6 * (3 - (start - from))
  {
    start, buffer, padded := from, 0, -6;
    var bitPos := 16;
    while bitPos != -8
      invariant bitPos == 16 || bitPos == 8 || bitPos == 0 || bitPos == -8
      invariant bitPos == 16 ==> start == from && padded == -6 && buffer == 0
      invariant bitPos == 8 ==> start == from + 1 && padded == -6 && buffer == FromBytes(data[from], 0, 0)
      invariant bitPos == 0 ==> start == (if from + 2 <= |data| then from + 2 else |data|)
                                && padded == -6 + 6 * (2 - (start - from))
                                && buffer == FromBytes(data[from], ByteOr0(data, from + 1), 0)
      invariant bitPos == -8 ==> start == (if from + 3 <= |data| then from + 3 else |data|)
                                 && padded == -6 + 6 * (3 - (start - from))
                                 && buffer == FromBytes(data[from], ByteOr0(data, from + 1), ByteOr0(data, from + 2))
      decreases bitPos + 8
    {
      if start != |data| {
        buffer := buffer + ShiftLeft(data[start], bitPos);
        start := start + 1;
      } else {
        padded := padded + 6;
      }
      bitPos := bitPos - 8;
    }
  }

  /** The padding mark when `b` is the group and `bitPos` is next: it waits for its position. */
  function PaddingMark(b: seq<byte>, bitPos: int): int {
    var first := -6 + 6 * (3 - |b|);
    if bitPos < first then bitPos else first
  }

  /** The next character of a group: padding once the mark is reached, a symbol before. */
  lemma GroupCharacter(b: seq<byte>, bitPos: int, k: nat)
    requires 1 <= |b| <= 3 && k < 4 && bitPos == 18 - 6 * k
    ensures EncodeGroup(b)[k]
         == if PaddingMark(b, bitPos) == bitPos then '=' else Symbol(SextetAt(GroupBits(b), bitPos))
    ensures PaddingMark(b, bitPos - 6)
         == if PaddingMark(b, bitPos) == bitPos then PaddingMark(b, bitPos) - 6 else PaddingMark(b, bitPos)
    ensures EncodeGroup(b)[..k] + [EncodeGroup(b)[k]] == EncodeGroup(b)[..k + 1]
  {
  }

  /** Between groups: what is out and what the rest gives make up the encoding. */
  ghost predicate Between(data: seq<byte>, start: nat, out: string) {
    start <= |data| && Encode(data) == out + Encode(data[start..])
  }

  /** Inside a group: `k` of its characters are out. */
  ghost predicate Inside(data: seq<byte>, start: nat, out: string, group: seq<byte>, done: string, k: nat) {
    && start <= |data| && 1 <= |group| <= 3 && k < 4
    && Encode(data) == done + EncodeGroup(group) + Encode(data[start..])
    && out == done + EncodeGroup(group)[..k]
  }

  ghost predicate Loaded(group: seq<byte>, buffer: nat, padded: int, bitPos: int) {
    1 <= |group| <= 3 && buffer == GroupBits(group) && padded == PaddingMark(group, bitPos)
  }

  method Base64Encode(data: seq<byte>) returns (out: string)
    ensures out == Encode(data)
  {
    var start, buffer, bitPos, padded := 0, 0, -6, 0;
    out := "";
    ghost var group: seq<byte>, done, k := [], "", 4;
    assert Between(data, start, out) by {
      assert data[start..] == data && "" + Encode(data) == Encode(data);
    }
    while start != |data| || bitPos > -6
      invariant start <= |data| && 1 <= k <= 4 && bitPos == 18 - 6 * k
      invariant k == 4 ==> Between(data, start, out)
      invariant k < 4 ==> Inside(data, start, out, group, done, k) && Loaded(group, buffer, padded, bitPos)
      decreases |data| - start, bitPos
    {
      if bitPos == -6 {
        done, k := out, 0;
        start, buffer, padded, group := StartGroup(data, start, out);
        bitPos := 18;
      }
      var c;
      c, padded := NextCharacter(buffer, bitPos, padded, group, k);
      CharacterOut(data, start, out, group, done, k, c);
      out := out + [c];
      bitPos, k := bitPos - 6, k + 1;
    }
    assert data[start..] == [] && out + "" == out;
  }

  method StartGroup(data: seq<byte>, from: nat, ghost out: string)
    returns (start: nat, buffer: nat, padded: int, ghost group: seq<byte>)
    requires from < |data| && Between(data, from, out)
    ensures from < start && Inside(data, start, out, group, out, 0) && Loaded(group, buffer, padded, 18)
  {
    start, buffer, padded := FillBuffer(data, from);
    group := data[from..start];
    NextGroup(data, from, start, out);
    assert out + EncodeGroup(group)[..0] == out;
  }

  method NextCharacter(buffer: nat, bitPos: int, padded: int, ghost group: seq<byte>, ghost k: nat)
    returns (c: char, mark: int)
    requires k < 4 && bitPos == 18 - 6 * k && Loaded(group, buffer, padded, bitPos)
    ensures c == EncodeGroup(group)[k] && Loaded(group, buffer, mark, bitPos - 6)
  {
    GroupCharacter(group, bitPos, k);
    if padded == bitPos {
      return '=', padded - 6;
    } else {
      return Symbol(SextetAt(buffer, bitPos)), padded;
    }
  }

  lemma CharacterOut(data: seq<byte>, start: nat, out: string, group: seq<byte>, done: string, k: nat, c: char)
    requires Inside(data, start, out, group, done, k) && c == EncodeGroup(group)[k]
    ensures if k < 3 then Inside(data, start, out + [c], group, done, k + 1) else Between(data, start, out + [c])
  {
    var code := EncodeGroup(group);
    assert done + code[..k] + [code[k]] == done + code[..k + 1] && code[..4] == code;
  }

  lemma NextGroup(data: seq<byte>, from: nat, start: nat, out: string)
    requires from < |data| && start == if from + 3 <= |data| then from + 3 else |data|
    ensures Encode(data[from..]) == EncodeGroup(data[from..start]) + Encode(data[start..])
    ensures out + Encode(data[from..]) == out + EncodeGroup(data[from..start]) + Encode(data[start..])
  {
    var rest := data[from..];
    if from + 3 <= |data| {
      EncodeCons(rest[..3], rest[3..]);
      assert rest == rest[..3] + rest[3..];
      assert rest[..3] == data[from..start] && rest[3..] == data[start..];
    } else {
      assert rest == data[from..start] && data[start..] == [];
      assert EncodeGroup(rest) + "" == EncodeGroup(rest);
    }
  }

  // ---- Decoding ----------------------------------------------------------------------------------

  /** The inner loop of the decoder: up to four characters are shifted in; padding ends it. */
  method CollectGroup(text: string, from: nat) returns (group: Group, start: nat)
    requires from <= |text|
    ensures group == Collect(text[from..], 18, 0) && from <= start <= |text|
    ensures group.Full? ==> start == from + 4
    ensures group.Padded? ==> start > from
  {
    ghost var expected := Collect(text[from..], 18, 0);
    var buffer: nat, bitPos := 0, 18;
    start, group := from, Broken;
    while bitPos != -6 && start != |text|
      invariant bitPos == -6 || Wanted(bitPos) > 0
      invariant start <= |text| && start == from + 4 - Wanted(bitPos)
      invariant expected == Collect(text[start..], bitPos, buffer)
      decreases bitPos + 6
    {
      var more;
      more, group, bitPos, buffer := ShiftIn(text, start, bitPos, buffer);
      start := start + 1;
      if !more {
        return;
      }
    }
    group := if bitPos == -6 then Full(buffer) else Broken;
  }

  /** One character of a group is shifted in, or ends the group early. */
  method ShiftIn(text: string, start: nat, bitPos: int, buffer: nat)
    returns (more: bool, group: Group, nextPos: int, next: nat)
    requires start < |text| && Wanted(bitPos) > 0
    ensures nextPos == bitPos - 6 && Wanted(nextPos) == Wanted(bitPos) - 1 && (nextPos == -6 || Wanted(nextPos) > 0)
    ensures Collect(text[start..], bitPos, buffer) == if more then Collect(text[start + 1..], nextPos, next) else group
    ensures !more ==> !group.Full?
  {
    hide Collect, ShiftLeft;
    RestAt(text, start);
    WantedNext(bitPos);
    var value := ValueOf(text[start]);
    if value.None? {
      CollectEnds(text[start..], text[start], bitPos, buffer);
      return false, if text[start] == '=' then Padded(buffer, bitPos) else Broken, bitPos - 6, buffer;
    }
    CollectStep(text[start..], bitPos, buffer, value.value);
    return true, Broken, bitPos - 6, buffer + ShiftLeft(value.value, bitPos);
  }

  lemma CollectEnds(s: string, c: char, bitPos: int, n: nat)
    requires s != "" && s[0] == c && Wanted(bitPos) > 0 && ValueOf(c).None?
    ensures Collect(s, bitPos, n) == if c == '=' then Padded(n, bitPos) else Broken
  {
  }

  lemma RestAt(text: string, start: nat)
    requires start < |text|
    ensures text[start..] != "" && text[start..][0] == text[start] && text[start..][1..] == text[start + 1..]
  {
  }

  lemma WantedNext(bitPos: int)
    requires Wanted(bitPos) > 0
    ensures Wanted(bitPos - 6) == Wanted(bitPos) - 1 && (bitPos - 6 == -6 || Wanted(bitPos - 6) > 0)
  {
  }

  /** How many bytes a padded group writes, the scratch byte of a first or third padding included. */
  function PadWrites(padStart: int): nat {
    if padStart == 18 || padStart == 12 then 1 else 2
  }

  /** How many bytes of the destination the decoder writes, results or not. */
  function Writes(text: string): nat
    decreases |text|
  {
    if text == "" then 0
    else match Collect(text, 18, 0)
      case Broken => 0
      case Padded(_, at) => PadWrites(at)
      case Full(_) => 3 + Writes(text[4..])
  }

  function Cat(bytes: seq<byte>, o: Option<seq<byte>>): Option<seq<byte>> {
    match o
    case None => None
    case Some(rest) => Some(bytes + rest)
  }

  /** Between groups: the bytes written and what the rest gives make up the result. */
  ghost predicate Read(text: string, start: nat, bytes: seq<byte>) {
    && start <= |text| && Decode(text) == Cat(bytes, Decode(text[start..]))
    && Writes(text) == |bytes| + Writes(text[start..])
  }

  /** A group has been loaded after `done`; its last bytes are the last of all if it is padded. */
  ghost predicate Loading(text: string, start: nat, done: seq<byte>, n: nat, padStart: int) {
    if padStart == -9 then Read(text, start, done + FullBytes(n))
    else
      && (padStart == 18 || padStart == 12 || padStart == 6 || padStart == 0)
      && Decode(text) == Some(done + PaddedBytes(n, padStart))
      && Writes(text) == |done| + PadWrites(padStart)
  }

  /** Bytes of the loaded group already written when `bitPos` is next. */
  function Already(bitPos: int): nat {
    if bitPos == 16 then 0 else if bitPos == 8 then 1 else 2
  }

  /** Part of a loaded group has been written after `done`. */
  ghost predicate Writing(text: string, start: nat, done: seq<byte>, n: nat, padStart: int, bitPos: int,
                          written: seq<byte>)
  {
    && (bitPos == 16 || bitPos == 8 || bitPos == 0)
    && (bitPos != 16 ==> padStart < bitPos)
    && Loading(text, start, done, n, padStart)
    && written == done + FullBytes(n)[..Already(bitPos)]
  }

  lemma CatTwice(a: seq<byte>, b: seq<byte>, o: Option<seq<byte>>)
    ensures Cat(a, Cat(b, o)) == Cat(a + b, o)
  {
    if o.Some? {
      assert a + (b + o.value) == a + b + o.value;
    }
  }

  lemma DecodeFull(s: string, n: nat)
    requires s != "" && Collect(s, 18, 0) == Full(n)
    ensures |s| >= 4 && Decode(s) == Cat(FullBytes(n), Decode(s[4..]))
  {
  }

  lemma FullLoaded(text: string, from: nat, done: seq<byte>, n: nat)
    requires from < |text| && Read(text, from, done) && Collect(text[from..], 18, 0) == Full(n)
    ensures from + 4 <= |text| && Writing(text, from + 4, done, n, -9, 16, done)
  {
    DecodeFull(text[from..], n);
    assert text[from..][4..] == text[from + 4..] && done + FullBytes(n)[..0] == done;
    CatTwice(done, FullBytes(n), Decode(text[from + 4..]));
  }

  lemma PaddedLoaded(text: string, from: nat, done: seq<byte>, n: nat, at: int, start: nat)
    requires from < |text| && Read(text, from, done) && Collect(text[from..], 18, 0) == Padded(n, at)
    ensures Writing(text, start, done, n, at, 16, done)
  {
    assert done + FullBytes(n)[..0] == done;
  }

  lemma BrokenLoaded(text: string, from: nat, done: seq<byte>)
    requires from < |text| && Read(text, from, done) && Collect(text[from..], 18, 0) == Broken
    ensures Decode(text) == None
  {
  }

  lemma ReadNothing(text: string)
    ensures Read(text, 0, [])
  {
    assert text[0..] == text;
    assert Decode(text).Some? ==> [] + Decode(text).value == Decode(text).value;
  }

  lemma ReadFits(text: string, start: nat, done: seq<byte>)
    requires Read(text, start, done)
    ensures |done| <= Writes(text)
  {
  }

  lemma {:induction false} ReadAll(text: string, done: seq<byte>)
    requires Read(text, |text|, done)
    ensures Decode(text) == Some(done) && |done| <= Writes(text)
  {
    assert text[|text|..] == [] && done + [] == done;
  }

  /** There is room for the next byte. */
  lemma WritingFits(text: string, start: nat, done: seq<byte>, n: nat, padStart: int, bitPos: int,
                    written: seq<byte>)
    requires Writing(text, start, done, n, padStart, bitPos, written)
    ensures |written| < Writes(text)
  {
  }

  /** What the next byte brings: the end of the group, of the result, or neither. */
  lemma WriteNext(text: string, start: nat, done: seq<byte>, n: nat, padStart: int, bitPos: int,
                  written: seq<byte>)
    requires Writing(text, start, done, n, padStart, bitPos, written)
    ensures var next := written + [ByteAt(n, bitPos)];
            if padStart >= bitPos - 8 then
              Decode(text) == Some(if (padStart - (bitPos - 8)) / 6 != 0 then written else next)
            else if bitPos == 0 then Read(text, start, next)
            else Writing(text, start, done, n, padStart, bitPos - 8, next)
  {
    hide Decode;
    var k := Already(bitPos);
    assert FullBytes(n)[k] == ByteAt(n, bitPos);
    assert FullBytes(n)[..k] + [FullBytes(n)[k]] == FullBytes(n)[..k + 1];
    assert written + [ByteAt(n, bitPos)] == done + FullBytes(n)[..k + 1];
    assert FullBytes(n)[..3] == FullBytes(n) && FullBytes(n)[..2] == PaddedBytes(n, 0);
    assert FullBytes(n)[..1] == PaddedBytes(n, 6) == PaddedBytes(n, 12);
    assert FullBytes(n)[..0] == PaddedBytes(n, 18);
  }

  method LoadGroup(text: string, from: nat, ghost done: seq<byte>)
    returns (ok: bool, buffer: nat, padStart: int, start: nat)
    requires from < |text| && Read(text, from, done)
    ensures ok <==> !Collect(text[from..], 18, 0).Broken?
    ensures if ok then from < start <= |text| && Writing(text, start, done, buffer, padStart, 16, done)
            else Decode(text) == None
  {
    var group;
    group, start := CollectGroup(text, from);
    if group.Broken? {
      BrokenLoaded(text, from, done);
      return false, 0, -9, start;
    } else if group.Full? {
      FullLoaded(text, from, done, group.n);
    } else {
      PaddedLoaded(text, from, done, group.n, group.at, start);
    }
    return true, group.n, if group.Full? then -9 else group.at, start;
  }

  /** The destination needs room for what is written, which `RoomEnough` compares with the
    * documented size.  Behind the result at most one byte changes. */
  method Base64Decode(text: string, dest: array<byte>) returns (n: nat)
    requires dest.Length >= Writes(text)
    modifies dest
    ensures Decode(text).None? ==> n == 0
    ensures Decode(text).Some? ==> n <= dest.Length && dest[..n] == Decode(text).value
    ensures Decode(text).Some? ==> forall i :: n < i < dest.Length ==> dest[i] == old(dest[i])
    ensures forall i :: Writes(text) <= i < dest.Length ==> dest[i] == old(dest[i])
  {
    hide Decode, Writing, Read, Writes, Collect, ByteAt;
    var start, buffer: nat, bitPos, padStart, d := 0, 0, -8, -9, 0;
    ghost var done: seq<byte> := [];
    ReadNothing(text);
    while start != |text| || bitPos > -6
      invariant start <= |text| && d <= dest.Length
      invariant bitPos == -8 || bitPos == 8 || bitPos == 0
      invariant bitPos == -8 ==> Read(text, start, dest[..d])
      invariant bitPos != -8 ==> Writing(text, start, done, buffer, padStart, bitPos, dest[..d])
      invariant forall i :: d <= i < dest.Length ==> dest[i] == old(dest[i])
      decreases |text| - start, bitPos + 8
    {
      if bitPos == -8 {
        done := dest[..d];
        ReadFits(text, start, done);
        var ok;
        ok, buffer, padStart, start := LoadGroup(text, start, done);
        if !ok {
          return 0;
        }
        bitPos := 16;
      }
      WritingFits(text, start, done, buffer, padStart, bitPos, dest[..d]);
      WriteNext(text, start, done, buffer, padStart, bitPos, dest[..d]);
      label L:
      dest[d] := ByteAt(buffer, bitPos);
      assert dest[..d + 1] == old@L(dest[..d]) + [ByteAt(buffer, bitPos)];
      bitPos := bitPos - 8;
      if padStart >= bitPos {
        return if (padStart - bitPos) / 6 != 0 then d else d + 1;
      }
      d := d + 1;
    }
    ReadAll(text, dest[..d]);
    return d;
  }

  // ---- The documented room -----------------------------------------------------------------------

  /** What the result of collecting up to `k` characters tells about them. */
  predicate Tells(text: string, k: nat, g: Group) {
    match g
    case Full(_) => |text| >= k && forall i :: 0 <= i < k ==> ValueOf(text[i]).Some?
    case Padded(_, at) => 0 < Wanted(at) <= k && |text| > k - Wanted(at) && text[k - Wanted(at)] == '='
    case Broken =>
      || (exists i :: 0 <= i < |text| && i < k && ValueOf(text[i]).None? && text[i] != '=')
      || (|text| < k && forall i :: 0 <= i < |text| ==> ValueOf(text[i]).Some?)
  }

  lemma TellsMore(text: string, k: nat, g: Group)
    requires text != "" && ValueOf(text[0]).Some? && k > 0 && Tells(text[1..], k - 1, g)
    ensures Tells(text, k, g)
  {
    var rest := text[1..];
    assert forall i :: 0 <= i < |rest| ==> rest[i] == text[i + 1];
    assert forall i :: 0 < i < |text| ==> text[i] == rest[i - 1];
    if g.Broken? && exists i :: 0 <= i < |rest| && i < k - 1 && ValueOf(rest[i]).None? && rest[i] != '=' {
      var i :| 0 <= i < |rest| && i < k - 1 && ValueOf(rest[i]).None? && rest[i] != '=';
      assert text[i + 1] == rest[i];
    }
  }

  lemma TellsEnd(text: string, k: nat, bitPos: int, n: nat)
    requires text != "" && k == Wanted(bitPos) > 0 && ValueOf(text[0]).None?
    ensures Tells(text, k, if text[0] == '=' then Padded(n, bitPos) else Broken)
  {
  }

  lemma CollectStops(text: string, bitPos: int, n: nat)
    requires bitPos == -6 || Wanted(bitPos) > 0
    ensures bitPos == -6 ==> Collect(text, bitPos, n) == Full(n)
    ensures bitPos != -6 && text == "" ==> Collect(text, bitPos, n) == Broken
  {
  }

  lemma {:induction false} CollectTells(text: string, bitPos: int, n: nat) returns (g: Group)
    requires bitPos == -6 || Wanted(bitPos) > 0
    ensures g == Collect(text, bitPos, n) && Tells(text, Wanted(bitPos), g)
    decreases Wanted(bitPos)
  {
    hide Collect, ShiftLeft;
    CollectStops(text, bitPos, n);
    if bitPos == -6 {
      g := Full(n);
    } else if text == "" {
      g := Broken;
    } else if ValueOf(text[0]).None? {
      CollectEnds(text, text[0], bitPos, n);
      TellsEnd(text, Wanted(bitPos), bitPos, n);
      g := if text[0] == '=' then Padded(n, bitPos) else Broken;
    } else {
      CollectStep(text, bitPos, n, ValueOf(text[0]).value);
      WantedNext(bitPos);
      g := CollectTells(text[1..], bitPos - 6, n + ShiftLeft(ValueOf(text[0]).value, bitPos));
      TellsMore(text, Wanted(bitPos), g);
    }
  }

  /** Whole groups of symbols, and then a single padding character. */
  predicate Dangling(text: string) {
    |text| % 4 == 1 && text[|text| - 1] == '=' && forall i :: 0 <= i < |text| - 1 ==> ValueOf(text[i]).Some?
  }

  lemma DanglingRest(text: string)
    requires |text| >= 4 && forall i :: 0 <= i < 4 ==> ValueOf(text[i]).Some?
    ensures Dangling(text) <==> Dangling(text[4..])
  {
    var rest := text[4..];
    if Dangling(rest) {
      forall i | 4 <= i < |text| - 1 ensures ValueOf(text[i]).Some? {
        assert text[i] == rest[i - 4];
      }
    }
    if Dangling(text) {
      assert |rest| > 0 && rest[|rest| - 1] == text[|text| - 1];
    }
  }

  /** A text that ends in its first group dangles exactly if it is a single padding character. */
  lemma DanglingPadded(text: string, k: nat)
    requires k < 4 && k < |text| && text[k] == '='
    ensures Dangling(text) <==> |text| == 1
  {
    assert ValueOf(text[k]).None?;
  }

  lemma DanglingBroken(text: string)
    requires || (exists i :: 0 <= i < |text| && i < 4 && ValueOf(text[i]).None? && text[i] != '=')
             || (|text| < 4 && forall i :: 0 <= i < |text| ==> ValueOf(text[i]).Some?)
    ensures !Dangling(text)
  {
  }

  /** The documented room of three bytes for every four characters is enough unless a group begins
    * with padding that nothing follows; then one byte more is written. */
  lemma {:induction false} RoomEnough(text: string)
    ensures Writes(text) <= |text| * 3 / 4 <==> !Dangling(text)
    ensures Writes(text) <= |text| * 3 / 4 + 1
    decreases |text|
  {
    if text != "" {
      var g := CollectTells(text, 18, 0);
      match g
      case Full(_) =>
        DanglingRest(text);
        RoomEnough(text[4..]);
      case Padded(_, at) => DanglingPadded(text, 4 - Wanted(at));
      case Broken => DanglingBroken(text);
    }
  }

  /** The smallest text that needs the extra byte. */
  lemma OneMoreByte()
    ensures Dangling("=") && Writes("=") == 1 && |"="| * 3 / 4 == 0
  {
    CollectEnds("=", '=', 18, 0);
  }
}
