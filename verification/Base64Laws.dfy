/** Base64 symbol by symbol: the alphabet and the bits of section 4 of RFC 4648, and what the decoder does with
  * texts that no encoder produces. */
module Base64Laws {
  import opened Protocol
  import opened Base64

  /** `c` is the symbol with value `v`: letters, digits, plus and slash. */
  predicate Stands(c: char, v: nat) {
    || ('A' <= c <= 'Z' && v == c as int - 65)
    || ('a' <= c <= 'z' && v == c as int - 97 + 26)
    || ('0' <= c <= '9' && v == c as int - 48 + 52)
    || (c == '+' && v == 62) || (c == '/' && v == 63)
  }

  /** No symbol and no padding. */
  ghost predicate Stranger(c: char) {
    c != '=' && forall v: nat :: !Stands(c, v)
  }

  /** The value of symbol `i` of a group, zero for one that is missing. */
  function At(v: seq<sextet>, i: nat): sextet {
    if i < |v| then v[i] else 0
  }

  lemma SymbolStands(v: sextet)
    ensures Stands(Symbol(v), v)
  {
  }

  lemma StandsValue(c: char, v: nat)
    requires Stands(c, v)
    ensures ValueOf(c) == Some(v) && c != '='
  {
    SymbolStands(v);
    SymbolValue(v);
  }

  lemma StrangerValue(c: char)
    requires Stranger(c)
    ensures ValueOf(c).None?
  {
    if ValueOf(c).Some? {
      assert Stands(c, ValueOf(c).value);
    }
  }

  // ---- Encoding ------------------------------------------------------------------------------------

  /** Three bytes are four symbols of six bits, the high bits first. */
  lemma EncodeThree(a: byte, b: byte, c: byte, rest: seq<byte>) returns (s: string)
    ensures |s| == 4 && Encode([a, b, c] + rest) == s + Encode(rest)
    ensures Stands(s[0], a / 4) && Stands(s[1], a % 4 * 16 + b / 16)
    ensures Stands(s[2], b % 16 * 4 + c / 64) && Stands(s[3], c % 64)
  {
    hide Encode;
    s := EncodeGroup([a, b, c]);
    EncodeCons([a, b, c], rest);
    SixBits(a, b, c);
    var n := FromBytes(a, b, c);
    SymbolStands(SextetAt(n, 18));
    SymbolStands(SextetAt(n, 12));
    SymbolStands(SextetAt(n, 6));
    SymbolStands(SextetAt(n, 0));
  }

  lemma SixBits(a: byte, b: byte, c: byte)
    ensures var n := FromBytes(a, b, c);
            && SextetAt(n, 18) == a / 4 && SextetAt(n, 12) == a % 4 * 16 + b / 16
            && SextetAt(n, 6) == b % 16 * 4 + c / 64 && SextetAt(n, 0) == c % 64
  {
    SextetsBack(a / 4, a % 4 * 16 + b / 16, b % 16 * 4 + c / 64, c % 64);
    assert FromSextets(a / 4, a % 4 * 16 + b / 16, b % 16 * 4 + c / 64, c % 64) == FromBytes(a, b, c);
  }

  /** Two bytes at the end are three symbols and one padding character. */
  lemma EncodeTwo(a: byte, b: byte) returns (s: string)
    ensures |s| == 3 && Encode([a, b]) == s + "="
    ensures Stands(s[0], a / 4) && Stands(s[1], a % 4 * 16 + b / 16) && Stands(s[2], b % 16 * 4)
  {
    s := EncodeGroup([a, b])[..3];
    SixBits(a, b, 0);
    var n := FromBytes(a, b, 0);
    SymbolStands(SextetAt(n, 18));
    SymbolStands(SextetAt(n, 12));
    SymbolStands(SextetAt(n, 6));
  }

  /** One byte at the end is two symbols and two padding characters. */
  lemma EncodeOne(a: byte) returns (s: string)
    ensures |s| == 2 && Encode([a]) == s + "=="
    ensures Stands(s[0], a / 4) && Stands(s[1], a % 4 * 16)
  {
    s := EncodeGroup([a])[..2];
    SixBits(a, 0, 0);
    var n := FromBytes(a, 0, 0);
    SymbolStands(SextetAt(n, 18));
    SymbolStands(SextetAt(n, 12));
  }

  // ---- Decoding ------------------------------------------------------------------------------------

  lemma EightBits(v: sextet, w: sextet, x: sextet, y: sextet)
    ensures FullBytes(FromSextets(v, w, x, y)) == [v * 4 + w / 16, w % 16 * 16 + x / 4, x % 4 * 64 + y]
  {
    var a, b, c := v * 4 + w / 16, w % 16 * 16 + x / 4, x % 4 * 64 + y;
    BytesOf(a, b, c);
    assert FromBytes(a, b, c) == FromSextets(v, w, x, y);
  }

  /** Four symbols are three bytes, whatever follows, which is decoded on. */
  lemma DecodeFour(c: string, v: seq<sextet>, rest: string)
    requires |c| == |v| == 4 && forall i :: 0 <= i < 4 ==> Stands(c[i], v[i])
    ensures Decode(c + rest)
         == match Decode(rest)
            case None => None
            case Some(d) =>
              Some([v[0] as int * 4 + v[1] as int / 16, v[1] as int % 16 * 16 + v[2] as int / 4,
                    v[2] as int % 4 * 64 + v[3] as int] + d)
  {
    hide Collect, FullBytes;
    assert c == [Symbol(v[0]), Symbol(v[1]), Symbol(v[2]), Symbol(v[3])] by {
      forall i | 0 <= i < 4 ensures c[i] == Symbol(v[i]) {
        SymbolStands(v[i]);
      }
    }
    CollectFull(v[0], v[1], v[2], v[3], rest);
    EightBits(v[0], v[1], v[2], v[3]);
    assert (c + rest)[4..] == rest;
  }

  /** What fewer than four symbols before a padding character, the end or a stranger amount to: `k` of them read
    * from bit position 18 on. */
  lemma CollectSome(c: string, v: seq<sextet>, k: nat, rest: string)
    requires |c| == |v| == k <= 3 && forall i :: 0 <= i < k ==> Stands(c[i], v[i])
    ensures Collect(c + rest, 18, 0)
         == Collect(rest, 18 - 6 * k, FromSextets(At(v, 0), At(v, 1), At(v, 2), 0))
  {
    hide Collect, ShiftLeft;
    ShiftLefts();
    if k > 0 {
      StandsValue(c[0], v[0]);
      CollectStep(c + rest, 18, 0, v[0]);
      assert (c + rest)[1..] == c[1..] + rest;
    } else {
      assert c + rest == rest;
    }
    if k > 1 {
      StandsValue(c[1], v[1]);
      CollectStep(c[1..] + rest, 12, ShiftLeft(v[0], 18), v[1]);
      assert (c[1..] + rest)[1..] == c[2..] + rest;
    }
    if k > 2 {
      StandsValue(c[2], v[2]);
      CollectStep(c[2..] + rest, 6, ShiftLeft(v[0], 18) + ShiftLeft(v[1], 12), v[2]);
      assert (c[2..] + rest)[1..] == c[3..] + rest;
    }
    assert c[k..] + rest == rest;
  }

  lemma ShiftLefts()
    ensures forall v: nat ::
              ShiftLeft(v, 18) == v * 0x4_0000 && ShiftLeft(v, 12) == v * 0x1000 && ShiftLeft(v, 6) == v * 0x40
  {
  }

  /** A padding character ends the decoding, wherever in its group it stands and whatever follows: it leaves
    * the bytes that the symbols before it make up, and one for a single symbol. */
  lemma DecodePad(c: string, v: seq<sextet>, rest: string)
    requires |c| == |v| <= 3 && forall i :: 0 <= i < |c| ==> Stands(c[i], v[i])
    ensures Decode(c + "=" + rest)
         == Some(if |c| == 0 then []
                 else if |c| == 1 then [v[0] as int * 4]
                 else if |c| == 2 then [v[0] as int * 4 + v[1] as int / 16]
                 else [v[0] as int * 4 + v[1] as int / 16, v[1] as int % 16 * 16 + v[2] as int / 4])
  {
    hide Collect, ByteAt, FromSextets, Stands;
    var text := c + "=" + rest;
    assert text == c + ("=" + rest) && ("=" + rest)[0] == '=';
    CollectSome(c, v, |c|, "=" + rest);
    var n := FromSextets(At(v, 0), At(v, 1), At(v, 2), 0);
    CollectPad("=" + rest, 18 - 6 * |c|, n);
    EightBits(At(v, 0), At(v, 1), At(v, 2), 0);
    assert FullBytes(n)[0] == ByteAt(n, 16) && FullBytes(n)[1] == ByteAt(n, 8);
  }

  lemma CollectPad(text: string, bitPos: int, n: nat)
    requires text != "" && text[0] == '=' && (bitPos == 18 || bitPos == 12 || bitPos == 6 || bitPos == 0)
    ensures Collect(text, bitPos, n) == Padded(n, bitPos)
  {
  }

  /** A stranger, or the end in the middle of a group, is an error. */
  lemma {:induction false} DecodeBroken(c: string, v: seq<sextet>, rest: string)
    requires |c| == |v| <= 3 && forall i :: 0 <= i < |c| ==> Stands(c[i], v[i])
    requires if rest == "" then c != "" else Stranger(rest[0])
    ensures Decode(c + rest) == None
  {
    hide Collect;
    CollectSome(c, v, |c|, rest);
    if rest != "" {
      StrangerValue(rest[0]);
    }
    CollectBreaks(rest, 18 - 6 * |c|, FromSextets(At(v, 0), At(v, 1), At(v, 2), 0));
  }

  lemma CollectBreaks(text: string, bitPos: int, n: nat)
    requires bitPos == 18 || bitPos == 12 || bitPos == 6 || bitPos == 0
    requires text == "" || (text[0] != '=' && ValueOf(text[0]).None?)
    ensures Collect(text, bitPos, n) == Broken
  {
    hide ValueOf;
  }
}
