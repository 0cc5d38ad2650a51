/** What every kind of text means to the reader of addresses, printed by this program or not, and the
  * shape of what is printed (http.cpp:612-806). */
module AddressLaws {
  import opened Protocol
  import opened ZeroRuns
  import opened AddressText
  import opened AddressRoundTrip

  // ---- Texts -----------------------------------------------------------------------------------

  /** Groups in hexadecimal, each followed by a colon. */
  function Listed(g: seq<Group>): string {
    if g == [] then "" else Hex(g[0]) + (":" + Listed(g[1..]))
  }

  function Colons(n: nat): string {
    if n == 0 then "" else ":" + Colons(n - 1)
  }

  /** Groups, the colons of a gap (if any), more groups and something else. */
  function Text(g: seq<Group>, n: nat, h: seq<Group>, rest: string): string {
    Listed(g) + (Colons(n) + (Listed(h) + rest))
  }

  /** The address made of the groups `g` and `h` and further bytes.  A gap is filled with zeros; without
    * one, what was not written keeps its old value. */
  function Address(was: seq<byte>, g: seq<Group>, n: nat, h: seq<Group>, last: seq<byte>): (a: seq<byte>)
    requires |was| == SIZE && 2 * |g| + 2 * |h| + |last| <= SIZE
    ensures |a| == SIZE
  {
    var size := 2 * |g| + 2 * |h| + |last|;
    if n == 0 then Flat(g) + Flat(h) + last + was[size..] else Flat(g) + Zero(SIZE - size) + Flat(h) + last
  }

  // ---- The scan over such a text ---------------------------------------------------------------

  lemma ListedFirst(g: seq<Group>, rest: string)
    requires g != []
    ensures Listed(g) + rest == Hex(g[0]) + (":" + (Listed(g[1..]) + rest))
  {
  }

  lemma ExtendFirst(s: Scan, g: seq<Group>)
    requires g != []
    ensures Extended(Extended(s, [g[0]]), g[1..]) == Extended(s, g)
  {
    assert g[0 + 1..|g|] == g[1..] && g[0..|g|] == g;
    ExtendTwice(s, g, 0, |g|);
  }

  lemma {:induction false} WalkListed(s: Scan, g: seq<Group>, rest: string, beyond: string)
    requires Scanning(s) && s.chunk == 0 && |s.written| + 2 * |g| < SIZE
    ensures Scanning(Extended(s, g))
    ensures Walk(s, true, Listed(g) + rest, beyond) == Walk(Extended(s, g), true, rest, beyond)
    decreases |g|
  {
    hide Walk, Hex, Flat;
    if g == [] {
      ExtendNothing(s);
      assert "" + rest == rest;
    } else {
      var more := Listed(g[1..]) + rest;
      ListedFirst(g, rest);
      WalkHex(s, true, g[0], ":" + more, beyond);
      WalkColon(s.(chunk := g[0]), more, beyond);
      PushedExtends(s, g[0]);
      WalkListed(Extended(s, [g[0]]), g[1..], rest, beyond);
      ExtendFirst(s, g);
    }
  }

  lemma {:induction false} WalkColons(s: Scan, n: nat, rest: string, beyond: string)
    requires Scanning(s) && MayPad(s)
    ensures Walk(s, true, Colons(n) + rest, beyond) == Walk(if n == 0 then s else Padded(s), true, rest, beyond)
    decreases n
  {
    if n == 0 {
      assert "" + rest == rest;
    } else {
      assert Colons(n) + rest == ":" + (Colons(n - 1) + rest);
      WalkPad(s, Colons(n - 1) + rest, beyond);
      WalkColons(Padded(s), n - 1, rest, beyond);
    }
  }

  /** The scan when the rest is to be read. */
  function Scanned(g: seq<Group>, n: nat, h: seq<Group>): (s: Scan)
    requires |g| + |h| < 8
    ensures Scanning(s)
  {
    Scan(Flat(g) + Flat(h), if n == 0 then Unset else At(2 * |g|), 0)
  }

  lemma WalkText(g: seq<Group>, n: nat, h: seq<Group>, rest: string, beyond: string)
    requires |g| + |h| < 8
    ensures Walk(START, true, Text(g, n, h, rest), beyond) == Walk(Scanned(g, n, h), true, rest, beyond)
  {
    hide Walk, Listed, Colons, Flat;
    var s := Extended(START, g);
    WalkListed(START, g, Colons(n) + (Listed(h) + rest), beyond);
    assert [] + Flat(g) == Flat(g);
    WalkColons(s, n, Listed(h) + rest, beyond);
    WalkListed(if n == 0 then s else Padded(s), h, rest, beyond);
  }

  lemma Spread(front: seq<byte>, middle: seq<byte>, back: seq<byte>, gap: seq<byte>)
    ensures var w := front + middle + back;
      w[..|front|] + gap + w[|front|..] == front + gap + middle + back
  {
    var w := front + middle + back;
    assert w[..|front|] == front && w[|front|..] == middle + back;
  }

  lemma FinishText(was: seq<byte>, g: seq<Group>, n: nat, h: seq<Group>, last: seq<byte>)
    requires |was| == SIZE && 2 * |g| + 2 * |h| + |last| <= SIZE
    ensures Finish(was, Accepted(Flat(g) + Flat(h) + last, if n == 0 then Unset else At(2 * |g|)))
         == Done(Address(was, g, n, h, last))
  {
    hide Flat, Zero;
    var w := Flat(g) + Flat(h) + last;
    Spread(Flat(g), Flat(h), last, Zero(SIZE - |w|));
  }

  // ---- Groups ----------------------------------------------------------------------------------

  lemma ModUnique(x: nat, k: nat, r: nat)
    requires x == k * 0x1_0000 + r && r < 0x1_0000
    ensures x % 0x1_0000 == r
  {
  }

  lemma CollectedMod(q: nat, d: nat)
    requires d < 16
    ensures Collected(q % 0x1_0000, d) == (q * 16 + d) % 0x1_0000
  {
    var k, r := q / 0x1_0000, q % 0x1_0000;
    var b, low := r / 0x1000, r % 0x1000;
    assert q == k * 0x1_0000 + r && r == b * 0x1000 + low;
    ModUnique(q * 16 + d, k * 16 + b, low * 16 + d);
  }

  lemma HexLast(n: nat) returns (q: nat, d: nat)
    requires n >= 16
    ensures q < n && d < 16 && n == q * 16 + d && Hex(n) == Hex(q) + [Digit(d)]
  {
    q, d := n / 16, n % 16;
  }

  lemma WalkOne(s: Scan, c: nat, d: nat, rest: string, beyond: string)
    requires Scanning(s) && s.chunk == c % 0x1_0000 && d < 16
    ensures Walk(s, false, [Digit(d)] + rest, beyond)
         == Walk(s.(chunk := (c * 16 + d) % 0x1_0000), false, rest, beyond)
  {
    DigitReads(d);
    CollectedMod(c, d);
    assert ([Digit(d)] + rest)[1..] == rest;
    WalkStep(s, false, [Digit(d)] + rest, rest, beyond);
  }

  lemma {:induction false} WalkLong(s: Scan, atStart: bool, n: nat, rest: string, beyond: string)
    requires Scanning(s) && s.chunk == 0
    ensures Walk(s, atStart, Hex(n) + rest, beyond) == Walk(s.(chunk := n % 0x1_0000), false, rest, beyond)
    decreases n
  {
    hide Walk, Hex, Digit;
    if n < 16 {
      WalkHex(s, atStart, n, rest, beyond);
    } else {
      var q, d := HexLast(n);
      assert Hex(q) + [Digit(d)] + rest == Hex(q) + ([Digit(d)] + rest);
      WalkLong(s, atStart, q, [Digit(d)] + rest, beyond);
      WalkOne(s.(chunk := q % 0x1_0000), q, d, rest, beyond);
    }
  }

  lemma WalkEnd(s: Scan, rest: string, beyond: string)
    requires Scanning(s)
    requires rest == "" || (rest[0] == ':' && |s.written| + 2 >= SIZE)
    ensures Walk(s, false, rest, beyond) == Accepted(Pushed(s).written, s.pad)
  {
  }

  /** Groups with or without a gap are read; of a group with more than four digits the last four
    * count, and behind an eighth group everything from its colon on is ignored.  A text with fewer
    * than eight groups and no gap leaves the bytes behind its last group as they were. */
  lemma GroupsRead(was: seq<byte>, g: seq<Group>, n: nat, h: seq<Group>, x: nat, junk: string, beyond: string)
    requires |was| == SIZE && |g| + |h| < 8
    requires junk == "" || (junk[0] == ':' && |g| + |h| == 7)
    ensures Assign(was, Text(g, n, h, Hex(x) + junk), beyond)
         == Done(Address(was, g, n, h, Flat([x % 0x1_0000])))
  {
    var s := Scanned(g, n, h);
    WalkText(g, n, h, Hex(x) + junk, beyond);
    WalkLong(s, true, x, junk, beyond);
    WalkEnd(s.(chunk := x % 0x1_0000), junk, beyond);
    PushedExtends(s, x % 0x1_0000);
    FinishText(was, g, n, h, Flat([x % 0x1_0000]));
  }

  /** Of a group anywhere in the text only the last four digits count. */
  lemma LongGroup(was: seq<byte>, g: seq<Group>, n: nat, h: seq<Group>, x: nat, rest: string, beyond: string)
    requires |was| == SIZE && |g| + |h| < 8
    ensures Assign(was, Text(g, n, h, Hex(x) + rest), beyond)
         == Assign(was, Text(g, n, h, Hex(x % 0x1_0000) + rest), beyond)
  {
    hide Walk, Hex, Text, Finish;
    WalkText(g, n, h, Hex(x) + rest, beyond);
    WalkText(g, n, h, Hex(x % 0x1_0000) + rest, beyond);
    WalkLong(Scanned(g, n, h), true, x, rest, beyond);
    WalkLong(Scanned(g, n, h), true, x % 0x1_0000, rest, beyond);
  }

  /** A text that ends at its gap, with a colon or empty stands for groups with zeros behind them;
    * the reader then looks behind the text for a character other than a colon. */
  lemma GapLast(was: seq<byte>, g: seq<Group>, n: nat, beyond: string)
    requires |was| == SIZE && |g| < 8
    ensures Assign(was, Text(g, n, [], ""), beyond)
         == if Stops(beyond) then Done(Flat(g) + Zero(SIZE - 2 * |g|)) else Overrun
  {
    var s := Scanned(g, n, []);
    WalkText(g, n, [], "", beyond);
    assert s.written == Flat(g);
    TailEnds(Padded(s), beyond);
    assert Pushed(s).written == Flat(g) + Flat([]) + Zero(2);
    FinishText(was, g, 1, [], Zero(2));
    assert Flat(g) + Zero(SIZE - 2 * |g| - 2) + Flat([]) + Zero(2) == Flat(g) + Zero(SIZE - 2 * |g|);
  }

  /** A second gap, also one at the very end, is an error. */
  lemma SecondGap(was: seq<byte>, g: seq<Group>, n: nat, h: seq<Group>, rest: string, beyond: string)
    requires |was| == SIZE && |g| + |h| < 8 && n > 0 && h != [] && (rest == "" || rest[0] == ':')
    ensures Assign(was, Text(g, n, h, rest), beyond) == Done(Zero(SIZE))
  {
    WalkText(g, n, h, rest, beyond);
    assert !MayPad(Scanned(g, n, h));
  }

  /** A character that cannot stand in an address is an error, at the start of a group and in it. */
  lemma Stranger(was: seq<byte>, g: seq<Group>, n: nat, h: seq<Group>, x: nat, c: char, rest: string, beyond: string)
    requires |was| == SIZE && |g| + |h| < 8 && c != '.'
    requires c !in "0123456789abcdefABCDEF:"
    ensures Assign(was, Text(g, n, h, [c] + rest), beyond) == Done(Zero(SIZE))
    ensures Assign(was, Text(g, n, h, Hex(x) + ([c] + rest)), beyond) == Done(Zero(SIZE))
  {
    if HexValue(c) >= 0 || c == ':' {
      DigitListed(c);
    }
    WalkText(g, n, h, [c] + rest, beyond);
    WalkText(g, n, h, Hex(x) + ([c] + rest), beyond);
    WalkLong(Scanned(g, n, h), true, x, [c] + rest, beyond);
  }

  lemma DigitListed(c: char)
    requires HexValue(c) >= 0 || c == ':'
    ensures c in "0123456789abcdefABCDEF:"
  {
    var digits := "0123456789abcdefABCDEF:";
    var i := if c == ':' then 22 else if 'A' <= c <= 'F' then HexValue(c) + 6 else HexValue(c);
    assert digits[i] == c;
  }

  // ---- Dotted quads ----------------------------------------------------------------------------

  /** A dotted quad takes the place of two groups, each number modulo 256; behind its last digit
    * everything is ignored. */
  lemma {:induction false} QuadRead(was: seq<byte>, g: seq<Group>, n: nat, h: seq<Group>, b: seq<nat>, junk: string,
                                    beyond: string)
    requires |was| == SIZE && 0 < |g| + |h| <= 6 && |b| == 4 && b[0] < 1000 && Ends(junk)
    ensures Assign(was, Text(g, n, h, Dots(b) + junk), beyond) == Done(Address(was, g, n, h, Stored(b)))
  {
    var s, rest := Scanned(g, n, h), Behind(b[1..]) + junk;
    WalkText(g, n, h, Dots(b) + junk, beyond);
    var c := WalkQuad(s, b, junk, beyond);
    QuadsDots(rest, b[1..], junk);
    StoredFirst(b);
    assert s.written + [b[0] % 256] + Stored(b[1..]) == s.written + Stored(b);
    FinishText(was, g, n, h, Stored(b));
  }

  lemma WalkQuad(s: Scan, b: seq<nat>, junk: string, beyond: string) returns (c: nat)
    requires Scanning(s) && s.chunk == 0 && |b| > 1 && b[0] < 1000
    ensures c < 0x1_0000 && FirstQuad(c) == b[0] % 256
    ensures Walk(s, true, Dots(b) + junk, beyond) == Dotted(s.(chunk := c), Behind(b[1..]) + junk)
  {
    hide Decimal;
    DotsEnd(b, junk);
    c := WalkFirst(s, true, b[0], Behind(b[1..]) + junk, beyond);
    WalkDot(s.(chunk := c), Behind(b[1..]) + junk, beyond);
  }

  /** A plain dotted quad is an IPv4-mapped address, also behind colons. */
  lemma {:induction false} QuadAlone(was: seq<byte>, n: nat, b: seq<nat>, junk: string, beyond: string)
    requires |was| == SIZE && |b| == 4 && b[0] < 1000 && Ends(junk)
    ensures Assign(was, Colons(n) + (Dots(b) + junk), beyond) == Done(Zero(10) + [0xff, 0xff] + Stored(b))
  {
    hide Walk, Dots, Decimal, Stops, Text, Finish;
    var s, rest := Scanned([], n, []), Behind(b[1..]) + junk;
    TextNoGroups(n, Dots(b) + junk);
    WalkText([], n, [], Dots(b) + junk, beyond);
    var c := WalkQuad(s, b, junk, beyond);
    QuadsDots(rest, b[1..], junk);
    MappedFills(was, b);
  }

  lemma MappedFills(was: seq<byte>, b: seq<nat>)
    requires |was| == SIZE && |b| == 4
    ensures Finish(was, Accepted([0xff, 0xff] + [b[0] % 256] + Stored(b[1..]), At(0)))
         == Done(Zero(10) + [0xff, 0xff] + Stored(b))
  {
    var w := [0xff, 0xff] + Stored(b);
    StoredFirst(b);
    assert [0xff, 0xff] + [b[0] % 256] + Stored(b[1..]) == w;
    assert w[..0] == [] && w[0..] == w && [] + Zero(10) + w == Zero(10) + [0xff, 0xff] + Stored(b);
  }

  lemma TextNoGroups(n: nat, rest: string)
    ensures Text([], n, [], rest) == Colons(n) + rest
  {
    assert "" + rest == rest && "" + (Colons(n) + rest) == Colons(n) + rest;
  }

  /** REMOTE_ADDR and SERVER_ADDR of an IPv4 connection. */
  lemma PlainQuad(was: seq<byte>, b: seq<byte>, beyond: string)
    requires |was| == SIZE && |b| == 4
    ensures Assign(was, Dots(b), beyond) == Done(Zero(10) + [0xff, 0xff] + b)
  {
    QuadAlone(was, 0, b, "", beyond);
    StoredBytes(b);
    assert Colons(0) + (Dots(b) + "") == Dots(b);
  }

  /** Numbers are missing. */
  lemma {:induction false} QuadsShort(n: nat, text: string, b: seq<nat>, end: string)
    requires FromDot(text) == FromDot(Behind(b) + end) && |b| < n && (end == "" || end == ".")
    ensures Quads(n, text).Rejected?
    decreases n
  {
    hide Dots, Decimal, Atoi;
    if b == [] {
      assert Behind(b) + end == end;
    } else {
      BehindDot(b, end);
      FromDotDots(b, end);
      QuadsShort(n - 1, Dots(b) + end, b[1..], end);
      assert ("." + (Dots(b) + end))[1..] == Dots(b) + end;
    }
  }

  /** A dotted quad with fewer than four numbers is an error, and so is one behind seven groups. */
  lemma {:induction false} QuadFails(was: seq<byte>, g: seq<Group>, n: nat, h: seq<Group>, b: seq<nat>, end: string,
                                     beyond: string)
    requires |was| == SIZE && |g| + |h| < 8 && |b| > 1 && b[0] < 1000
    requires if |g| + |h| == 7 then true else |b| < 4 && (end == "" || end == ".")
    ensures Assign(was, Text(g, n, h, Dots(b) + end), beyond) == Done(Zero(SIZE))
  {
    WalkText(g, n, h, Dots(b) + end, beyond);
    var c := WalkQuad(Scanned(g, n, h), b, end, beyond);
    if |g| + |h| < 7 {
      QuadsShort(3, Behind(b[1..]) + end, b[1..], end);
    }
  }

  /** A minus sign makes a number negative before it is stored modulo 256. */
  lemma NegativeNumber(n: nat, junk: string)
    requires Ends(junk)
    ensures Atoi("-" + (Decimal(n) + junk)) == 0 - n
  {
    LeadingDecimal(n, junk);
    assert ("-" + (Decimal(n) + junk))[1..] == Decimal(n) + junk;
  }

  // ---- Upper and lower case --------------------------------------------------------------------

  function LowerDigit(c: char): char {
    if 'A' <= c <= 'F' then "abcdef"[c as int - 'A' as int] else c
  }

  function Lower(text: string): (t: string)
    ensures |t| == |text|
  {
    seq(|text|, i requires 0 <= i < |text| => LowerDigit(text[i]))
  }

  lemma LowerFirst(text: string)
    requires text != ""
    ensures Lower(text)[0] == LowerDigit(text[0]) && Lower(text)[1..] == Lower(text[1..])
    ensures HexValue(Lower(text)[0]) == HexValue(text[0])
    ensures forall c :: c in ".:-" ==> (Lower(text)[0] == c <==> text[0] == c)
    ensures '0' <= Lower(text)[0] <= '9' <==> '0' <= text[0] <= '9'
  {
    LowerSame(text[0]);
  }

  lemma LowerSame(c: char)
    ensures HexValue(LowerDigit(c)) == HexValue(c)
    ensures '0' <= LowerDigit(c) <= '9' <==> '0' <= c <= '9'
    ensures forall d :: d in ".:-" ==> (LowerDigit(c) == d <==> c == d)
  {
  }

  lemma {:induction false} LeadingLower(text: string, n: nat)
    ensures Leading(Lower(text), n) == Leading(text, n)
  {
    if text != "" {
      LowerFirst(text);
      if '0' <= text[0] <= '9' {
        LeadingLower(text[1..], n * 10 + HexValue(text[0]));
      }
    }
  }

  lemma AtoiLower(text: string)
    ensures Atoi(Lower(text)) == Atoi(text)
  {
    LeadingLower(text, 0);
    if text != "" {
      LowerFirst(text);
      assert '-' in ".:-";
      LeadingLower(text[1..], 0);
    }
  }

  lemma {:induction false} FromDotLower(text: string)
    ensures FromDot(Lower(text)) == Lower(FromDot(text))
  {
    if text == "" {
      assert Lower(text) == "";
    } else {
      LowerFirst(text);
      assert '.' in ".:-";
      FromDotLower(text[1..]);
    }
  }

  lemma {:induction false} QuadsLower(n: nat, text: string)
    ensures Quads(n, Lower(text)) == Quads(n, text)
    decreases n
  {
    if n > 0 {
      var t := FromDot(text);
      FromDotLower(text);
      if |t| >= 2 {
        LowerFirst(t);
        QuadsLower(n - 1, t[1..]);
        AtoiLower(t[1..]);
      }
    }
  }

  lemma {:induction false} WalkLower(s: Scan, atStart: bool, rest: string, beyond: string)
    requires Scanning(s)
    ensures Walk(s, atStart, Lower(rest), beyond) == Walk(s, atStart, rest, beyond)
    decreases |rest|
  {
    if rest == "" {
      assert Lower(rest) == "";
    } else {
      LowerFirst(rest);
      assert ':' in ".:-" && '.' in ".:-";
      if rest[0] == ':' {
        if atStart {
          if MayPad(s) {
            WalkLower(Padded(s), true, rest[1..], beyond);
          }
        } else if |s.written| + 2 < SIZE {
          WalkLower(Pushed(s), true, rest[1..], beyond);
        }
      } else if HexValue(rest[0]) >= 0 {
        WalkLower(s.(chunk := Collected(s.chunk, HexValue(rest[0]))), false, rest[1..], beyond);
      } else if rest[0] == '.' {
        QuadsLower(3, rest);
      }
    }
  }

  /** Upper-case digits mean what lower-case ones do. */
  lemma CaseFolds(was: seq<byte>, text: string, beyond: string)
    requires |was| == SIZE
    ensures Assign(was, Lower(text), beyond) == Assign(was, text, beyond)
  {
    WalkLower(START, true, text, beyond);
  }

  // ---- The printed form ------------------------------------------------------------------------

  /** A number is written without leading zeros. */
  lemma {:induction false} HexLead(n: nat)
    ensures Hex(n)[0] == '0' <==> n == 0
    ensures Hex(0) == "0"
    decreases n
  {
    if n >= 16 {
      HexLead(n / 16);
    }
  }

  lemma {:induction false} DecimalLead(n: nat)
    ensures Decimal(n)[0] == '0' <==> n == 0
    ensures Decimal(0) == "0"
    decreases n
  {
    if n >= 10 {
      DecimalLead(n / 10);
    }
  }

  predicate Mapped(a: seq<byte>)
    requires |a| == SIZE
  {
    a[..10] == Zero(10) && a[10] == a[11] == 0xff
  }

  lemma MappedZeros(a: seq<byte>)
    requires |a| == SIZE && Mapped(a)
    ensures Zeros(Groups(a), 0, 4) && Groups(a)[5] == 0xffff
  {
    forall i | 0 <= i <= 4 ensures Groups(a)[i] == 0 {
      assert a[2 * i] == a[..10][2 * i] == 0 && a[2 * i + 1] == a[..10][2 * i + 1] == 0;
    }
  }

  lemma MappedIff(a: seq<byte>)
    requires |a| == SIZE
    ensures IsMapped(Groups(a)) <==> Mapped(a)
  {
    hide Groups;
    if IsMapped(Groups(a)) {
      MappedHead(a);
    }
    if Mapped(a) {
      MappedZeros(a);
      MappedRun(Groups(a));
    }
  }

  lemma MappedRun(g: seq<Group>)
    requires |g| == 8 && Zeros(g, 0, 4) && g[5] == 0xffff
    ensures Elided(g) == Run(0, 4)
  {
    hide Elided;
    ElidedLongest(g);
    var run := Elided(g);
    assert g[0] == 0;
    assert run.last - run.first >= 4;
    assert !(run.first <= 5 <= run.last);
  }

  /** An IPv4-mapped address is printed with a dotted quad. */
  lemma PrintsMapped(a: seq<byte>)
    requires |a| == SIZE && Mapped(a)
    ensures Print(a)
         == "::ffff:" + (Decimal(a[12]) + "." + Decimal(a[13]) + "." + Decimal(a[14]) + "." + Decimal(a[15]))
  {
    hide Decimal, Mapped, Groups, IsMapped;
    MappedIff(a);
    FourDots(a[12..]);
  }

  lemma FourDots(b: seq<byte>)
    requires |b| == 4
    ensures Dots(b) == Decimal(b[0]) + "." + Decimal(b[1]) + "." + Decimal(b[2]) + "." + Decimal(b[3])
  {
    hide Decimal;
    assert Dots(b[3..]) == Decimal(b[3]);
    assert b[2..][1..] == b[3..] && b[1..][1..] == b[2..];
    assert Dots(b[2..]) == Decimal(b[2]) + ("." + Dots(b[3..]));
    assert Dots(b[1..]) == Decimal(b[1]) + ("." + Dots(b[2..]));
  }

  lemma {:induction false} PrintListed(g: seq<Group>, run: Run, i: nat, j: nat)
    requires |g| == 8 && i <= j < 8 && Apart(run, i, j)
    ensures PrintFrom(g, run, i) == Listed(g[i..j]) + PrintFrom(g, run, j)
    decreases j - i
  {
    hide PrintFrom, Hex;
    if i == j {
      assert g[i..j] == [] && "" + PrintFrom(g, run, j) == PrintFrom(g, run, j);
    } else {
      PrintGroup(g, run, i);
      PrintListed(g, run, i + 1, j);
      assert g[i..j][1..] == g[i + 1..j];
      ListedFirst(g[i..j], PrintFrom(g, run, j));
    }
  }

  lemma {:induction false} PrintTail(g: seq<Group>, run: Run, i: nat)
    requires |g| == 8 && i < 8 && Apart(run, i, 8)
    ensures PrintFrom(g, run, i) == Listed(g[i..7]) + Hex(g[7])
  {
    hide Hex;
    PrintListed(g, run, i, 7);
    PrintGroup(g, run, 7);
    assert Hex(g[7]) + "" == Hex(g[7]);
  }

  /** The groups in hexadecimal, two colons standing for those of the run. */
  function GroupsText(g: seq<Group>, run: Run): string
    requires |g| == 8 && (run.NoRun? || InGroups(run))
  {
    if run.NoRun? then Text(g[..7], 0, [], Hex(g[7]))
    else
      var colons := if run.first == 0 then 2 else 1;
      if run.last == 7 then Text(g[..run.first], colons, [], "")
      else Text(g[..run.first], colons, g[run.last + 1..7], Hex(g[7]))
  }

  /** Any other address is printed group by group, the last of the longest stretches of zeros elided. */
  lemma PrintsGroups(a: seq<byte>)
    requires |a| == SIZE && !Mapped(a)
    ensures LastLongest(Groups(a), 8, Elided(Groups(a)))
    ensures Print(a) == GroupsText(Groups(a), Elided(Groups(a)))
  {
    hide Mapped, Groups, IsMapped, Elided, Hex, Listed, PrintFrom, GroupsText;
    MappedIff(a);
    ElidedLongest(Groups(a));
    PrintsRun(Groups(a), Elided(Groups(a)));
  }

  lemma {:induction false} GapText(g: seq<Group>, h: seq<Group>, rest: string)
    ensures Text(g, 0, h, rest) == Listed(g) + (Listed(h) + rest)
    ensures Text(g, 1, h, rest) == Listed(g) + (":" + (Listed(h) + rest))
    ensures Text(g, 2, h, rest) == Listed(g) + (":" + (":" + (Listed(h) + rest)))
    ensures Listed([]) + rest == rest
  {
    assert Colons(0) == "" && Colons(1) == ":" + "" && Colons(2) == ":" + (":" + "");
    var t := Listed(h) + rest;
    assert "" + t == t && ":" + (":" + "") + t == ":" + (":" + t);
    assert "" + rest == rest;
  }

  lemma PrintsRun(g: seq<Group>, run: Run)
    requires |g| == 8 && (run.NoRun? || InGroups(run))
    ensures PrintFrom(g, run, 0) == GroupsText(g, run)
  {
    hide Hex, PrintFrom, Listed, Text;
    if run.NoRun? {
      PrintTail(g, run, 0);
      assert g[0..7] == g[..7];
      GapText(g[..7], [], Hex(g[7]));
    } else {
      var before := g[..run.first];
      if run.last < 7 {
        PrintTail(g, run, run.last + 1);
        GapText(before, g[run.last + 1..7], Hex(g[7]));
      } else {
        PrintEnd(g, run);
        GapText(before, [], "");
      }
      if run.first == 0 {
        RunTextAtStart(g, run, 0);
        GapText([], [], PrintFrom(g, run, 0));
      } else {
        PrintListed(g, run, 0, run.first);
        assert g[0..run.first] == before;
        RunText(g, run, run.first);
      }
    }
  }

  lemma PrintEnd(g: seq<Group>, run: Run)
    requires |g| == 8
    ensures PrintFrom(g, run, 8) == ""
  {
  }
}
