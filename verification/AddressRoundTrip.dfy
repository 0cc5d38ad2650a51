/** Reading a printed address: for every address and whatever lies in memory behind the text, the
  * exact condition under which the address comes back. */
module AddressRoundTrip {
  import opened Protocol
  import opened ZeroRuns
  import opened AddressText

  /** The bytes of some groups, in network byte order. */
  function Flat(g: seq<Group>): (b: seq<byte>)
    ensures |b| == 2 * |g|
  {
    seq(2 * |g|, k requires 0 <= k < 2 * |g| => if k % 2 == 0 then g[k / 2] / 256 else g[k / 2] % 256)
  }

  lemma WordBytes(high: byte, low: byte)
    ensures Word(high, low) / 256 == high && Word(high, low) % 256 == low
  {
  }

  lemma FlatGroups(a: seq<byte>)
    requires |a| == SIZE
    ensures Flat(Groups(a)) == a
  {
    var b := Flat(Groups(a));
    forall k | 0 <= k < SIZE ensures b[k] == a[k] {
      var i := k / 2;
      WordBytes(a[2 * i], a[2 * i + 1]);
      assert k == 2 * i || k == 2 * i + 1;
    }
  }

  lemma FlatConcat(g: seq<Group>, h: seq<Group>)
    ensures Flat(g + h) == Flat(g) + Flat(h)
  {
    forall k | 0 <= k < 2 * |g + h| ensures Flat(g + h)[k] == (Flat(g) + Flat(h))[k] {
      if k >= 2 * |g| {
        assert (k - 2 * |g|) / 2 == k / 2 - |g|;
      }
    }
  }

  // ---- Numbers ---------------------------------------------------------------------------------

  lemma DigitReads(d: nat)
    requires d < 16
    ensures HexValue(Digit(d)) == d && Digit(d) != ':' && Digit(d) != '-'
    ensures '0' <= Digit(d) <= '9' <==> d < 10
  {
  }

  lemma WalkStep(s: Scan, atStart: bool, text: string, rest: string, beyond: string)
    requires Scanning(s) && text != "" && text[1..] == rest && text[0] != ':' && HexValue(text[0]) >= 0
    ensures Walk(s, atStart, text, beyond)
         == Walk(s.(chunk := Collected(s.chunk, HexValue(text[0]))), false, rest, beyond)
  {
  }

  lemma {:induction false} WalkDigit(s: Scan, atStart: bool, x: nat, c: nat, rest: string, beyond: string)
    requires Scanning(s) && s.chunk < 0x1000 && x < 16 && c == s.chunk * 16 + x
    ensures c < 0x1_0000
    ensures Walk(s, atStart, [Digit(x)] + rest, beyond) == Walk(s.(chunk := c), false, rest, beyond)
  {
    DigitReads(x);
    assert Collected(s.chunk, x) == c;
    assert ([Digit(x)] + rest)[1..] == rest;
    WalkStep(s, atStart, [Digit(x)] + rest, rest, beyond);
  }

  lemma {:induction false} WalkHex(s: Scan, atStart: bool, n: nat, rest: string, beyond: string)
    requires Scanning(s) && s.chunk == 0 && n < 0x1_0000
    ensures Walk(s, atStart, Hex(n) + rest, beyond) == Walk(s.(chunk := n), false, rest, beyond)
    decreases n
  {
    if n < 16 {
      WalkDigit(s, atStart, n, n, rest, beyond);
    } else {
      var more := [Digit(n % 16)] + rest;
      assert Hex(n) + rest == Hex(n / 16) + more;
      WalkHex(s, atStart, n / 16, more, beyond);
      WalkDigit(s.(chunk := n / 16), false, n % 16, n, rest, beyond);
    }
  }

  lemma NibblesOf(c: nat, h: nat, t: nat, o: nat)
    requires h < 10 && t < 10 && o < 10 && c == h * 256 + t * 16 + o
    ensures c / 256 % 16 == h && c / 16 % 16 == t && c % 16 == o
  {
    assert c / 256 == h;
    assert c / 16 == h * 16 + t;
    assert (h * 16 + t) % 16 == t;
  }

  lemma FirstQuadOf(c: nat, h: nat, t: nat, o: nat)
    requires h < 10 && t < 10 && o < 10 && c == h * 256 + t * 16 + o
    ensures FirstQuad(c) == (h * 100 + t * 10 + o) % 256
  {
    NibblesOf(c, h, t, o);
  }

  lemma LastDigit(n: nat) returns (q: nat, d: nat)
    requires n >= 10
    ensures 0 < q < n && d < 10 && n == q * 10 + d && Decimal(n) == Decimal(q) + [Digit(d)]
  {
    q, d := n / 10, n % 10;
  }

  lemma {:induction false} DecimalDigits(n: nat)
    ensures forall c :: c in Decimal(n) ==> '0' <= c <= '9'
  {
    if n < 10 {
      DigitReads(n);
    } else {
      var q, d := LastDigit(n);
      DecimalDigits(q);
      DigitReads(d);
    }
  }

  lemma WalkTwo(s: Scan, atStart: bool, x: nat, y: nat, c: nat, rest: string, beyond: string)
    requires Scanning(s) && s.chunk == 0 && x < 10 && y < 10 && c == x * 16 + y
    ensures Walk(s, atStart, [Digit(x), Digit(y)] + rest, beyond) == Walk(s.(chunk := c), false, rest, beyond)
  {
    assert [Digit(x), Digit(y)] + rest == [Digit(x)] + ([Digit(y)] + rest);
    WalkDigit(s, atStart, x, x, [Digit(y)] + rest, beyond);
    WalkDigit(s.(chunk := x), false, y, c, rest, beyond);
  }

  lemma WalkThree(s: Scan, atStart: bool, x: nat, y: nat, z: nat, c: nat, rest: string, beyond: string)
    requires Scanning(s) && s.chunk == 0 && x < 10 && y < 10 && z < 10 && c == x * 256 + y * 16 + z
    ensures Walk(s, atStart, [Digit(x), Digit(y), Digit(z)] + rest, beyond)
         == Walk(s.(chunk := c), false, rest, beyond)
  {
    var more := [Digit(z)] + rest;
    assert [Digit(x), Digit(y), Digit(z)] + rest == [Digit(x), Digit(y)] + more;
    WalkTwo(s, atStart, x, y, x * 16 + y, more, beyond);
    WalkDigit(s.(chunk := x * 16 + y), false, z, c, rest, beyond);
  }

  /** The digits of a number below a thousand and what they make when read as hexadecimal ones. */
  lemma ThreeDigits(b: nat) returns (h: nat, t: nat, o: nat, c: nat)
    requires b < 1000
    ensures h < 10 && t < 10 && o < 10 && c == h * 256 + t * 16 + o && FirstQuad(c) == b % 256
    ensures Decimal(b) == if h > 0 then [Digit(h), Digit(t), Digit(o)]
                          else if t > 0 then [Digit(t), Digit(o)] else [Digit(o)]
  {
    h, t, o := 0, 0, b;
    if b >= 10 {
      t, o := LastDigit(b);
      if t >= 10 {
        h, t := LastDigit(t);
      }
    }
    c := h * 256 + t * 16 + o;
    FirstQuadOf(c, h, t, o);
  }

  /** The first number of a quad is read back from the group it was collected as. */
  lemma WalkFirst(s: Scan, atStart: bool, b: nat, rest: string, beyond: string) returns (c: nat)
    requires Scanning(s) && s.chunk == 0 && b < 1000
    ensures c < 0x1_0000 && FirstQuad(c) == b % 256
    ensures Walk(s, atStart, Decimal(b) + rest, beyond) == Walk(s.(chunk := c), false, rest, beyond)
  {
    var h, t, o;
    h, t, o, c := ThreeDigits(b);
    if h > 0 {
      WalkThree(s, atStart, h, t, o, c, rest, beyond);
    } else if t > 0 {
      WalkTwo(s, atStart, t, o, c, rest, beyond);
    } else {
      WalkDigit(s, atStart, o, c, rest, beyond);
    }
  }

  lemma LeadingDigit(d: nat, rest: string, n: nat)
    requires d < 10
    ensures Leading([Digit(d)] + rest, n) == Leading(rest, n * 10 + d)
  {
    DigitReads(d);
    assert ([Digit(d)] + rest)[1..] == rest;
  }

  lemma {:induction false} LeadingDecimal(n: nat, rest: string)
    ensures Leading(Decimal(n) + rest, 0) == Leading(rest, n)
  {
    if n < 10 {
      LeadingDigit(n, rest, 0);
    } else {
      var q, d := LastDigit(n);
      var more := [Digit(d)] + rest;
      assert Decimal(n) + rest == Decimal(q) + more;
      LeadingDecimal(q, more);
      LeadingDigit(d, rest, q);
    }
  }

  // ---- Dotted quads ----------------------------------------------------------------------------

  lemma {:induction false} FromDotSkips(lead: string, rest: string)
    requires '.' !in lead
    ensures FromDot(lead + rest) == FromDot(rest)
  {
    if lead == "" {
      assert lead + rest == rest;
    } else {
      assert (lead + rest)[1..] == lead[1..] + rest;
      FromDotSkips(lead[1..], rest);
    }
  }

  /** What lies behind a number that has been read to its end. */
  predicate Ends(rest: string) {
    rest == "" || !('0' <= rest[0] <= '9')
  }

  lemma AtoiDecimal(n: nat, rest: string)
    requires Ends(rest)
    ensures Atoi(Decimal(n) + rest) == n
  {
    LeadingDecimal(n, rest);
    DecimalDigits(n);
    assert Decimal(n)[0] in Decimal(n);
  }

  /** The numbers of `b`, each behind its dot. */
  function Behind(b: seq<nat>): string {
    if b == [] then "" else "." + Dots(b)
  }

  lemma DotsSplit(b: seq<nat>)
    requires b != []
    ensures Dots(b) == Decimal(b[0]) + Behind(b[1..])
  {
    if |b| == 1 {
      assert Decimal(b[0]) + "" == Decimal(b[0]);
    }
  }

  lemma DotsEnd(b: seq<nat>, end: string)
    requires b != []
    ensures Dots(b) + end == Decimal(b[0]) + (Behind(b[1..]) + end)
  {
    hide Dots, Decimal, Behind;
    DotsSplit(b);
    assert Decimal(b[0]) + Behind(b[1..]) + end == Decimal(b[0]) + (Behind(b[1..]) + end);
  }

  lemma FromDotDots(b: seq<nat>, end: string)
    requires b != []
    ensures FromDot(Dots(b) + end) == FromDot(Behind(b[1..]) + end)
  {
    DotsEnd(b, end);
    DecimalDigits(b[0]);
    FromDotSkips(Decimal(b[0]), Behind(b[1..]) + end);
  }

  /** What is stored of some numbers. */
  function Stored(b: seq<nat>): (s: seq<byte>)
    ensures |s| == |b|
  {
    seq(|b|, i requires 0 <= i < |b| => b[i] % 256)
  }

  lemma StoredFirst(b: seq<nat>)
    requires b != []
    ensures [b[0] % 256] + Stored(b[1..]) == Stored(b)
  {
  }

  lemma StoredBytes(b: seq<byte>)
    ensures Stored(b) == b
  {
  }

  lemma QuadsStep(n: nat, text: string, t: string, b: nat, more: seq<byte>)
    requires FromDot(text) == "." + t && t != "" && Atoi(t) == b
    requires Quads(n, t) == Accepted(more, Unset)
    ensures Quads(n + 1, text) == Accepted([b % 256] + more, Unset)
  {
    assert ("." + t)[1..] == t;
  }

  lemma {:induction false} BehindDot(b: seq<nat>, end: string)
    requires b != []
    ensures Behind(b) + end == "." + (Dots(b) + end) && FromDot(Behind(b) + end) == Behind(b) + end
  {
    hide Dots;
  }

  lemma QuadEnds(b: seq<nat>, end: string)
    requires Ends(end)
    ensures Ends(Behind(b) + end)
  {
    hide Dots;
    if b == [] {
      assert "" + end == end;
    }
  }

  /** The numbers behind the first dot are read back, up to the last. */
  lemma {:induction false} QuadsDots(text: string, b: seq<nat>, end: string)
    requires FromDot(text) == FromDot(Behind(b) + end) && Ends(end)
    ensures Quads(|b|, text) == Accepted(Stored(b), Unset)
    decreases |b|
  {
    hide Dots, Decimal, Atoi, FromDot, Behind, Ends;
    if b != [] {
      var t := Dots(b) + end;
      BehindDot(b, end);
      FromDotDots(b, end);
      QuadsDots(t, b[1..], end);
      DotsEnd(b, end);
      QuadEnds(b[1..], end);
      AtoiDecimal(b[0], Behind(b[1..]) + end);
      QuadsStep(|b| - 1, text, t, b[0], Stored(b[1..]));
      StoredFirst(b);
    }
  }

  lemma WalkPad(s: Scan, rest: string, beyond: string)
    requires Scanning(s) && MayPad(s)
    ensures Walk(s, true, ":" + rest, beyond) == Walk(Padded(s), true, rest, beyond)
  {
    assert (":" + rest)[1..] == rest;
  }

  lemma WalkColon(s: Scan, rest: string, beyond: string)
    requires Scanning(s) && |s.written| + 2 < SIZE
    ensures Walk(s, false, ":" + rest, beyond) == Walk(Pushed(s), true, rest, beyond)
  {
    assert (":" + rest)[1..] == rest;
  }

  lemma HexMapped()
    ensures Hex(0xffff) == "ffff"
  {
    assert Hex(0xf) == "f";
    assert Hex(0xff) == "f" + "f";
    assert Hex(0xfff) == "ff" + "f";
  }

  lemma WalkPrefix(t: string, beyond: string)
    ensures Walk(Scan([], Unset, 0), true, "::ffff:" + t, beyond)
         == Walk(Scan([0xff, 0xff], At(0), 0), true, t, beyond)
  {
    var s, p := Scan([], Unset, 0), Scan([], At(0), 0);
    var colon := ":" + t;
    HexMapped();
    assert "::ffff:" + t == ":" + (":" + (Hex(0xffff) + colon));
    WalkPad(s, ":" + (Hex(0xffff) + colon), beyond);
    WalkPad(p, Hex(0xffff) + colon, beyond);
    WalkHex(p, true, 0xffff, colon, beyond);
    WalkColon(p.(chunk := 0xffff), t, beyond);
    assert Pushed(p.(chunk := 0xffff)) == Scan([0xff, 0xff], At(0), 0);
  }

  lemma DottedReads(s: Scan, b: seq<byte>, n: nat, rest: string)
    requires Scanning(s) && s.written == [0xff, 0xff] && |b| == 4 && n == 3
    requires FirstQuad(s.chunk) == b[0] && Quads(n, rest) == Accepted(Stored(b[1..]), Unset)
    ensures Dotted(s, rest) == Accepted([0xff, 0xff] + b, s.pad)
  {
    StoredBytes(b[1..]);
    assert [0xff, 0xff] + [b[0]] + b[1..] == [0xff, 0xff] + b;
  }

  lemma WalkDot(s: Scan, rest: string, beyond: string)
    requires Scanning(s) && rest != "" && rest[0] == '.'
    ensures Walk(s, false, rest, beyond) == Dotted(s, rest)
  {
  }

  /** An IPv4-mapped address comes back. */
  lemma MappedWalk(b: seq<byte>, beyond: string)
    requires |b| == 4
    ensures Walk(Scan([], Unset, 0), true, "::ffff:" + Dots(b), beyond) == Accepted([0xff, 0xff] + b, At(0))
  {
    hide Walk, Dotted, Decimal, Dots, FirstQuad, Quads;
    var s, rest := Scan([0xff, 0xff], At(0), 0), Behind(b[1..]);
    WalkPrefix(Dots(b), beyond);
    DotsSplit(b);
    var c := WalkFirst(s, true, b[0], rest, beyond);
    QuadsDots(rest + "", b[1..], "");
    assert rest + "" == rest;
    DottedReads(s.(chunk := c), b, |b[1..]|, rest);
    WalkDot(s.(chunk := c), rest, beyond);
  }

  // ---- Groups ----------------------------------------------------------------------------------

  /** The scan after some more groups. */
  function Extended(s: Scan, g: seq<Group>): (e: Scan)
    ensures |e.written| == |s.written| + 2 * |g|
  {
    s.(written := s.written + Flat(g))
  }

  /** Ready to read group `i`. */
  predicate Ready(s: Scan, i: nat) {
    Scanning(s) && s.chunk == 0 && |s.written| <= 2 * i
  }

  lemma ExtendReady(s: Scan, g: seq<Group>, i: nat)
    requires Ready(s, i) && i + |g| < 8
    ensures Ready(Extended(s, g), i + |g|)
  {
    assert (|s.written| + 2 * |g|) % 2 == 0;
  }

  lemma ExtendNothing(s: Scan)
    ensures Extended(s, []) == s
  {
    assert s.written + Flat([]) == s.written;
  }

  lemma ExtendTwice(s: Scan, g: seq<Group>, i: nat, j: nat)
    requires i < j <= |g|
    ensures Extended(Extended(s, [g[i]]), g[i + 1..j]) == Extended(s, g[i..j])
  {
    assert [g[i]] + g[i + 1..j] == g[i..j];
    FlatConcat([g[i]], g[i + 1..j]);
    assert s.written + Flat([g[i]]) + Flat(g[i + 1..j]) == s.written + (Flat([g[i]]) + Flat(g[i + 1..j]));
  }

  lemma PushedExtends(s: Scan, x: Group)
    requires s.chunk == 0
    ensures Pushed(s.(chunk := x)) == Extended(s, [x])
  {
    assert Flat([x]) == [x / 256, x % 256];
  }

  lemma PrintGroup(g: seq<Group>, run: Run, i: nat)
    requires |g| == 8 && i < 8 && !Inside(run, i)
    ensures PrintFrom(g, run, i) == Hex(g[i]) + (if i < 7 then ":" + PrintFrom(g, run, i + 1) else "")
  {
    if i == 7 {
      assert Hex(g[i]) + "" + "" == Hex(g[i]) + "";
    }
  }

  /** One printed group is read into two bytes. */
  lemma WalkGroup(g: seq<Group>, run: Run, i: nat, s: Scan, beyond: string)
    requires |g| == 8 && i < 7 && !Inside(run, i)
    requires Ready(s, i) && Ready(Extended(s, [g[i]]), i + 1)
    ensures Walk(s, true, PrintFrom(g, run, i), beyond)
         == Walk(Extended(s, [g[i]]), true, PrintFrom(g, run, i + 1), beyond)
  {
    var rest := PrintFrom(g, run, i + 1);
    PrintGroup(g, run, i);
    WalkHex(s, true, g[i], ":" + rest, beyond);
    WalkColon(s.(chunk := g[i]), rest, beyond);
    PushedExtends(s, g[i]);
  }

  lemma WalkLastGroup(g: seq<Group>, run: Run, s: Scan, beyond: string)
    requires |g| == 8 && !Inside(run, 7) && Ready(s, 7)
    ensures Walk(s, true, PrintFrom(g, run, 7), beyond) == Accepted(s.written + Flat([g[7]]), s.pad)
  {
    PrintGroup(g, run, 7);
    WalkHex(s, true, g[7], "", beyond);
    PushedExtends(s, g[7]);
  }

  predicate Apart(run: Run, i: nat, j: nat) {
    run.Run? ==> j <= run.first || run.last < i
  }

  /** The groups from `i` up to `j` are read into their bytes. */
  lemma {:induction false} WalkGroups(g: seq<Group>, run: Run, i: nat, j: nat, s: Scan, beyond: string)
    requires |g| == 8 && i <= j < 8 && Apart(run, i, j)
    requires Ready(s, i)
    ensures Ready(Extended(s, g[i..j]), j)
    ensures Walk(s, true, PrintFrom(g, run, i), beyond)
         == Walk(Extended(s, g[i..j]), true, PrintFrom(g, run, j), beyond)
    decreases j - i
  {
    hide Walk, PrintFrom, Extended;
    if i == j {
      ExtendNothing(s);
      assert g[i..j] == [];
    } else {
      ExtendReady(s, [g[i]], i);
      WalkGroup(g, run, i, s, beyond);
      WalkGroups(g, run, i + 1, j, Extended(s, [g[i]]), beyond);
      ExtendTwice(s, g, i, j);
    }
  }

  lemma ExtendLast(s: Scan, g: seq<Group>, i: nat)
    requires |g| == 8 && i < 8
    ensures Extended(s, g[i..7]).written + Flat([g[7]]) == s.written + Flat(g[i..])
  {
    assert g[i..7] + [g[7]] == g[i..];
    FlatConcat(g[i..7], [g[7]]);
    assert s.written + Flat(g[i..7]) + Flat([g[7]]) == s.written + (Flat(g[i..7]) + Flat([g[7]]));
  }

  /** The groups from `i` to the end are read into their bytes. */
  lemma WalkRest(g: seq<Group>, run: Run, i: nat, s: Scan, beyond: string)
    requires |g| == 8 && i < 8 && Apart(run, i, 8)
    requires Ready(s, i)
    ensures Walk(s, true, PrintFrom(g, run, i), beyond) == Accepted(s.written + Flat(g[i..]), s.pad)
  {
    WalkGroups(g, run, i, 7, s, beyond);
    WalkLastGroup(g, run, Extended(s, g[i..7]), beyond);
    ExtendLast(s, g, i);
  }

  lemma PieceInside(g: seq<Group>, run: Run, i: nat)
    requires |g| == 8 && Inside(run, i) && run.last < 8
    ensures i > 0 ==> Piece(g, run, i) == if i == run.last then ":" else ""
    ensures i == 0 && run.last > 0 ==> Piece(g, run, i) == ":"
    ensures i == 0 == run.last ==> Piece(g, run, i) == "::"
  {
  }

  /** Inside the run nothing is printed but the colon of its last group. */
  lemma {:induction false} RunText(g: seq<Group>, run: Run, i: nat)
    requires |g| == 8 && Inside(run, i) && run.last < 8 && i > 0
    ensures PrintFrom(g, run, i) == ":" + PrintFrom(g, run, run.last + 1)
    decreases 8 - i
  {
    PieceInside(g, run, i);
    if i < run.last {
      RunText(g, run, i + 1);
      assert "" + PrintFrom(g, run, i + 1) == PrintFrom(g, run, i + 1);
    }
  }

  /** At the front of the text the run is two colons. */
  lemma RunTextAtStart(g: seq<Group>, run: Run, i: nat)
    requires |g| == 8 && Inside(run, i) && run.last < 8 && i == 0
    ensures PrintFrom(g, run, i) == ":" + (":" + PrintFrom(g, run, run.last + 1))
  {
    var after := PrintFrom(g, run, run.last + 1);
    PieceInside(g, run, i);
    if run.last > 0 {
      RunText(g, run, i + 1);
    } else {
      assert "::" + after == ":" + (":" + after);
    }
  }

  /** Reading the run leaves its place behind as the pad. */
  lemma {:induction false} WalkRun(g: seq<Group>, run: Run, s: Scan, beyond: string)
    requires |g| == 8 && run.Run? && run.first <= run.last < 8
    requires Scanning(s) && s.pad.Unset?
    requires run.first == 0 ==> s.written == []
    ensures Walk(s, true, PrintFrom(g, run, run.first), beyond)
         == Walk(Padded(s), true, PrintFrom(g, run, run.last + 1), beyond)
  {
    var after := PrintFrom(g, run, run.last + 1);
    if run.first > 0 {
      RunText(g, run, run.first);
      WalkPad(s, after, beyond);
    } else {
      RunTextAtStart(g, run, run.first);
      WalkPad(s, ":" + after, beyond);
      WalkPad(Padded(s), after, beyond);
    }
  }

  // ---- The whole address -----------------------------------------------------------------------

  const START := Scan([], Unset, 0)

  predicate InGroups(run: Run) {
    run.Run? && run.first <= run.last < 8
  }

  /** The groups before and behind the run. */
  function Around(g: seq<Group>, run: Run): seq<byte>
    requires |g| == 8 && InGroups(run)
  {
    Flat(g[..run.first]) + Flat(g[run.last + 1..])
  }

  /** The scan when the run has been read. */
  function BeforeRun(g: seq<Group>, run: Run): (s: Scan)
    requires |g| == 8 && InGroups(run)
    ensures Scanning(s) && s.chunk == 0
  {
    Scan(Flat(g[..run.first]), At(2 * run.first), 0)
  }

  lemma WalkToRun(g: seq<Group>, run: Run, beyond: string)
    requires |g| == 8 && InGroups(run)
    ensures Walk(START, true, PrintFrom(g, run, 0), beyond)
         == Walk(BeforeRun(g, run), true, PrintFrom(g, run, run.last + 1), beyond)
  {
    hide Walk, PrintFrom, Flat;
    WalkGroups(g, run, 0, run.first, START, beyond);
    var s := Extended(START, g[0..run.first]);
    assert g[0..run.first] == g[..run.first] && [] + Flat(g[..run.first]) == Flat(g[..run.first]);
    WalkRun(g, run, s, beyond);
  }

  lemma WalkAround(g: seq<Group>, run: Run, beyond: string)
    requires |g| == 8 && InGroups(run) && run.last < 7
    ensures Walk(START, true, PrintFrom(g, run, 0), beyond) == Accepted(Around(g, run), At(2 * run.first))
  {
    WalkToRun(g, run, beyond);
    WalkRest(g, run, run.last + 1, BeforeRun(g, run), beyond);
  }

  /** Some character behind the text is not a colon. */
  predicate Stops(beyond: string) {
    exists c :: c in beyond && c != ':'
  }

  lemma {:induction false} TailEnds(s: Scan, beyond: string)
    requires Scanning(s)
    ensures Tail(s, beyond) == if Stops(beyond) then Accepted(Pushed(s).written, s.pad) else Fault
  {
    if beyond != "" {
      assert forall c :: c in beyond <==> c == beyond[0] || c in beyond[1..];
      assert beyond[0] in beyond;
      assert beyond[0] == ':' && Stops(beyond) ==> Stops(beyond[1..]);
      TailEnds(s, beyond[1..]);
    }
  }

  lemma WalkAtEnd(s: Scan, beyond: string)
    requires Scanning(s) && s.chunk == 0 && s.pad == At(|s.written|)
    ensures Walk(s, true, "", beyond)
         == if Stops(beyond) then Accepted(s.written + Zero(2), s.pad) else Fault
  {
    hide Stops;
    assert Padded(s) == s;
    TailEnds(s, beyond);
    assert Pushed(s).written == s.written + Zero(2);
  }

  lemma WalkToTail(g: seq<Group>, run: Run, beyond: string)
    requires |g| == 8 && InGroups(run) && run.last == 7
    ensures Walk(START, true, PrintFrom(g, run, 0), beyond)
         == if Stops(beyond) then Accepted(Flat(g[..run.first]) + Zero(2), At(2 * run.first)) else Fault
  {
    hide Walk, Stops, Flat;
    WalkToRun(g, run, beyond);
    assert PrintFrom(g, run, 8) == "";
    WalkAtEnd(BeforeRun(g, run), beyond);
  }

  /** The run's groups are all zero, so zeros in their place complete the address. */
  lemma FillsIn(g: seq<Group>, run: Run)
    requires |g| == 8 && InGroups(run) && Zeros(g, run.first, run.last)
    ensures Flat(g[..run.first]) + Zero(2 * (run.last + 1 - run.first)) + Flat(g[run.last + 1..]) == Flat(g)
  {
    var run0, rest := g[run.first..run.last + 1], g[run.last + 1..];
    forall k | 0 <= k < |Flat(run0)| ensures Flat(run0)[k] == 0 {
      assert g[run.first + k / 2] == 0;
    }
    assert Flat(run0) == Zero(2 * |run0|);
    assert g == g[..run.first] + run0 + rest;
    FlatConcat(g[..run.first] + run0, rest);
    FlatConcat(g[..run.first], run0);
  }

  lemma FinishAround(g: seq<Group>, run: Run, was: seq<byte>)
    requires |g| == 8 && InGroups(run) && Zeros(g, run.first, run.last) && |was| == SIZE
    ensures Finish(was, Accepted(Around(g, run), At(2 * run.first))) == Done(Flat(g))
  {
    var w, p := Around(g, run), 2 * run.first;
    assert w[..p] == Flat(g[..run.first]) && w[p..] == Flat(g[run.last + 1..]);
    FillsIn(g, run);
  }

  lemma FinishTail(g: seq<Group>, run: Run, was: seq<byte>)
    requires |g| == 8 && InGroups(run) && Zeros(g, run.first, run.last) && |was| == SIZE && run.last == 7
    ensures Finish(was, Accepted(Flat(g[..run.first]) + Zero(2), At(2 * run.first))) == Done(Flat(g))
  {
    var head, p := Flat(g[..run.first]), 2 * run.first;
    var w := head + Zero(2);
    assert w[..p] == head && w[p..] == Zero(2);
    FillsIn(g, run);
    assert head + Zero(SIZE - |w|) + Zero(2) == head + Zero(2 * (8 - run.first)) + Flat(g[8..]);
  }

  lemma MappedHead(a: seq<byte>)
    requires |a| == SIZE && IsMapped(Groups(a))
    ensures a[..10] == Zero(10) && a[10] == a[11] == 0xff
  {
    ElidedLongest(Groups(a));
    forall k | 0 <= k < 10 ensures a[k] == 0 {
      assert Groups(a)[k / 2] == 0;
    }
    assert Groups(a)[5] == a[10] as int * 256 + a[11] as int;
  }

  lemma FinishMapped(a: seq<byte>, was: seq<byte>)
    requires |a| == |was| == SIZE && IsMapped(Groups(a))
    ensures Finish(was, Accepted([0xff, 0xff] + a[12..], At(0))) == Done(a)
  {
    var w := [0xff, 0xff] + a[12..];
    MappedHead(a);
    assert w[..0] == [] && w[0..] == w;
    assert w == a[10..];
    assert [] + Zero(10) + w == a[..10] + a[10..] == a;
  }

  /** The last group belongs to the elided run. */
  predicate TailElided(g: seq<Group>)
    requires |g| == 8
  {
    Elided(g).Run? && Elided(g).last == 7
  }

  lemma ReadBackGroups(g: seq<Group>, was: seq<byte>, beyond: string)
    requires |g| == 8 && |was| == SIZE
    ensures Finish(was, Walk(START, true, PrintFrom(g, Elided(g), 0), beyond))
         == if TailElided(g) && !Stops(beyond) then Overrun else Done(Flat(g))
  {
    var run := Elided(g);
    ElidedLongest(g);
    if run.NoRun? {
      WalkRest(g, run, 0, START, beyond);
      assert START.written + Flat(g[0..]) == Flat(g) by {
        assert g[0..] == g;
      }
      assert Flat(g) + was[16..] == Flat(g);
    } else if run.last < 7 {
      WalkAround(g, run, beyond);
      FinishAround(g, run, was);
    } else {
      WalkToTail(g, run, beyond);
      FinishTail(g, run, was);
    }
  }

  /** Reading a printed address gives the address back, whatever was stored before and whatever
    * lies behind the text, with one exception: if the last group was elided and nothing but
    * colons lies behind the text, the reader leaves the readable memory. */
  lemma ReadBack(a: seq<byte>, was: seq<byte>, beyond: string)
    requires |a| == |was| == SIZE
    ensures Assign(was, Print(a), beyond) == if TailElided(Groups(a)) && !Stops(beyond) then Overrun else Done(a)
  {
    var g := Groups(a);
    if IsMapped(g) {
      MappedWalk(a[12..], beyond);
      FinishMapped(a, was);
    } else {
      ReadBackGroups(g, was, beyond);
      FlatGroups(a);
    }
  }

  /** Addresses that come back wherever the text lies are those whose last group is printed. */
  lemma SafeIffTailPrinted(a: seq<byte>, was: seq<byte>)
    requires |a| == |was| == SIZE
    ensures (forall beyond :: Assign(was, Print(a), beyond) == Done(a)) <==> !TailElided(Groups(a))
  {
    forall beyond
      ensures Assign(was, Print(a), beyond) == if TailElided(Groups(a)) && !Stops(beyond) then Overrun else Done(a)
    {
      ReadBack(a, was, beyond);
    }
    assert !Stops("");
    assert Assign(was, Print(a), "") == if TailElided(Groups(a)) then Overrun else Done(a);
  }

  /** The last group is elided exactly when it is zero and no stretch of zeros is longer than the
    * one it ends. */
  lemma TailElidedIff(g: seq<Group>)
    requires |g| == 8
    ensures TailElided(g) <==>
      ZeroStart(g, 8) < 8 && forall i: nat, j: nat :: Zeros(g, i, j) ==> j - i <= 7 - ZeroStart(g, 8)
  {
    var z, run := ZeroStart(g, 8), Elided(g);
    ElidedLongest(g);
    if z < 8 {
      assert Zeros(g, z, 7);
    }
    if TailElided(g) {
      assert g[7] == 0;
      assert Zeros(g, run.first, 7);
    } else if run.Run? && z < 8 {
      assert Zeros(g, run.first, run.last);
    }
  }

  /** The unspecified address is one whose text, with nothing readable behind it, cannot be read back. */
  lemma UnspecifiedOverruns(was: seq<byte>)
    requires |was| == SIZE
    ensures TailElided(Groups(Zero(SIZE))) && Assign(was, Print(Zero(SIZE)), "") == Overrun
  {
    var g := Groups(Zero(SIZE));
    assert forall i :: 0 <= i < 8 ==> g[i] == 0;
    assert Zeros(g, 0, 7);
    ElidedLongest(g);
    assert !Stops("");
    ReadBack(Zero(SIZE), was, "");
  }

  lemma {:induction false} HexShort(n: nat)
    requires n < 0x1_0000
    ensures |Hex(n)| == if n < 0x10 then 1 else if n < 0x100 then 2 else if n < 0x1000 then 3 else 4
    decreases n
  {
    if n >= 16 {
      HexShort(n / 16);
    }
  }

  lemma {:induction false} PrintFromShort(g: seq<Group>, run: Run, i: nat)
    requires |g| == 8 && i < 8
    ensures |PrintFrom(g, run, i)| <= 5 * (8 - i) - (if Inside(run, 7) then 0 else 1)
    decreases 8 - i
  {
    hide PrintFrom, Piece, Hex;
    PieceShort(g, run, i);
    PrintFirst(g, run, i);
    if i < 7 {
      PrintFromShort(g, run, i + 1);
    }
  }

  lemma PieceShort(g: seq<Group>, run: Run, i: nat)
    requires |g| == 8 && i < 8
    ensures |Piece(g, run, i)| <= 5 - if i == 7 && !Inside(run, 7) then 1 else 0
  {
    hide Hex;
    HexShort(g[i]);
  }

  lemma PrintFirst(g: seq<Group>, run: Run, i: nat)
    requires |g| == 8 && i < 8
    ensures |PrintFrom(g, run, i)| == |Piece(g, run, i)| + |PrintFrom(g, run, i + 1)|
    ensures |PrintFrom(g, run, 8)| == 0
  {
    hide Piece;
  }

  lemma {:induction false} DotsShort(b: seq<byte>)
    ensures |Dots(b)| <= 4 * |b|
  {
    if b != [] {
      assert |Decimal(b[0])| <= 3 by {
        assert |Decimal(b[0] / 10 / 10)| == 1;
      }
      DotsShort(b[1..]);
    }
  }

  /** The printer's buffer holds forty characters, which every address fits, also with the dot
    * that is written behind the last number of a dotted quad and then taken back. */
  lemma PrintFitsBuffer(a: seq<byte>)
    requires |a| == SIZE
    ensures |Print(a)| <= 40 && (IsMapped(Groups(a)) ==> |Print(a)| < 40)
  {
    DotsShort(a[12..]);
    PrintFromShort(Groups(a), Elided(Groups(a)), 0);
  }
}
