/** The text form of IPv6 addresses (section 2.2 of RFC 4291): the printer, the reader as a machine
  * over the characters still to come, and exactly when reading what was printed restores the
  * address. */
module AddressText {
  import opened Protocol
  import opened ZeroRuns

  const SIZE: nat := 16

  // ---- Printing --------------------------------------------------------------------------------

  /** The eight groups of an address, each in network byte order. */
  function Groups(a: seq<byte>): (g: seq<Group>)
    requires |a| == SIZE
    ensures |g| == 8
  {
    seq(8, i requires 0 <= i < 8 => Word(a[2 * i], a[2 * i + 1]))
  }

  function Digit(d: nat): char
    requires d < 16
  {
    "0123456789abcdef"[d]
  }

  function Hex(n: nat): (s: string)
    ensures s != ""
  {
    if n < 16 then [Digit(n)] else Hex(n / 16) + [Digit(n % 16)]
  }

  function Decimal(n: nat): (s: string)
    ensures s != ""
  {
    if n < 10 then [Digit(n)] else Decimal(n / 10) + [Digit(n % 10)]
  }

  predicate Inside(run: Run, i: nat) {
    run.Run? && run.first <= i <= run.last
  }

  /** What is printed for group `i`. */
  function Piece(g: seq<Group>, run: Run, i: nat): string
    requires |g| == 8 && i < 8
  {
    if Inside(run, i) then
      (if i == run.first && i == 0 then ":" else "") + (if i == run.last then ":" else "")
    else
      Hex(g[i]) + (if i < 7 then ":" else "")
  }

  /** The text from group `i` on. */
  function PrintFrom(g: seq<Group>, run: Run, i: nat): string
    requires |g| == 8 && i <= 8
    decreases 8 - i
  {
    if i == 8 then "" else Piece(g, run, i) + PrintFrom(g, run, i + 1)
  }

  function Dots(b: seq<nat>): string {
    if b == [] then ""
    else if |b| == 1 then Decimal(b[0])
    else Decimal(b[0]) + ("." + Dots(b[1..]))
  }

  predicate IsMapped(g: seq<Group>)
    requires |g| == 8
  {
    Elided(g) == Run(0, 4) && g[5] == 0xffff
  }

  function Print(a: seq<byte>): string
    requires |a| == SIZE
  {
    var g := Groups(a);
    if IsMapped(g) then "::ffff:" + Dots(a[12..]) else PrintFrom(g, Elided(g), 0)
  }

  // ---- Reading ---------------------------------------------------------------------------------

  /** Where the run of zeros is to be inserted, once known. */
  datatype Pad = Unset | At(offset: nat)

  /** Bytes written so far, the pad and the group being collected. */
  datatype Scan = Scan(written: seq<byte>, pad: Pad, chunk: nat)

  /** `Fault`: every character readable behind the text has been read and more is wanted. */
  datatype Ending = Accepted(written: seq<byte>, pad: Pad) | Rejected | Fault

  datatype Outcome = Done(bytes: seq<byte>) | Overrun

  predicate Fits(written: seq<byte>, pad: Pad) {
    |written| <= SIZE && (pad.At? ==> pad.offset <= |written|)
  }

  predicate Scanning(s: Scan) {
    Fits(s.written, s.pad) && |s.written| < SIZE && |s.written| % 2 == 0 && s.chunk < 0x1_0000
  }

  function Pushed(s: Scan): Scan
    requires s.chunk < 0x1_0000
  {
    Scan(s.written + [s.chunk / 256, s.chunk % 256], s.pad, 0)
  }

  function Padded(s: Scan): Scan {
    s.(pad := At(|s.written|))
  }

  /** A second pad is an error unless it is where the first one is. */
  predicate MayPad(s: Scan) {
    s.pad.Unset? || s.pad.offset == |s.written|
  }

  function HexValue(c: char): (d: int)
    ensures -1 <= d < 16
  {
    if '0' <= c <= '9' then c as int - '0' as int
    else if 'A' <= c <= 'F' then c as int - 'A' as int + 10
    else if 'a' <= c <= 'f' then c as int - 'a' as int + 10
    else -1
  }

  /** One more hexadecimal digit shifted into a group of sixteen bits. */
  function Collected(chunk: nat, d: nat): (c: nat)
    requires d < 16
    ensures c < 0x1_0000
  {
    chunk % 0x1000 * 16 + d
  }

  /** The leading decimal digits of `text`, continuing the number `n`. */
  function Leading(text: string, n: nat): nat {
    if text != "" && '0' <= text[0] <= '9' then Leading(text[1..], n * 10 + HexValue(text[0])) else n
  }

  function Atoi(text: string): int {
    if text != "" && text[0] == '-' then 0 - Leading(text[1..], 0) else Leading(text, 0)
  }

  /** `text` from its first dot on. */
  function FromDot(text: string): (t: string)
    ensures |t| <= |text| && (t != "" ==> t[0] == '.')
  {
    if text == "" || text[0] == '.' then text else FromDot(text[1..])
  }

  /** The next `n` numbers of a dotted quad, each behind a dot that is not the last character. */
  function Quads(n: nat, text: string): (e: Ending)
    ensures !e.Fault? && (e.Accepted? ==> |e.written| == n)
  {
    if n == 0 then Accepted([], Unset)
    else
      var t := FromDot(text);
      if |t| < 2 then Rejected
      else
        var more := Quads(n - 1, t[1..]);
        if more.Accepted? then Accepted([Atoi(t[1..]) % 256] + more.written, Unset) else Rejected
  }

  /** The first number of a dotted quad was collected as a hexadecimal group. */
  function FirstQuad(chunk: nat): byte {
    (chunk / 256 % 16 * 100 + chunk / 16 % 16 * 10 + chunk % 16) % 256
  }

  /** A dot was met: an IPv4 tail, or with nothing before it a whole IPv4 address. */
  function Dotted(s: Scan, rest: string): (e: Ending)
    requires Scanning(s)
    ensures !e.Fault? && (e.Accepted? ==> Fits(e.written, e.pad))
  {
    var alone := s.written == [];
    var before, pad := if alone then [0xff, 0xff] else s.written, if alone then At(0) else s.pad;
    var quads := Quads(3, rest);
    if |before| > 12 || quads.Rejected? then Rejected
    else Accepted(before + [FirstQuad(s.chunk)] + quads.written, pad)
  }

  /** The end of the text came straight after a colon: reading goes on behind it, where each
    * further colon is one more empty group and anything else ends the last group. */
  function Tail(s: Scan, beyond: string): (e: Ending)
    requires Scanning(s)
    ensures e.Accepted? ==> Fits(e.written, e.pad)
  {
    if beyond == "" then Fault
    else if beyond[0] == ':' then Tail(s, beyond[1..])
    else Accepted(Pushed(s).written, s.pad)
  }

  /** The characters still to be read are `rest`; behind them lie `beyond`.  `atStart`: no character
    * of the current group has been read, because the text starts here or a colon came before. */
  function Walk(s: Scan, atStart: bool, rest: string, beyond: string): (e: Ending)
    requires Scanning(s)
    ensures e.Accepted? ==> Fits(e.written, e.pad)
    decreases |rest|
  {
    if rest == "" then
      if !atStart then Accepted(Pushed(s).written, s.pad)
      else if MayPad(s) then Tail(Padded(s), beyond)
      else Rejected
    else if rest[0] == ':' then
      if atStart then
        if MayPad(s) then Walk(Padded(s), true, rest[1..], beyond) else Rejected
      else if |s.written| + 2 >= SIZE then Accepted(Pushed(s).written, s.pad)
      else Walk(Pushed(s), true, rest[1..], beyond)
    else if HexValue(rest[0]) >= 0 then
      Walk(s.(chunk := Collected(s.chunk, HexValue(rest[0]))), false, rest[1..], beyond)
    else if rest[0] == '.' then Dotted(s, rest)
    else Rejected
  }

  function Zero(n: nat): (z: seq<byte>)
    ensures |z| == n
  {
    seq(n, i => 0)
  }

  /** An error clears the address; a pad moves what follows it to the end; without either, bytes
    * that were not written keep their old values. */
  function Finish(was: seq<byte>, e: Ending): (o: Outcome)
    requires |was| == SIZE && (e.Accepted? ==> Fits(e.written, e.pad))
    ensures o.Done? ==> |o.bytes| == SIZE
  {
    match e
    case Fault => Overrun
    case Rejected => Done(Zero(SIZE))
    case Accepted(w, Unset) => Done(w + was[|w|..])
    case Accepted(w, At(p)) => Done(w[..p] + Zero(SIZE - |w|) + w[p..])
  }

  function Assign(was: seq<byte>, text: string, beyond: string): (o: Outcome)
    requires |was| == SIZE
    ensures o.Done? ==> |o.bytes| == SIZE
  {
    Finish(was, Walk(Scan([], Unset, 0), true, text, beyond))
  }
}
