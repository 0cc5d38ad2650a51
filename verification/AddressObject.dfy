/** The address object: text is read straight into its sixteen bytes and the bytes are printed group
  * by group, each as `AddressText` says. */
module AddressObject {
  import opened Protocol
  import opened ZeroRuns
  import opened AddressText
  import opened Seqs

  /** The first number of a dotted quad, one nibble of `chunk` after the other. */
  function Shifted(number: byte, chunk: nat, n: nat): byte
    decreases n
  {
    if n == 0 then number
    else Shifted((number as int * 10 + chunk / 0x100 % 16) % 256, chunk * 16 % 0x1_0000, n - 1)
  }

  lemma NextNibbles(chunk: nat)
    requires chunk < 0x1_0000
    ensures var next := chunk * 16 % 0x1_0000; next / 0x100 % 16 == chunk / 16 % 16
    ensures var next := chunk * 16 % 0x1_0000; next / 16 % 16 == chunk % 16
  {
    var a, low := chunk / 0x1000, chunk % 0x1000;
    DropsHigh(a, low * 16);
    LowNibbles(low / 0x100, low / 16 % 16, low % 16);
    SameLow(chunk, low);
  }

  lemma DropsHigh(a: nat, m: nat)
    requires m < 0x1_0000
    ensures (a * 0x1_0000 + m) % 0x1_0000 == m
  {
  }

  /** Shifting the three low nibbles. */
  lemma LowNibbles(c: nat, d: nat, e: nat)
    requires d < 16 && e < 16
    ensures var m := (c * 0x100 + d * 16 + e) * 16; m / 0x100 % 16 == d && m / 16 % 16 == e
  {
    assert (c * 0x100 + d * 16 + e) * 16 / 0x100 == c * 16 + d;
    assert (c * 0x100 + d * 16 + e) * 16 / 16 == c * 0x100 + d * 16 + e;
  }

  lemma {:induction false} SameLow(chunk: nat, low: nat)
    requires low == chunk % 0x1000
    ensures low == low / 0x100 * 0x100 + low / 16 % 16 * 16 + low % 16
    ensures low / 16 % 16 == chunk / 16 % 16 && low % 16 == chunk % 16
  {
    var q := low / 16;
    QuotientTwice(low);
    assert q == q / 16 * 16 + q % 16;
    assert low == q * 16 + low % 16;
    HighAdds(chunk / 0x1000, low);
  }

  lemma QuotientTwice(n: nat)
    ensures n / 16 / 16 == n / 0x100
  {
  }

  lemma HighAdds(high: nat, low: nat)
    ensures (high * 0x1000 + low) / 16 % 16 == low / 16 % 16 && (high * 0x1000 + low) % 16 == low % 16
  {
    assert (high * 0x1000 + low) / 16 == high * 0x100 + low / 16;
    MultipleDrops(high * 16, low / 16);
    MultipleDrops(high * 0x100, low);
  }

  lemma MultipleDrops(k: nat, n: nat)
    ensures (k * 16 + n) % 16 == n % 16
  {
  }

  lemma NoWrap(n: nat)
    requires n < 256
    ensures n % 256 == n
  {
  }

  lemma ShiftOnce(number: byte, chunk: nat, n: nat, nibble: nat, next: byte)
    requires n > 0 && nibble == chunk / 0x100 % 16 && next == (number as int * 10 + nibble) % 256
    ensures Shifted(number, chunk, n) == Shifted(next, chunk * 16 % 0x1_0000, n - 1)
  {
  }

  lemma ShiftThrice(x: nat, y: nat, z: nat, c: nat, d: nat, e: nat)
    requires x < 16 && y < 16 && z < 16
    requires x == c / 0x100 % 16 && y == d / 0x100 % 16 && z == e / 0x100 % 16
    requires d == c * 16 % 0x1_0000 && e == d * 16 % 0x1_0000
    ensures Shifted(0, c, 3) == (x * 100 + y * 10 + z) % 256
  {
    NoWrap(x);
    NoWrap(x * 10 + y);
    ShiftOnce(0, c, 3, x, x);
    ShiftOnce(x, d, 2, y, x * 10 + y);
    ShiftOnce(x * 10 + y, e, 1, z, (x * 100 + y * 10 + z) % 256);
  }

  lemma ShiftedIsFirstQuad(chunk: nat)
    requires chunk < 0x1_0000
    ensures Shifted(0, chunk, 3) == FirstQuad(chunk)
  {
    var second := chunk * 16 % 0x1_0000;
    NextNibbles(chunk);
    NextNibbles(second);
    ShiftThrice(chunk / 0x100 % 16, chunk / 16 % 16, chunk % 16, chunk, second, second * 16 % 0x1_0000);
  }

  predicate AtStart(memory: string, read: nat)
    requires read <= |memory|
  {
    read == 0 || memory[read - 1] == ':'
  }

  /** What reading from `memory[read..size]` on, or behind the text, ends in. */
  function Remaining(memory: string, size: nat, read: nat, s: Scan): (e: Ending)
    requires size <= |memory| && read <= |memory| + 1 && Scanning(s)
  {
    if read <= size then
      Walk(s, AtStart(memory, read), memory[read..size], memory[size..])
    else Tail(s, memory[read - 1..])
  }

  /** An empty group. */
  lemma RemainingPad(memory: string, size: nat, read: nat, s: Scan)
    requires size <= |memory| && read <= |memory| && Scanning(s) && AtStart(memory, read)
    requires read >= size || memory[read] == ':'
    requires read > size ==> s.pad == At(|s.written|)
    ensures Remaining(memory, size, read, s)
         == if MayPad(s) then Remaining(memory, size, read + 1, Padded(s)) else Rejected
  {
    if read > size {
      assert memory[read - 1..][1..] == memory[read..];
      assert Padded(s) == s;
    } else if read < size {
      assert memory[read..size][1..] == memory[read + 1..size];
    }
  }

  /** The end of a group. */
  lemma RemainingGroup(memory: string, size: nat, read: nat, s: Scan)
    requires size <= |memory| && read <= |memory| && Scanning(s) && !AtStart(memory, read)
    requires read >= size || memory[read] == ':'
    ensures Remaining(memory, size, read, s)
         == if |s.written| + 2 >= SIZE || read >= size then Accepted(Pushed(s).written, s.pad)
            else Remaining(memory, size, read + 1, Pushed(s))
  {
    if read < size {
      assert memory[read..size][1..] == memory[read + 1..size];
    }
  }

  /** Any other character. */
  lemma RemainingOther(memory: string, size: nat, read: nat, s: Scan)
    requires size <= |memory| && read < size && Scanning(s) && memory[read] != ':'
    ensures Remaining(memory, size, read, s)
         == if HexValue(memory[read]) >= 0 then
              Remaining(memory, size, read + 1, s.(chunk := Collected(s.chunk, HexValue(memory[read]))))
            else if memory[read] == '.' then Dotted(s, memory[read..size])
            else Rejected
  {
    assert memory[read..size][1..] == memory[read + 1..size];
  }

  lemma Behind(now: seq<byte>, was: seq<byte>, i: nat, j: nat)
    requires i <= j <= |now| == |was| && now[i..] == was[i..]
    ensures now[j..] == was[j..]
  {
    assert now[j..] == now[i..][j - i..];
  }

  /** One more number and its dot: the dot is one too many after the last number. */
  lemma DotsMore(text: string, b: seq<byte>, rest: seq<byte>, whole: string)
    requires b != [] && b[1..] == rest && text + Dots(b) == whole
    ensures var more := text + Decimal(b[0]) + ".";
            if rest == [] then more == whole + "." else more + Dots(rest) == whole
  {
    if rest != [] {
      Regroup(text, Decimal(b[0]), "." + Dots(rest));
      Regroup(text + Decimal(b[0]), ".", Dots(rest));
    }
  }

  class Address {
    const data: array<byte>

    ghost predicate Valid() {
      data.Length == SIZE
    }

    constructor (bytes: seq<byte>)
      requires |bytes| == SIZE
      ensures Valid() && fresh(data) && data[..] == bytes
    {
      data := new byte[SIZE](i requires 0 <= i < |bytes| => bytes[i]);
    }

    /** Clears the bytes from `start` up to `end`. */
    method Clear(start: nat, end: nat)
      requires Valid() && start <= end <= SIZE
      modifies data
      ensures data[..] == old(data[..start]) + Zero(end - start) + old(data[end..])
    {
      forall k | start <= k < end {
        data[k] := 0;
      }
    }

    /** Moves what follows the pad to the end and clears the gap. */
    method InsertZeros(pad: nat, write: nat)
      requires Valid() && pad <= write <= SIZE
      modifies data
      ensures data[..] == old(data[..pad]) + Zero(SIZE - write) + old(data[pad..write])
    {
      if pad == write {
        Clear(write, SIZE);
      } else {
        var padSize := SIZE - write;
        forall k | pad + padSize <= k < SIZE {
          data[k] := data[k - padSize];
        }
        assert data[pad + padSize..] == old(data[pad..write]);
        Clear(pad, pad + padSize);
      }
    }

    /** The first number of a dotted quad. */
    method PutFirst(write: nat, chunk: nat)
      requires Valid() && write < SIZE && chunk < 0x1_0000
      modifies data
      ensures data[..] == old(data[..])[write := FirstQuad(chunk)]
    {
      var rest := chunk;
      data[write] := 0;
      for i := 0 to 3
        invariant rest < 0x1_0000 && Shifted(data[write], rest, 3 - i) == Shifted(0, chunk, 3)
        invariant data[..] == old(data[..])[write := data[write]]
      {
        data[write] := (data[write] as int * 10 + rest / 0x100 % 16) % 256;
        rest := rest * 16 % 0x1_0000;
      }
      ShiftedIsFirstQuad(chunk);
    }

    /** The other three numbers of a dotted quad. */
    method PutQuads(text: string, start: nat) returns (ok: bool)
      requires Valid() && start <= SIZE - 3
      modifies data
      ensures ok <==> Quads(3, text).Accepted?
      ensures data[..start] == old(data[..start]) && data[start + 3..] == old(data[start + 3..])
      ensures ok ==> data[start..start + 3] == Quads(3, text).written
    {
      var rest, write := text, start;
      for i := 0 to 3
        invariant write == start + i && data[..start] == old(data[..start])
        invariant data[start + 3..] == old(data[start + 3..])
        invariant Quads(3, text) == match Quads(3 - i, rest)
          case Accepted(more, _) => Accepted(data[start..write] + more, Unset)
          case _ => Rejected
      {
        rest := FromDot(rest);
        if |rest| < 2 {
          return false;
        }
        rest := rest[1..];
        data[write] := Atoi(rest) % 256;
        write := write + 1;
      }
      ok := true;
    }

    /** The four numbers of a dotted quad. */
    method PutQuad(start: nat, chunk: nat, text: string) returns (ok: bool)
      requires Valid() && start <= SIZE - 4 && chunk < 0x1_0000
      modifies data
      ensures ok <==> Quads(3, text).Accepted?
      ensures ok ==> data[..start + 4] == old(data[..start]) + [FirstQuad(chunk)] + Quads(3, text).written
      ensures data[start + 4..] == old(data[start + 4..])
    {
      PutFirst(start, chunk);
      ghost var first := data[..];
      ok := PutQuads(text, start + 1);
      assert data[start + 4..] == first[start + 4..];
      assert ok ==> data[..start + 4] == first[..start + 1] + data[start + 1..start + 4];
    }

    /** A dotted quad: with nothing before it, the bytes of an IPv4-mapped address come first. */
    method PutDotted(start: nat, held: Pad, chunk: nat, text: string) returns (ok: bool, write: nat, pad: Pad)
      requires Valid() && start < SIZE && Scanning(Scan(data[..start], held, chunk))
      modifies data
      ensures ok <==> Dotted(old(Scan(data[..start], held, chunk)), text).Accepted?
      ensures start <= write <= SIZE && Fits(data[..write], pad)
      ensures ok ==> Dotted(old(Scan(data[..start], held, chunk)), text) == Accepted(data[..write], pad)
      ensures data[write..] == old(data[..])[write..]
    {
      write, pad := start, held;
      if write == 0 {
        data[0], data[1] := 0xff, 0xff;
        pad, write := At(0), 2;
      } else if write > 12 {
        return false, start, held;
      }
      ok := PutQuad(write, chunk, text);
      write := write + 4;
    }

    /** The last character of the text that matters: the dot of a quad or an error. */
    static function LastOf(s: Scan, text: string): (e: Ending)
      requires Scanning(s) && text != ""
    {
      if text[0] == '.' then Dotted(s, text) else Rejected
    }

    method PutLast(start: nat, held: Pad, chunk: nat, text: string) returns (error: bool, write: nat, pad: Pad)
      requires Valid() && start < SIZE && Scanning(Scan(data[..][..start], held, chunk)) && text != ""
      modifies data
      ensures start <= write <= SIZE && Fits(data[..][..write], pad) && data[..][write..] == old(data[..])[write..]
      ensures LastOf(old(Scan(data[..][..start], held, chunk)), text)
           == if error then Rejected else Accepted(data[..][..write], pad)
    {
      error, write, pad := true, start, held;
      if text[0] == '.' {
        assert data[..][..start] == data[..start];
        var ok;
        ok, write, pad := PutDotted(start, held, chunk, text);
        error := !ok;
        assert data[..][..write] == data[..write] && data[..][write..] == data[write..];
      }
    }

    /** Ends the reading: an error clears everything, a pad is filled with zeros. */
    method Complete(error: bool, write: nat, pad: Pad)
      requires Valid() && write <= SIZE && Fits(data[..][..write], pad)
      modifies data
      ensures Finish(old(data[..]), if error then Rejected else Accepted(old(data[..])[..write], pad)) == Done(data[..])
    {
      assert data[..][..write] == data[..write];
      if error {
        Clear(0, SIZE);
      } else if pad.At? {
        InsertZeros(pad.offset, write);
        assert old(data[..write])[..pad.offset] == old(data[..pad.offset]);
        assert old(data[..write])[pad.offset..] == old(data[pad.offset..write]);
      }
    }

    method PutGroup(write: nat, chunk: nat)
      requires Valid() && write + 2 <= SIZE && chunk < 0x1_0000
      modifies data
      ensures data[..][..write + 2] == old(data[..])[..write] + [chunk / 256, chunk % 256]
      ensures data[..][write + 2..] == old(data[..])[write + 2..]
    {
      data[write], data[write + 1] := chunk / 256, chunk % 256;
    }

    /** On the way through the text: what is left to read, with the bytes written so far, ends as
      * reading all of it does; the bytes behind are untouched. */
    static ghost predicate Reading(memory: string, size: nat, read: nat, was: seq<byte>, now: seq<byte>,
                                   write: nat, pad: Pad, chunk: nat, end: Ending)
    {
      && size <= |memory| && read <= |memory| + 1 && |was| == |now| == SIZE && write < SIZE
      && now[write..] == was[write..] && Scanning(Scan(now[..write], pad, chunk))
      && Remaining(memory, size, read, Scan(now[..write], pad, chunk)) == end
      && (read > size ==> pad == At(write))
    }

    /** Reading has come to its end. */
    static ghost predicate Finished(was: seq<byte>, now: seq<byte>, write: nat, pad: Pad, error: bool, end: Ending) {
      && |was| == |now| == SIZE && write <= SIZE && now[write..] == was[write..] && Fits(now[..write], pad)
      && end == if error then Rejected else Accepted(now[..write], pad)
    }

    static lemma ReadPad(memory: string, size: nat, read: nat, was: seq<byte>, now: seq<byte>,
                         write: nat, pad: Pad, chunk: nat, end: Ending)
      requires Reading(memory, size, read, was, now, write, pad, chunk, end) && read <= |memory|
      requires AtStart(memory, read) && (read >= size || memory[read] == ':')
      ensures if pad.At? && pad.offset != write then Finished(was, now, write, pad, true, end)
              else Reading(memory, size, read + 1, was, now, write, At(write), chunk, end)
    {
      RemainingPad(memory, size, read, Scan(now[..write], pad, chunk));
    }

    static lemma ReadGroup(memory: string, size: nat, read: nat, was: seq<byte>, now: seq<byte>, next: seq<byte>,
                           write: nat, pad: Pad, chunk: nat, end: Ending)
      requires Reading(memory, size, read, was, now, write, pad, chunk, end) && read <= |memory|
      requires !AtStart(memory, read) && (read >= size || memory[read] == ':')
      requires |next| == SIZE && write + 2 <= SIZE && next[write + 2..] == now[write + 2..]
      requires next[..write + 2] == now[..write] + [chunk / 256, chunk % 256]
      ensures if write + 2 >= SIZE || read >= size then Finished(was, next, write + 2, pad, false, end)
              else Reading(memory, size, read + 1, was, next, write + 2, pad, 0, end)
    {
      RemainingGroup(memory, size, read, Scan(now[..write], pad, chunk));
      Behind(now, was, write, write + 2);
    }

    static lemma ReadDigit(memory: string, size: nat, read: nat, was: seq<byte>, now: seq<byte>,
                           write: nat, pad: Pad, chunk: nat, end: Ending)
      requires Reading(memory, size, read, was, now, write, pad, chunk, end) && read < size
      requires memory[read] != ':' && HexValue(memory[read]) >= 0
      ensures Reading(memory, size, read + 1, was, now, write, pad, Collected(chunk, HexValue(memory[read])), end)
    {
      RemainingOther(memory, size, read, Scan(now[..write], pad, chunk));
    }

    static lemma ReadLast(memory: string, size: nat, read: nat, was: seq<byte>, now: seq<byte>, next: seq<byte>,
                          write: nat, pad: Pad, chunk: nat, end: Ending, error: bool, last: nat, held: Pad)
      requires Reading(memory, size, read, was, now, write, pad, chunk, end) && read < size
      requires memory[read] != ':' && HexValue(memory[read]) < 0
      requires |next| == SIZE && write <= last <= SIZE && Fits(next[..last], held) && next[last..] == now[last..]
      requires LastOf(Scan(now[..write], pad, chunk), memory[read..size])
            == if error then Rejected else Accepted(next[..last], held)
      ensures Finished(was, next, last, held, error, end)
    {
      RemainingOther(memory, size, read, Scan(now[..write], pad, chunk));
      Behind(now, was, write, last);
    }

    /** Reads the text `memory[..size]` into the front of the bytes; `memory` is everything that may
      * be read. */
    method ReadText(memory: string, size: nat) returns (overrun: bool, error: bool, write: nat, pad: Pad)
      requires Valid() && size <= |memory|
      modifies data
      ensures overrun <==> Remaining(memory, size, 0, Scan([], Unset, 0)).Fault?
      ensures !overrun ==>
        Finished(old(data[..]), data[..], write, pad, error, Remaining(memory, size, 0, Scan([], Unset, 0)))
    {
      ghost var end := Remaining(memory, size, 0, Scan([], Unset, 0));
      overrun, error, write, pad := false, false, 0, Unset;
      var read: nat, chunk: nat := 0, 0;
      ghost var was := data[..];
      assert data[..][..0] == [];
      while true
        invariant !error && Reading(memory, size, read, was, data[..], write, pad, chunk, end)
        decreases |memory| + 1 - read
      {
        ghost var now := data[..];
        if read >= size || memory[read] == ':' {
          if read > |memory| {
            overrun := true;
            return;
          }
          if read == 0 || memory[read - 1] == ':' {
            ReadPad(memory, size, read, was, now, write, pad, chunk, end);
            if pad.At? && pad.offset != write {
              error := true;
              break;
            }
            pad := At(write);
          } else {
            PutGroup(write, chunk);
            ReadGroup(memory, size, read, was, now, data[..], write, pad, chunk, end);
            chunk := 0;
            write := write + 2;
            if write >= SIZE || read >= size {
              break;
            }
          }
        } else if HexValue(memory[read]) >= 0 {
          ReadDigit(memory, size, read, was, now, write, pad, chunk, end);
          chunk := Collected(chunk, HexValue(memory[read]));
        } else {
          ghost var start, held := write, pad;
          error, write, pad := PutLast(write, pad, chunk, memory[read..size]);
          ReadLast(memory, size, read, was, now, data[..], start, held, chunk, end, error, write, pad);
          break;
        }
        read := read + 1;
      }
    }

    /** What was behind the written bytes before the reading is still there after it. */
    static lemma FinishBehind(was: seq<byte>, now: seq<byte>, write: nat, pad: Pad, error: bool)
      requires |was| == |now| == SIZE && write <= SIZE && now[write..] == was[write..] && Fits(now[..write], pad)
      ensures var e := if error then Rejected else Accepted(now[..write], pad);
              Finish(now, e) == Finish(was, e)
    {
    }

    method Assign(memory: string, size: nat) returns (ok: bool)
      requires Valid() && size <= |memory|
      modifies data
      ensures ok <==> AddressText.Assign(old(data[..]), memory[..size], memory[size..]).Done?
      ensures ok ==> AddressText.Assign(old(data[..]), memory[..size], memory[size..]) == Done(data[..])
    {
      ghost var was := data[..];
      assert memory[0..size] == memory[..size];
      var overrun, error, write, pad := ReadText(memory, size);
      ok := !overrun;
      if ok {
        ghost var now := data[..];
        Complete(error, write, pad);
        FinishBehind(was, now, write, pad, error);
      }
    }

    /** A dotted quad behind the prefix of IPv4-mapped addresses; the dot after the last number is
      * taken back. */
    method PrintMapped() returns (text: string)
      requires Valid()
      ensures text == "::ffff:" + Dots(data[12..])
    {
      text := "::ffff:";
      for it := 12 to SIZE
        invariant it < SIZE ==> text + Dots(data[it..]) == "::ffff:" + Dots(data[12..])
        invariant it == SIZE ==> text == "::ffff:" + Dots(data[12..]) + "."
      {
        DotsMore(text, data[it..], data[it + 1..], "::ffff:" + Dots(data[12..]));
        text := text + Decimal(data[it]) + ".";
      }
      text := text[..|text| - 1];
    }

    static method PrintGroup(text: string, g: seq<Group>, sub: Run, it: nat) returns (more: string)
      requires |g| == 8 && it < 8
      ensures more == text + Piece(g, sub, it)
    {
      more := text;
      if sub.Run? && sub.first <= it <= sub.last {
        if it == sub.first && it == 0 {
          more := more + ":";
        }
        if it == sub.last {
          more := more + ":";
        }
      } else {
        more := more + Hex(g[it]);
        if it < 7 {
          more := more + ":";
        }
      }
    }

    method PrintGroups(sub: Run) returns (text: string)
      requires Valid()
      ensures text == PrintFrom(Groups(data[..]), sub, 0)
    {
      var g := Groups(data[..]);
      text := "";
      for it := 0 to 8
        invariant text + PrintFrom(g, sub, it) == PrintFrom(g, sub, 0)
      {
        Regroup(text, Piece(g, sub, it), PrintFrom(g, sub, it + 1));
        text := PrintGroup(text, g, sub, it);
      }
    }

    method Print() returns (text: string)
      requires Valid()
      ensures text == AddressText.Print(data[..])
    {
      var g := Groups(data[..]);
      var sub := FindElided(g);
      if sub == Run(0, 4) && g[5] == 0xffff {
        text := PrintMapped();
      } else {
        text := PrintGroups(sub);
      }
    }
  }
}
