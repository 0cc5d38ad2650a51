/** Cutting stream data into records, and the record that ends a request. */
module Sink {
  import opened Protocol
  import opened ChunkBuffer
  import opened Wire
  import opened T = Transceiver

  const MAX_REQUEST: nat := 0xFFFF

  /** The block size asked for when `n` bytes are left. */
  function RequestSize(n: nat): nat {
    var remainder := n % CHUNK_ALIGNMENT;
    var size := n + HEADER_SIZE + (if remainder != 0 then CHUNK_ALIGNMENT - remainder else remainder);
    if size > MAX_REQUEST then MAX_REQUEST else size
  }

  /** Content and padding of the record cut from `n` bytes when a block of `granted` bytes has
    * been given. */
  datatype Cut = Cut(size: nat, contentLength: nat, padding: nat)

  function CutOf(n: nat, granted: nat): Cut
    requires granted >= CHUNK_ALIGNMENT + HEADER_SIZE
  {
    var size := granted / CHUNK_ALIGNMENT * CHUNK_ALIGNMENT;
    var contentLength := Min(size - HEADER_SIZE, n);
    var padding := CHUNK_ALIGNMENT - contentLength % CHUNK_ALIGNMENT;
    Cut(size, contentLength, if padding == 8 then 0 else padding)
  }

  /** Whatever block of at least 256 bytes (or all that was asked) is granted, the record cut for
    * it is a multiple of eight bytes made up exactly of header, content and padding; it carries
    * some content, its length fits the 16-bit field and its padding is below eight.  The content is
    * all that is left, or as much as makes up the largest multiple of eight in the block. */
  lemma CutFits(n: nat, granted: nat)
    requires n > 0 && granted <= RequestSize(n)
    requires granted == RequestSize(n) || granted >= MIN_BLOCK_SIZE
    ensures granted >= CHUNK_ALIGNMENT + HEADER_SIZE
    ensures var c := CutOf(n, granted);
            && c.size % CHUNK_ALIGNMENT == 0 && c.size <= granted
            && c.size == HEADER_SIZE + c.contentLength + c.padding
            && 0 < c.contentLength <= n && c.contentLength < 0x1_0000 && c.padding < CHUNK_ALIGNMENT
            && (c.contentLength < n ==>
                  c.padding == 0 && granted < c.size + CHUNK_ALIGNMENT && granted >= MIN_BLOCK_SIZE)
  {
    RequestRoundsUp(n);
    var c := CutOf(n, granted);
    SizeRoundsDown(granted, c.size);
    if c.contentLength == n {
      RoundedUp(n, c.size - HEADER_SIZE);
    } else {
      assert c.contentLength == c.size - HEADER_SIZE;
    }
  }

  lemma RequestRoundsUp(n: nat)
    requires n > 0
    ensures CHUNK_ALIGNMENT + HEADER_SIZE <= RequestSize(n) < n + HEADER_SIZE + CHUNK_ALIGNMENT
    ensures RequestSize(n) == MAX_REQUEST || (RequestSize(n) % 8 == 0 && RequestSize(n) >= n + HEADER_SIZE)
  {
  }

  lemma SizeRoundsDown(granted: nat, size: nat)
    requires size == granted / CHUNK_ALIGNMENT * CHUNK_ALIGNMENT && granted >= CHUNK_ALIGNMENT + HEADER_SIZE
    ensures size % 8 == 0 && granted - 8 < size <= granted && size >= CHUNK_ALIGNMENT + HEADER_SIZE
    ensures (size - HEADER_SIZE) % 8 == 0
  {
  }

  /** The padding completes the content to the next multiple of eight. */
  lemma RoundedUp(n: nat, m: nat)
    requires n <= m < n + 8 && m % 8 == 0
    ensures m == n + (if n % 8 == 0 then 0 else 8 - n % 8)
  {
  }

  /** A record without padding that leaves at most seven bytes of a block of 256 bytes or more unused. */
  predicate Full(step: Step) {
    step.Commit? && step.padding == [] && |step.content| >= MIN_BLOCK_SIZE - HEADER_SIZE
  }

  /** All records are multiples of eight bytes, and all of them full; where `last`, only those before the
    * last one. */
  ghost predicate Filled(steps: seq<Step>, last: bool) {
    forall k :: 0 <= k < |steps| && steps[k].Commit? ==>
      && Lawful(steps[k]) && |RecordBytes(steps[k])| % CHUNK_ALIGNMENT == 0
      && (Full(steps[k]) || (last && k == |steps| - 2))
  }

  /** The commits in `steps` all belong to this request and stream and close nothing. */
  predicate OnlyFrom(steps: seq<Step>, id: FullId, kind: byte) {
    forall i :: 0 <= i < |steps| ==>
      steps[i].Commit? ==> steps[i].id == id && steps[i].kind == kind && !steps[i].closeFd
  }

  class Sink {
    const id: FullId
    const kind: byte
    const transceiver: Transceiver

    constructor (id: FullId, transceiver: Transceiver, kind: byte)
      ensures this.id == id && this.transceiver == transceiver && this.kind == kind
    {
      this.id, this.transceiver, this.kind := id, transceiver, kind;
    }

    /** One turn of the write loop: the next record, and a transmission attempt. */
    method WriteRecord(s: seq<byte>, results: seq<WriteResult>)
      returns (contentLength: nat, threw: bool, ghost step: Step)
      requires transceiver.Valid() && s != []
      modifies transceiver, transceiver.buffer, transceiver.buffer.Memory, transceiver.fds
      ensures transceiver.Valid()
      ensures fresh(transceiver.buffer.Memory - old(transceiver.buffer.Memory))
      ensures 0 < contentLength <= |s| && NextRecord(step, id, kind, s[..contentLength])
      ensures contentLength == |s| || Full(step)
      ensures transceiver.View() == Apply(Apply(old(transceiver.View()), step), Flush(results))
      ensures threw == Transmitted(Apply(old(transceiver.View()), step).line, results).threw
    {
      hide Stored, Transmitted;
      var block, cut := NextBlock(|s|);
      contentLength := cut.contentLength;
      transceiver.PutRecord(block, kind, id.fcgiId, s[..contentLength], cut.padding);
      step := StepInBlock(block.data, block.at, id, kind, s[..contentLength], cut.padding, cut.size);
      threw := transceiver.SecureWrite(cut.size, id, false, results, step);
    }

    /** The block granted for `n` bytes, and how the next record is cut for it. */
    method NextBlock(n: nat) returns (block: Block, cut: Cut)
      requires transceiver.Valid() && n > 0
      ensures block.data == transceiver.buffer.chunks[transceiver.buffer.writeIt].data
      ensures block.at == transceiver.buffer.chunks[transceiver.buffer.writeIt].end
      ensures block.data in transceiver.buffer.Memory && block.data.Length == CHUNK_SIZE
      ensures block.at + block.size <= CHUNK_SIZE && cut.size <= block.size
      ensures cut.size % CHUNK_ALIGNMENT == 0 && cut.size == HEADER_SIZE + cut.contentLength + cut.padding
      ensures 0 < cut.contentLength <= n && cut.contentLength < 0x1_0000 && cut.padding < CHUNK_ALIGNMENT
      ensures cut.contentLength < n ==> cut.padding == 0 && cut.contentLength >= MIN_BLOCK_SIZE - HEADER_SIZE
    {
      var buffer := transceiver.buffer;
      block := buffer.RequestWrite(RequestSize(n));
      buffer.RequestWriteGrants(RequestSize(n));
      CutFits(n, block.size);
      cut := CutOf(n, block.size);
    }

    /** A lawful commit of some content of this request and stream, a multiple of eight bytes long. */
    static ghost predicate NextRecord(step: Step, id: FullId, kind: byte, content: seq<byte>) {
      && step.Commit? && Lawful(step) && step.id == id && step.kind == kind && !step.closeFd
      && step.content == content
      && |RecordBytes(step)| % CHUNK_ALIGNMENT == 0 && |step.padding| < CHUNK_ALIGNMENT
    }

    /** The step that commits the record standing in memory at `at`. */
    static lemma StepIn(data: seq<byte>, at: nat, id: FullId, kind: byte, content: seq<byte>, padding: byte, size: nat)
      returns (step: Step)
      requires at + size <= |data| && size == HEADER_SIZE + |content| + padding && size % CHUNK_ALIGNMENT == 0
      requires |content| < 0x1_0000 && padding < CHUNK_ALIGNMENT
      requires data[at..at + HEADER_SIZE]
            == EncodeHeader(Header(VERSION, kind, id.fcgiId, |content|, padding, data[at + 7]))
      requires data[at + HEADER_SIZE..at + HEADER_SIZE + |content|] == content
      ensures NextRecord(step, id, kind, content) && data[at..at + size] == RecordBytes(step)
    {
      step := Commit(id, kind, content, data[at + HEADER_SIZE + |content|..at + size], data[at + 7], false);
      Assembled(data, at, size, step);
    }

    /** The same for the memory block itself. */
    static lemma StepInBlock(data: array<byte>, at: nat, id: FullId, kind: byte, content: seq<byte>, padding: byte,
                             size: nat)
      returns (step: Step)
      requires at + size <= data.Length && size == HEADER_SIZE + |content| + padding && size % CHUNK_ALIGNMENT == 0
      requires |content| < 0x1_0000 && padding < CHUNK_ALIGNMENT
      requires data[at..at + HEADER_SIZE]
            == EncodeHeader(Header(VERSION, kind, id.fcgiId, |content|, padding, data[at + 7]))
      requires data[at + HEADER_SIZE..at + HEADER_SIZE + |content|] == content
      ensures NextRecord(step, id, kind, content) && data[at..][..size] == RecordBytes(step)
    {
      step := StepIn(data[..], at, id, kind, content, padding, size);
      Sliced(data, at, size);
    }

    static lemma Assembled(data: seq<byte>, at: nat, size: nat, step: Step)
      requires step.Commit? && Lawful(step) && at + size <= |data|
      requires size == HEADER_SIZE + |step.content| + |step.padding|
      requires data[at..at + HEADER_SIZE]
            == EncodeHeader(Header(VERSION, step.kind, step.id.fcgiId, |step.content|, |step.padding|, step.reserved))
      requires data[at + HEADER_SIZE..at + HEADER_SIZE + |step.content|] == step.content
      requires data[at + HEADER_SIZE + |step.content|..at + size] == step.padding
      ensures data[at..at + size] == RecordBytes(step)
    {
      assert data[at..at + size] == data[at..at + HEADER_SIZE]
                                    + data[at + HEADER_SIZE..at + HEADER_SIZE + |step.content|]
                                    + data[at + HEADER_SIZE + |step.content|..at + size];
    }

    static lemma Sliced(data: array<byte>, at: nat, size: nat)
      requires at + size <= data.Length
      ensures data[at..][..size] == data[..][at..at + size]
    {
    }

    /** The steps are lawful, of this request and stream only, and write exactly `text`. */
    static ghost predicate Tells(steps: seq<Step>, id: FullId, kind: byte, text: seq<byte>) {
      AllLawful(steps) && OnlyFrom(steps, id, kind) && Written(steps, id, kind) == text
    }

    /** The results given for attempt number `k`; calls behind those given take nothing. */
    static function AttemptResults(results: seq<seq<WriteResult>>, k: nat): seq<WriteResult> {
      if k < |results| then results[k] else []
    }

    /** One commit and one attempt in turn, each attempt with the next of the results. */
    static ghost predicate Alternates(steps: seq<Step>, results: seq<seq<WriteResult>>) {
      && |steps| % 2 == 0
      && forall k :: 0 <= k < |steps| ==>
           if k % 2 == 0 then steps[k].Commit? else steps[k] == Flush(AttemptResults(results, k / 2))
    }

    /** No attempt before the last step failed. */
    static ghost predicate Unbroken(w: World, steps: seq<Step>)
      requires AllLawful(steps)
    {
      forall n :: 0 <= n < |steps| ==> !Threw(w, steps[..n])
    }

    /** What the loop has done: records of this request and stream that write `text`, each followed by
      * an attempt, of which at most the last one failed. */
    static ghost predicate Progress(w: World, steps: seq<Step>, id: FullId, kind: byte, text: seq<byte>,
                                    results: seq<seq<WriteResult>>, threw: bool)
    {
      && Tells(steps, id, kind, text) && Alternates(steps, results)
      && Unbroken(w, steps) && threw == Threw(w, steps)
    }

    /** One turn of the loop on the way through `s`. */
    method Turn(s: seq<byte>, done: nat, turn: nat, results: seq<seq<WriteResult>>,
                ghost start: World, ghost steps: seq<Step>)
      returns (next: nat, threw: bool, ghost more: seq<Step>)
      requires transceiver.Valid() && done < |s| && |steps| == 2 * turn
      requires Progress(start, steps, id, kind, s[..done], results, false) && Filled(steps, false)
      requires transceiver.View() == Run(start, steps)
      modifies transceiver, transceiver.buffer, transceiver.buffer.Memory, transceiver.fds
      ensures transceiver.Valid()
      ensures fresh(transceiver.buffer.Memory - old(transceiver.buffer.Memory))
      ensures done < next <= |s| && |more| == |steps| + 2
      ensures Progress(start, more, id, kind, s[..next], results, threw) && Filled(more, next == |s|)
      ensures AllLawful(more) && transceiver.View() == Run(start, more)
    {
      hide Stored, Progress, NextRecord, Filled, Full;
      var outcome := AttemptResults(results, turn);
      ghost var step;
      var contentLength;
      contentLength, threw, step := WriteRecord(s[done..], outcome);
      ProgressMore(start, steps, step, outcome, id, kind, s, done, contentLength, results, threw);
      FilledMore(steps, step, outcome, id, kind, s[done..][..contentLength], done + contentLength == |s|);
      next, more := done + contentLength, steps + [step, Flush(outcome)];
    }

    /** Writing `s` to the stream: one record and one attempt after the other, until everything is
      * committed or an attempt fails.  All of `s`, or what was reached of it, is committed in order, in
      * records of this request and stream only. */
    method Write(s: seq<byte>, results: seq<seq<WriteResult>>)
      returns (totalUsed: nat, threw: bool, ghost steps: seq<Step>)
      requires transceiver.Valid()
      modifies transceiver, transceiver.buffer, transceiver.buffer.Memory, transceiver.fds
      ensures transceiver.Valid()
      ensures fresh(transceiver.buffer.Memory - old(transceiver.buffer.Memory))
      ensures AllLawful(steps) && transceiver.View() == Run(old(transceiver.View()), steps)
      ensures Written(steps, id, kind) <= s && totalUsed == |s|
      ensures Progress(old(transceiver.View()), steps, id, kind, Written(steps, id, kind), results, threw)
      ensures Filled(steps, Written(steps, id, kind) == s)
      ensures threw ==> exists i, j :: 0 <= i < |results| && 0 <= j < |results[i]| && results[i][j].Failed?
      ensures !threw ==> Written(steps, id, kind) == s
    {
      hide Stored, Progress, Filled;
      totalUsed, threw, steps := |s|, false, [];
      ghost var start := transceiver.View();
      ProgressStart(start, id, kind, s, results);
      var done, turn := 0, 0;
      while done < |s| && !threw
        invariant done <= |s| && transceiver.Valid() && |steps| == 2 * turn
        invariant fresh(transceiver.buffer.Memory - old(transceiver.buffer.Memory))
        invariant Progress(start, steps, id, kind, s[..done], results, threw)
        invariant Filled(steps, done == |s|)
        invariant AllLawful(steps) && transceiver.View() == Run(start, steps)
        decreases |s| - done
      {
        done, threw, steps := Turn(s, done, turn, results, start, steps);
        turn := turn + 1;
      }
      ProgressEnds(start, steps, id, kind, s, done, results, threw);
    }

    static lemma ProgressStart(w: World, id: FullId, kind: byte, s: seq<byte>, results: seq<seq<WriteResult>>)
      ensures Progress(w, [], id, kind, s[..0], results, false) && Filled([], s == []) && Run(w, []) == w
    {
    }

    static lemma ProgressEnds(w: World, steps: seq<Step>, id: FullId, kind: byte, s: seq<byte>, done: nat,
                              results: seq<seq<WriteResult>>, threw: bool)
      requires done <= |s| && Progress(w, steps, id, kind, s[..done], results, threw) && Filled(steps, done == |s|)
      ensures AllLawful(steps) && Written(steps, id, kind) == s[..done]
      ensures Written(steps, id, kind) <= s && (done == |s| ==> Written(steps, id, kind) == s)
      ensures Filled(steps, Written(steps, id, kind) == s)
      ensures threw ==> exists i, j :: 0 <= i < |results| && 0 <= j < |results[i]| && results[i][j].Failed?
    {
      assert done == |s| ==> s[..done] == s;
      if threw {
        var i := |steps| / 2 - 1;
        ThrewFailed(Run(w, steps[..|steps| - 1]).line, AttemptResults(results, i));
        var j :| 0 <= j < |AttemptResults(results, i)| && AttemptResults(results, i)[j].Failed?;
        assert results[i][j].Failed?;
      }
    }

    static lemma ProgressMore(w: World, steps: seq<Step>, a: Step, outcome: seq<WriteResult>, id: FullId, kind: byte,
                              s: seq<byte>, done: nat, n: nat, results: seq<seq<WriteResult>>, threw: bool)
      requires done + n <= |s| && Progress(w, steps, id, kind, s[..done], results, false)
      requires NextRecord(a, id, kind, s[done..][..n]) && outcome == AttemptResults(results, |steps| / 2)
      requires threw == Transmitted(Apply(Run(w, steps), a).line, outcome).threw
      ensures Progress(w, steps + [a, Flush(outcome)], id, kind, s[..done + n], results, threw)
      ensures AllLawful(steps + [a, Flush(outcome)])
      ensures Run(w, steps + [a, Flush(outcome)]) == Apply(Apply(Run(w, steps), a), Flush(outcome))
    {
      TellsMore(w, steps, a, Flush(outcome), id, kind, s, done, n);
      AlternatesMore(steps, a, outcome, results);
      UnbrokenMore(w, steps, a, outcome);
    }

    static lemma FilledMore(steps: seq<Step>, a: Step, outcome: seq<WriteResult>, id: FullId, kind: byte,
                            content: seq<byte>, last: bool)
      requires Filled(steps, false) && NextRecord(a, id, kind, content) && (last || Full(a))
      ensures Filled(steps + [a, Flush(outcome)], last)
    {
      hide Full;
      var more := steps + [a, Flush(outcome)];
      forall k | 0 <= k < |more| && more[k].Commit?
        ensures Lawful(more[k]) && |RecordBytes(more[k])| % CHUNK_ALIGNMENT == 0
        ensures Full(more[k]) || (last && k == |more| - 2)
      {
        if k < |steps| {
          assert more[k] == steps[k];
        }
      }
    }

    static lemma TellsMore(w: World, steps: seq<Step>, a: Step, b: Step, id: FullId, kind: byte,
                           s: seq<byte>, done: nat, n: nat)
      requires done + n <= |s| && Tells(steps, id, kind, s[..done])
      requires a.Commit? && Lawful(a) && b.Flush? && a.id == id && a.kind == kind && !a.closeFd
      requires a.content == s[done..][..n]
      ensures Tells(steps + [a, b], id, kind, s[..done + n])
      ensures Run(w, steps + [a, b]) == Apply(Apply(Run(w, steps), a), b)
    {
      RunTwo(w, steps, a, b);
      WrittenTwo(steps, a, b, id, kind);
      assert s[..done] + s[done..][..n] == s[..done + n];
    }

    static lemma AlternatesMore(steps: seq<Step>, a: Step, outcome: seq<WriteResult>, results: seq<seq<WriteResult>>)
      requires Alternates(steps, results) && a.Commit? && outcome == AttemptResults(results, |steps| / 2)
      ensures Alternates(steps + [a, Flush(outcome)], results)
    {
      var more := steps + [a, Flush(outcome)];
      forall k | 0 <= k < |more|
        ensures if k % 2 == 0 then more[k].Commit? else more[k] == Flush(AttemptResults(results, k / 2))
      {
        if k < |steps| {
          assert more[k] == steps[k];
        }
      }
    }

    static lemma {:induction false} ThrewTwo(w: World, steps: seq<Step>, a: Step, outcome: seq<WriteResult>)
      requires AllLawful(steps) && a.Commit? && Lawful(a)
      ensures AllLawful(steps + [a]) && AllLawful(steps + [a, Flush(outcome)])
      ensures !Threw(w, steps + [a])
      ensures Threw(w, steps + [a, Flush(outcome)]) == Transmitted(Apply(Run(w, steps), a).line, outcome).threw
    {
      var more := steps + [a, Flush(outcome)];
      assert more[..|more| - 1] == steps + [a];
      assert (steps + [a])[..|steps|] == steps;
    }

    static lemma PrefixOfTwo(steps: seq<Step>, a: Step, b: Step, n: nat)
      requires n < |steps| + 2
      ensures (steps + [a, b])[..n] == if n <= |steps| then steps[..n] else steps + [a]
      ensures n == |steps| ==> steps[..n] == steps
    {
    }

    static lemma {:induction false} UnbrokenMore(w: World, steps: seq<Step>, a: Step, outcome: seq<WriteResult>)
      requires AllLawful(steps) && Unbroken(w, steps) && !Threw(w, steps) && a.Commit? && Lawful(a)
      ensures var more := steps + [a, Flush(outcome)];
              && AllLawful(more) && Unbroken(w, more)
              && Threw(w, more) == Transmitted(Apply(Run(w, steps), a).line, outcome).threw
    {
      var more := steps + [a, Flush(outcome)];
      ThrewTwo(w, steps, a, outcome);
      forall n | 0 <= n < |more| ensures !Threw(w, more[..n]) {
        PrefixOfTwo(steps, a, Flush(outcome), n);
        assert n < |steps| ==> !Threw(w, steps[..n]);
      }
    }

    static lemma RunTwo(w: World, steps: seq<Step>, a: Step, b: Step)
      requires AllLawful(steps) && Lawful(a) && Lawful(b)
      ensures AllLawful(steps + [a, b])
      ensures Run(w, steps + [a, b]) == Apply(Apply(Run(w, steps), a), b)
    {
      var two := steps + [a, b];
      assert two[..|two| - 1] == steps + [a];
      assert (steps + [a])[..|steps|] == steps;
    }

    static lemma WrittenTwo(steps: seq<Step>, a: Step, b: Step, id: FullId, kind: byte)
      requires a.Commit? && a.id == id && a.kind == kind && b.Flush?
      ensures Written(steps + [a, b], id, kind) == Written(steps, id, kind) + a.content
    {
      var two := steps + [a, b];
      assert two[..|two| - 1] == steps + [a];
      assert (steps + [a])[..|steps|] == steps;
    }
  }

  const END_SIZE: nat := 16

  /** A lawful commit of an END_REQUEST record with eight bytes of content and no padding: the
    * application status 0 and the protocol status stand in front. */
  ghost predicate EndRecord(step: Step, id: FullId, status: byte, killCon: bool) {
    && step.Commit? && Lawful(step) && step.id == id && step.kind == END_REQUEST && step.closeFd == killCon
    && |step.content| == 8 && step.padding == [] && step.content[..5] == [0, 0, 0, 0, status]
  }

  lemma EndIn(data: seq<byte>, at: nat, id: FullId, status: byte, killCon: bool) returns (step: Step)
    requires at + END_SIZE <= |data|
    requires data[at..at + HEADER_SIZE] == EncodeHeader(Header(VERSION, END_REQUEST, id.fcgiId, 8, 0, data[at + 7]))
    requires data[at + HEADER_SIZE..at + HEADER_SIZE + 5] == [0, 0, 0, 0, status]
    ensures EndRecord(step, id, status, killCon) && data[at..at + END_SIZE] == RecordBytes(step)
  {
    step := Commit(id, END_REQUEST, data[at + HEADER_SIZE..at + END_SIZE], [], data[at + 7], killCon);
    assert step.content[..5] == data[at + HEADER_SIZE..at + HEADER_SIZE + 5];
    Sink.Assembled(data, at, END_SIZE, step);
  }

  lemma EndInBlock(data: array<byte>, at: nat, id: FullId, status: byte, killCon: bool) returns (step: Step)
    requires at + END_SIZE <= data.Length
    requires data[at..at + HEADER_SIZE] == EncodeHeader(Header(VERSION, END_REQUEST, id.fcgiId, 8, 0, data[at + 7]))
    requires data[at + HEADER_SIZE..at + HEADER_SIZE + 5] == [0, 0, 0, 0, status]
    ensures EndRecord(step, id, status, killCon) && data[at..][..END_SIZE] == RecordBytes(step)
  {
    step := EndIn(data[..], at, id, status, killCon);
    Sink.Sliced(data, at, END_SIZE);
  }

  /** Storing the record: the first five bytes of its body, then the header. */
  method PutEnd(transceiver: Transceiver, block: Block, requestId: uint16, status: byte)
    requires transceiver.Valid() && block.size == END_SIZE && block.at + block.size <= CHUNK_SIZE
    requires block.data == transceiver.buffer.chunks[transceiver.buffer.writeIt].data
    requires block.at == transceiver.buffer.chunks[transceiver.buffer.writeIt].end
    modifies block.data
    ensures transceiver.Valid()
    ensures block.data[block.at..block.at + HEADER_SIZE]
         == EncodeHeader(Header(VERSION, END_REQUEST, requestId, 8, 0, block.data[block.at + 7]))
    ensures block.data[block.at + HEADER_SIZE..block.at + HEADER_SIZE + 5] == [0, 0, 0, 0, status]
  {
    transceiver.buffer.Poke(block, HEADER_SIZE, [0, 0, 0, 0, status]);
    label stored:
    transceiver.PutHeader(block, END_REQUEST, requestId, 8, 0);
    assert block.data[block.at + HEADER_SIZE..block.at + HEADER_SIZE + 5]
        == old@stored(block.data[block.at + HEADER_SIZE..block.at + HEADER_SIZE + 5]);
  }

  /** The END_REQUEST record, written without looking at the size of the granted block: there is
    * always room for it.  Three body bytes keep what the memory held. */
  method EndRequest(transceiver: Transceiver, id: FullId, status: byte, killCon: bool, results: seq<WriteResult>)
    returns (threw: bool, ghost step: Step)
    requires transceiver.Valid()
    modifies transceiver, transceiver.buffer, transceiver.buffer.Memory, transceiver.fds
    ensures transceiver.Valid()
    ensures fresh(transceiver.buffer.Memory - old(transceiver.buffer.Memory))
    ensures EndRecord(step, id, status, killCon)
    ensures transceiver.View() == Apply(Apply(old(transceiver.View()), step), Flush(results))
    ensures threw == Transmitted(Apply(old(transceiver.View()), step).line, results).threw
  {
    hide Stored, Transmitted;
    var buffer := transceiver.buffer;
    buffer.AlwaysRoom();
    var block := buffer.RequestWrite(END_SIZE);
    buffer.RequestWriteGrants(END_SIZE);
    PutEnd(transceiver, block, id.fcgiId, status);
    step := EndInBlock(block.data, block.at, id, status, killCon);
    threw := transceiver.SecureWrite(END_SIZE, id, killCon, results, step);
  }

  const REQUEST_COMPLETE: byte := 0

  /** One END_REQUEST record and an attempt to transmit it, and if that throws, the same again. */
  ghost predicate EndSteps(w: World, steps: seq<Step>, id: FullId, status: byte, killCon: bool,
                           first: seq<WriteResult>, second: seq<WriteResult>, threw: bool)
  {
    && |steps| >= 2 && AllLawful(steps) && EndRecord(steps[0], id, status, killCon) && steps[1] == Flush(first)
    && |steps| == (if Threw(w, steps[..2]) then 4 else 2)
    && (|steps| == 4 ==> EndRecord(steps[2], id, REQUEST_COMPLETE, killCon) && steps[3] == Flush(second))
    && (threw <==> |steps| == 4 && Threw(w, steps))
  }

  /** The end of a request as its handler brings it about: END_REQUEST from the try block and, if the
    * transmission after it throws, another one from the catch block. */
  method EndCaught(transceiver: Transceiver, id: FullId, status: byte, killCon: bool,
                   first: seq<WriteResult>, second: seq<WriteResult>)
    returns (threw: bool, ghost steps: seq<Step>)
    requires transceiver.Valid()
    modifies transceiver, transceiver.buffer, transceiver.buffer.Memory, transceiver.fds
    ensures transceiver.Valid()
    ensures fresh(transceiver.buffer.Memory - old(transceiver.buffer.Memory))
    ensures EndSteps(old(transceiver.View()), steps, id, status, killCon, first, second, threw)
    ensures transceiver.View() == Run(old(transceiver.View()), steps)
  {
    hide Stored, Transmitted, EndRecord;
    ghost var w := transceiver.View();
    ghost var a;
    threw, a := EndRequest(transceiver, id, status, killCon, first);
    steps := [a, Flush(first)];
    FirstEnd(w, a, first, id, status, killCon);
    if threw {
      ghost var b;
      threw, b := EndRequest(transceiver, id, REQUEST_COMPLETE, killCon, second);
      SecondEnd(w, steps, b, second, id, killCon);
      steps := steps + [b, Flush(second)];
    }
  }

  lemma FirstEnd(w: World, a: Step, results: seq<WriteResult>, id: FullId, status: byte, killCon: bool)
    requires EndRecord(a, id, status, killCon)
    ensures var steps := [a, Flush(results)];
            && AllLawful(steps) && Run(w, steps) == Apply(Apply(w, a), Flush(results))
            && steps[..2] == steps && Threw(w, steps) == Transmitted(Apply(w, a).line, results).threw
  {
    Sink.ThrewTwo(w, [], a, results);
    Sink.RunTwo(w, [], a, Flush(results));
    assert [] + [a, Flush(results)] == [a, Flush(results)];
  }

  lemma SecondEnd(w: World, steps: seq<Step>, b: Step, results: seq<WriteResult>, id: FullId, killCon: bool)
    requires AllLawful(steps) && |steps| == 2 && EndRecord(b, id, REQUEST_COMPLETE, killCon)
    ensures var more := steps + [b, Flush(results)];
            && AllLawful(more) && Run(w, more) == Apply(Apply(Run(w, steps), b), Flush(results))
            && more[..2] == steps && Threw(w, more) == Transmitted(Apply(Run(w, steps), b).line, results).threw
  {
    Sink.ThrewTwo(w, steps, b, results);
    Sink.RunTwo(w, steps, b, Flush(results));
  }
}
