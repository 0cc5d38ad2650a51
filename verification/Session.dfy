/** A transceiver object over a whole session: any requests write and end in any order while the
  * transceiver transmits, and what a connection has received is what was said to it. */
module Session {
  import opened Protocol
  import opened ChunkBuffer
  import opened Reassembly
  import opened Wire
  import opened T = Transceiver
  import opened S = Sink
  import opened Seqs

  /** A write to a stream of a request, the end of a request, or the transceiver's own turn, each with the
    * results of the transmission attempts it makes. */
  datatype Call =
    | Say(id: FullId, kind: byte, text: seq<byte>, attempts: seq<seq<WriteResult>>)
    | Finish(id: FullId, status: byte, killCon: bool, first: seq<WriteResult>, second: seq<WriteResult>)
    | Pump(results: seq<WriteResult>)

  /** What a call does to the world `w`. */
  ghost predicate Does(call: Call, w: World, steps: seq<Step>, threw: bool) {
    && AllLawful(steps)
    && match call
       case Say(id, kind, text, attempts) =>
         && S.Sink.Progress(w, steps, id, kind, Written(steps, id, kind), attempts, threw)
         && Written(steps, id, kind) <= text && (!threw ==> Written(steps, id, kind) == text)
         && Filled(steps, Written(steps, id, kind) == text)
       case Finish(id, status, killCon, first, second) =>
         EndSteps(w, steps, id, status, killCon, first, second, threw)
       case Pump(results) => steps == [Flush(results)] && threw == Transmitted(w.line, results).threw
  }

  method Perform(t: Transceiver, call: Call) returns (threw: bool, ghost steps: seq<Step>)
    requires t.Valid()
    modifies t, t.buffer, t.buffer.Memory, t.fds
    ensures t.Valid() && fresh(t.buffer.Memory - old(t.buffer.Memory))
    ensures Does(call, old(t.View()), steps, threw) && t.View() == Run(old(t.View()), steps)
  {
    hide Stored, EndSteps, Transmitted;
    match call
    case Say(id, kind, text, attempts) =>
      var sink := new Sink(id, t, kind);
      var used;
      used, threw, steps := sink.Write(text, attempts);
    case Finish(id, status, killCon, first, second) =>
      threw, steps := EndCaught(t, id, status, killCon, first, second);
      EndsLawful(old(t.View()), steps, id, status, killCon, first, second, threw);
    case Pump(results) =>
      var drained;
      drained, threw := t.Transmit(results);
      steps := [Flush(results)];
      RunOne(old(t.View()), Flush(results));
  }

  lemma EndsLawful(w: World, steps: seq<Step>, id: FullId, status: byte, killCon: bool,
                   first: seq<WriteResult>, second: seq<WriteResult>, threw: bool)
    requires EndSteps(w, steps, id, status, killCon, first, second, threw)
    ensures AllLawful(steps)
  {
  }

  lemma RunOne(w: World, step: Step)
    requires Lawful(step)
    ensures AllLawful([step]) && Run(w, [step]) == Apply(w, step)
  {
    assert [step][..0] == [];
  }

  // ---- What was said ---------------------------------------------------------------------------

  /** Everything said by request `id` on stream `kind`. */
  function Said(calls: seq<Call>, id: FullId, kind: byte): seq<byte> {
    if calls == [] then []
    else
      var last := calls[|calls| - 1];
      var earlier := Said(calls[..|calls| - 1], id, kind);
      if last.Say? && last.id == id && last.kind == kind then earlier + last.text else earlier
  }

  lemma {:induction false} OthersSilent(steps: seq<Step>, id: FullId, kind: byte)
    requires forall i :: 0 <= i < |steps| ==> steps[i].Commit? ==> steps[i].id != id || steps[i].kind != kind
    ensures Written(steps, id, kind) == []
  {
    if steps != [] {
      OthersSilent(steps[..|steps| - 1], id, kind);
    }
  }

  /** A call that does not throw writes what it says, and nothing to any other stream; the end of a request
    * writes to no stream. */
  lemma DoesWrite(call: Call, w: World, steps: seq<Step>, threw: bool, id: FullId, kind: byte)
    requires Does(call, w, steps, threw) && !threw && kind != END_REQUEST
    ensures Written(steps, id, kind)
         == if call.Say? && call.id == id && call.kind == kind then call.text else []
  {
    if !(call.Say? && call.id == id && call.kind == kind) {
      OthersSilent(steps, id, kind);
    }
  }

  /** The steps write exactly what the calls say. */
  ghost predicate Tell(steps: seq<Step>, calls: seq<Call>) {
    forall id: FullId, kind: byte :: kind != END_REQUEST ==> Written(steps, id, kind) == Said(calls, id, kind)
  }

  lemma DoesLawful(call: Call, w: World, steps: seq<Step>, threw: bool)
    requires Does(call, w, steps, threw)
    ensures AllLawful(steps)
  {
  }

  lemma TellMore(start: World, steps: seq<Step>, calls: seq<Call>, n: nat, more: seq<Step>, threw: bool)
    requires n < |calls| && AllLawful(steps) && Does(calls[n], Run(start, steps), more, threw)
    ensures AllLawful(steps + more) && Run(start, steps + more) == Run(Run(start, steps), more)
    ensures !threw && Tell(steps, calls[..n]) ==> Tell(steps + more, calls[..n + 1])
  {
    hide Does, Run;
    DoesLawful(calls[n], Run(start, steps), more, threw);
    RunAppend(start, steps, more);
    if !threw && Tell(steps, calls[..n]) {
      forall id: FullId, kind: byte | kind != END_REQUEST
        ensures Written(steps + more, id, kind) == Said(calls[..n + 1], id, kind)
      {
        WrittenAppend(steps, more, id, kind);
        DoesWrite(calls[n], Run(start, steps), more, threw, id, kind);
        assert calls[..n + 1][..n] == calls[..n];
      }
    }
  }

  // ---- The session -----------------------------------------------------------------------------

  /** What connection `fd` has received so far is a prefix of the records committed for it; if nothing waits
    * for it any more, every stream of every request on it has arrived as it was said. */
  ghost predicate Heard(w: World, steps: seq<Step>, calls: seq<Call>, fd: Fd)
    requires AllLawful(steps)
  {
    var seen := Parse(SentTo(w.line.log, fd));
    && WholeRecords(seen.records) && seen.records <= RecordsTo(steps, fd)
    && (forall id: uint16, kind: byte :: kind != END_REQUEST ==>
          Joined(seen.records, id, kind) <= Said(calls, FullId(id, fd), kind))
    && (BytesTo(w.line.queue, fd) == [] ==>
          && seen.tail == []
          && forall id: uint16, kind: byte :: kind != END_REQUEST ==>
               Joined(seen.records, id, kind) == Said(calls, FullId(id, fd), kind))
  }

  lemma AllHeard(polled: seq<Fd>, steps: seq<Step>, calls: seq<Call>, fd: Fd)
    requires AllLawful(steps) && Tell(steps, calls)
    ensures Heard(Run(Start(polled), steps), steps, calls, fd)
  {
    EndToEnd(polled, steps, fd);
    var seen := Parse(SentTo(Run(Start(polled), steps).line.log, fd));
    forall id: uint16, kind: byte | kind != END_REQUEST
      ensures Written(steps, FullId(id, fd), kind) == Said(calls, FullId(id, fd), kind)
    {
    }
  }

  /** Some parts put together. */
  function Together(parts: seq<seq<Step>>): seq<Step> {
    if parts == [] then [] else Together(parts[..|parts| - 1]) + parts[|parts| - 1]
  }

  /** Part `n` of the steps is what call `n` does where the parts before it have led, and says whether
    * the call throws. */
  ghost predicate Made(start: World, calls: seq<Call>, parts: seq<seq<Step>>, thrown: seq<bool>, n: nat)
    requires n < |parts| == |thrown| <= |calls|
  {
    AllLawful(Together(parts[..n])) && Does(calls[n], Run(start, Together(parts[..n])), parts[n], thrown[n])
  }

  /** So it is with all of them. */
  ghost predicate InTurn(start: World, calls: seq<Call>, parts: seq<seq<Step>>, thrown: seq<bool>) {
    && |parts| == |thrown| <= |calls|
    && forall n :: 0 <= n < |parts| ==> Made(start, calls, parts, thrown, n)
  }

  lemma TurnMore(start: World, calls: seq<Call>, parts: seq<seq<Step>>, thrown: seq<bool>, more: seq<Step>, threw: bool)
    requires InTurn(start, calls, parts, thrown) && |parts| < |calls| && AllLawful(Together(parts))
    requires Does(calls[|parts|], Run(start, Together(parts)), more, threw)
    ensures InTurn(start, calls, parts + [more], thrown + [threw])
    ensures Together(parts + [more]) == Together(parts) + more
  {
    hide Does, Run, Together, Made;
    var longer, flags := parts + [more], thrown + [threw];
    forall n | 0 <= n < |longer| ensures Made(start, calls, longer, flags, n) {
      if n < |parts| {
        MadeBefore(start, calls, parts, thrown, more, threw, n);
      } else {
        MadeLast(start, calls, parts, thrown, more, threw);
      }
    }
    TogetherMore(parts, more);
  }

  lemma MadeBefore(start: World, calls: seq<Call>, parts: seq<seq<Step>>, thrown: seq<bool>, more: seq<Step>,
                   threw: bool, n: nat)
    requires n < |parts| == |thrown| < |calls| && Made(start, calls, parts, thrown, n)
    ensures Made(start, calls, parts + [more], thrown + [threw], n)
  {
    hide Does, Run, Together;
    assert (parts + [more])[..n] == parts[..n];
  }

  lemma MadeLast(start: World, calls: seq<Call>, parts: seq<seq<Step>>, thrown: seq<bool>, more: seq<Step>,
                 threw: bool)
    requires |parts| == |thrown| < |calls| && AllLawful(Together(parts))
    requires Does(calls[|parts|], Run(start, Together(parts)), more, threw)
    ensures Made(start, calls, parts + [more], thrown + [threw], |parts|)
  {
    hide Does, Run, Together;
    assert (parts + [more])[..|parts|] == parts;
  }

  lemma TogetherMore(parts: seq<seq<Step>>, more: seq<Step>)
    ensures Together(parts + [more]) == Together(parts) + more
  {
    assert (parts + [more])[..|parts|] == parts;
  }

  lemma TurnNothing(start: World, calls: seq<Call>)
    ensures InTurn(start, calls, [], []) && Together([]) == [] && Run(start, []) == start && Tell([], calls[..0])
  {
  }

  /** A new transceiver and any sequence of calls: each is made, in its turn, whether or not one before it
    * threw.  If no call throws, every connection has heard what was said to it, or as much of it as has
    * left. */
  method Serve(polled: seq<Fd>, calls: seq<Call>)
    returns (t: Transceiver, thrown: seq<bool>, ghost parts: seq<seq<Step>>)
    ensures fresh(t) && t.Valid()
    ensures InTurn(Start(polled), calls, parts, thrown) && |parts| == |calls| && AllLawful(Together(parts))
    ensures t.View() == Run(Start(polled), Together(parts))
    ensures true !in thrown ==> forall fd: Fd :: Heard(t.View(), Together(parts), calls, fd)
  {
    hide Stored, Tell, Heard, Does, Run, InTurn, Together;
    var fds := new Descriptors(polled);
    t := new Transceiver(fds);
    thrown, parts := [], [];
    TurnNothing(Start(polled), calls);
    var n := 0;
    while n < |calls|
      invariant n == |parts| == |thrown| <= |calls|
      invariant fresh(t) && fresh(t.buffer) && fresh(t.buffer.Memory) && fresh(t.fds) && t.Valid()
      invariant AllLawful(Together(parts)) && t.View() == Run(Start(polled), Together(parts))
      invariant InTurn(Start(polled), calls, parts, thrown)
      invariant true !in thrown ==> Tell(Together(parts), calls[..n])
    {
      ghost var more;
      var threw;
      threw, more := Perform(t, calls[n]);
      TellMore(Start(polled), Together(parts), calls, n, more, threw);
      TurnMore(Start(polled), calls, parts, thrown, more, threw);
      thrown, parts, n := thrown + [threw], parts + [more], n + 1;
    }
    if true !in thrown {
      assert calls[..|calls|] == calls;
      forall fd: Fd ensures Heard(t.View(), Together(parts), calls, fd) {
        AllHeard(polled, Together(parts), calls, fd);
      }
    }
  }
}
