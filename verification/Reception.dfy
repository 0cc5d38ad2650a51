/** Whole runs of the input side: many connections, reads that split records anywhere. */
module Reception {
  import opened Protocol
  import opened Reassembly
  import opened ChunkBuffer
  import Wire
  import opened Seqs

  /** A call of the function that passes messages on to the manager. */
  datatype Message = Message(id: FullId, record: seq<byte>)

  datatype Inbound = Inbound(partial: map<Fd, seq<byte>>, inbox: seq<Message>)

  datatype Step = Opened(fd: Fd) | Arrived(fd: Fd, bytes: seq<byte>) | Dropped(fd: Fd)

  function Addressed(records: seq<seq<byte>>, fd: Fd): (ms: seq<Message>)
    requires Wire.WholeRecords(records)
    ensures |ms| == |records|
  {
    seq(|records|, i requires 0 <= i < |records| =>
      Message(FullId(DecodeHeader(records[i]).requestId, fd), records[i]))
  }

  lemma {:induction false} ParseWholeRecords(b: seq<byte>)
    ensures Wire.WholeRecords(Parse(b).records)
    decreases |b|
  {
    if !Unfinished(b) {
      var n := RecordSize(b);
      RecordSizeAppend(b[..n], b[n..]);
      assert b[..n] + b[n..] == b;
      ParseWholeRecords(b[n..]);
    }
  }

  function Apply(s: Inbound, step: Step): Inbound {
    match step
    case Opened(fd) => s.(partial := s.partial[fd := []])
    case Dropped(fd) => s.(partial := s.partial - {fd})
    case Arrived(fd, bytes) =>
      if fd !in s.partial then s
      else
        var parsed := Parse(s.partial[fd] + bytes);
        ParseWholeRecords(s.partial[fd] + bytes);
        Inbound(s.partial[fd := parsed.tail], s.inbox + Addressed(parsed.records, fd))
  }

  function Run(s: Inbound, steps: seq<Step>): Inbound {
    if steps == [] then s else Apply(Run(s, steps[..|steps| - 1]), steps[|steps| - 1])
  }

  /** Everything that has arrived on `fd`, regardless of how it was split. */
  function StreamOf(steps: seq<Step>, fd: Fd): seq<byte> {
    if steps == [] then []
    else
      var earlier, s := StreamOf(steps[..|steps| - 1], fd), steps[|steps| - 1];
      if s.Arrived? && s.fd == fd then earlier + s.bytes else earlier
  }

  /** The messages delivered for connection `fd`. */
  function DeliveredFor(inbox: seq<Message>, fd: Fd): seq<Message> {
    if inbox == [] then []
    else
      var earlier, m := DeliveredFor(inbox[..|inbox| - 1], fd), inbox[|inbox| - 1];
      if m.id.fd == fd then earlier + [m] else earlier
  }

  lemma {:induction false} DeliveredAppend(a: seq<Message>, b: seq<Message>, fd: Fd)
    ensures DeliveredFor(a + b, fd) == DeliveredFor(a, fd) + DeliveredFor(b, fd)
  {
    if b == [] {
      assert a + b == a;
    } else {
      var last := |b| - 1;
      DeliveredAppend(a, b[..last], fd);
      assert (a + b)[..|a + b| - 1] == a + b[..last];
      assert (a + b)[|a + b| - 1] == b[last];
    }
  }

  lemma {:induction false} DeliveredAddressed(records: seq<seq<byte>>, fd: Fd, to: Fd)
    requires Wire.WholeRecords(records)
    ensures DeliveredFor(Addressed(records, fd), to) == if fd == to then Addressed(records, fd) else []
  {
    if records != [] {
      var last := |records| - 1;
      DeliveredAddressed(records[..last], fd, to);
      assert Addressed(records, fd)[..last] == Addressed(records[..last], fd);
      assert Addressed(records, fd) == Addressed(records[..last], fd) + [Addressed(records, fd)[last]];
    }
  }

  predicate StaysOpen(steps: seq<Step>, fd: Fd) {
    forall i :: 0 <= i < |steps| ==> steps[i] != Opened(fd) && steps[i] != Dropped(fd)
  }

  /** Since it was opened in state `s`, connection `fd` has delivered exactly the whole records of
    * `stream`, in order, and keeps exactly the unfinished rest. */
  predicate Accounts(s: Inbound, after: Inbound, stream: seq<byte>, fd: Fd) {
    var parsed := Parse(stream);
    && Wire.WholeRecords(parsed.records)
    && fd in after.partial && after.partial[fd] == parsed.tail
    && DeliveredFor(after.inbox, fd) == DeliveredFor(s.inbox, fd) + Addressed(parsed.records, fd)
  }

  /** Splitting does not matter: whatever the reads, however interleaved with other connections,
    * zero-length bodies included. */
  lemma {:induction false} SplitIndependence(s: Inbound, steps: seq<Step>, fd: Fd)
    requires StaysOpen(steps, fd)
    ensures Accounts(s, Run(Apply(s, Opened(fd)), steps), StreamOf(steps, fd), fd)
  {
    if steps == [] {
      assert Addressed([], fd) == [];
      assert DeliveredFor(s.inbox, fd) + [] == DeliveredFor(s.inbox, fd);
    } else {
      var before, step := steps[..|steps| - 1], steps[|steps| - 1];
      SplitIndependence(s, before, fd);
      var mid := Run(Apply(s, Opened(fd)), before);
      if step == Arrived(fd, if step.Arrived? then step.bytes else []) {
        OwnArrival(s, mid, StreamOf(before, fd), step.bytes, fd);
      } else if step.Arrived? {
        ArrivalDelivers(mid, step.fd, step.bytes, fd);
      }
    }
  }

  lemma OwnArrival(s: Inbound, mid: Inbound, stream: seq<byte>, bytes: seq<byte>, fd: Fd)
    requires Accounts(s, mid, stream, fd)
    ensures Accounts(s, Apply(mid, Arrived(fd, bytes)), stream + bytes, fd)
  {
    ArrivalDelivers(mid, fd, bytes, fd);
    ParseAppend(stream, bytes);
    var seen, more := Parse(stream), Parse(Parse(stream).tail + bytes);
    AddressedAppend(seen.records, more.records, fd);
    Regroup(DeliveredFor(s.inbox, fd), Addressed(seen.records, fd), Addressed(more.records, fd));
  }

  lemma AddressedAppend(a: seq<seq<byte>>, b: seq<seq<byte>>, fd: Fd)
    requires Wire.WholeRecords(a) && Wire.WholeRecords(b)
    ensures Wire.WholeRecords(a + b) && Addressed(a + b, fd) == Addressed(a, fd) + Addressed(b, fd)
  {
  }

  lemma {:induction false} ArrivalDelivers(s: Inbound, fd: Fd, bytes: seq<byte>, to: Fd)
    ensures var after := Apply(s, Arrived(fd, bytes));
            if fd != to || fd !in s.partial then
              DeliveredFor(after.inbox, to) == DeliveredFor(s.inbox, to)
              && (to in s.partial ==> to in after.partial && after.partial[to] == s.partial[to])
            else
              var parsed := Parse(s.partial[fd] + bytes);
              && Wire.WholeRecords(parsed.records)
              && after.partial == s.partial[fd := parsed.tail]
              && DeliveredFor(after.inbox, to) == DeliveredFor(s.inbox, to) + Addressed(parsed.records, fd)
  {
    if fd in s.partial {
      var parsed := Parse(s.partial[fd] + bytes);
      ParseWholeRecords(s.partial[fd] + bytes);
      DeliveredAppend(s.inbox, Addressed(parsed.records, fd), to);
      DeliveredAddressed(parsed.records, fd, to);
      assert DeliveredFor(s.inbox, to) + [] == DeliveredFor(s.inbox, to);
    }
  }

  function Records(ms: seq<Message>): (rs: seq<seq<byte>>)
    ensures |rs| == |ms|
  {
    seq(|ms|, i requires 0 <= i < |ms| => ms[i].record)
  }

  /** The two halves composed: when everything written for a connection has left, a reader that
    * takes it in through this reassembly, split anywhere and mixed with anything, gets back the
    * written bytes of every request and stream, and holds no unfinished rest. */
  lemma WrittenIsReadBack(pollFds: seq<Fd>, writes: seq<Wire.Step>, fd: Fd, s: Inbound, reads_: seq<Step>,
                          to: Fd, id: uint16, kind: byte)
    requires Wire.AllLawful(writes) && StaysOpen(reads_, to)
    requires DeliveredFor(s.inbox, to) == []
    requires var w := Wire.Run(Wire.Start(pollFds), writes);
             Wire.BytesTo(w.line.queue, fd) == [] && StreamOf(reads_, to) == Wire.SentTo(w.line.log, fd)
    ensures var after := Run(Apply(s, Opened(to)), reads_);
            var got := Records(DeliveredFor(after.inbox, to));
            && to in after.partial && after.partial[to] == []
            && Wire.WholeRecords(got)
            && Wire.Joined(got, id, kind) == Wire.Written(writes, FullId(id, fd), kind)
  {
    Wire.EndToEnd(pollFds, writes, fd);
    SplitIndependence(s, reads_, to);
    var parsed := Parse(StreamOf(reads_, to));
    assert [] + Addressed(parsed.records, to) == Addressed(parsed.records, to);
    assert Records(Addressed(parsed.records, to)) == parsed.records;
  }

  lemma AddressedOutcome(outcome: Outcome, fd: Fd)
    requires outcome.Delivered? ==> WholeRecord(outcome.message)
    ensures Wire.WholeRecords(Messages(outcome))
    ensures Addressed(Messages(outcome), fd) ==
            if outcome.Delivered? then [Message(FullId(DecodeHeader(outcome.message).requestId, fd), outcome.message)]
            else []
  {
  }

  // ---- The receiving half of the handler -------------------------------------------------------

  class Receiver {
    const fds: Descriptors
    var inbox: seq<Message>

    /** Two receive buffers that share no memory. */
    static ghost predicate Apart(a: FdBuffer, b: FdBuffer)
      reads a`data, b`data
    {
      && a != b && a.headerBuffer != b.headerBuffer
      && (a.data != null ==> a.data != b.headerBuffer && a.data != b.data)
      && (b.data != null ==> b.data != a.headerBuffer)
    }

    /** Every receive buffer is in order and shares nothing with the others. */
    ghost predicate Valid()
      reads fds, fds.fdBuffers.Values
      reads set b | b in fds.fdBuffers.Values :: b.headerBuffer
      reads set b | b in fds.fdBuffers.Values && b.data != null :: b.data
    {
      && (forall i :: i in fds.fdBuffers ==> fds.fdBuffers[i].Valid())
      && (forall i, j :: i in fds.fdBuffers && j in fds.fdBuffers && i != j ==>
            Apart(fds.fdBuffers[i], fds.fdBuffers[j]))
    }

    constructor (fds: Descriptors)
      requires fds.fdBuffers == map[]
      ensures Valid() && this.fds == fds && inbox == []
    {
      this.fds := fds;
      inbox := [];
    }

    /** A new connection: a poll entry and an empty receive buffer. */
    method Accept(fd: Fd)
      requires Valid() && fd !in fds.fdBuffers
      modifies fds
      ensures Valid()
      ensures fd in fds.fdBuffers && fresh(fds.fdBuffers[fd]) && fresh(fds.fdBuffers[fd].headerBuffer)
      ensures fds.fdBuffers[fd].Partial() == []
      ensures fds.View() == Watched(old(fds.View()), fd, fds.fdBuffers[fd])
    {
      var b := new FdBuffer();
      fds.pollFds := fds.pollFds + [fd];
      fds.fdBuffers := fds.fdBuffers[fd := b];
    }

    /** The end of the stream: poll entry and receive buffer go. */
    method HangUp(fd: Fd)
      requires Valid()
      modifies fds
      ensures Valid()
      ensures fds.View() == Unwatched(old(fds.View()), fd)
    {
      fds.fdBuffers := fds.fdBuffers - {fd};
      fds.pollFds := Without(fds.pollFds, fd);
    }

    /** The reads themselves: nothing but the buffer of `fd` changes, and what it allocates is its own. */
    method Take(fd: Fd, input: seq<byte>, first: ReadResult, second: ReadResult)
      returns (outcome: Outcome, used: nat)
      requires Valid() && fd in fds.fdBuffers
      modifies fds.fdBuffers[fd], fds.fdBuffers[fd].headerBuffer, fds.fdBuffers[fd].data
      ensures Valid() && used <= |input|
      ensures old(Unfinished(fds.fdBuffers[fd].Partial()))
      ensures outcome.Threw? <==> Throws(old(fds.fdBuffers[fd].Partial()), input, first, second)
      ensures used == Taken(old(fds.fdBuffers[fd].Partial()), input, first, second)
      ensures outcome.Closed? <==> old(fds.fdBuffers[fd].data) == null && first.Count? && (first.n == 0 || input == [])
      ensures forall i :: i in fds.fdBuffers && i != fd ==>
                fds.fdBuffers[i].Partial() == old(fds.fdBuffers[i].Partial())
      ensures outcome.Closed? ==> used == 0
      ensures outcome.Delivered? ==> WholeRecord(outcome.message)
      ensures Parse(old(fds.fdBuffers[fd].Partial()) + input[..used])
           == Parsed(Messages(outcome), fds.fdBuffers[fd].Partial())
    {
      hide Parse, Taken, Throws, Unfinished;
      var b := fds.fdBuffers[fd];
      outcome, used := b.Receive(input, first, second);
      forall i | i in fds.fdBuffers && i != fd
        ensures Apart(fds.fdBuffers[i], b) && Apart(b, fds.fdBuffers[i]) && fds.fdBuffers[i].Valid()
        ensures fds.fdBuffers[i].Partial() == old(fds.fdBuffers[i].Partial())
      {
        assert old(Apart(fds.fdBuffers[i], b)) && old(Apart(b, fds.fdBuffers[i]));
        assert old(fds.fdBuffers[i].Valid());
      }
    }

    /** Passing on a message that is complete. */
    method Deliver(outcome: Outcome, fd: Fd)
      requires outcome.Delivered? ==> WholeRecord(outcome.message)
      modifies `inbox
      ensures Wire.WholeRecords(Messages(outcome)) && inbox == old(inbox) + Addressed(Messages(outcome), fd)
    {
      AddressedOutcome(outcome, fd);
      if outcome.Delivered? {
        inbox := inbox + [Message(FullId(DecodeHeader(outcome.message).requestId, fd), outcome.message)];
      }
    }

    /** What follows the reads: a closed connection goes, a complete message is passed on. */
    method Settle(fd: Fd, outcome: Outcome)
      requires Valid() && (outcome.Delivered? ==> WholeRecord(outcome.message))
      modifies `inbox, fds
      ensures Valid() && Wire.WholeRecords(Messages(outcome))
      ensures inbox == old(inbox) + Addressed(Messages(outcome), fd)
      ensures fds.View() == if outcome.Closed? then Unwatched(old(fds.View()), fd) else old(fds.View())
    {
      if outcome.Closed? {
        HangUp(fd);
      }
      Deliver(outcome, fd);
    }

    /** One readable connection.  Only its own receive buffer is touched, so this is the step
      * `Arrived` (or `Dropped`, at the end of the stream) of that connection and of no other. */
    method Read(fd: Fd, input: seq<byte>, first: ReadResult, second: ReadResult)
      returns (outcome: Outcome, used: nat)
      requires Valid() && fd in fds.fdBuffers
      modifies `inbox, fds, fds.fdBuffers[fd], fds.fdBuffers[fd].headerBuffer, fds.fdBuffers[fd].data
      ensures Valid() && used <= |input|
      ensures old(Unfinished(fds.fdBuffers[fd].Partial()))
      ensures outcome.Threw? <==> Throws(old(fds.fdBuffers[fd].Partial()), input, first, second)
      ensures used == Taken(old(fds.fdBuffers[fd].Partial()), input, first, second)
      ensures outcome.Closed? <==> old(fds.fdBuffers[fd].data) == null && first.Count? && (first.n == 0 || input == [])
      ensures forall i :: i in old(fds.fdBuffers) && i != fd ==>
                var b := old(fds.fdBuffers)[i];
                b.Valid() && b.Partial() == old(b.Partial())
      ensures outcome.Closed? ==> used == 0
      ensures Wire.WholeRecords(Messages(outcome)) && inbox == old(inbox) + Addressed(Messages(outcome), fd)
      ensures fds.View() == if outcome.Closed? then Unwatched(old(fds.View()), fd) else old(fds.View())
      ensures Parse(old(fds.fdBuffers[fd].Partial()) + input[..used]).records == Messages(outcome)
      ensures !outcome.Closed? ==>
        fds.fdBuffers[fd].Partial() == Parse(old(fds.fdBuffers[fd].Partial()) + input[..used]).tail
    {
      hide Parse, Taken, Throws, Unfinished, Wire.WholeRecords, Addressed;
      outcome, used := Take(fd, input, first, second);
      Settle(fd, outcome);
    }
  }
}
