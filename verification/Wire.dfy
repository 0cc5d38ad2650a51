/** Whole runs of the output side, on values: what is committed, what waits, and what the kernel
  * has taken, with any interleaving of requests and any pattern of partial writes. */
module Wire {
  import opened Protocol
  import opened Fifo
  import opened Reassembly
  import opened ChunkBuffer
  import opened Seqs

  /** What one `write` call does: it takes some bytes, it reports that the connection is gone
    * (EPIPE, EBADF), or it fails otherwise.  A call never takes more than it is offered. */
  datatype WriteResult = Wrote(n: nat) | Gone | Failed

  /** Bytes handed to a connection; `lost` when they were dropped because it was gone. */
  datatype Sent = Sent(fd: Fd, bytes: seq<byte>, lost: bool)

  datatype Line = Line(queue: seq<Parcel>, log: seq<Sent>, ports: Ports)

  /** A transmission attempt ends in a new line state, with or without a SocketWrite error. */
  datatype Attempt = Attempt(line: Line, threw: bool)

  function Min(a: nat, b: nat): nat {
    if a < b then a else b
  }

  /** One `write` of the front parcel that takes `n` bytes. */
  function Take(l: Line, n: nat, lost: bool): Line
    requires l.queue != [] && n <= |l.queue[0].bytes|
  {
    var front := l.queue[0];
    var ports := if lost then Freed(l.ports, front.id.fd) else l.ports;
    Line(Consume(l.queue, n),
         l.log + [Sent(front.id.fd, front.bytes[..n], lost)],
         if n == |front.bytes| && front.closeFd then Freed(ports, front.id.fd) else ports)
  }

  /** The transmit loop: it goes on while whole parcels leave.  Calls that `results` does not
    * cover take nothing. */
  function Transmitted(l: Line, results: seq<WriteResult>): Attempt
    decreases |results|
  {
    if l.queue == [] || results == [] then Attempt(l, false)
    else match results[0]
      case Failed => Attempt(l, true)
      case Gone => Transmitted(Take(l, |l.queue[0].bytes|, true), results[1..])
      case Wrote(n) =>
        var k := Min(n, |l.queue[0].bytes|);
        if k == |l.queue[0].bytes| then Transmitted(Take(l, k, false), results[1..])
        else Attempt(Take(l, k, false), false)
  }

  // ---- Steps -------------------------------------------------------------------------------

  /** Committing one record, one transmission attempt, or a connection that comes or hangs up.
    * Padding and the reserved header byte are whatever the chunk memory held. */
  datatype Step =
    | Commit(id: FullId, kind: byte, content: seq<byte>, padding: seq<byte>, reserved: byte, closeFd: bool)
    | Flush(results: seq<WriteResult>)
    | Accepted(fd: Fd, buffer: FdBuffer)
    | HungUp(fd: Fd)

  predicate Lawful(s: Step) {
    s.Commit? ==> |s.content| < 0x1_0000 && |s.padding| < 0x100
  }

  predicate AllLawful(steps: seq<Step>) {
    forall i :: 0 <= i < |steps| ==> Lawful(steps[i])
  }

  function RecordBytes(s: Step): (b: seq<byte>)
    requires s.Commit? && Lawful(s)
  {
    EncodeHeader(Header(VERSION, s.kind, s.id.fcgiId, |s.content|, |s.padding|, s.reserved))
    + s.content + s.padding
  }

  /** The whole history of commits together with the current line. */
  datatype World = World(committed: seq<Parcel>, line: Line)

  function Apply(w: World, s: Step): World
    requires Lawful(s)
  {
    match s
    case Commit(id, _, _, _, _, closeFd) =>
      var p := Parcel(id, closeFd, RecordBytes(s));
      World(w.committed + [p], w.line.(queue := w.line.queue + [p]))
    case Flush(results) => w.(line := Transmitted(w.line, results).line)
    case Accepted(fd, buffer) => w.(line := w.line.(ports := Watched(w.line.ports, fd, buffer)))
    case HungUp(fd) => w.(line := w.line.(ports := Unwatched(w.line.ports, fd)))
  }

  function Run(w: World, steps: seq<Step>): World
    requires AllLawful(steps)
  {
    if steps == [] then w
    else Apply(Run(w, steps[..|steps| - 1]), steps[|steps| - 1])
  }

  /** The last step was a transmission attempt that ended in an error. */
  function Threw(w: World, steps: seq<Step>): bool
    requires AllLawful(steps)
  {
    && steps != [] && steps[|steps| - 1].Flush?
    && Transmitted(Run(w, steps[..|steps| - 1]).line, steps[|steps| - 1].results).threw
  }

  /** Only a failing `write` call makes an attempt fail. */
  lemma {:induction false} ThrewFailed(l: Line, results: seq<WriteResult>)
    requires Transmitted(l, results).threw
    ensures exists j :: 0 <= j < |results| && results[j].Failed?
    decreases |results|
  {
    if !results[0].Failed? {
      var lost := results[0].Gone?;
      var k := if lost then |l.queue[0].bytes| else Min(results[0].n, |l.queue[0].bytes|);
      ThrewFailed(Take(l, k, lost), results[1..]);
      var j :| 0 <= j < |results[1..]| && results[1..][j].Failed?;
      assert results[j + 1].Failed?;
    }
  }

  lemma {:induction false} RunAppend(w: World, a: seq<Step>, b: seq<Step>)
    requires AllLawful(a) && AllLawful(b)
    ensures AllLawful(a + b) && Run(w, a + b) == Run(Run(w, a), b)
  {
    if b == [] {
      assert a + b == a;
    } else {
      var last := |b| - 1;
      RunAppend(w, a, b[..last]);
      assert (a + b)[..|a + b| - 1] == a + b[..last];
      assert (a + b)[|a + b| - 1] == b[last];
    }
  }

  function Start(pollFds: seq<Fd>): World {
    World([], Line([], [], Ports(pollFds, map[], [])))
  }

  // ---- What a connection and a stream have seen ----------------------------------------------

  /** Bytes addressed to `fd`. */
  function BytesTo(ps: seq<Parcel>, fd: Fd): seq<byte> {
    if ps == [] then []
    else
      var earlier := BytesTo(ps[..|ps| - 1], fd);
      if ps[|ps| - 1].id.fd == fd then earlier + ps[|ps| - 1].bytes else earlier
  }

  /** Bytes that left for `fd`, in the order of the write calls. */
  function SentTo(log: seq<Sent>, fd: Fd): seq<byte> {
    if log == [] then []
    else
      var earlier := SentTo(log[..|log| - 1], fd);
      if log[|log| - 1].fd == fd then earlier + log[|log| - 1].bytes else earlier
  }

  predicate Live(log: seq<Sent>, fd: Fd) {
    forall i :: 0 <= i < |log| ==> log[i].fd == fd ==> !log[i].lost
  }

  /** The data written by request `id` on stream `kind`, by definition of the steps. */
  function Written(steps: seq<Step>, id: FullId, kind: byte): seq<byte> {
    if steps == [] then []
    else
      var s := steps[|steps| - 1];
      var earlier := Written(steps[..|steps| - 1], id, kind);
      if s.Commit? && s.id == id && s.kind == kind then earlier + s.content else earlier
  }

  lemma {:induction false} WrittenAppend(a: seq<Step>, b: seq<Step>, id: FullId, kind: byte)
    ensures Written(a + b, id, kind) == Written(a, id, kind) + Written(b, id, kind)
  {
    if b == [] {
      assert a + b == a;
    } else {
      var last := |b| - 1;
      WrittenAppend(a, b[..last], id, kind);
      assert (a + b)[..|a + b| - 1] == a + b[..last];
      assert (a + b)[|a + b| - 1] == b[last];
    }
  }

  /** The records committed for `fd`, oldest first. */
  function RecordsTo(steps: seq<Step>, fd: Fd): seq<seq<byte>>
    requires AllLawful(steps)
  {
    if steps == [] then []
    else
      var s := steps[|steps| - 1];
      var earlier := RecordsTo(steps[..|steps| - 1], fd);
      if s.Commit? && s.id.fd == fd then earlier + [RecordBytes(s)] else earlier
  }

  // ---- Reading records back --------------------------------------------------------------------

  function Content(record: seq<byte>): seq<byte>
    requires WholeRecord(record)
  {
    record[HEADER_SIZE..HEADER_SIZE + DecodeHeader(record).contentLength]
  }

  predicate WholeRecords(records: seq<seq<byte>>) {
    forall i :: 0 <= i < |records| ==> WholeRecord(records[i])
  }

  /** What the web server sees of one stream: the contents of its records, joined. */
  function Joined(records: seq<seq<byte>>, requestId: uint16, kind: byte): seq<byte>
    requires WholeRecords(records)
  {
    if records == [] then []
    else
      var r := records[|records| - 1];
      var earlier := Joined(records[..|records| - 1], requestId, kind);
      if DecodeHeader(r).requestId == requestId && DecodeHeader(r).kind == kind then earlier + Content(r)
      else earlier
  }

  lemma RecordReadsBack(s: Step)
    requires s.Commit? && Lawful(s)
    ensures var r := RecordBytes(s);
            && WholeRecord(r) && DecodeHeader(r).requestId == s.id.fcgiId
            && DecodeHeader(r).kind == s.kind && Content(r) == s.content
  {
    var h := Header(VERSION, s.kind, s.id.fcgiId, |s.content|, |s.padding|, s.reserved);
    var r := RecordBytes(s);
    assert r == EncodeHeader(h) + (s.content + s.padding);
    HeaderRoundTrip(h, s.content + s.padding);
  }

  lemma JoinedLast(records: seq<seq<byte>>, r: seq<byte>, requestId: uint16, kind: byte)
    requires WholeRecords(records) && WholeRecord(r)
    ensures WholeRecords(records + [r])
    ensures Joined(records + [r], requestId, kind) == Joined(records, requestId, kind)
            + (if DecodeHeader(r).requestId == requestId && DecodeHeader(r).kind == kind then Content(r) else [])
  {
    assert (records + [r])[..|records + [r]| - 1] == records;
  }

  lemma {:induction false} RecordsReadBack(steps: seq<Step>, id: FullId, kind: byte)
    requires AllLawful(steps)
    ensures WholeRecords(RecordsTo(steps, id.fd))
    ensures Joined(RecordsTo(steps, id.fd), id.fcgiId, kind) == Written(steps, id, kind)
  {
    if steps != [] {
      var s := steps[|steps| - 1];
      RecordsReadBack(steps[..|steps| - 1], id, kind);
      if s.Commit? && s.id.fd == id.fd {
        RecordReadsBack(s);
        JoinedLast(RecordsTo(steps[..|steps| - 1], id.fd), RecordBytes(s), id.fcgiId, kind);
      }
    }
  }

  lemma {:induction false} JoinedPrefix(a: seq<seq<byte>>, b: seq<seq<byte>>, requestId: uint16, kind: byte)
    requires WholeRecords(a) && WholeRecords(b) && a <= b
    ensures Joined(a, requestId, kind) <= Joined(b, requestId, kind)
  {
    if a != b {
      var b' := b[..|b| - 1];
      assert a <= b';
      JoinedPrefix(a, b', requestId, kind);
    }
  }

  // ---- The invariant of every run -----------------------------------------------------------------

  /** The queue is the tail of what was committed, its front parcel possibly cut short. */
  predicate Aligned(w: World) {
    var c := |w.committed| - |w.line.queue|;
    && c >= 0
    && NonEmptyParcels(w.line.queue)
    && (forall i :: 0 <= i < |w.line.queue| ==>
          && w.line.queue[i].id == w.committed[c + i].id
          && w.line.queue[i].closeFd == w.committed[c + i].closeFd
          && |w.line.queue[i].bytes| <= |w.committed[c + i].bytes|)
  }

  /** For every connection, what was committed is what was sent followed by what waits. */
  predicate Conserved(w: World, fd: Fd) {
    BytesTo(w.committed, fd) == SentTo(w.line.log, fd) + BytesTo(w.line.queue, fd)
  }

  /** A live connection is closed only after a closing parcel of its own was used up. */
  predicate ClosedByOwnParcel(w: World, fd: Fd) {
    fd in w.line.ports.closed && Live(w.line.log, fd) ==>
      exists k :: 0 <= k < |w.committed| - |w.line.queue|
                  && w.committed[k].id.fd == fd && w.committed[k].closeFd
  }

  predicate Good(w: World, fd: Fd) {
    Aligned(w) && Conserved(w, fd) && ClosedByOwnParcel(w, fd)
  }

  /** What a parcel adds to its connection. */
  function Share(p: Parcel, fd: Fd): seq<byte> {
    if p.id.fd == fd then p.bytes else []
  }

  lemma {:induction false} BytesToAppend(a: seq<Parcel>, b: seq<Parcel>, fd: Fd)
    ensures BytesTo(a + b, fd) == BytesTo(a, fd) + BytesTo(b, fd)
  {
    if b == [] {
      assert a + b == a;
    } else {
      var last := |b| - 1;
      BytesToAppend(a, b[..last], fd);
      assert (a + b)[..|a + b| - 1] == a + b[..last];
      assert (a + b)[|a + b| - 1] == b[last];
      Regroup(BytesTo(a, fd), BytesTo(b[..last], fd), Share(b[last], fd));
    }
  }

  lemma BytesToLast(ps: seq<Parcel>, p: Parcel, fd: Fd)
    ensures BytesTo(ps + [p], fd) == BytesTo(ps, fd) + (if p.id.fd == fd then p.bytes else [])
  {
    assert (ps + [p])[..|ps + [p]| - 1] == ps;
  }

  lemma BytesToSplit(ps: seq<Parcel>, fd: Fd)
    requires ps != []
    ensures BytesTo(ps, fd) == (if ps[0].id.fd == fd then ps[0].bytes else []) + BytesTo(ps[1..], fd)
  {
    BytesToAppend([ps[0]], ps[1..], fd);
    assert [ps[0]] + ps[1..] == ps;
    assert [ps[0]][..0] == [];
  }

  /** Taking bytes moves them from the front of the queue to the end of the log. */
  lemma TakeMoves(l: Line, n: nat, lost: bool, fd: Fd)
    requires l.queue != [] && n <= |l.queue[0].bytes|
    ensures SentTo(Take(l, n, lost).log, fd) + BytesTo(Take(l, n, lost).queue, fd)
         == SentTo(l.log, fd) + BytesTo(l.queue, fd)
  {
    var front, rest, after := l.queue[0], l.queue[1..], Take(l, n, lost);
    BytesToSplit(l.queue, fd);
    assert after.log[..|after.log| - 1] == l.log;
    if n < |front.bytes| {
      BytesToSplit(after.queue, fd);
      assert after.queue[1..] == rest;
      assert front.bytes[..n] + front.bytes[n..] == front.bytes;
    }
  }

  lemma TakeAligned(w: World, n: nat, lost: bool)
    requires Aligned(w) && w.line.queue != [] && n <= |w.line.queue[0].bytes|
    ensures Aligned(w.(line := Take(w.line, n, lost)))
  {
    var before, after := w.line.queue, Take(w.line, n, lost).queue;
    var c, d := |w.committed| - |before|, |w.committed| - |after|;
    forall i | 0 <= i < |after|
      ensures after[i].bytes != [] && after[i].id == w.committed[d + i].id
      ensures after[i].closeFd == w.committed[d + i].closeFd && |after[i].bytes| <= |w.committed[d + i].bytes|
    {
      assert before[i + d - c].bytes != [];
    }
  }

  lemma TakeCloses(w: World, n: nat, lost: bool, fd: Fd)
    requires Aligned(w) && ClosedByOwnParcel(w, fd)
    requires w.line.queue != [] && n <= |w.line.queue[0].bytes|
    ensures ClosedByOwnParcel(w.(line := Take(w.line, n, lost)), fd)
  {
    var after := Take(w.line, n, lost);
    if fd in after.ports.closed && Live(after.log, fd) {
      forall i | 0 <= i < |w.line.log| ensures w.line.log[i].fd == fd ==> !w.line.log[i].lost {
        assert after.log[i] == w.line.log[i];
      }
      if fd !in w.line.ports.closed {
        var k := |w.committed| - |w.line.queue|;
        assert after.log[|w.line.log|] == Sent(w.line.queue[0].id.fd, w.line.queue[0].bytes[..n], lost);
        assert w.committed[k].id.fd == fd && w.committed[k].closeFd;
      }
    }
  }

  lemma {:induction false} TransmittedGood(w: World, results: seq<WriteResult>, fd: Fd)
    requires Good(w, fd)
    ensures Good(w.(line := Transmitted(w.line, results).line), fd)
    decreases |results|
  {
    if w.line.queue != [] && results != [] && !results[0].Failed? {
      var lost := results[0].Gone?;
      var k := if lost then |w.line.queue[0].bytes| else Min(results[0].n, |w.line.queue[0].bytes|);
      TakeMoves(w.line, k, lost, fd);
      TakeAligned(w, k, lost);
      TakeCloses(w, k, lost, fd);
      if k == |w.line.queue[0].bytes| {
        TransmittedGood(w.(line := Take(w.line, k, lost)), results[1..], fd);
      }
    }
  }

  lemma CommitGood(w: World, s: Step, fd: Fd)
    requires Good(w, fd) && s.Commit? && Lawful(s)
    ensures Good(Apply(w, s), fd)
  {
    var p := Parcel(s.id, s.closeFd, RecordBytes(s));
    CommitConserved(w, p, fd);
    CommitAligned(w, p);
    CommitCloses(w, p, fd);
  }

  lemma CommitConserved(w: World, p: Parcel, fd: Fd)
    requires Conserved(w, fd)
    ensures Conserved(World(w.committed + [p], w.line.(queue := w.line.queue + [p])), fd)
  {
    BytesToLast(w.committed, p, fd);
    BytesToLast(w.line.queue, p, fd);
  }

  lemma CommitAligned(w: World, p: Parcel)
    requires Aligned(w) && p.bytes != []
    ensures Aligned(World(w.committed + [p], w.line.(queue := w.line.queue + [p])))
  {
  }

  lemma CommitCloses(w: World, p: Parcel, fd: Fd)
    requires Aligned(w) && ClosedByOwnParcel(w, fd)
    ensures ClosedByOwnParcel(World(w.committed + [p], w.line.(queue := w.line.queue + [p])), fd)
  {
    if fd in w.line.ports.closed && Live(w.line.log, fd) {
      var k :| 0 <= k < |w.committed| - |w.line.queue|
                  && w.committed[k].id.fd == fd && w.committed[k].closeFd;
      assert (w.committed + [p])[k] == w.committed[k];
    }
  }

  lemma GoodStart(pollFds: seq<Fd>, fd: Fd)
    ensures Good(Start(pollFds), fd)
  {
  }

  lemma GoodStep(w: World, s: Step, fd: Fd)
    requires Good(w, fd) && Lawful(s)
    ensures Good(Apply(w, s), fd)
  {
    match s
    case Flush(results) => TransmittedGood(w, results, fd);
    case Commit(_, _, _, _, _, _) => CommitGood(w, s, fd);
    case Accepted(other, buffer) => GoodPorts(w, Watched(w.line.ports, other, buffer), fd);
    case HungUp(other) => GoodPorts(w, Unwatched(w.line.ports, other), fd);
  }

  /** Connections that come or hang up close nothing. */
  lemma GoodPorts(w: World, ports: Ports, fd: Fd)
    requires Good(w, fd) && ports.closed == w.line.ports.closed
    ensures Good(w.(line := w.line.(ports := ports)), fd)
  {
  }

  lemma {:induction false} RunGood(pollFds: seq<Fd>, steps: seq<Step>, fd: Fd)
    requires AllLawful(steps)
    ensures Good(Run(Start(pollFds), steps), fd)
  {
    hide Good, Apply, Start;
    if steps == [] {
      GoodStart(pollFds, fd);
    } else {
      var before, s := steps[..|steps| - 1], steps[|steps| - 1];
      RunGood(pollFds, before, fd);
      GoodStep(Run(Start(pollFds), before), s, fd);
    }
  }

  /** The history of a connection is the concatenation of its records. */
  lemma {:induction false} CommittedRecords(pollFds: seq<Fd>, steps: seq<Step>, fd: Fd)
    requires AllLawful(steps)
    ensures BytesTo(Run(Start(pollFds), steps).committed, fd) == Concat(RecordsTo(steps, fd))
  {
    if steps != [] {
      var before, s := steps[..|steps| - 1], steps[|steps| - 1];
      CommittedRecords(pollFds, before, fd);
      if s.Commit? {
        var w := Run(Start(pollFds), before);
        var p := Parcel(s.id, s.closeFd, RecordBytes(s));
        BytesToLast(w.committed, p, fd);
        ConcatLast(RecordsTo(before, fd), RecordBytes(s));
      }
    }
  }

  lemma {:induction false} ConcatLast(parts: seq<seq<byte>>, last: seq<byte>)
    ensures Concat(parts + [last]) == Concat(parts) + last
  {
    if parts == [] {
      assert parts + [last] == [last];
      assert [last][1..] == [];
    } else {
      ConcatLast(parts[1..], last);
      assert (parts + [last])[1..] == parts[1..] + [last];
    }
  }

  /** END TO END.  After any run, what a live connection has received parses as the records
    * committed for it, in order and possibly followed by the beginning of the next one; and for
    * every request and stream the joined contents are the data written so far, complete as soon
    * as nothing waits for that connection any more. */
  lemma {:induction false} EndToEnd(pollFds: seq<Fd>, steps: seq<Step>, fd: Fd)
    requires AllLawful(steps)
    ensures var w := Run(Start(pollFds), steps);
            var seen := Parse(SentTo(w.line.log, fd));
            && seen.records <= RecordsTo(steps, fd)
            && WholeRecords(seen.records)
            && (forall id: uint16, kind: byte ::
                  Joined(seen.records, id, kind) <= Written(steps, FullId(id, fd), kind))
            && (BytesTo(w.line.queue, fd) == [] ==>
                  && seen == Parsed(RecordsTo(steps, fd), [])
                  && (forall id: uint16, kind: byte ::
                        Joined(seen.records, id, kind) == Written(steps, FullId(id, fd), kind)))
  {
    RunGood(pollFds, steps, fd);
    CommittedRecords(pollFds, steps, fd);
    var w := Run(Start(pollFds), steps);
    var records, sent, waiting := RecordsTo(steps, fd), SentTo(w.line.log, fd), BytesTo(w.line.queue, fd);
    RecordsReadBack(steps, FullId(0, fd), 0);
    ParseRecords(records, []);
    assert Concat(records) + [] == sent + waiting;
    ParseAppend(sent, waiting);
    var seen := Parse(sent);
    assert records == seen.records + Parse(seen.tail + waiting).records;
    forall i | 0 <= i < |seen.records| ensures WholeRecord(seen.records[i]) {
      assert seen.records[i] == records[i];
    }
    forall id: uint16, kind: byte
      ensures Joined(seen.records, id, kind) <= Written(steps, FullId(id, fd), kind)
      ensures seen.records == records ==> Joined(seen.records, id, kind) == Written(steps, FullId(id, fd), kind)
    {
      RecordsReadBack(steps, FullId(id, fd), kind);
      JoinedPrefix(seen.records, records, id, kind);
    }
    if waiting == [] {
      assert sent + waiting == sent;
    }
  }

  /** A live connection is closed only when a closing record of its own has been sent to the last
    * byte: everything committed for it up to that record has left. */
  lemma CloseAfterLastByte(pollFds: seq<Fd>, steps: seq<Step>, fd: Fd) returns (k: nat)
    requires AllLawful(steps)
    requires var w := Run(Start(pollFds), steps);
             fd in w.line.ports.closed && Live(w.line.log, fd)
    ensures var w := Run(Start(pollFds), steps);
            && k < |w.committed| && w.committed[k].id.fd == fd && w.committed[k].closeFd
            && BytesTo(w.committed[..k + 1], fd) <= SentTo(w.line.log, fd)
  {
    RunGood(pollFds, steps, fd);
    k := CloserSent(Run(Start(pollFds), steps), fd);
  }

  lemma CloserSent(w: World, fd: Fd) returns (k: nat)
    requires Good(w, fd) && fd in w.line.ports.closed && Live(w.line.log, fd)
    ensures k < |w.committed| && w.committed[k].id.fd == fd && w.committed[k].closeFd
    ensures BytesTo(w.committed[..k + 1], fd) <= SentTo(w.line.log, fd)
  {
    var c := |w.committed| - |w.line.queue|;
    k :| 0 <= k < c && w.committed[k].id.fd == fd && w.committed[k].closeFd;
    LongerHistory(w.committed, k + 1, c, fd);
    ConsumedLeft(w, fd);
    PrefixOfPrefix(BytesTo(w.committed[..k + 1], fd), BytesTo(w.committed[..c], fd), SentTo(w.line.log, fd));
  }

  lemma PrefixOfPrefix(a: seq<byte>, b: seq<byte>, c: seq<byte>)
    requires a <= b <= c
    ensures a <= c
  {
  }

  lemma {:induction false} LongerHistory(ps: seq<Parcel>, a: nat, b: nat, fd: Fd)
    requires a <= b <= |ps|
    ensures BytesTo(ps[..a], fd) <= BytesTo(ps[..b], fd)
  {
    if a < b {
      LongerHistory(ps, a, b - 1, fd);
      assert ps[..b][..b - 1] == ps[..b - 1];
    }
  }

  /** Everything that is no longer in the queue has left. */
  lemma ConsumedLeft(w: World, fd: Fd)
    requires Good(w, fd)
    ensures BytesTo(w.committed[..|w.committed| - |w.line.queue|], fd) <= SentTo(w.line.log, fd)
  {
    var c := |w.committed| - |w.line.queue|;
    var left, right := w.committed[..c], w.committed[c..];
    assert left + right == w.committed;
    BytesToAppend(left, right, fd);
    ShorterQueue(w.line.queue, right, fd);
    PrefixByLength(BytesTo(left, fd), BytesTo(right, fd), SentTo(w.line.log, fd), BytesTo(w.line.queue, fd));
  }

  lemma PrefixByLength(a: seq<byte>, b: seq<byte>, x: seq<byte>, y: seq<byte>)
    requires a + b == x + y && |y| <= |b|
    ensures a <= x
  {
    assert (a + b)[..|a|] == a;
    assert (x + y)[..|a|] == x[..|a|];
  }

  lemma {:induction false} ShorterQueue(queue: seq<Parcel>, full: seq<Parcel>, fd: Fd)
    requires |queue| == |full|
    requires forall i :: 0 <= i < |queue| ==> queue[i].id == full[i].id && |queue[i].bytes| <= |full[i].bytes|
    ensures |BytesTo(queue, fd)| <= |BytesTo(full, fd)|
  {
    if queue != [] {
      ShorterQueue(queue[..|queue| - 1], full[..|full| - 1], fd);
    }
  }
}
