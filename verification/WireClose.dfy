/** Which connections are closed, and what the poll set looks like then: exact over every run. */
module WireClose {
  import opened Protocol
  import opened Fifo
  import opened Reassembly
  import opened ChunkBuffer
  import opened Wire

  // ---- Freeing one descriptor --------------------------------------------------------------------

  lemma {:induction false} WithoutCount(pollFds: seq<Fd>, fd: Fd, other: Fd)
    ensures multiset(Without(pollFds, fd))[other]
         == multiset(pollFds)[other] - if other == fd && fd in pollFds then 1 else 0
  {
    if pollFds != [] {
      assert pollFds == [pollFds[0]] + pollFds[1..];
      if pollFds[0] != fd {
        WithoutCount(pollFds[1..], fd, other);
      }
    }
  }

  /** One entry of `fd` goes, and it is closed once; the count of every other descriptor, and of those closed
    * before, stays, and so does its receive buffer. */
  lemma FreedCounts(p: Ports, fd: Fd, other: Fd)
    ensures var q := Freed(p, fd);
            var gone := other == fd && fd in p.pollFds;
            && multiset(q.pollFds)[other] == multiset(p.pollFds)[other] - (if gone then 1 else 0)
            && multiset(q.closed)[other] == multiset(p.closed)[other] + (if gone then 1 else 0)
            && (other in q.fdBuffers <==> other in p.fdBuffers && !gone)
            && (other in q.fdBuffers ==> q.fdBuffers[other] == p.fdBuffers[other])
  {
    WithoutCount(p.pollFds, fd, other);
  }

  /** A connection that hangs up is not closed. */
  lemma UnwatchedCounts(p: Ports, fd: Fd, other: Fd)
    ensures var q := Unwatched(p, fd);
            && multiset(q.pollFds)[other]
                 == multiset(p.pollFds)[other] - (if other == fd && fd in p.pollFds then 1 else 0)
            && q.closed == p.closed
            && (other in q.fdBuffers <==> other in p.fdBuffers && other != fd)
            && (other in q.fdBuffers ==> q.fdBuffers[other] == p.fdBuffers[other])
  {
    WithoutCount(p.pollFds, fd, other);
  }

  /** A connection that comes is polled behind the others. */
  lemma WatchedCounts(p: Ports, fd: Fd, buffer: FdBuffer, other: Fd)
    ensures var q := Watched(p, fd, buffer);
            && multiset(q.pollFds)[other] == multiset(p.pollFds)[other] + (if other == fd then 1 else 0)
            && q.pollFds[..|p.pollFds|] == p.pollFds && q.closed == p.closed
            && (other in q.fdBuffers <==> other in p.fdBuffers || other == fd)
            && (other in q.fdBuffers ==> q.fdBuffers[other] == if other == fd then buffer else p.fdBuffers[other])
  {
  }

  // ---- Closed exactly once -------------------------------------------------------------------------

  /** Since `c` parcels had been used up and `l` write calls made, a closing parcel for `fd` has been used
    * up, or a write to it has been refused. */
  ghost predicate Over(w: World, fd: Fd, c: nat, l: nat) {
    || (exists k :: c <= k < |w.committed| - |w.line.queue| && w.committed[k].id.fd == fd && w.committed[k].closeFd)
    || (exists i :: l <= i < |w.line.log| && w.line.log[i].fd == fd && w.line.log[i].lost)
  }

  /** A descriptor that was polled once and closed `n` times in `start`, with this receive buffer. */
  ghost predicate Tracked(start: World, w: World, fd: Fd) {
    var c, l := |start.committed| - |start.line.queue|, |start.line.log|;
    && Aligned(start) && Aligned(w) && c <= |w.committed| - |w.line.queue| && l <= |w.line.log|
    && Settled(start.line.ports, w.line.ports, fd, Over(w, fd, c, l))
  }

  /** `over` says whether the connection is closed. */
  predicate Settled(p: Ports, q: Ports, fd: Fd, over: bool) {
    && multiset(q.pollFds)[fd] == (if over then 0 else 1)
    && multiset(q.closed)[fd] == multiset(p.closed)[fd] + (if over then 1 else 0)
    && (fd in q.fdBuffers <==> fd in p.fdBuffers && !over)
    && (fd in q.fdBuffers ==> q.fdBuffers[fd] == p.fdBuffers[fd])
  }

  /** The ports after one write call on the front parcel. */
  lemma TakePorts(l: Line, n: nat, lost: bool, p: Ports, fd: Fd, over: bool)
    requires l.queue != [] && n <= |l.queue[0].bytes| && Settled(p, l.ports, fd, over)
    ensures var front := l.queue[0];
            var hit := front.id.fd == fd && (lost || (n == |front.bytes| && front.closeFd));
            Settled(p, Take(l, n, lost).ports, fd, over || hit)
  {
    var front := l.queue[0];
    var ports := if lost then Freed(l.ports, front.id.fd) else l.ports;
    FreedCounts(l.ports, front.id.fd, fd);
    FreedCounts(ports, front.id.fd, fd);
    assert multiset(l.ports.pollFds)[fd] > 0 <==> fd in l.ports.pollFds;
    assert multiset(ports.pollFds)[fd] > 0 <==> fd in ports.pollFds;
  }

  /** What the write call adds to the history of `fd`. */
  lemma TakeOver(w: World, n: nat, lost: bool, fd: Fd, c: nat, l: nat)
    requires Aligned(w) && w.line.queue != [] && n <= |w.line.queue[0].bytes|
    requires c <= |w.committed| - |w.line.queue| && l <= |w.line.log|
    ensures var front, after := w.line.queue[0], w.(line := Take(w.line, n, lost));
            Over(after, fd, c, l) <==>
              Over(w, fd, c, l) || (front.id.fd == fd && (lost || (n == |front.bytes| && front.closeFd)))
  {
    var front, after := w.line.queue[0], w.(line := Take(w.line, n, lost));
    var used := |w.committed| - |w.line.queue|;
    assert after.line.log[|w.line.log|] == Sent(front.id.fd, front.bytes[..n], lost);
    assert forall i :: 0 <= i < |w.line.log| ==> after.line.log[i] == w.line.log[i];
    assert w.committed[used].id == front.id && w.committed[used].closeFd == front.closeFd;
    if n == |front.bytes| {
      assert |after.committed| - |after.line.queue| == used + 1;
    }
  }

  lemma TakeTracked(start: World, w: World, n: nat, lost: bool, fd: Fd)
    requires Tracked(start, w, fd) && w.line.queue != [] && n <= |w.line.queue[0].bytes|
    ensures Tracked(start, w.(line := Take(w.line, n, lost)), fd)
  {
    hide Over, Settled;
    var c, l := |start.committed| - |start.line.queue|, |start.line.log|;
    TakeAligned(w, n, lost);
    TakeOver(w, n, lost, fd, c, l);
    TakePorts(w.line, n, lost, start.line.ports, fd, Over(w, fd, c, l));
  }

  lemma {:induction false} TransmittedTracked(start: World, w: World, results: seq<WriteResult>, fd: Fd)
    requires Tracked(start, w, fd)
    ensures Tracked(start, w.(line := Transmitted(w.line, results).line), fd)
    decreases |results|
  {
    hide Tracked;
    if w.line.queue != [] && results != [] && !results[0].Failed? {
      var lost := results[0].Gone?;
      var k := if lost then |w.line.queue[0].bytes| else Min(results[0].n, |w.line.queue[0].bytes|);
      TakeTracked(start, w, k, lost, fd);
      if k == |w.line.queue[0].bytes| {
        TransmittedTracked(start, w.(line := Take(w.line, k, lost)), results[1..], fd);
      }
    }
  }

  /** Neither accepted nor hung up. */
  predicate Stays(steps: seq<Step>, fd: Fd) {
    forall i :: 0 <= i < |steps| ==>
      (steps[i].Accepted? ==> steps[i].fd != fd) && (steps[i].HungUp? ==> steps[i].fd != fd)
  }

  lemma CommitTracked(start: World, w: World, s: Step, fd: Fd)
    requires Tracked(start, w, fd) && s.Commit? && Lawful(s)
    ensures Tracked(start, Apply(w, s), fd)
  {
    var p := Parcel(s.id, s.closeFd, RecordBytes(s));
    var c, l := |start.committed| - |start.line.queue|, |start.line.log|;
    CommitAligned(w, p);
    CommitOver(w, p, fd, c, l);
  }

  lemma CommitOver(w: World, p: Parcel, fd: Fd, c: nat, l: nat)
    requires Aligned(w)
    ensures var after := World(w.committed + [p], w.line.(queue := w.line.queue + [p]));
            Over(after, fd, c, l) <==> Over(w, fd, c, l)
  {
    var after := World(w.committed + [p], w.line.(queue := w.line.queue + [p]));
    var used := |w.committed| - |w.line.queue|;
    assert |after.committed| - |after.line.queue| == used;
    assert forall k :: 0 <= k < used ==> after.committed[k] == w.committed[k];
  }

  lemma PortsTracked(start: World, w: World, ports: Ports, fd: Fd)
    requires Tracked(start, w, fd)
    requires multiset(ports.pollFds)[fd] == multiset(w.line.ports.pollFds)[fd] && ports.closed == w.line.ports.closed
    requires fd in ports.fdBuffers <==> fd in w.line.ports.fdBuffers
    requires fd in ports.fdBuffers ==> ports.fdBuffers[fd] == w.line.ports.fdBuffers[fd]
    ensures Tracked(start, w.(line := w.line.(ports := ports)), fd)
  {
    var c, l := |start.committed| - |start.line.queue|, |start.line.log|;
    assert Over(w.(line := w.line.(ports := ports)), fd, c, l) <==> Over(w, fd, c, l);
  }

  lemma StepTracked(start: World, w: World, s: Step, fd: Fd)
    requires Tracked(start, w, fd) && Lawful(s) && Stays([s], fd)
    ensures Tracked(start, Apply(w, s), fd)
  {
    hide Tracked, Watched, Unwatched;
    assert [s][0] == s;
    match s
    case Flush(results) => TransmittedTracked(start, w, results, fd);
    case Commit(_, _, _, _, _, _) => CommitTracked(start, w, s, fd);
    case Accepted(other, buffer) =>
      WatchedCounts(w.line.ports, other, buffer, fd);
      PortsTracked(start, w, Watched(w.line.ports, other, buffer), fd);
    case HungUp(other) =>
      UnwatchedCounts(w.line.ports, other, fd);
      PortsTracked(start, w, Unwatched(w.line.ports, other), fd);
  }

  lemma {:induction false} RunTracked(start: World, steps: seq<Step>, fd: Fd)
    requires AllLawful(steps) && Stays(steps, fd) && Tracked(start, start, fd)
    ensures Tracked(start, Run(start, steps), fd)
  {
    hide Tracked, Apply;
    if steps != [] {
      var before, s := steps[..|steps| - 1], steps[|steps| - 1];
      RunTracked(start, before, fd);
      assert Stays([s], fd);
      StepTracked(start, Run(start, before), s, fd);
    }
  }

  /** CLOSED EXACTLY WHEN OVER.  From any world in which `fd` is polled once, and over any run in which it
    * neither hangs up nor is accepted anew: it is closed, once, taken out of the poll set and loses its
    * receive buffer if and only if a closing parcel of its own has been used up or a write to it
    * has been refused. */
  lemma ClosedExactly(start: World, steps: seq<Step>, fd: Fd)
    requires AllLawful(steps) && Stays(steps, fd) && Aligned(start)
    requires multiset(start.line.ports.pollFds)[fd] == 1
    ensures var p, w := start.line.ports, Run(start, steps);
            var over := Over(w, fd, |start.committed| - |start.line.queue|, |start.line.log|);
            && multiset(w.line.ports.closed)[fd] == multiset(p.closed)[fd] + (if over then 1 else 0)
            && multiset(w.line.ports.pollFds)[fd] == (if over then 0 else 1)
            && (fd in w.line.ports.fdBuffers <==> fd in p.fdBuffers && !over)
            && (fd in w.line.ports.fdBuffers ==> w.line.ports.fdBuffers[fd] == p.fdBuffers[fd])
  {
    assert !Over(start, fd, |start.committed| - |start.line.queue|, |start.line.log|);
    RunTracked(start, steps, fd);
  }

  /** The same from the start of the program. */
  lemma StartedThenClosed(pollFds: seq<Fd>, steps: seq<Step>, fd: Fd, k: nat)
    requires AllLawful(steps) && Stays(steps, fd) && multiset(pollFds)[fd] == 1
    requires var w := Run(Start(pollFds), steps);
             k < |w.committed| - |w.line.queue| && w.committed[k].id.fd == fd && w.committed[k].closeFd
    ensures var ports := Run(Start(pollFds), steps).line.ports;
            multiset(ports.closed)[fd] == 1 && fd !in ports.pollFds && fd !in ports.fdBuffers
  {
    hide Run;
    ClosedExactly(Start(pollFds), steps, fd);
    var w := Run(Start(pollFds), steps);
    assert Over(w, fd, 0, 0);
    assert multiset(w.line.ports.pollFds)[fd] > 0 <==> fd in w.line.ports.pollFds;
  }

  /** And for a connection accepted in the middle of a run. */
  lemma AcceptedThenClosed(pollFds: seq<Fd>, before: seq<Step>, fd: Fd, buffer: FdBuffer, after: seq<Step>, k: nat)
    requires AllLawful(before) && AllLawful(after) && Stays(after, fd)
    requires var w := Run(Start(pollFds), before);
             fd !in w.line.ports.pollFds
    requires var w := Run(Start(pollFds), before);
             var v := Run(Apply(w, Accepted(fd, buffer)), after);
             && |w.committed| - |w.line.queue| <= k < |v.committed| - |v.line.queue|
             && v.committed[k].id.fd == fd && v.committed[k].closeFd
    ensures var w := Run(Start(pollFds), before);
            var v := Run(Apply(w, Accepted(fd, buffer)), after);
            && multiset(v.line.ports.closed)[fd] == multiset(w.line.ports.closed)[fd] + 1
            && fd !in v.line.ports.pollFds && fd !in v.line.ports.fdBuffers
  {
    hide Run;
    var w := Run(Start(pollFds), before);
    var start := Apply(w, Accepted(fd, buffer));
    RunGood(pollFds, before, fd);
    WatchedCounts(w.line.ports, fd, buffer, fd);
    assert multiset(w.line.ports.pollFds)[fd] > 0 <==> fd in w.line.ports.pollFds;
    ClosedExactly(start, after, fd);
    var v := Run(start, after);
    assert Over(v, fd, |start.committed| - |start.line.queue|, |start.line.log|);
    assert multiset(v.line.ports.pollFds)[fd] > 0 <==> fd in v.line.ports.pollFds;
  }

  // ---- Everything else keeps its place --------------------------------------------------------------

  /** The entries that are not in `gone`, in their order. */
  function Kept(pollFds: seq<Fd>, gone: seq<Fd>): seq<Fd> {
    if pollFds == [] then []
    else if pollFds[0] in gone then Kept(pollFds[1..], gone)
    else [pollFds[0]] + Kept(pollFds[1..], gone)
  }

  predicate Once(pollFds: seq<Fd>) {
    forall i, j :: 0 <= i < j < |pollFds| ==> pollFds[i] != pollFds[j]
  }

  lemma {:induction false} KeptAll(pollFds: seq<Fd>, gone: seq<Fd>)
    requires forall x :: x in pollFds ==> x !in gone
    ensures Kept(pollFds, gone) == pollFds
  {
    if pollFds != [] {
      KeptAll(pollFds[1..], gone);
    }
  }

  lemma {:induction false} KeptOnce(pollFds: seq<Fd>, gone: seq<Fd>)
    requires Once(pollFds)
    ensures Once(Kept(pollFds, gone))
    ensures forall x :: x in Kept(pollFds, gone) <==> x in pollFds && x !in gone
  {
    if pollFds != [] {
      KeptOnce(pollFds[1..], gone);
      assert pollFds[0] !in pollFds[1..];
    }
  }

  lemma {:induction false} KeptMore(pollFds: seq<Fd>, gone: seq<Fd>, fd: Fd)
    requires Once(pollFds)
    ensures Kept(pollFds, gone + [fd]) == Without(Kept(pollFds, gone), fd)
  {
    if pollFds != [] {
      KeptMore(pollFds[1..], gone, fd);
      if pollFds[0] == fd {
        KeptSame(pollFds[1..], gone, fd);
      }
    }
  }

  lemma {:induction false} KeptSame(pollFds: seq<Fd>, gone: seq<Fd>, fd: Fd)
    requires fd !in pollFds
    ensures Kept(pollFds, gone + [fd]) == Kept(pollFds, gone)
  {
    if pollFds != [] {
      KeptSame(pollFds[1..], gone, fd);
    }
  }

  /** The poll set is that of `p` without those closed since, in the same order. */
  predicate InPlace(p: Ports, q: Ports) {
    && |p.closed| <= |q.closed| && q.closed[..|p.closed|] == p.closed
    && q.pollFds == Kept(p.pollFds, q.closed[|p.closed|..])
    && q.fdBuffers.Keys == p.fdBuffers.Keys - (set x | x in q.closed[|p.closed|..])
    && forall fd :: fd in q.fdBuffers ==> q.fdBuffers[fd] == p.fdBuffers[fd]
  }

  lemma FreedInPlace(p: Ports, q: Ports, fd: Fd)
    requires Once(p.pollFds) && InPlace(p, q)
    ensures InPlace(p, Freed(q, fd))
  {
    hide Kept;
    if fd in q.pollFds {
      var gone := q.closed[|p.closed|..];
      KeptMore(p.pollFds, gone, fd);
      ClosedMore(q.closed, |p.closed|, fd);
      KeysGone(p.fdBuffers.Keys, gone, fd);
      assert (q.fdBuffers - {fd}).Keys == q.fdBuffers.Keys - {fd};
    }
  }

  lemma ClosedMore(closed: seq<Fd>, n: nat, fd: Fd)
    requires n <= |closed|
    ensures (closed + [fd])[n..] == closed[n..] + [fd] && (closed + [fd])[..n] == closed[..n]
  {
  }

  lemma KeysGone(keys: set<Fd>, gone: seq<Fd>, fd: Fd)
    ensures keys - (set x | x in gone) - {fd} == keys - (set x | x in gone + [fd])
  {
  }

  lemma {:induction false} TransmittedInPlace(p: Ports, l: Line, results: seq<WriteResult>)
    requires Once(p.pollFds) && InPlace(p, l.ports)
    ensures InPlace(p, Transmitted(l, results).line.ports)
    decreases |results|
  {
    hide InPlace, Freed;
    if l.queue != [] && results != [] && !results[0].Failed? {
      var front, lost := l.queue[0], results[0].Gone?;
      var k := if lost then |front.bytes| else Min(results[0].n, |front.bytes|);
      FreedInPlace(p, l.ports, front.id.fd);
      FreedInPlace(p, if lost then Freed(l.ports, front.id.fd) else l.ports, front.id.fd);
      if k == |front.bytes| {
        TransmittedInPlace(p, Take(l, k, lost), results[1..]);
      }
    }
  }

  lemma InPlaceStart(p: Ports)
    ensures InPlace(p, p)
  {
    KeptAll(p.pollFds, []);
    assert p.closed[|p.closed|..] == [] && p.closed[..|p.closed|] == p.closed;
  }

  /** Over any run in which no connection comes or hangs up, the poll set is the one at the start without the
    * closed descriptors, in the same order, and every other receive buffer is where it was. */
  lemma {:induction false} OthersKeepPlace(start: World, steps: seq<Step>)
    requires AllLawful(steps) && Once(start.line.ports.pollFds)
    requires forall i :: 0 <= i < |steps| ==> steps[i].Commit? || steps[i].Flush?
    ensures InPlace(start.line.ports, Run(start, steps).line.ports)
  {
    hide InPlace, Transmitted;
    if steps == [] {
      InPlaceStart(start.line.ports);
    } else {
      var before, s := steps[..|steps| - 1], steps[|steps| - 1];
      OthersKeepPlace(start, before);
      if s.Flush? {
        TransmittedInPlace(start.line.ports, Run(start, before).line, s.results);
      }
    }
  }

  /** Every entry of `a` stands in front of every entry of `b`. */
  predicate Ahead(pollFds: seq<Fd>, a: Fd, b: Fd) {
    forall i, j :: 0 <= i < |pollFds| && 0 <= j < |pollFds| && pollFds[i] == a && pollFds[j] == b ==> i < j
  }

  lemma {:induction false} WithoutAhead(pollFds: seq<Fd>, fd: Fd, a: Fd, b: Fd)
    requires Ahead(pollFds, a, b) && a != b
    ensures Ahead(Without(pollFds, fd), a, b)
  {
    if fd in pollFds {
      var i := FirstAt(pollFds, fd);
      WithoutAt(pollFds, fd, i);
      var shorter := pollFds[..i] + pollFds[i + 1..];
      forall j, k | 0 <= j < |shorter| && 0 <= k < |shorter| && shorter[j] == a && shorter[k] == b ensures j < k {
        assert pollFds[if j < i then j else j + 1] == a && pollFds[if k < i then k else k + 1] == b;
      }
    } else {
      WithoutNothing(pollFds, fd);
    }
  }

  lemma {:induction false} FirstAt(pollFds: seq<Fd>, fd: Fd) returns (i: nat)
    requires fd in pollFds
    ensures i < |pollFds| && pollFds[i] == fd && fd !in pollFds[..i]
  {
    i := 0;
    if pollFds[0] != fd {
      i := FirstAt(pollFds[1..], fd);
      assert pollFds[..i + 1] == [pollFds[0]] + pollFds[1..][..i];
      i := i + 1;
    }
  }

  lemma {:induction false} WithoutNothing(pollFds: seq<Fd>, fd: Fd)
    requires fd !in pollFds
    ensures Without(pollFds, fd) == pollFds
  {
    if pollFds != [] {
      WithoutNothing(pollFds[1..], fd);
    }
  }

  lemma FreedAhead(p: Ports, fd: Fd, a: Fd, b: Fd)
    requires Ahead(p.pollFds, a, b) && a != b
    ensures Ahead(Freed(p, fd).pollFds, a, b)
  {
    hide Ahead;
    WithoutAhead(p.pollFds, fd, a, b);
  }

  lemma {:induction false} TransmittedAhead(l: Line, results: seq<WriteResult>, a: Fd, b: Fd)
    requires Ahead(l.ports.pollFds, a, b) && a != b
    ensures Ahead(Transmitted(l, results).line.ports.pollFds, a, b)
    decreases |results|
  {
    hide Ahead, Freed;
    if l.queue != [] && results != [] && !results[0].Failed? {
      var front, lost := l.queue[0], results[0].Gone?;
      var k := if lost then |front.bytes| else Min(results[0].n, |front.bytes|);
      FreedAhead(l.ports, front.id.fd, a, b);
      FreedAhead(if lost then Freed(l.ports, front.id.fd) else l.ports, front.id.fd, a, b);
      if k == |front.bytes| {
        TransmittedAhead(Take(l, k, lost), results[1..], a, b);
      }
    }
  }

  /** Over any run at all, whoever comes, hangs up or is closed: as long as `a` is not accepted anew it stays in
    * front of `b`. */
  lemma {:induction false} OrderKept(start: World, steps: seq<Step>, a: Fd, b: Fd)
    requires AllLawful(steps) && Ahead(start.line.ports.pollFds, a, b) && a != b
    requires forall i :: 0 <= i < |steps| ==> steps[i].Accepted? ==> steps[i].fd != a
    ensures Ahead(Run(start, steps).line.ports.pollFds, a, b)
  {
    hide Transmitted;
    if steps != [] {
      var before, s := steps[..|steps| - 1], steps[|steps| - 1];
      OrderKept(start, before, a, b);
      var w := Run(start, before);
      match s
      case Flush(results) => TransmittedAhead(w.line, results, a, b);
      case HungUp(fd) => WithoutAhead(w.line.ports.pollFds, fd, a, b);
      case Commit(_, _, _, _, _, _) =>
      case Accepted(fd, _) => assert steps[|steps| - 1].fd != a;
    }
  }

  // ---- Which write calls a transmission makes --------------------------------------------------------

  /** The call takes the whole parcel, or drops it with its connection. */
  predicate Whole(result: WriteResult, p: Parcel) {
    result.Gone? || (result.Wrote? && result.n >= |p.bytes|)
  }

  /** The log of `n` calls that took whole parcels. */
  function WholeLog(queue: seq<Parcel>, results: seq<WriteResult>, n: nat): (log: seq<Sent>)
    requires n <= |queue| && n <= |results|
    ensures |log| == n
  {
    seq(n, i requires 0 <= i < n => Sent(queue[i].id.fd, queue[i].bytes, results[i].Gone?))
  }

  /** The transmission goes on exactly as long as its calls take whole parcels.  It throws exactly if the next call,
    * for a parcel that is there, fails; a call that takes part of a parcel cuts it and ends the
    * transmission. */
  lemma {:induction false} TransmittedExactly(l: Line, results: seq<WriteResult>) returns (n: nat)
    ensures n <= |l.queue| && n <= |results|
    ensures forall i :: 0 <= i < n ==> Whole(results[i], l.queue[i])
    ensures n < |l.queue| && n < |results| ==> !Whole(results[n], l.queue[n])
    ensures var t := Transmitted(l, results);
            var met := n < |l.queue| && n < |results|;
            && (t.threw <==> met && results[n].Failed?)
            && (if met && results[n].Wrote? then
                  var part := results[n].n;
                  && t.line.queue == [l.queue[n].(bytes := l.queue[n].bytes[part..])] + l.queue[n + 1..]
                  && t.line.log == l.log + WholeLog(l.queue, results, n)
                                   + [Sent(l.queue[n].id.fd, l.queue[n].bytes[..part], false)]
                else
                  t.line.queue == l.queue[n..] && t.line.log == l.log + WholeLog(l.queue, results, n))
    decreases |results|
  {
    n := 0;
    if l.queue != [] && results != [] && Whole(results[0], l.queue[0]) {
      var lost := results[0].Gone?;
      var next := Take(l, |l.queue[0].bytes|, lost);
      assert l.queue[0].bytes[..|l.queue[0].bytes|] == l.queue[0].bytes;
      n := TransmittedExactly(next, results[1..]);
      LogShift(l, results, n);
      n := n + 1;
    }
  }

  lemma LogShift(l: Line, results: seq<WriteResult>, n: nat)
    requires n < |l.queue| && n < |results|
    ensures l.log + [Sent(l.queue[0].id.fd, l.queue[0].bytes, results[0].Gone?)]
            + WholeLog(l.queue[1..], results[1..], n)
         == l.log + WholeLog(l.queue, results, n + 1)
  {
    assert WholeLog(l.queue, results, n + 1)
        == [Sent(l.queue[0].id.fd, l.queue[0].bytes, results[0].Gone?)] + WholeLog(l.queue[1..], results[1..], n);
  }
}
