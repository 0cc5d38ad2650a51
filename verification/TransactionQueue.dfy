/** A worker of the SQL connection: its queue of queries, the statements its connection has
  * executed but not committed, and the statements committed. */
module TransactionQueue {

  type Statement = nat
  type Transaction = seq<Statement>

  /** `last` is the commit mark of the last query of a transaction. */
  datatype Query = Query(statement: Statement, last: bool)

  datatype State = State(queue: seq<Query>, pending: seq<Statement>, committed: seq<Statement>)

  const INITIAL: State := State([], [], [])

  /** How a turn of the worker ends: the query runs and, if it is marked, so does the commit; or
    * the query fails; or the commit does. */
  datatype Result = Fine | QueryFails | CommitFails

  datatype Step = Submit(t: Transaction) | Turn(r: Result)

  function Marked(t: Transaction): (qs: seq<Query>)
    ensures |qs| == |t|
  {
    seq(|t|, i requires 0 <= i < |t| => Query(t[i], i == |t| - 1))
  }

  /** A transaction handed in is never empty; a worker without queries waits. */
  predicate Possible(s: State, step: Step) {
    match step
    case Submit(t) => t != []
    case Turn(_) => s.queue != []
  }

  /** An error undoes what is pending.  If the failed query was not the last of its transaction the
    * queue is then drained, and the loop that does so never looks at what it drains. */
  function Failed(s: State): State
    requires s.queue != []
  {
    State(if s.queue[0].last then s.queue[1..] else [], [], s.committed)
  }

  function Apply(s: State, step: Step): State
    requires Possible(s, step)
  {
    match step
    case Submit(t) => s.(queue := s.queue + Marked(t))
    case Turn(r) =>
      var q := s.queue[0];
      if r.QueryFails? || (r.CommitFails? && q.last) then Failed(s)
      else if q.last then State(s.queue[1..], [], s.committed + s.pending + [q.statement])
      else s.(queue := s.queue[1..], pending := s.pending + [q.statement])
  }

  datatype Reached = Stuck | At(state: State)

  function Run(steps: seq<Step>): Reached {
    if steps == [] then At(INITIAL)
    else match Run(steps[..|steps| - 1])
      case Stuck => Stuck
      case At(s) => if Possible(s, steps[|steps| - 1]) then At(Apply(s, steps[|steps| - 1])) else Stuck
  }

  /** The transactions handed in, in queue order. */
  function Submitted(steps: seq<Step>): seq<Transaction> {
    if steps == [] then []
    else
      var earlier, last := Submitted(steps[..|steps| - 1]), steps[|steps| - 1];
      if last.Submit? then earlier + [last.t] else earlier
  }

  // ---- Whole transactions -----------------------------------------------------------------------

  /** The statements of the transactions picked, in order. */
  function Picked(ts: seq<Transaction>, picks: seq<nat>): seq<Statement>
    requires forall i :: 0 <= i < |picks| ==> picks[i] < |ts|
  {
    if picks == [] then [] else Picked(ts, picks[..|picks| - 1]) + ts[picks[|picks| - 1]]
  }

  /** The queries of the transactions from `from` on. */
  function QueuedFrom(ts: seq<Transaction>, from: nat): seq<Query>
    decreases |ts| - from
  {
    if from >= |ts| then [] else Marked(ts[from]) + QueuedFrom(ts, from + 1)
  }

  predicate Increasing(picks: seq<nat>, bound: nat) {
    && (forall i :: 0 <= i < |picks| ==> picks[i] < bound)
    && (forall i, j :: 0 <= i < j < |picks| ==> picks[i] < picks[j])
  }

  /** The account of a run: the transactions committed, the next one to run, and how many of its
    * statements have been executed. */
  datatype Account = Account(kept: seq<nat>, next: nat, done: nat)

  ghost predicate Explains(ts: seq<Transaction>, a: Account, s: State) {
    && (forall i :: 0 <= i < |ts| ==> ts[i] != [])
    && Increasing(a.kept, a.next) && a.next <= |ts|
    && (if a.next == |ts| then a.done == 0 else a.done < |ts[a.next]|)
    && s.committed == Picked(ts, a.kept)
    && s.pending == (if a.next == |ts| then [] else ts[a.next][..a.done])
    && s.queue == QueuedFrom(ts, a.next)[a.done..]
  }

  lemma {:induction false} QueuedLonger(ts: seq<Transaction>, t: Transaction, from: nat)
    requires from <= |ts|
    ensures QueuedFrom(ts + [t], from) == QueuedFrom(ts, from) + Marked(t)
    decreases |ts| - from
  {
    if from < |ts| {
      QueuedLonger(ts, t, from + 1);
      assert (ts + [t])[from] == ts[from];
    } else {
      assert QueuedFrom(ts + [t], from + 1) == [];
      assert (ts + [t])[from] == t;
    }
  }

  lemma {:induction false} PickedLonger(ts: seq<Transaction>, t: Transaction, picks: seq<nat>)
    requires Increasing(picks, |ts|)
    ensures Picked(ts + [t], picks) == Picked(ts, picks)
  {
    if picks != [] {
      PickedLonger(ts, t, picks[..|picks| - 1]);
    }
  }

  lemma SubmitExplained(ts: seq<Transaction>, a: Account, s: State, t: Transaction)
    requires Explains(ts, a, s) && t != []
    ensures Explains(ts + [t], a, Apply(s, Submit(t)))
  {
    QueuedLonger(ts, t, a.next);
    PickedLonger(ts, t, a.kept);
    var q := QueuedFrom(ts, a.next);
    assert a.done <= |q|;
    assert (q + Marked(t))[a.done..] == q[a.done..] + Marked(t);
    if a.next == |ts| {
      assert (ts + [t])[a.next][..0] == [];
    }
  }

  /** A turn takes the next query of the next transaction. */
  lemma FrontQuery(ts: seq<Transaction>, a: Account, s: State)
    requires Explains(ts, a, s) && s.queue != []
    ensures a.next < |ts|
    ensures s.queue[0] == Query(ts[a.next][a.done], a.done == |ts[a.next]| - 1)
    ensures s.queue[1..] == if s.queue[0].last then QueuedFrom(ts, a.next + 1)
                            else QueuedFrom(ts, a.next)[a.done + 1..]
  {
    var t, rest := ts[a.next], QueuedFrom(ts, a.next + 1);
    assert QueuedFrom(ts, a.next) == Marked(t) + rest;
    assert (Marked(t) + rest)[|t|..] == rest;
    assert (Marked(t) + rest)[a.done..][1..] == (Marked(t) + rest)[a.done + 1..];
  }

  lemma PickOne(ts: seq<Transaction>, picks: seq<nat>, n: nat)
    requires Increasing(picks, n) && n < |ts|
    ensures Increasing(picks + [n], n + 1) && Picked(ts, picks + [n]) == Picked(ts, picks) + ts[n]
  {
    assert (picks + [n])[..|picks|] == picks;
  }

  /** The account once the worker stands at the beginning of transaction `next`. */
  lemma AtStart(ts: seq<Transaction>, kept: seq<nat>, next: nat, s: State)
    requires (forall i :: 0 <= i < |ts| ==> ts[i] != []) && next <= |ts| && Increasing(kept, next)
    requires s.committed == Picked(ts, kept) && s.pending == [] && s.queue == QueuedFrom(ts, next)
    ensures Explains(ts, Account(kept, next, 0), s)
  {
    assert next < |ts| ==> ts[next][..0] == [];
  }

  lemma FailExplained(ts: seq<Transaction>, a: Account, s: State) returns (b: Account)
    requires Explains(ts, a, s) && s.queue != []
    ensures Explains(ts, b, Failed(s)) && a.kept <= b.kept
  {
    FrontQuery(ts, a, s);
    b := Account(a.kept, if s.queue[0].last then a.next + 1 else |ts|, 0);
    AtStart(ts, b.kept, b.next, Failed(s));
  }

  lemma CommitExplained(ts: seq<Transaction>, a: Account, s: State) returns (b: Account)
    requires Explains(ts, a, s) && s.queue != [] && s.queue[0].last
    ensures Explains(ts, b, Apply(s, Turn(Fine))) && a.kept <= b.kept
  {
    FrontQuery(ts, a, s);
    PickOne(ts, a.kept, a.next);
    var t, statement := ts[a.next], s.queue[0].statement;
    assert t[..a.done] + [statement] == t;
    assert s.committed + s.pending + [statement] == s.committed + t;
    b := Account(a.kept + [a.next], a.next + 1, 0);
    AtStart(ts, b.kept, b.next, Apply(s, Turn(Fine)));
  }

  /** A query that goes well and is not the last of its transaction. */
  lemma StepExplained(ts: seq<Transaction>, a: Account, s: State) returns (b: Account)
    requires Explains(ts, a, s) && s.queue != [] && !s.queue[0].last
    ensures Explains(ts, b, s.(queue := s.queue[1..], pending := s.pending + [s.queue[0].statement]))
    ensures a.kept <= b.kept
  {
    hide QueuedFrom, Picked;
    FrontQuery(ts, a, s);
    b := a.(done := a.done + 1);
    assert ts[a.next][..a.done] + [s.queue[0].statement] == ts[a.next][..b.done];
  }

  lemma TurnExplained(ts: seq<Transaction>, a: Account, s: State, r: Result) returns (b: Account)
    requires Explains(ts, a, s) && s.queue != []
    ensures Explains(ts, b, Apply(s, Turn(r)))
    ensures a.kept <= b.kept
  {
    hide Explains;
    var q := s.queue[0];
    if r.QueryFails? || (r.CommitFails? && q.last) {
      b := FailExplained(ts, a, s);
    } else if q.last {
      b := CommitExplained(ts, a, s);
    } else {
      b := StepExplained(ts, a, s);
    }
  }

  lemma {:induction false} RunExplained(steps: seq<Step>) returns (a: Account)
    requires Run(steps).At?
    ensures Explains(Submitted(steps), a, Run(steps).state)
  {
    if steps == [] {
      a := Account([], 0, 0);
    } else {
      var before, last := steps[..|steps| - 1], steps[|steps| - 1];
      var b := RunExplained(before);
      var s := Run(before).state;
      if last.Submit? {
        SubmitExplained(Submitted(before), b, s, last.t);
        a := b;
      } else {
        a := TurnExplained(Submitted(before), b, s, last.r);
      }
    }
  }

  /** ATOMICITY: whatever fails and whenever transactions arrive, what the worker has committed is
    * a sequence of whole transactions in queue order. */
  lemma Atomicity(steps: seq<Step>) returns (kept: seq<nat>)
    requires Run(steps).At?
    ensures Increasing(kept, |Submitted(steps)|)
    ensures Run(steps).state.committed == Picked(Submitted(steps), kept)
  {
    var a := RunExplained(steps);
    kept := a.kept;
  }

  // ---- What a run without errors does ------------------------------------------------------------

  function AllStatements(ts: seq<Transaction>): seq<Statement> {
    if ts == [] then [] else AllStatements(ts[..|ts| - 1]) + ts[|ts| - 1]
  }

  function StatementsOf(qs: seq<Query>): (r: seq<Statement>)
    ensures |r| == |qs|
  {
    seq(|qs|, i requires 0 <= i < |qs| => qs[i].statement)
  }

  predicate NoErrors(steps: seq<Step>) {
    forall i :: 0 <= i < |steps| ==> steps[i].Turn? ==> steps[i].r.Fine?
  }

  /** Everything a worker has executed or still has to execute. */
  function Total(s: State): seq<Statement> {
    s.committed + s.pending + StatementsOf(s.queue)
  }

  lemma SubmitTotal(s: State, t: Transaction)
    ensures Total(s.(queue := s.queue + Marked(t))) == Total(s) + t
  {
    assert StatementsOf(Marked(t)) == t;
    assert StatementsOf(s.queue + Marked(t)) == StatementsOf(s.queue) + t;
  }

  lemma TurnTotal(s: State)
    requires s.queue != []
    ensures Total(Apply(s, Turn(Fine))) == Total(s)
  {
    var first := [s.queue[0].statement];
    assert StatementsOf(s.queue) == first + StatementsOf(s.queue[1..]);
    if s.queue[0].last {
      assert s.committed + s.pending + first + [] == s.committed + s.pending + first;
    } else {
      assert s.committed + (s.pending + first) == s.committed + s.pending + first;
    }
  }

  /** Without errors nothing is lost, doubled or reordered. */
  lemma {:induction false} NothingLost(steps: seq<Step>)
    requires Run(steps).At? && NoErrors(steps)
    ensures Total(Run(steps).state) == AllStatements(Submitted(steps))
  {
    if steps != [] {
      var before, last := steps[..|steps| - 1], steps[|steps| - 1];
      NothingLost(before);
      var s := Run(before).state;
      if last.Submit? {
        SubmitTotal(s, last.t);
        assert (Submitted(before) + [last.t])[..|Submitted(before)|] == Submitted(before);
      } else {
        TurnTotal(s);
      }
    }
  }

  // ---- The drain ------------------------------------------------------------------------------------

  /** The queue as the class documentation promises it after a failed query: only the rest of the
    * failed query's own transaction is dropped. */
  function AfterOwn(queue: seq<Query>): seq<Query> {
    if queue == [] then [] else if queue[0].last then queue[1..] else AfterOwn(queue[1..])
  }

  /** Transactions of which queries are queued. */
  function Count(queue: seq<Query>): nat {
    if queue == [] then 0 else Count(queue[1..]) + (if queue[0].last then 1 else 0)
  }

  predicate Complete(queue: seq<Query>) {
    queue != [] ==> queue[|queue| - 1].last
  }

  lemma {:induction false} AfterOwnEmpty(queue: seq<Query>)
    requires Complete(queue)
    ensures AfterOwn(queue) == [] <==> Count(queue) <= 1
    ensures Complete(AfterOwn(queue)) && (queue != [] ==> Count(queue) == 1 + Count(AfterOwn(queue)))
    ensures Count(queue) == 0 <==> queue == []
  {
    if queue != [] {
      AfterOwnEmpty(queue[1..]);
    }
  }

  /** A failed query spares the other transactions exactly if it is the last of its own, or no
    * other transaction is queued. */
  lemma FailureSparesOthers(s: State)
    requires s.queue != [] && Complete(s.queue)
    ensures Failed(s).queue == AfterOwn(s.queue) <==> s.queue[0].last || Count(s.queue) == 1
  {
    AfterOwnEmpty(s.queue);
  }

  /** Queues always end with a marked query, so the previous condition can be used on every run. */
  lemma {:induction false} QueueComplete(steps: seq<Step>)
    requires Run(steps).At?
    ensures Complete(Run(steps).state.queue)
  {
    if steps != [] {
      QueueComplete(steps[..|steps| - 1]);
    }
  }

  /** A run in which an innocent transaction disappears: two are queued, the first query of the
    * first one fails, and the second one is neither executed nor queued any more. */
  lemma InnocentDropped()
    ensures Run([Submit([1, 2]), Submit([3]), Turn(QueryFails)]) == At(State([], [], []))
    ensures AfterOwn(Marked([1, 2]) + Marked([3])) == [Query(3, true)]
  {
    var q := Marked([1, 2]) + Marked([3]);
    assert q == [Query(1, false), Query(2, true), Query(3, true)];
    var one, two := [Submit([1, 2])], [Submit([1, 2]), Submit([3])];
    var three := two + [Turn(QueryFails)];
    assert one[..0] == [] && [] + Marked([1, 2]) == Marked([1, 2]);
    assert Run(one) == At(State(Marked([1, 2]), [], []));
    assert two[..1] == one;
    assert Run(two) == At(State(q, [], []));
    assert three[..2] == two && three[2] == Turn(QueryFails);
    assert [Submit([1, 2]), Submit([3]), Turn(QueryFails)] == three;
    assert q[1..] == [Query(2, true), Query(3, true)];
    assert q[1..][1..] == [Query(3, true)];
  }

  // ---- The object ------------------------------------------------------------------------------------

  class Worker {
    var queries: seq<Query>
    ghost var pending: seq<Statement>
    ghost var committed: seq<Statement>

    constructor ()
      ensures View() == INITIAL
    {
      queries, pending, committed := [], [], [];
    }

    ghost function View(): State
      reads this
    {
      State(queries, pending, committed)
    }

    /** Queueing a transaction under the queue's lock: all its queries without mark, then the mark
      * on the one at the back. */
    method Queue(t: Transaction)
      requires t != []
      modifies this
      ensures View() == Apply(old(View()), Submit(t))
    {
      var i := 0;
      while i < |t|
        invariant i <= |t|
        invariant queries == old(queries) + seq(i, k requires 0 <= k < i => Query(t[k], false))
        invariant pending == old(pending) && committed == old(committed)
      {
        queries := queries + [Query(t[i], false)];
        i := i + 1;
      }
      queries := queries[|queries| - 1 := queries[|queries| - 1].(last := true)];
      assert queries == old(queries) + Marked(t);
    }

    /** One turn of the worker loop with a query to take. */
    method Turn(r: Result)
      requires queries != []
      modifies this
      ensures View() == Apply(old(View()), Step.Turn(r))
    {
      var q := queries[0];
      queries := queries[1..];
      if r.QueryFails? || (r.CommitFails? && q.last) {
        pending := [];
        while !q.last && queries != []
          invariant q.last ==> queries == old(queries)[1..]
          invariant pending == [] && committed == old(committed)
          decreases |queries|
        {
          queries := queries[1..];
        }
      } else if q.last {
        committed, pending := committed + pending + [q.statement], [];
      } else {
        pending := pending + [q.statement];
      }
    }
  }

  /** The queue for a transaction without a chosen instance: the first of the shortest ones. */
  method ShortestQueue(sizes: seq<nat>) returns (instance: nat)
    requires sizes != []
    ensures instance < |sizes|
    ensures forall i :: 0 <= i < |sizes| ==> sizes[instance] <= sizes[i]
    ensures forall i :: 0 <= i < instance ==> sizes[instance] < sizes[i]
  {
    instance := 0;
    for i := 1 to |sizes|
      invariant instance < i
      invariant forall k :: 0 <= k < i ==> sizes[instance] <= sizes[k]
      invariant forall k :: 0 <= k < instance ==> sizes[instance] < sizes[k]
    {
      if sizes[i] < sizes[instance] {
        instance := i;
      }
    }
  }
}
