/** What becomes of a transaction, told from the outcomes of its queries. */
module TransactionLaws {
  import opened TransactionQueue

  /** One turn of the worker for each outcome, as long as there are queries. */
  function Turns(s: State, results: seq<Result>): State
    decreases |results|
  {
    if results == [] || s.queue == [] then s else Turns(Apply(s, Turn(results[0])), results[1..])
  }

  /** Running a query that is not the last of its transaction: only the query itself can fail. */
  lemma {:induction false} FirstQueries(s: State, t: Transaction, rest: seq<Query>, results: seq<Result>)
    requires |results| < |t| && s.queue == Marked(t) + rest
    requires forall i :: 0 <= i < |results| ==> results[i] != QueryFails
    ensures Turns(s, results)
         == State(Marked(t)[|results|..] + rest, s.pending + t[..|results|], s.committed)
    decreases |results|
  {
    if results == [] {
      assert Marked(t)[0..] == Marked(t) && s.pending + t[..0] == s.pending;
    } else {
      var next := Apply(s, Turn(results[0]));
      assert s.queue[0] == Query(t[0], false) && s.queue[1..] == Marked(t)[1..] + rest;
      assert Marked(t)[1..] == Marked(t[1..]);
      FirstQueries(next, t[1..], rest, results[1..]);
      assert Marked(t[1..])[|results| - 1..] == Marked(t)[|results|..];
      assert [t[0]] + t[1..][..|results| - 1] == t[..|results|];
      assert s.pending + [t[0]] + t[1..][..|results| - 1] == s.pending + ([t[0]] + t[1..][..|results| - 1]);
    }
  }

  lemma {:induction false} TurnsOneMore(s: State, results: seq<Result>, last: Result)
    requires Turns(s, results).queue != []
    ensures Turns(s, results + [last]) == Apply(Turns(s, results), Turn(last))
    decreases |results|
  {
    if results == [] || s.queue == [] {
      assert results == [] ==> (results + [last])[1..] == [];
    } else {
      TurnsOneMore(Apply(s, Turn(results[0])), results[1..], last);
      assert (results + [last])[1..] == results[1..] + [last];
    }
  }

  /** A transaction whose queries and commit all go well is committed, and nothing else changes. */
  lemma {:induction false} TransactionCommits(s: State, t: Transaction, rest: seq<Query>, results: seq<Result>)
    requires t != [] && |results| == |t| && s.queue == Marked(t) + rest && s.pending == []
    requires forall i :: 0 <= i < |t| ==> results[i] != QueryFails
    requires results[|t| - 1] == Fine
    ensures Turns(s, results) == State(rest, [], s.committed + t)
  {
    var last := |t| - 1;
    FirstQueries(s, t, rest, results[..last]);
    LastQuery(t, rest, s.committed);
    TurnsOneMore(s, results[..last], results[last]);
    assert results[..last] + [results[last]] == results;
    assert s.committed + t[..last] + [t[last]] == s.committed + t;
  }

  lemma LastQuery(t: Transaction, rest: seq<Query>, committed: seq<Statement>)
    requires t != []
    ensures Marked(t)[|t| - 1..] + rest == [Query(t[|t| - 1], true)] + rest
    ensures [] + t[..|t| - 1] == t[..|t| - 1]
  {
  }

  /** A transaction one of whose queries fails, or whose commit does, leaves nothing committed and nothing
    * pending.  If that was its last query the next transactions stay queued; otherwise the whole
    * queue is gone. */
  lemma {:induction false} TransactionFails(s: State, t: Transaction, rest: seq<Query>, results: seq<Result>)
    requires 0 < |results| <= |t| && s.queue == Marked(t) + rest && s.pending == []
    requires forall i :: 0 <= i < |results| - 1 ==> results[i] != QueryFails
    requires results[|results| - 1] == QueryFails || (results[|results| - 1] == CommitFails && |results| == |t|)
    ensures Turns(s, results) == State(if |results| == |t| then rest else [], [], s.committed)
  {
    var k := |results| - 1;
    FirstQueries(s, t, rest, results[..k]);
    TurnsOneMore(s, results[..k], results[k]);
    assert results[..k] + [results[k]] == results;
    assert (Marked(t)[k..] + rest)[0] == Query(t[k], k == |t| - 1);
    if |results| == |t| {
      LastQuery(t, rest, s.committed);
      assert ([Query(t[k], true)] + rest)[1..] == rest;
    }
  }

  /** Queueing leaves what is pending and committed alone and puts the transaction behind the others, its last
    * query marked and no other. */
  lemma QueuedBehind(s: State, t: Transaction)
    requires t != []
    ensures var after := Apply(s, Submit(t));
            && after.pending == s.pending && after.committed == s.committed
            && |after.queue| == |s.queue| + |t| && after.queue[..|s.queue|] == s.queue
            && forall i :: 0 <= i < |t| ==>
                 after.queue[|s.queue| + i].statement == t[i] && (after.queue[|s.queue| + i].last <==> i + 1 == |t|)
  {
  }
}
