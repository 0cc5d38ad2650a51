/** The job queue object: jobs are added under a lock, and the job thread takes the whole queue at
  * once and works through it outside the lock while others go on adding. */
module Jobs {
  import opened Seqs

  /** What the job thread does: the job itself, then its completion handler. */
  datatype Deed<J> = Run(job: J) | Complete(job: J)

  /** Every job once, in order, each followed by its completion. */
  function Deeds<J>(jobs: seq<J>): seq<Deed<J>> {
    if jobs == [] then [] else Deeds(jobs[..|jobs| - 1]) + [Run(jobs[|jobs| - 1]), Complete(jobs[|jobs| - 1])]
  }

  lemma {:induction false} DeedsAppend<J>(a: seq<J>, b: seq<J>)
    ensures Deeds(a + b) == Deeds(a) + Deeds(b)
  {
    if b == [] {
      assert a + b == a;
    } else {
      var last := |b| - 1;
      DeedsAppend(a, b[..last]);
      assert (a + b)[..|a + b| - 1] == a + b[..last];
    }
  }

  /** One job more of the batch. */
  lemma DeedsNext<J>(done: seq<J>, jobs: seq<J>, i: nat)
    requires i < |jobs|
    ensures Deeds(done) + Deeds(jobs[..i + 1])
         == Deeds(done) + Deeds(jobs[..i]) + [Run(jobs[i]), Complete(jobs[i])]
  {
    assert jobs[..i + 1][..i] == jobs[..i];
    Regroup(Deeds(done), Deeds(jobs[..i]), [Run(jobs[i]), Complete(jobs[i])]);
  }

  function Concat<J>(lists: seq<seq<J>>): seq<J> {
    if lists == [] then [] else Concat(lists[..|lists| - 1]) + lists[|lists| - 1]
  }

  lemma ConcatNext<J>(lists: seq<seq<J>>, i: nat)
    requires i < |lists|
    ensures Concat(lists[..i + 1]) == Concat(lists[..i]) + lists[i]
  {
    assert lists[..i + 1][..i] == lists[..i];
  }

  class JobQueue<J> {
    var queue: seq<J>
    var stopped: bool
    /** The jobs added so far, those that are done, and what doing them was. */
    ghost var added: seq<J>
    ghost var done: seq<J>
    ghost var deeds: seq<Deed<J>>

    /** Nothing is lost, done twice or done out of order: what has been done and what is queued
      * make up what has been added. */
    ghost predicate Valid()
      reads this
    {
      deeds == Deeds(done) && added == done + queue
    }

    constructor ()
      ensures Valid() && queue == added == [] && !stopped && deeds == []
    {
      queue, stopped, added, done, deeds := [], false, [], [], [];
    }

    method Add(job: J)
      requires Valid()
      modifies this
      ensures Valid() && queue == old(queue) + [job] && added == old(added) + [job]
      ensures stopped == old(stopped) && deeds == old(deeds)
    {
      queue, added := queue + [job], added + [job];
    }

    method Stop()
      requires Valid()
      modifies `stopped
      ensures Valid() && stopped
    {
      stopped := true;
    }

    /** One round of the job thread, after its wait has ended.  `arrivals` are the jobs that other
      * threads add while each job of the batch is worked on.  A stop is noticed only between
      * rounds, and then leaves the queue as it is. */
    method Round(arrivals: seq<seq<J>>) returns (going: bool)
      requires Valid() && (stopped || queue != []) && |arrivals| == |queue|
      modifies this
      ensures Valid() && stopped == old(stopped) && going == !old(stopped)
      ensures if going then deeds == old(deeds) + Deeds(old(queue)) && queue == Concat(arrivals)
              else deeds == old(deeds) && queue == old(queue)
      ensures added == if going then old(added) + Concat(arrivals) else old(added)
    {
      if stopped {
        return false;
      }
      var jobs := queue;
      queue := [];
      for i := 0 to |jobs|
        invariant stopped == old(stopped) && done == old(done)
        invariant deeds == Deeds(done) + Deeds(jobs[..i])
        invariant queue == Concat(arrivals[..i]) && added == done + jobs + queue
      {
        DeedsNext(done, jobs, i);
        ConcatNext(arrivals, i);
        Regroup(done + jobs, queue, arrivals[i]);
        deeds := deeds + [Run(jobs[i]), Complete(jobs[i])];
        queue, added := queue + arrivals[i], added + arrivals[i];
      }
      assert jobs[..|jobs|] == jobs && arrivals[..|jobs|] == arrivals;
      DeedsAppend(done, jobs);
      done := done + jobs;
      going := true;
    }
  }
}
