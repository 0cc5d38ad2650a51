/** Nothing gets stuck: from every reachable state in which both threads are running the threads can, without
  * any further input, finish every job and handle every task and message. */
module ManagerDrain {
  import opened Protocol
  import opened R = Request
  import opened Manager
  import opened ManagerTasks
  import ManagerProgress
  import ManagerSleep

  /** Neither thread has returned, been told to, or been left by an exception. */
  predicate BothRunning(s: State) {
    && !s.hpc.Returned? && !s.hpc.Fallen? && !s.hpc.Down?
    && !s.stopFlag && !s.terminateFlag && !s.jobStop
  }

  /** No job, no task and no message is left, wherever the handler stands in its loop. */
  predicate Drained(s: State) {
    s.jpc.JResting? && s.batch == [] && s.jobs == [] && s.tasks == [] && Idle(s.hpc)
  }

  /** Steps of the two threads that need no input: no record, no activity of the network to wake up for,
    * nobody who calls `stop`, `terminate` or the handler again. */
  predicate Own(step: Step) {
    match step
    case Loop(l) => !l.HRecall? && !l.HPollThrows? && l != HWake(true)
    case Work(w) => !w.HPush?
    case Background(_) => true
    case Control(_) => false
  }

  /** The application answers at once, and nothing throws. */
  const AT_ONCE: Env := Env(false, true, true, true, false, Well, Well)

  lemma AnsweredAtOnce(r: R.Request, m: Msg)
    ensures var e := Handle(r.stage, r.app, m, AT_ONCE); !e.schedule && !e.verdict.Threw?
    ensures Caught(Refuse(r.stage, r.app, AT_ONCE), AT_ONCE).verdict.Done?
  {
  }

  // ---- The next step -----------------------------------------------------------------------------

  function HandlerNext(hpc: HandlerPc): Step {
    match hpc
    case Top => Loop(HTop)
    case Polling => Loop(HPoll(false))
    case HLocated(_, _) => Work(HQueue)
    case HQueued(_) => Work(HTask)
    case HChecking => Work(HCheck)
    case Polled(_) => Loop(HPass)
    case Passed(_) => Loop(HTake)
    case Deciding(_) => Loop(HDoze)
    case Sleeping(_) => Loop(HWake(false))
    case Waking => Loop(HUp)
    case Popped(id) => if id.fcgiId == 0 then Work(HLocal(false)) else Work(HFind(AT_ONCE))
    case Running(_, _) => Work(HRun(AT_ONCE))
    case Erasing(_) => Work(HErase)
    case _ => Loop(HRecall)
  }

  /** The job thread goes first, except where it waits for a lock that the handler thread holds. */
  function Next(s: State): Step {
    match s.jpc
    case JRan(_) => Background(JLookup)
    case JLocated(job) => if s.hpc == HQueued(job.id) then Work(HTask) else Background(JQueue)
    case JQueued(_) => Background(JTask)
    case JChecking => if s.hpc.Deciding? then Loop(HDoze) else Background(JCheck)
    case JResting =>
      if s.batch != [] then Background(JRun)
      else if s.jobs != [] then Background(JSwap)
      else HandlerNext(s.hpc)
  }

  /** How far the handler is from taking a task, a task about to be queued included. */
  function HandlerLeft(hpc: HandlerPc): nat {
    match hpc
    case HLocated(_, _) => 60
    case HQueued(_) => 55
    case Popped(_) => 24
    case Running(_, _) => 23
    case Erasing(_) => 22
    case Deciding(_) => 19
    case Sleeping(_) => 18
    case Waking => 17
    case HChecking => 16
    case Top => 15
    case Polling => 14
    case Polled(_) => 13
    case Passed(_) => 12
    case _ => 0
  }

  function JobLeft(jpc: JobPc): nat {
    match jpc
    case JRan(_) => 49
    case JLocated(_) => 48
    case JQueued(_) => 47
    case JChecking => 1
    case JResting => 0
  }

  function Left(s: State): nat {
    51 * |s.jobs| + 50 * |s.batch| + JobLeft(s.jpc) + 30 * |s.tasks| + HandlerLeft(s.hpc)
  }

  /** A sleeping handler with a task has a wake-up byte, so it can be woken without the network. */
  lemma HandlerGoes(s: State)
    requires BothRunning(s) && ManagerSleep.SleepInv(s) && s.jpc.JResting?
    requires s.tasks != [] || !Idle(s.hpc)
    ensures Enabled(s, HandlerNext(s.hpc)) && Own(HandlerNext(s.hpc))
  {
  }

  lemma NextGoes(s: State)
    requires BothRunning(s) && ManagerSleep.SleepInv(s) && !Drained(s)
    ensures Enabled(s, Next(s)) && Own(Next(s))
  {
    if s.jpc.JResting? && s.batch == [] && s.jobs == [] {
      HandlerGoes(s);
    }
  }

  lemma JobCloser(s: State, step: JobStep)
    requires BothRunning(s) && JobEnabled(s, step)
    ensures BothRunning(JobApply(s, step)) && Left(JobApply(s, step)) < Left(s)
  {
    match step
    case JSwap => case JRun => case JLookup => case JQueue => case JTask => case JCheck =>
  }

  /** The handler on its way to a task that waits for it. */
  lemma LoopCloser(s: State)
    requires BothRunning(s) && HandlerNext(s.hpc).Loop? && LoopEnabled(s, HandlerNext(s.hpc).l)
    requires s.tasks != [] || s.hpc.Deciding?
    ensures var t := LoopApply(s, HandlerNext(s.hpc).l); BothRunning(t) && Left(t) < Left(s)
  {
    match s.hpc
    case Top => case Polling => case Polled(_) => case Passed(_) => case Deciding(_) => case Sleeping(_) =>
    case Waking =>
    case _ =>
  }

  lemma FoundCloser(s: State)
    requires BothRunning(s) && s.hpc.Popped?
    ensures var t := Found(s, s.hpc.id, AT_ONCE); BothRunning(t) && Left(t) < Left(s)
  {
    hide Caught, Refuse, Handle;
    if s.hpc.id in s.requests {
      AnsweredAtOnce(s.requests[s.hpc.id], Callback);
    }
  }

  lemma RanCloser(s: State)
    requires BothRunning(s) && s.hpc.Running?
    ensures var t := Ran(s, s.hpc.id, s.hpc.m, AT_ONCE); BothRunning(t) && Left(t) < Left(s)
  {
    hide Handle;
    if s.hpc.id in s.requests {
      AnsweredAtOnce(s.requests[s.hpc.id], s.hpc.m);
    }
  }

  /** The work that runs no request's handler. */
  lemma PlainCloser(s: State)
    requires BothRunning(s) && HandlerNext(s.hpc).Work? && WorkEnabled(s, HandlerNext(s.hpc).w)
    requires !s.hpc.Running? && !(s.hpc.Popped? && s.hpc.id.fcgiId != 0)
    ensures var t := WorkApply(s, HandlerNext(s.hpc).w); BothRunning(t) && Left(t) < Left(s)
  {
    match s.hpc
    case HLocated(_, _) => case HQueued(_) => case HChecking => case Erasing(_) => case Popped(_) =>
    case _ =>
  }

  lemma WorkCloser(s: State)
    requires BothRunning(s) && HandlerNext(s.hpc).Work? && WorkEnabled(s, HandlerNext(s.hpc).w)
    ensures var t := WorkApply(s, HandlerNext(s.hpc).w); BothRunning(t) && Left(t) < Left(s)
  {
    hide BothRunning, Left;
    match s.hpc
    case Popped(id) =>
      if id.fcgiId == 0 {
        PlainCloser(s);
      } else {
        FoundCloser(s);
      }
    case Running(_, _) => RanCloser(s);
    case _ => PlainCloser(s);
  }

  lemma NextCloser(s: State)
    requires BothRunning(s) && !Drained(s) && Enabled(s, Next(s))
    ensures BothRunning(Apply(s, Next(s))) && Left(Apply(s, Next(s))) < Left(s)
  {
    hide Left, BothRunning;
    var step := Next(s);
    match step
    case Background(j) => JobCloser(s, j);
    case Loop(l) => LoopCloser(s);
    case Work(w) => WorkCloser(s);
    case Control(c) =>
  }

  // ---- All of them -------------------------------------------------------------------------------

  lemma OneOwn(steps: seq<Step>, step: Step, rest: seq<Step>)
    requires Own(step) && forall i :: 0 <= i < |rest| ==> Own(rest[i])
    ensures steps + ([step] + rest) == steps + [step] + rest
    ensures var more := [step] + rest; forall i :: 0 <= i < |more| ==> Own(more[i])
  {
  }

  lemma {:induction false} Drains(steps: seq<Step>, s: State) returns (more: seq<Step>, t: State)
    requires After(steps) == At(s) && BothRunning(s)
    ensures After(steps + more) == At(t) && Drained(t) && forall i :: 0 <= i < |more| ==> Own(more[i])
    decreases Left(s)
  {
    hide After, Left, Drained, BothRunning, Enabled, Apply, Next;
    if Drained(s) {
      more, t := [], s;
      assert steps + more == steps;
    } else {
      ManagerSleep.SleepAlways(steps, s);
      NextGoes(s);
      NextCloser(s);
      var next := ManagerProgress.Goes(steps, s, Next(s));
      var rest;
      rest, t := Drains(next, Apply(s, Next(s)));
      more := [Next(s)] + rest;
      OneOwn(steps, Next(s), rest);
    }
  }

  /** NO DEADLOCK.  From every reachable state with both threads running, steps of the two threads alone
    * lead to a state in which every job has run and every message to every request and to the manager has
    * been handled. */
  lemma EverythingHandled(steps: seq<Step>, s: State) returns (more: seq<Step>, t: State)
    requires After(steps) == At(s) && BothRunning(s)
    ensures After(steps + more) == At(t) && forall i :: 0 <= i < |more| ==> Own(more[i])
    ensures t.jobs == [] && t.batch == [] && t.jpc.JResting? && t.tasks == [] && t.managerMessages == 0
    ensures forall id :: id in t.requests ==> t.requests[id].messages == []
  {
    more, t := Drains(steps, s);
    TasksAlways(steps + more, t);
    forall id | id in t.requests ensures t.requests[id].messages == [] {
      assert InPlay(t, id) == 0;
    }
  }
}
