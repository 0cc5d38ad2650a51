/** When `stop` and `terminate` fail to wake the handler: exactly the states in which they lose it. */
module ManagerStop {
  import opened Protocol
  import opened R = Request
  import opened Manager
  import ManagerProgress
  import ManagerSleep

  /** Blocked in its sleep with nothing to do, and no wake-up byte under way. */
  predicate Blocked(s: State) {
    s.hpc == Sleeping(true) && s.wakeBytes == 0
  }

  /** The handler is blocked although it has been told to return. */
  predicate StopLost(s: State) {
    Blocked(s) && s.stopFlag
  }

  /** The handler is blocked although it has been told to return once there are no requests, and
    * there are none. */
  predicate TerminateLost(s: State) {
    Blocked(s) && s.terminateFlag && s.requests == map[]
  }

  /** Anything may happen but another `stop` or `terminate`. */
  predicate Undisturbed(steps: seq<Step>) {
    forall i :: 0 <= i < |steps| ==> steps[i].Control? ==> steps[i].c.StopJobs?
  }

  /** At work, nowhere near going to sleep. */
  predicate Away(s: State) {
    match s.hpc
    case Polled(nap) => !nap
    case Top => true
    case HLocated(_, _) => true
    case HQueued(_) => true
    case HChecking => true
    case Running(_, _) => true
    case Erasing(_) => true
    case Fallen(_) => true
    case Down => true
    case _ => false
  }

  lemma PushedAway(s: State, id: FullId, m: Msg, role: uint16)
    requires m.Record?
    ensures Away(Pushed(s, id, m, role))
  {
  }

  lemma FoundAway(s: State, id: FullId, env: Env)
    ensures Away(Found(s, id, env))
  {
    hide Found;
    FoundPlace(s, id, env);
  }

  lemma FoundPlace(s: State, id: FullId, env: Env)
    ensures var pc := Found(s, id, env).hpc; pc.Top? || pc.Erasing? || pc.Fallen? || pc.Running?
  {
    hide Dequeue, KnownRole, Caught, Refuse, Entries, Onward;
    if id in s.requests {
      var r := s.requests[id];
      OnwardPlace(Caught(Refuse(r.stage, r.app, env), env).verdict, id);
    }
  }

  lemma OnwardPlace(verdict: Verdict, id: FullId)
    ensures var pc := Onward(verdict, id); pc.Top? || pc.Erasing? || pc.Fallen?
  {
  }

  lemma RanAway(s: State, id: FullId, m: Msg, env: Env)
    ensures Away(Ran(s, id, m, env))
  {
  }

  /** A push or the handling of a task leads away from the sleep. */
  lemma WorkAway(s: State, step: WorkStep)
    requires WorkEnabled(s, step)
    ensures Away(WorkApply(s, step))
  {
    match step
    case HPush(id, m, role) => PushedAway(s, id, m, role);
    case HFind(env) => FoundAway(s, s.hpc.id, env);
    case HRun(env) => RanAway(s, s.hpc.id, s.hpc.m, env);
    case _ =>
  }

  /** The job thread changes neither the flags nor whether there are requests, and takes neither
    * tasks nor wake-up bytes. */
  predicate Kept(s: State, t: State) {
    && t.hpc == s.hpc && t.stopFlag == s.stopFlag && t.terminateFlag == s.terminateFlag
    && t.wakeBytes >= s.wakeBytes && (t.tasks == [] ==> s.tasks == [])
    && (t.requests == map[] <==> s.requests == map[])
  }

  lemma QueuedKeeps(s: State, id: FullId, m: Msg, jpc: JobPc)
    ensures Kept(s, Queued(s, id, m).(jpc := jpc))
  {
    if id in s.requests {
      assert id in Queued(s, id, m).requests;
    }
  }

  lemma CheckedKeeps(s: State, jpc: JobPc)
    ensures Kept(s, Checked(s).(jpc := jpc))
  {
  }

  lemma OthersKeep(s: State, step: JobStep)
    requires JobEnabled(s, step) && !step.JQueue? && !step.JCheck?
    ensures Kept(s, JobApply(s, step))
  {
    match step
    case JSwap => case JRun => case JLookup => case JQueue => case JTask => case JCheck =>
  }

  lemma JobKeeps(s: State, step: JobStep)
    requires JobEnabled(s, step)
    ensures Kept(s, JobApply(s, step))
  {
    hide Kept;
    match step
    case JQueue => QueuedKeeps(s, s.jpc.job.id, Callback, JQueued(s.jpc.job));
    case JCheck => CheckedKeeps(s, JResting);
    case _ => OthersKeep(s, step);
  }

  // ---- Stop ------------------------------------------------------------------------------------------

  /** With the flag set, a handler here may go to sleep without looking at it again. */
  predicate StopRisk(s: State) {
    && s.wakeBytes == 0
    && match s.hpc
       case Polling => s.tasks == [] && !(s.terminateFlag && s.requests == map[])
       case Polled(nap) => nap && s.tasks == [] && !(s.terminateFlag && s.requests == map[])
       case Passed(nap) => nap && s.tasks == []
       case Deciding(nap) => nap
       case Sleeping(nap) => nap
       case _ => false
  }

  predicate StopSafe(s: State) {
    s.stopFlag ==> !StopRisk(s)
  }

  lemma StopSafeLoop(s: State, step: LoopStep)
    requires StopSafe(s) && LoopEnabled(s, step)
    ensures StopSafe(LoopApply(s, step))
  {
  }

  lemma StopSafeJob(s: State, step: JobStep)
    requires StopSafe(s) && JobEnabled(s, step)
    ensures StopSafe(JobApply(s, step))
  {
    JobKeeps(s, step);
  }

  lemma StopSafeStep(s: State, step: Step)
    requires StopSafe(s) && Enabled(s, step) && Undisturbed([step])
    ensures StopSafe(Apply(s, step))
  {
    assert [step][0] == step;
    match step
    case Loop(l) => StopSafeLoop(s, l);
    case Work(w) => WorkAway(s, w);
    case Background(j) => StopSafeJob(s, j);
    case Control(c) =>
  }

  lemma LastStep(all: seq<Step>, before: seq<Step>, last: Step)
    requires all != [] && all[..|all| - 1] == before && all[|all| - 1] == last && After(all).At?
    ensures After(before).At? && Enabled(After(before).state, last)
    ensures After(all) == At(Apply(After(before).state, last))
  {
    hide Enabled;
  }

  /** Where a run leads, some steps after another one. */
  lemma Prefix(steps: seq<Step>, more: seq<Step>)
    requires more != [] && After(steps + more).At?
    ensures var before, last := steps + more[..|more| - 1], more[|more| - 1];
            && After(before).At? && Enabled(After(before).state, last)
            && After(steps + more) == At(Apply(After(before).state, last))
  {
    hide After, Enabled, Apply;
    var all := steps + more;
    assert all[..|all| - 1] == steps + more[..|more| - 1] && all[|all| - 1] == more[|more| - 1];
    LastStep(all, steps + more[..|more| - 1], more[|more| - 1]);
  }

  lemma {:induction false} StopSafeAfter(steps: seq<Step>, s: State, more: seq<Step>)
    requires After(steps) == At(s) && StopSafe(s)
    requires Undisturbed(more) && After(steps + more).At?
    ensures StopSafe(After(steps + more).state)
  {
    if more == [] {
      assert steps + more == steps;
    } else {
      var init, last := more[..|more| - 1], more[|more| - 1];
      Prefix(steps, more);
      StopSafeAfter(steps, s, init);
      StopSafeStep(After(steps + init).state, last);
    }
  }

  /** How many steps a handler on its way to sleep has left. */
  function Left(pc: HandlerPc): nat {
    match pc
    case Polling => 4
    case Polled(_) => 3
    case Passed(_) => 2
    case Deciding(_) => 1
    case _ => 0
  }

  /** The next of them. */
  function Next(pc: HandlerPc): LoopStep {
    match pc
    case Polling => HPoll(true)
    case Polled(_) => HPass
    case Passed(_) => HTake
    case _ => HDoze
  }

  /** The flags and the requests are those of `s`. */
  predicate SameOrders(s: State, t: State) {
    t.stopFlag == s.stopFlag && t.terminateFlag == s.terminateFlag && t.requests == s.requests
  }

  lemma RiskGoesOn(s: State)
    requires StopRisk(s) && Left(s.hpc) > 0
    ensures LoopEnabled(s, Next(s.hpc))
    ensures var t := LoopApply(s, Next(s.hpc));
            StopRisk(t) && Left(t.hpc) < Left(s.hpc) && SameOrders(s, t)
  {
  }

  lemma Nearer(steps: seq<Step>, s: State) returns (l: LoopStep, t: State)
    requires After(steps) == At(s) && StopRisk(s) && Left(s.hpc) > 0
    ensures After(steps + [Loop(l)]) == At(t) && StopRisk(t) && Left(t.hpc) < Left(s.hpc) && SameOrders(s, t)
  {
    RiskGoesOn(s);
    l, t := Next(s.hpc), LoopApply(s, Next(s.hpc));
    var more := ManagerProgress.Goes(steps, s, Loop(l));
  }

  lemma OneMore(steps: seq<Step>, l: LoopStep, rest: seq<Step>)
    requires Undisturbed(rest)
    ensures Undisturbed([Loop(l)] + rest) && steps + ([Loop(l)] + rest) == steps + [Loop(l)] + rest
  {
  }

  /** The handler, from any of the places at risk, goes on to sleep. */
  lemma {:induction false} Sleeps(steps: seq<Step>, s: State) returns (more: seq<Step>, t: State)
    requires After(steps) == At(s) && StopRisk(s)
    ensures Undisturbed(more) && After(steps + more) == At(t) && Blocked(t) && SameOrders(s, t)
    decreases Left(s.hpc)
  {
    if Left(s.hpc) == 0 {
      more, t := [], s;
      assert steps + more == steps;
    } else {
      var l, next := Nearer(steps, s);
      var rest;
      rest, t := Sleeps(steps + [Loop(l)], next);
      more := [Loop(l)] + rest;
      OneMore(steps, l, rest);
    }
  }

  /** A stop can be lost in some continuation. */
  ghost predicate CanLoseStop(steps: seq<Step>) {
    exists more :: Undisturbed(more) && After(steps + more).At? && StopLost(After(steps + more).state)
  }

  /** WHEN STOP IS LOST.  After a stop in any reachable state there is a continuation, with any steps
    * of the threads but no other such call, in which the handler is blocked with the flag set and no
    * wake-up byte under way, if and only if at the time of the call it had looked at the flag, had
    * nothing to do and did not yet sleep. */
  lemma StopLostIff(steps: seq<Step>, s: State)
    requires After(steps) == At(s) && Enabled(s, Control(Stop))
    ensures CanLoseStop(steps + [Control(Stop)]) <==>
              && s.wakeBytes == 0 && s.tasks == []
              && (s.hpc == Passed(true)
                  || ((s.hpc == Polling || s.hpc == Polled(true)) && !(s.terminateFlag && s.requests == map[])))
  {
    var stopped := ManagerProgress.Goes(steps, s, Control(Stop));
    var t := ControlApply(s, Stop);
    ManagerSleep.SleepAlways(steps, s);
    if StopRisk(t) {
      var more, u := Sleeps(stopped, t);
    } else if CanLoseStop(stopped) {
      var more :| Undisturbed(more) && After(stopped + more).At? && StopLost(After(stopped + more).state);
      StopSafeAfter(stopped, t, more);
    }
  }

  // ---- Terminate ---------------------------------------------------------------------------------------

  /** With the flag set and no requests, a handler here goes to sleep without looking at it again. */
  predicate TerminateRisk(s: State) {
    && s.wakeBytes == 0 && s.requests == map[]
    && match s.hpc
       case Passed(nap) => nap && s.tasks == []
       case Deciding(nap) => nap
       case Sleeping(nap) => nap
       case _ => false
  }

  predicate TerminateSafe(s: State) {
    s.terminateFlag ==> !TerminateRisk(s)
  }

  lemma TerminateSafeLoop(s: State, step: LoopStep)
    requires TerminateSafe(s) && LoopEnabled(s, step)
    ensures TerminateSafe(LoopApply(s, step))
  {
  }

  lemma TerminateSafeJob(s: State, step: JobStep)
    requires TerminateSafe(s) && JobEnabled(s, step)
    ensures TerminateSafe(JobApply(s, step))
  {
    JobKeeps(s, step);
  }

  lemma TerminateSafeStep(s: State, step: Step)
    requires TerminateSafe(s) && Enabled(s, step) && Undisturbed([step])
    ensures TerminateSafe(Apply(s, step))
  {
    assert [step][0] == step;
    match step
    case Loop(l) => TerminateSafeLoop(s, l);
    case Work(w) => WorkAway(s, w);
    case Background(j) => TerminateSafeJob(s, j);
    case Control(c) =>
  }

  lemma {:induction false} TerminateSafeAfter(steps: seq<Step>, s: State, more: seq<Step>)
    requires After(steps) == At(s) && TerminateSafe(s)
    requires Undisturbed(more) && After(steps + more).At?
    ensures TerminateSafe(After(steps + more).state)
  {
    if more == [] {
      assert steps + more == steps;
    } else {
      var init, last := more[..|more| - 1], more[|more| - 1];
      Prefix(steps, more);
      TerminateSafeAfter(steps, s, init);
      TerminateSafeStep(After(steps + init).state, last);
    }
  }

  ghost predicate CanLoseTerminate(steps: seq<Step>) {
    exists more :: Undisturbed(more) && After(steps + more).At? && TerminateLost(After(steps + more).state)
  }

  /** WHEN TERMINATE IS LOST.  The same for terminate: it is lost only between the look at its flag
    * and the taking of the locks for the decision to sleep. */
  lemma TerminateLostIff(steps: seq<Step>, s: State)
    requires After(steps) == At(s) && Enabled(s, Control(Terminate))
    ensures CanLoseTerminate(steps + [Control(Terminate)]) <==>
              s.hpc == Passed(true) && s.wakeBytes == 0 && s.tasks == [] && s.requests == map[]
  {
    var told := ManagerProgress.Goes(steps, s, Control(Terminate));
    var t := ControlApply(s, Terminate);
    ManagerSleep.SleepAlways(steps, s);
    if TerminateRisk(t) {
      var more, u := Sleeps(told, t);
    } else if CanLoseTerminate(told) {
      var more :| Undisturbed(more) && After(told + more).At? && TerminateLost(After(told + more).state);
      TerminateSafeAfter(told, t, more);
    }
  }

  // ---- Runs ----------------------------------------------------------------------------------------------

  /** A stop or terminate that finds the handler asleep leaves a wake-up byte for it. */
  lemma WakesSleeper(steps: seq<Step>, s: State, c: ControlStep)
    requires After(steps) == At(s) && s.hpc.Sleeping? && (c.Stop? || c.Terminate?)
    ensures ControlApply(s, c).wakeBytes > 0 && !ControlApply(s, c).asleep
  {
    ManagerSleep.SleepAlways(steps, s);
  }

  /** The handler on its first round, having found nothing to do and about to look at its flag. */
  lemma FirstRound() returns (steps: seq<Step>)
    ensures After(steps) == At(INITIAL.(hpc := Polled(true)))
  {
    steps := ManagerProgress.Goes([], INITIAL, Loop(HTop));
    steps := ManagerProgress.Goes(steps, INITIAL.(hpc := Polling), Loop(HPoll(true)));
  }

  /** A run in which a stop is lost. */
  lemma StopCanWait() returns (steps: seq<Step>, s: State)
    ensures After(steps) == At(s) && StopLost(s)
  {
    steps := FirstRound();
    s := INITIAL.(hpc := Polled(true), stopFlag := true);
    steps := ManagerProgress.Goes(steps, INITIAL.(hpc := Polled(true)), Control(Stop));
    var more;
    more, s := Sleeps(steps, s);
    steps := steps + more;
  }

  /** A run in which a terminate is lost. */
  lemma TerminateCanWait() returns (steps: seq<Step>, s: State)
    ensures After(steps) == At(s) && TerminateLost(s)
  {
    steps := FirstRound();
    steps := ManagerProgress.Goes(steps, INITIAL.(hpc := Polled(true)), Loop(HPass));
    steps := ManagerProgress.Goes(steps, INITIAL.(hpc := Passed(true)), Control(Terminate));
    s := INITIAL.(hpc := Passed(true), terminateFlag := true);
    var more;
    more, s := Sleeps(steps, s);
    steps := steps + more;
  }
}
