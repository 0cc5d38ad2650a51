/** What `stop` and `terminate` are for: the handler returns when it has been told to, and only then. */
module ManagerReturn {
  import opened Protocol
  import opened R = Request
  import opened Manager
  import opened ManagerStop
  import opened ManagerTasks
  import ManagerDrain
  import ManagerProgress
  import ManagerSleep

  /** The handler thread is inside its loop. */
  predicate Looping(hpc: HandlerPc) {
    !hpc.Returned? && !hpc.Fallen? && !hpc.Down?
  }

  // ---- A stop that is not lost makes the handler return -------------------------------------------

  /** Told to stop, and nowhere where it would go to sleep all the same. */
  predicate Stopping(s: State) {
    s.stopFlag && Looping(s.hpc) && !StopRisk(s)
  }

  /** The handler thread moves, unless the job thread holds a lock that it may be waiting for. */
  function Homeward(s: State, nap: bool): Step {
    match s.jpc
    case JLocated(job) => if s.hpc == HQueued(job.id) then Work(HTask) else Background(JQueue)
    case JQueued(_) => Background(JTask)
    case _ =>
      if s.hpc.Polling? then Loop(HPoll(nap))
      else if s.hpc.Polled? && s.terminateFlag && s.hpc.nap && s.requests == map[] then Loop(HTerminate)
      else ManagerDrain.HandlerNext(s.hpc)
  }

  /** How far the handler is from the top of its loop. */
  function ToTop(hpc: HandlerPc): nat {
    match hpc
    case HLocated(_, _) => 16
    case HQueued(_) => 15
    case HChecking => 14
    case Polling => 13
    case Polled(_) => 12
    case Passed(_) => 11
    case Deciding(_) => 10
    case Sleeping(_) => 9
    case Waking => 8
    case Popped(_) => 7
    case Running(_, _) => 6
    case Erasing(_) => 5
    case Top => 1
    case _ => 0
  }

  function Holding(jpc: JobPc): nat {
    match jpc
    case JLocated(_) => 2
    case JQueued(_) => 1
    case _ => 0
  }

  function Distance(s: State): nat {
    ToTop(s.hpc) + Holding(s.jpc)
  }

  lemma HomewardGoes(s: State)
    requires Looping(s.hpc) && ManagerSleep.SleepInv(s)
    requires s.hpc.Sleeping? ==> (s.hpc.nap ==> s.wakeBytes > 0)
    ensures Enabled(s, Homeward(s, false)) && ManagerDrain.Own(Homeward(s, false))
  {
  }

  /** Where each step of the loop leads. */
  lemma LoopLeads(s: State, l: LoopStep)
    requires LoopEnabled(s, l)
    ensures var pc := LoopApply(s, l).hpc;
      match l
      case HTop => s.hpc.Top? && pc == if s.stopFlag then Returned else Polling
      case HRecall => s.hpc.Returned? && pc.Top?
      case HPoll(nap) => s.hpc.Polling? && pc == Polled(nap)
      case HPollThrows => s.hpc.Polling? && pc.Down?
      case HReadWakeByte => s.hpc.Polling? && pc == Polled(false)
      case HTerminate => s.hpc == Polled(true) && pc.Returned?
      case HPass => s.hpc.Polled? && pc == Passed(s.hpc.nap)
      case HTake => s.hpc.Passed? && (pc.Deciding? || pc.Popped?)
      case HDoze => s.hpc.Deciding? && pc.Sleeping?
      case HWake(_) => s.hpc.Sleeping? && pc.Waking?
      case HUp => s.hpc.Waking? && pc.Top?
  {
  }

  lemma LoopNearer(s: State, l: LoopStep)
    requires LoopEnabled(s, l) && !l.HRecall? && (l.HTop? ==> s.stopFlag)
    ensures var t := LoopApply(s, l); ToTop(t.hpc) < ToTop(s.hpc) && !t.hpc.Fallen? && (t.hpc.Down? ==> l.HPollThrows?)
  {
    hide LoopApply, LoopEnabled;
    LoopLeads(s, l);
  }

  lemma HomeLoop(s: State, nap: bool)
    requires Homeward(s, nap).Loop?
    ensures !Homeward(s, nap).l.HPollThrows? && (Looping(s.hpc) ==> !Homeward(s, nap).l.HRecall?)
  {
  }

  lemma LoopHome(s: State)
    requires Looping(s.hpc) && Holding(s.jpc) == 0 && Homeward(s, false).Loop?
    requires LoopEnabled(s, Homeward(s, false).l) && s.stopFlag
    ensures var t := LoopApply(s, Homeward(s, false).l);
            && Distance(t) < Distance(s) && !t.hpc.Fallen? && !t.hpc.Down?
            && (t.hpc.Returned? || t.stopFlag)
            && (t.hpc.Returned? && t.stopFlag ==> s.hpc == Polled(true) && s.terminateFlag && s.requests == map[])
  {
    hide LoopApply, Homeward, ToTop, Holding;
    var l := Homeward(s, false).l;
    HomeLoop(s, false);
    LoopNearer(s, l);
    LoopKeeps(s, l);
    LoopFlags(s, l);
    if LoopApply(s, l).hpc.Returned? {
      LoopReturnsHow(s, l);
    }
  }

  /** The work that the handler does here on its way home. */
  predicate Plain(w: WorkStep) {
    match w
    case HPush(_, _, _) => false
    case HLocal(throws) => !throws
    case HFind(env) => env == ManagerDrain.AT_ONCE
    case HRun(env) => env == ManagerDrain.AT_ONCE
    case _ => true
  }

  lemma HomeWork(s: State)
    requires Looping(s.hpc) && Homeward(s, false).Work?
    ensures Plain(Homeward(s, false).w)
  {
  }

  lemma WorkNearer(s: State, w: WorkStep)
    requires WorkEnabled(s, w) && Plain(w)
    ensures var t := WorkApply(s, w); ToTop(t.hpc) < ToTop(s.hpc) && t.jpc == s.jpc && Looping(t.hpc)
  {
    hide Found, Ran, Queued, Checked, Pushed;
    match w
    case HQueue => QueuedFlags(s, s.hpc.id, s.hpc.m);
    case HTask =>
    case HCheck => CheckedFlags(s);
    case HLocal(_) =>
    case HFind(_) => FoundNearer(s);
    case HRun(_) => RanHome(s);
    case HErase =>
  }

  lemma WorkHome(s: State)
    requires Looping(s.hpc) && Homeward(s, false).Work? && WorkEnabled(s, Homeward(s, false).w)
    requires s.stopFlag
    ensures var t := WorkApply(s, Homeward(s, false).w);
            Distance(t) < Distance(s) && Looping(t.hpc) && t.stopFlag
  {
    hide WorkEnabled, WorkApply, ToTop, Plain, Homeward;
    HomeWork(s);
    WorkNearer(s, Homeward(s, false).w);
    WorkFlags(s, Homeward(s, false).w);
  }

  lemma FoundHome(s: State)
    requires s.hpc.Popped?
    ensures var t := Found(s, s.hpc.id, ManagerDrain.AT_ONCE);
            t.jpc == s.jpc && (t.hpc.Top? || t.hpc.Erasing? || t.hpc.Running?)
  {
    hide Caught, Refuse, Entries, Dequeue, KnownRole, Handle;
    if s.hpc.id in s.requests {
      ManagerDrain.AnsweredAtOnce(s.requests[s.hpc.id], Callback);
    }
  }

  lemma FoundNearer(s: State)
    requires s.hpc.Popped?
    ensures var t := Found(s, s.hpc.id, ManagerDrain.AT_ONCE);
            ToTop(t.hpc) < ToTop(s.hpc) && t.jpc == s.jpc && Looping(t.hpc)
  {
    hide Found;
    FoundHome(s);
  }

  lemma RanHome(s: State)
    requires s.hpc.Running?
    ensures var t := Ran(s, s.hpc.id, s.hpc.m, ManagerDrain.AT_ONCE);
            ToTop(t.hpc) < ToTop(s.hpc) && t.jpc == s.jpc && Looping(t.hpc)
  {
    hide Handle, Entries, Caught, Refuse;
    if s.hpc.id in s.requests {
      ManagerDrain.AnsweredAtOnce(s.requests[s.hpc.id], s.hpc.m);
    }
  }

  lemma JobHome(s: State, step: JobStep)
    requires JobEnabled(s, step) && (step.JQueue? || step.JTask?)
    ensures var t := JobApply(s, step);
            Distance(t) < Distance(s) && t.hpc == s.hpc && t.stopFlag == s.stopFlag
  {
  }

  /** One step closer to the return, or there. */
  lemma StepHome(s: State)
    requires Stopping(s) && Enabled(s, Homeward(s, false))
    ensures var t := Apply(s, Homeward(s, false));
            && Distance(t) < Distance(s)
            && (Stopping(t) || t.hpc.Returned?)
            && (t.hpc.Returned? && t.stopFlag ==> s.hpc == Polled(true) && s.terminateFlag && s.requests == map[])
  {
    hide Distance, StopRisk;
    var step := Homeward(s, false);
    OwnUndisturbed(step, s);
    StopSafeStep(s, step);
    match step
    case Background(j) => JobHome(s, j);
    case Loop(l) => LoopHome(s);
    case Work(w) => WorkHome(s);
    case Control(c) =>
  }

  lemma OwnUndisturbed(step: Step, s: State)
    requires step == Homeward(s, false) || step == Homeward(s, true)
    ensures Undisturbed([step])
  {
  }

  lemma {:induction false} GoesHome(steps: seq<Step>, s: State) returns (more: seq<Step>, t: State)
    requires After(steps) == At(s) && (Stopping(s) || s.hpc.Returned?)
    ensures After(steps + more) == At(t) && t.hpc.Returned?
    ensures forall i :: 0 <= i < |more| ==> ManagerDrain.Own(more[i])
    ensures s.hpc.Returned? ==> t == s
    ensures !s.hpc.Returned? && t.stopFlag ==> Terminating(s)
    decreases Distance(s)
  {
    hide After, Distance, Homeward, Apply, Enabled, ManagerSleep.SleepInv;
    if s.hpc.Returned? {
      more, t := [], s;
      assert steps + more == steps;
    } else {
      ManagerSleep.SleepAlways(steps, s);
      Awake(s);
      HomewardGoes(s);
      StepHome(s);
      FirstHome(s);
      var next := ManagerProgress.Goes(steps, s, Homeward(s, false));
      var rest;
      rest, t := GoesHome(next, Apply(s, Homeward(s, false)));
      more := [Homeward(s, false)] + rest;
      ManagerDrain.OneOwn(steps, Homeward(s, false), rest);
    }
  }

  lemma Awake(s: State)
    requires Stopping(s)
    ensures s.hpc.Sleeping? && s.hpc.nap ==> s.wakeBytes > 0
  {
  }

  /** About to return on a former `terminate` instead. */
  predicate Terminating(s: State) {
    s.hpc == Polled(true) && s.terminateFlag && s.requests == map[]
  }

  lemma LoopPolls(s: State)
    requires Homeward(s, false).Loop? && LoopEnabled(s, Homeward(s, false).l)
    ensures LoopApply(s, Homeward(s, false).l).hpc != Polled(true)
  {
    hide LoopApply;
    PolledHow(s, Homeward(s, false).l);
  }

  lemma PolledHow(s: State, l: LoopStep)
    requires LoopEnabled(s, l)
    ensures LoopApply(s, l).hpc == Polled(true) ==> l == HPoll(true)
  {
    match l
    case HTop => case HRecall => case HPoll(_) => case HPollThrows => case HReadWakeByte => case HTerminate =>
    case HPass => case HTake => case HDoze => case HWake(_) => case HUp =>
  }

  /** Nobody comes to stand there on this way. */
  lemma FirstHome(s: State)
    requires Stopping(s) && Enabled(s, Homeward(s, false))
    ensures Terminating(Apply(s, Homeward(s, false))) ==> Terminating(s)
  {
    hide StopRisk, LoopApply, WorkApply, JobApply;
    match Homeward(s, false)
    case Background(j) => JobKeeps(s, j);
    case Loop(l) => LoopPolls(s);
    case Work(w) => WorkAway(s, w);
    case Control(c) =>
  }

  /** THE HANDLER RETURNS.  A stop in any reachable state that is not one of those in which it can be lost, with
    * the handler in its loop, can always be followed by steps of the two threads alone that lead to the
    * handler's return, with the flag cleared, unless the handler was about to return on a former `terminate`
    * anyway. */
  lemma StopReturns(steps: seq<Step>, s: State) returns (more: seq<Step>, t: State)
    requires After(steps) == At(s) && Enabled(s, Control(Stop)) && Looping(s.hpc)
    requires !CanLoseStop(steps + [Control(Stop)])
    ensures After(steps + [Control(Stop)] + more) == At(t) && t.hpc.Returned?
    ensures forall i :: 0 <= i < |more| ==> ManagerDrain.Own(more[i])
    ensures t.stopFlag ==> Terminating(s)
  {
    StopLostIff(steps, s);
    ManagerSleep.SleepAlways(steps, s);
    var told := ManagerProgress.Goes(steps, s, Control(Stop));
    more, t := GoesHome(told, ControlApply(s, Stop));
  }

  // ---- A terminate that is not lost makes an idle handler return --------------------------------------

  /** Told to terminate, with no requests left, and nowhere where it would go to sleep all the same. */
  predicate Leaving(s: State) {
    s.terminateFlag && s.requests == map[] && Looping(s.hpc) && !TerminateRisk(s)
  }

  /** How far the handler is from its next look at the terminate flag with nothing to do. */
  function ToEnd(hpc: HandlerPc): nat {
    match hpc
    case HQueued(_) => 20
    case HChecking => 19
    case Polled(nap) => if nap then 8 else 18
    case Passed(_) => 17
    case Deciding(_) => 16
    case Sleeping(_) => 15
    case Waking => 14
    case Popped(_) => 13
    case Top => 10
    case Polling => 9
    case _ => 0
  }

  /** Without requests nobody holds one. */
  lemma NobodyHolds(s: State)
    requires Located(s) && s.requests == map[]
    ensures !s.hpc.HLocated? && !s.hpc.Running? && !s.hpc.Erasing? && !JobReads(s)
  {
  }

  lemma EndGoes(s: State)
    requires Leaving(s) && Located(s) && ManagerSleep.SleepInv(s)
    ensures Enabled(s, Homeward(s, true)) && ManagerDrain.Own(Homeward(s, true))
    ensures !Homeward(s, true).Background? && !Homeward(s, true).Control?
  {
    NobodyHolds(s);
  }

  lemma LoopEndsNearer(s: State, l: LoopStep)
    requires LoopEnabled(s, l) && Leaving(s) && (l.HPoll? ==> l.nap) && (l.HPass? ==> s.hpc != Polled(true))
    requires !l.HPollThrows? && !l.HReadWakeByte?
    ensures var t := LoopApply(s, l);
            && !t.hpc.Fallen? && !t.hpc.Down? && (t.hpc.Returned? || ToEnd(t.hpc) < ToEnd(s.hpc))
  {
    hide TerminateRisk;
    match l
    case HTop => case HRecall => case HPoll(_) => case HTerminate =>
    case HPass => case HTake => case HDoze => case HWake(_) => case HUp =>
  }

  lemma HomeEnds(s: State)
    requires Leaving(s) && Homeward(s, true).Loop?
    ensures var l := Homeward(s, true).l;
            && (l.HPoll? ==> l.nap) && (l.HPass? ==> s.hpc != Polled(true))
            && !l.HPollThrows? && !l.HReadWakeByte?
  {
    hide TerminateRisk;
  }

  lemma LoopEnds(s: State)
    requires Leaving(s) && !JobReads(s) && Homeward(s, true).Loop? && LoopEnabled(s, Homeward(s, true).l)
    ensures var t := LoopApply(s, Homeward(s, true).l);
            && t.requests == map[] && !t.hpc.Fallen? && !t.hpc.Down?
            && if t.hpc.Returned? then t.terminateFlag ==> s.stopFlag
               else t.terminateFlag && ToEnd(t.hpc) < ToEnd(s.hpc) && t.stopFlag == s.stopFlag
  {
    hide LoopApply, Homeward, ToEnd, TerminateRisk;
    var l := Homeward(s, true).l;
    HomeEnds(s);
    LoopEndsNearer(s, l);
    LoopFlags(s, l);
    LoopKeeps(s, l);
    LoopReturnsHow(s, l);
  }

  lemma WorkEnds(s: State)
    requires Leaving(s) && Located(s) && Homeward(s, true).Work? && WorkEnabled(s, Homeward(s, true).w)
    ensures var t := WorkApply(s, Homeward(s, true).w);
            && t.requests == map[] && Looping(t.hpc) && t.terminateFlag && ToEnd(t.hpc) < ToEnd(s.hpc)
            && t.stopFlag == s.stopFlag
  {
    hide TerminateRisk, Ran, Queued, Pushed;
    NobodyHolds(s);
    WorkFlags(s, Homeward(s, true).w);
    match s.hpc
    case HQueued(_) => case HChecking => case Popped(_) =>
    case _ =>
  }

  lemma StepEnds(s: State)
    requires Leaving(s) && Located(s) && Enabled(s, Homeward(s, true)) && ManagerSleep.SleepInv(s)
    ensures var t := Apply(s, Homeward(s, true));
            if t.hpc.Returned? then t.terminateFlag ==> s.stopFlag
            else Leaving(t) && ToEnd(t.hpc) < ToEnd(s.hpc) && t.stopFlag == s.stopFlag
  {
    hide TerminateRisk, ToEnd, Located, Homeward;
    EndGoes(s);
    NobodyHolds(s);
    OwnUndisturbed(Homeward(s, true), s);
    TerminateSafeStep(s, Homeward(s, true));
    match Homeward(s, true)
    case Loop(l) => LoopEnds(s);
    case Work(w) => WorkEnds(s);
    case _ =>
  }

  lemma {:induction false} GoesToEnd(steps: seq<Step>, s: State) returns (more: seq<Step>, t: State)
    requires After(steps) == At(s) && Leaving(s)
    ensures After(steps + more) == At(t) && t.hpc.Returned? && (t.terminateFlag ==> s.stopFlag)
    ensures forall i :: 0 <= i < |more| ==> ManagerDrain.Own(more[i])
    decreases ToEnd(s.hpc)
  {
    hide After, ToEnd, Homeward, Apply, Enabled, ManagerSleep.SleepInv, Leaving;
    ManagerSleep.SleepAlways(steps, s);
    TasksAlways(steps, s);
    EndGoes(s);
    StepEnds(s);
    var step, next := Homeward(s, true), Apply(s, Homeward(s, true));
    var longer := ManagerProgress.Goes(steps, s, step);
    if next.hpc.Returned? {
      more, t := [step], next;
    } else {
      var rest;
      rest, t := GoesToEnd(longer, next);
      more := [step] + rest;
      ManagerDrain.OneOwn(steps, step, rest);
    }
  }

  /** The same for terminate, once there are no requests: the handler returns with the flag cleared, unless it
    * returns on a former `stop`. */
  lemma TerminateReturns(steps: seq<Step>, s: State) returns (more: seq<Step>, t: State)
    requires After(steps) == At(s) && Enabled(s, Control(Terminate)) && Looping(s.hpc) && s.requests == map[]
    requires !CanLoseTerminate(steps + [Control(Terminate)])
    ensures After(steps + [Control(Terminate)] + more) == At(t) && t.hpc.Returned?
    ensures forall i :: 0 <= i < |more| ==> ManagerDrain.Own(more[i])
    ensures t.terminateFlag ==> s.stopFlag
  {
    TerminateLostIff(steps, s);
    ManagerSleep.SleepAlways(steps, s);
    var told := ManagerProgress.Goes(steps, s, Control(Terminate));
    more, t := GoesToEnd(told, ControlApply(s, Terminate));
  }

  // ---- Told, and only then ---------------------------------------------------------------------------

  /** The step that ends the handler on a `stop`, or on a `terminate`. */
  predicate Returns(s: State, step: Step, how: LoopStep) {
    step == Loop(how) && (how.HTop? || how.HTerminate?) && LoopEnabled(s, how) && LoopApply(s, how).hpc.Returned?
  }

  /** A step of a run: from its state before to its state after. */
  ghost predicate Runs(steps: seq<Step>, i: nat, s: State, t: State) {
    i < |steps| && After(steps[..i]) == At(s) && After(steps[..i + 1]) == At(t)
  }

  /** The flags change only with the call and with the return. */
  lemma FlagsChange(s: State, step: Step)
    requires Enabled(s, step)
    ensures var t := Apply(s, step);
            && t.stopFlag == ((s.stopFlag || step == Control(Stop)) && !Returns(s, step, HTop))
            && t.terminateFlag == ((s.terminateFlag || step == Control(Terminate)) && !Returns(s, step, HTerminate))
            && t.jobStop == (s.jobStop || step == Control(StopJobs))
  {
    hide LoopEnabled, LoopApply, WorkEnabled, WorkApply, JobEnabled, JobApply;
    match step
    case Loop(l) => LoopFlags(s, l);
    case Work(w) => WorkFlags(s, w);
    case Background(j) => JobFlags(s, j);
    case Control(c) =>
  }

  lemma LoopFlags(s: State, l: LoopStep)
    requires LoopEnabled(s, l)
    ensures var t := LoopApply(s, l);
            && t.stopFlag == (s.stopFlag && !Returns(s, Loop(l), HTop))
            && t.terminateFlag == (s.terminateFlag && !Returns(s, Loop(l), HTerminate))
            && t.jobStop == s.jobStop
  {
    match l
    case HTop => case HRecall => case HPoll(_) => case HPollThrows => case HReadWakeByte => case HTerminate =>
    case HPass => case HTake => case HDoze => case HWake(_) => case HUp =>
  }

  predicate SameFlags(s: State, t: State) {
    t.stopFlag == s.stopFlag && t.terminateFlag == s.terminateFlag && t.jobStop == s.jobStop
  }

  /** All but the registry, the jobs still queued and the handler's place. */
  predicate SameQueues(s: State, t: State) {
    && SameFlags(s, t) && t.tasks == s.tasks && t.batch == s.batch && t.jpc == s.jpc && t.asleep == s.asleep
    && t.wakeBytes == s.wakeBytes
  }

  lemma WorkFlags(s: State, w: WorkStep)
    requires WorkEnabled(s, w)
    ensures SameFlags(s, WorkApply(s, w))
  {
    hide Pushed, Queued, Checked, Found, Ran;
    match w
    case HPush(id, m, role) => PushedFlags(s, id, m, role);
    case HQueue => QueuedFlags(s, s.hpc.id, s.hpc.m);
    case HTask =>
    case HCheck => CheckedFlags(s);
    case HLocal(_) =>
    case HFind(env) => FoundFlags(s, s.hpc.id, env);
    case HRun(env) => RanFlags(s, s.hpc.id, s.hpc.m, env);
    case HErase =>
  }

  lemma JobFlags(s: State, j: JobStep)
    requires JobEnabled(s, j)
    ensures SameFlags(s, JobApply(s, j))
  {
    hide Queued, Checked;
    match j
    case JSwap => case JRun => case JLookup => case JTask =>
    case JQueue => QueuedFlags(s, s.jpc.job.id, Callback);
    case JCheck => CheckedFlags(s);
  }

  lemma CheckedFlags(s: State)
    ensures Checked(s) == s.(wakeBytes := s.wakeBytes + if s.asleep then 1 else 0)
  {
  }

  lemma QueuedFlags(s: State, id: FullId, m: Msg)
    ensures SameQueues(s, Queued(s, id, m)) && Queued(s, id, m).jobs == s.jobs
  {
    hide Enqueue;
  }

  lemma PushedFlags(s: State, id: FullId, m: Msg, role: uint16)
    requires m.Record?
    ensures SameQueues(s, Pushed(s, id, m, role)) && Pushed(s, id, m, role).jobs == s.jobs
  {
    hide NewRequest;
    if id.fcgiId == 0 {
    } else if id in s.requests {
    } else if m.kind == BEGIN_REQUEST {
    } else {
    }
  }

  lemma FoundFlags(s: State, id: FullId, env: Env)
    ensures SameQueues(s, Found(s, id, env)) && Found(s, id, env).jobs == s.jobs
  {
    hide Dequeue, KnownRole, Caught, Refuse, Entries, Onward;
    if id !in s.requests {
    } else if !KnownRole(s.requests[id].role) {
    } else if s.requests[id].messages == [] {
    } else {
    }
  }

  lemma RanFlags(s: State, id: FullId, m: Msg, env: Env)
    ensures var t := Ran(s, id, m, env);
            SameQueues(s, t) && (t.jobs == s.jobs || (|t.jobs| > |s.jobs| && t.jobs == s.jobs + [t.jobs[|t.jobs| - 1]]))
  {
    hide Handle, Entries, Onward;
  }

  /** The handler comes to its return only by one of these steps, which need the flag. */
  lemma ReturnsHow(s: State, step: Step)
    requires Enabled(s, step) && Apply(s, step).hpc.Returned? && !s.hpc.Returned?
    ensures (Returns(s, step, HTop) && s.stopFlag)
            || (Returns(s, step, HTerminate) && s.terminateFlag && s.requests == map[])
  {
    match step
    case Loop(l) => LoopReturnsHow(s, l);
    case Work(w) => WorkAway(s, w);
    case Background(j) => JobKeeps(s, j);
    case Control(c) =>
  }

  lemma LoopReturnsHow(s: State, l: LoopStep)
    requires LoopEnabled(s, l)
    ensures LoopApply(s, l).hpc.Returned? ==>
              || (l.HTop? && s.stopFlag)
              || (l.HTerminate? && s.hpc == Polled(true) && s.terminateFlag && s.requests == map[])
  {
    match l
    case HTop => case HRecall => case HPoll(_) => case HPollThrows => case HReadWakeByte => case HTerminate =>
    case HPass => case HTake => case HDoze => case HWake(_) => case HUp =>
  }

  /** The call `c` was made at step `j`, and no return of its kind has followed before step `n`. */
  ghost predicate Outstanding(steps: seq<Step>, j: nat, n: nat, c: ControlStep, how: LoopStep) {
    && j < n <= |steps| && steps[j] == Control(c)
    && forall k, s, t :: j < k < n && Runs(steps, k, s, t) ==> !Returns(s, steps[k], how)
  }

  /** What a set flag tells about the run. */
  lemma {:induction false} FlagWhy(steps: seq<Step>, n: nat, s: State, c: ControlStep)
    returns (j: nat)
    requires n <= |steps| && After(steps[..n]) == At(s)
    requires (c == Stop && s.stopFlag) || (c == Terminate && s.terminateFlag)
    ensures Outstanding(steps, j, n, c, if c == Stop then HTop else HTerminate)
  {
    hide Apply, Enabled, After, Returns;
    var how := if c == Stop then HTop else HTerminate;
    FirstUnset(steps, n, s, c);
    var before := AfterPrefix(steps, n, s);
    var last := steps[n - 1];
    FlagsChange(before, last);
    if last == Control(c) {
      j := n - 1;
    } else {
      j := FlagWhy(steps, n - 1, before, c);
      forall k, a, b | j < k < n && Runs(steps, k, a, b) ensures !Returns(a, steps[k], how) {
        if k == n - 1 {
          assert a == before;
        }
      }
    }
  }

  /** At the very start no flag is set. */
  lemma FirstUnset(steps: seq<Step>, n: nat, s: State, c: ControlStep)
    requires n <= |steps| && After(steps[..n]) == At(s)
    requires (c == Stop && s.stopFlag) || (c == Terminate && s.terminateFlag)
    ensures n > 0
  {
  }

  lemma AfterPrefix(steps: seq<Step>, n: nat, s: State) returns (before: State)
    requires 0 < n <= |steps| && After(steps[..n]) == At(s)
    ensures After(steps[..n - 1]) == At(before) && Enabled(before, steps[n - 1]) && s == Apply(before, steps[n - 1])
  {
    hide After, Enabled, Apply;
    assert steps[..n][..n - 1] == steps[..n - 1] && steps[..n][n - 1] == steps[n - 1];
    LastStep(steps[..n], steps[..n - 1], steps[n - 1]);
    before := After(steps[..n - 1]).state;
  }

  /** RETURNED MEANS TOLD.  Whenever the handler returns, a `stop` has been called, and it has not returned on
    * that one before; or a `terminate`, and there are no requests. */
  lemma ReturnCalled(steps: seq<Step>, i: nat, s: State, t: State) returns (j: nat)
    requires Runs(steps, i, s, t) && t.hpc.Returned? && !s.hpc.Returned?
    ensures || (Returns(s, steps[i], HTop) && Outstanding(steps, j, i, Stop, HTop))
            || (Returns(s, steps[i], HTerminate) && Outstanding(steps, j, i, Terminate, HTerminate)
                && s.requests == map[])
  {
    hide Returns, Outstanding;
    var before := AfterPrefix(steps, i + 1, t);
    ReturnsHow(s, steps[i]);
    if Returns(s, steps[i], HTop) && s.stopFlag {
      j := FlagWhy(steps, i, s, Stop);
    } else {
      j := FlagWhy(steps, i, s, Terminate);
    }
  }

  /** NO ROUND AFTER A STOP.  From a stop to the handler's next return the flag stays set, and the handler
    * does not begin another round. */
  lemma {:induction false} NoRoundAfterStop(steps: seq<Step>, j: nat, n: nat, s: State)
    requires Outstanding(steps, j, n, Stop, HTop) && After(steps[..n]) == At(s)
    ensures s.stopFlag
    ensures n < |steps| && !s.hpc.Polling? && After(steps[..n + 1]).At? ==>
              !After(steps[..n + 1]).state.hpc.Polling?
  {
    hide Apply, Enabled, After;
    var before := AfterPrefix(steps, n, s);
    FlagsChange(before, steps[n - 1]);
    if n - 1 > j {
      assert Runs(steps, n - 1, before, s);
      NoRoundAfterStop(steps, j, n - 1, before);
    }
    if n < |steps| && !s.hpc.Polling? && After(steps[..n + 1]).At? {
      var again := AfterPrefix(steps, n + 1, After(steps[..n + 1]).state);
      PollsHow(s, steps[n]);
    }
  }

  /** A round begins only at the top of the loop, and only without the flag. */
  lemma PollsHow(s: State, step: Step)
    requires Enabled(s, step) && !s.hpc.Polling?
    ensures Apply(s, step).hpc.Polling? ==> step == Loop(HTop) && s.hpc.Top? && !s.stopFlag
  {
    hide LoopEnabled, LoopApply, WorkEnabled, WorkApply, JobEnabled, JobApply;
    match step
    case Loop(l) => LoopPollsHow(s, l);
    case Work(w) => WorkAway(s, w);
    case Background(j) => JobKeeps(s, j);
    case Control(c) =>
  }

  lemma LoopPollsHow(s: State, l: LoopStep)
    requires LoopEnabled(s, l)
    ensures LoopApply(s, l).hpc.Polling? ==> l.HTop? && s.hpc.Top? && !s.stopFlag
  {
    match l
    case HTop => case HRecall => case HPoll(_) => case HPollThrows => case HReadWakeByte => case HTerminate =>
    case HPass => case HTake => case HDoze => case HWake(_) => case HUp =>
  }


  // ---- The job thread --------------------------------------------------------------------------

  /** NO BATCH AFTER A STOP.  The job thread is stopped exactly when it has been told to, and takes no jobs
    * from the queue any more. */
  lemma {:induction false} NoBatchAfterStop(steps: seq<Step>, n: nat, s: State)
    requires n <= |steps| && After(steps[..n]) == At(s)
    ensures s.jobStop <==> exists j :: 0 <= j < n && steps[j] == Control(StopJobs)
    ensures s.jobStop && n < |steps| && After(steps[..n + 1]).At? ==> steps[n] != Background(JSwap)
  {
    hide Apply, Enabled;
    if n > 0 {
      var before := AfterPrefix(steps, n, s);
      FlagsChange(before, steps[n - 1]);
      NoBatchAfterStop(steps, n - 1, before);
    }
    if n < |steps| && After(steps[..n + 1]).At? {
      var again := AfterPrefix(steps, n + 1, After(steps[..n + 1]).state);
      SwapsHow(s, steps[n]);
    }
  }

  lemma SwapsHow(s: State, step: Step)
    requires Enabled(s, step)
    ensures step == Background(JSwap) ==> !s.jobStop && s.batch == [] && Apply(s, step).batch == s.jobs
  {
  }
}
