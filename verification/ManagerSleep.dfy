/** No lost wake-ups. */
module ManagerSleep {
  import opened Protocol
  import opened Request
  import opened Manager

  predicate InSleepSection(s: State) {
    s.hpc.Sleeping? || s.hpc.Waking?
  }

  /** While the handler sleeps, or is about to, a waiting task is announced: by a byte in the
    * wake-up socket, or by a pusher that has yet to look at `asleep`. */
  predicate SleepInv(s: State) {
    && (s.asleep ==> InSleepSection(s))
    && (InSleepSection(s) && !s.asleep ==> s.wakeBytes > 0)
    && (s.hpc.Deciding? || s.hpc.Sleeping? ==> s.tasks != [] ==> s.wakeBytes > 0 || s.jpc.JChecking?)
  }

  lemma SleepLoop(s: State, step: LoopStep)
    requires SleepInv(s) && LoopEnabled(s, step)
    ensures SleepInv(LoopApply(s, step))
  {
  }

  /** The handler is at work, nowhere near its sleep. */
  predicate Busy(s: State) {
    !s.asleep && !InSleepSection(s) && !s.hpc.Deciding?
  }

  lemma BusyFound(s: State, id: FullId, env: Env)
    requires Busy(s)
    ensures Busy(Found(s, id, env))
  {
  }

  lemma BusyRan(s: State, id: FullId, m: Msg, env: Env)
    requires Busy(s)
    ensures Busy(Ran(s, id, m, env))
  {
  }

  lemma BusyPushed(s: State, id: FullId, m: Msg, role: uint16)
    requires Busy(s) && m.Record?
    ensures Busy(Pushed(s, id, m, role))
  {
  }

  lemma SleepWork(s: State, step: WorkStep)
    requires SleepInv(s) && WorkEnabled(s, step)
    ensures SleepInv(WorkApply(s, step))
  {
    assert Busy(s);
    match step
    case HPush(id, m, role) => BusyPushed(s, id, m, role);
    case HFind(env) => BusyFound(s, s.hpc.id, env);
    case HRun(env) => BusyRan(s, s.hpc.id, s.hpc.m, env);
    case _ =>
  }

  lemma SleepJob(s: State, step: JobStep)
    requires SleepInv(s) && JobEnabled(s, step)
    ensures SleepInv(JobApply(s, step))
  {
  }

  lemma SleepControl(s: State, step: ControlStep)
    requires SleepInv(s)
    ensures SleepInv(ControlApply(s, step))
  {
  }

  lemma SleepStep(s: State, step: Step)
    requires SleepInv(s) && Enabled(s, step)
    ensures SleepInv(Apply(s, step))
  {
    match step
    case Loop(l) => SleepLoop(s, l);
    case Work(w) => SleepWork(s, w);
    case Background(j) => SleepJob(s, j);
    case Control(c) => SleepControl(s, c);
  }

  lemma {:induction false} SleepAlways(steps: seq<Step>, s: State)
    requires After(steps) == At(s)
    ensures SleepInv(s)
  {
    if steps != [] {
      var before, last := After(steps[..|steps| - 1]).state, steps[|steps| - 1];
      SleepAlways(steps[..|steps| - 1], before);
      SleepStep(before, last);
    }
  }
}
