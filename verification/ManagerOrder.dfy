/** What goes through the manager's queues and registry over whole runs: tasks and jobs in the order in which
  * they came, requests from their first record to their end, and a handler that is gone when an exception
  * has left it. */
module ManagerOrder {
  import opened Protocol
  import opened R = Request
  import opened Manager
  import opened ManagerReturn
  import opened Seqs

  // ---- Tasks -----------------------------------------------------------------------------------

  /** The task that a step in state `s` puts into the queue. */
  function TaskIn(s: State, step: Step): seq<FullId> {
    if step == Work(HTask) && s.hpc.HQueued? then [s.hpc.id]
    else if step == Background(JTask) && s.jpc.JQueued? then [s.jpc.job.id]
    else []
  }

  /** The task that the handler holds after a step that has taken one. */
  function TaskOut(step: Step, t: State): seq<FullId> {
    if step == Loop(HTake) && t.hpc.Popped? then [t.hpc.id] else []
  }

  function TasksPushed(steps: seq<Step>): seq<FullId> {
    if steps == [] then []
    else match After(steps[..|steps| - 1])
      case Stuck => []
      case At(s) => TasksPushed(steps[..|steps| - 1]) + TaskIn(s, steps[|steps| - 1])
  }

  function TasksTaken(steps: seq<Step>): seq<FullId> {
    if steps == [] then []
    else match After(steps)
      case Stuck => []
      case At(t) => TasksTaken(steps[..|steps| - 1]) + TaskOut(steps[|steps| - 1], t)
  }

  lemma TasksStep(s: State, step: Step)
    requires Enabled(s, step)
    ensures var t := Apply(s, step); s.tasks + TaskIn(s, step) == TaskOut(step, t) + t.tasks
  {
    hide LoopEnabled, LoopApply, WorkEnabled, WorkApply, JobEnabled, JobApply;
    match step
    case Loop(l) => LoopTasks(s, l);
    case Work(w) => WorkTasks(s, w);
    case Background(j) => JobTasks(s, j);
    case Control(c) =>
  }

  lemma LoopTasks(s: State, l: LoopStep)
    requires LoopEnabled(s, l)
    ensures var t := LoopApply(s, l); s.tasks == TaskOut(Loop(l), t) + t.tasks
  {
    match l
    case HTop => case HRecall => case HPoll(_) => case HPollThrows => case HReadWakeByte => case HTerminate =>
    case HPass => case HTake => case HDoze => case HWake(_) => case HUp =>
  }

  lemma WorkTasks(s: State, w: WorkStep)
    requires WorkEnabled(s, w)
    ensures WorkApply(s, w).tasks == s.tasks + TaskIn(s, Work(w))
  {
    hide Pushed, Queued, Checked, Found, Ran;
    match w
    case HPush(id, m, role) => PushedFlags(s, id, m, role);
    case HQueue => QueuedFlags(s, s.hpc.id, s.hpc.m);
    case HTask =>
    case HCheck => CheckedFlags(s);
    case HLocal(_) =>
    case HFind(env) => FoundFlags(s, s.hpc.id, env);
    case HRun(env) => RanFlags(s, s.hpc.id, s.hpc.m, env);
    case HErase =>
  }

  lemma JobTasks(s: State, j: JobStep)
    requires JobEnabled(s, j)
    ensures JobApply(s, j).tasks == s.tasks + TaskIn(s, Background(j))
  {
    hide Queued, Checked;
    match j
    case JSwap => case JRun => case JLookup => case JTask =>
    case JQueue => QueuedFlags(s, s.jpc.job.id, Callback);
    case JCheck => CheckedFlags(s);
  }

  /** The run without its last step. */
  lemma Before(steps: seq<Step>, t: State) returns (before: seq<Step>, s: State, step: Step)
    requires steps != [] && After(steps) == At(t)
    ensures before == steps[..|steps| - 1] && step == steps[|steps| - 1] && steps == before + [step]
    ensures After(before) == At(s) && Enabled(s, step) && t == Apply(s, step)
  {
    hide Enabled, Apply;
    before, step := steps[..|steps| - 1], steps[|steps| - 1];
    s := After(before).state;
  }

  /** FIRST COME, FIRST SERVED.  In every run the tasks taken so far, and behind them those in the queue, are
    * the tasks put into it by either thread, in that order. */
  lemma {:induction false} TasksInOrder(steps: seq<Step>, t: State)
    requires After(steps) == At(t)
    ensures TasksPushed(steps) == TasksTaken(steps) + t.tasks
  {
    hide After, Enabled, Apply, TaskIn, TaskOut;
    if steps == [] {
      AtStart(t);
    } else {
      var before, s, step := Before(steps, t);
      TasksInOrder(before, s);
      TasksStep(s, step);
      Regroup(TasksTaken(before), s.tasks, TaskIn(s, step));
      Regroup(TasksTaken(before), TaskOut(step, t), t.tasks);
    }
  }

  lemma AtStart(t: State)
    requires After([]) == At(t)
    ensures t == INITIAL
  {
  }

  // ---- Jobs ------------------------------------------------------------------------------------

  /** The job that a step from `s` to `t` has added to the job queue. */
  function JobIn(s: State, step: Step, t: State): seq<Job> {
    if step.Work? && |t.jobs| > |s.jobs| then [t.jobs[|t.jobs| - 1]] else []
  }

  /** The job that the job thread has just done. */
  function JobOut(step: Step, t: State): seq<Job> {
    if step == Background(JRun) && t.jpc.JRan? then [t.jpc.job] else []
  }

  function JobsAdded(steps: seq<Step>): seq<Job> {
    if steps == [] then []
    else match (After(steps[..|steps| - 1]), After(steps))
      case (At(s), At(t)) => JobsAdded(steps[..|steps| - 1]) + JobIn(s, steps[|steps| - 1], t)
      case _ => []
  }

  function JobsDone(steps: seq<Step>): seq<Job> {
    if steps == [] then []
    else match After(steps)
      case Stuck => []
      case At(t) => JobsDone(steps[..|steps| - 1]) + JobOut(steps[|steps| - 1], t)
  }

  lemma JobsStep(s: State, step: Step)
    requires Enabled(s, step)
    ensures var t := Apply(s, step);
            s.batch + s.jobs + JobIn(s, step, t) == JobOut(step, t) + (t.batch + t.jobs)
  {
    hide LoopEnabled, LoopApply, WorkEnabled, WorkApply;
    match step
    case Loop(l) => LoopKeeps(s, l);
    case Work(w) => WorkJobs(s, w);
    case Background(j) => JobJobs(s, j);
    case Control(c) =>
  }

  lemma WorkJobs(s: State, w: WorkStep)
    requires WorkEnabled(s, w)
    ensures var t := WorkApply(s, w); t.batch == s.batch && t.jobs == s.jobs + JobIn(s, Work(w), t)
  {
    hide Pushed, Queued, Checked, Found, Ran;
    match w
    case HPush(id, m, role) => PushedFlags(s, id, m, role);
    case HQueue => QueuedFlags(s, s.hpc.id, s.hpc.m);
    case HTask =>
    case HCheck => CheckedFlags(s);
    case HLocal(_) =>
    case HFind(env) => FoundFlags(s, s.hpc.id, env);
    case HRun(env) => RanFlags(s, s.hpc.id, s.hpc.m, env);
    case HErase =>
  }

  lemma JobJobs(s: State, j: JobStep)
    requires JobEnabled(s, j)
    ensures var t := JobApply(s, j); s.batch + s.jobs == JobOut(Background(j), t) + (t.batch + t.jobs)
  {
    hide Enqueue;
    match j
    case JSwap => case JRun => Regroup([s.batch[0]], s.batch[1..], s.jobs); case JLookup =>
    case JQueue => case JTask => case JCheck =>
  }

  /** Jobs are done in the order in which they were added, each once and none left out. */
  lemma {:induction false} JobsInOrder(steps: seq<Step>, t: State)
    requires After(steps) == At(t)
    ensures JobsAdded(steps) == JobsDone(steps) + (t.batch + t.jobs)
  {
    hide After, Enabled, Apply, JobIn, JobOut;
    if steps == [] {
      AtStart(t);
    } else {
      var before, s, step := Before(steps, t);
      JobsInOrder(before, s);
      JobsStep(s, step);
      Regroup(JobsDone(before), s.batch + s.jobs, JobIn(s, step, t));
      Regroup(JobsDone(before), JobOut(step, t), t.batch + t.jobs);
    }
  }

  // ---- Requests --------------------------------------------------------------------------------

  /** The first record of a request. */
  predicate Begins(step: Step, id: FullId) {
    && step.Work? && step.w.HPush? && step.w.m.Record? && step.w.id == id
    && id.fcgiId != 0 && step.w.m.kind == BEGIN_REQUEST
  }

  predicate Erases(s: State, step: Step, id: FullId) {
    step == Work(HErase) && s.hpc == Erasing(id)
  }

  /** The request `id` is as it was but for its messages and its stage. */
  predicate SameRequest(s: State, t: State, id: FullId) {
    && (id in t.requests <==> id in s.requests)
    && (id in t.requests ==>
          t.requests[id].role == s.requests[id].role && t.requests[id].serial == s.requests[id].serial)
  }

  /** Nothing but a first record brings a request, and nothing but its erasure ends it. */
  predicate RequestsChange(s: State, step: Step, t: State, id: FullId) {
    if Begins(step, id) && id !in s.requests then
      id in t.requests && t.requests[id] == Request(s.nextSerial, step.w.role, Params, Start, [], [], [])
    else if Erases(s, step, id) then id !in t.requests
    else SameRequest(s, t, id)
  }

  lemma RequestsStep(s: State, step: Step, id: FullId)
    requires Enabled(s, step)
    ensures RequestsChange(s, step, Apply(s, step), id)
  {
    hide LoopEnabled, LoopApply, WorkEnabled, WorkApply, JobEnabled, JobApply;
    match step
    case Loop(l) => LoopKeeps(s, l);
    case Work(w) => WorkRequests(s, w, id);
    case Background(j) => JobRequests(s, j, id);
    case Control(c) =>
  }

  lemma WorkRequests(s: State, w: WorkStep, id: FullId)
    requires WorkEnabled(s, w)
    ensures RequestsChange(s, Work(w), WorkApply(s, w), id)
  {
    hide Pushed, Queued, Checked, Found, Ran;
    match w
    case HPush(to, m, role) => PushedRequests(s, to, m, role, id);
    case HQueue => QueuedRequests(s, s.hpc.id, s.hpc.m, id);
    case HTask =>
    case HCheck => CheckedFlags(s);
    case HLocal(_) =>
    case HFind(env) => FoundRequests(s, s.hpc.id, env, id);
    case HRun(env) => RanRequests(s, s.hpc.id, s.hpc.m, env, id);
    case HErase =>
  }

  lemma PushedRequests(s: State, to: FullId, m: Msg, role: uint16, id: FullId)
    requires m.Record?
    ensures RequestsChange(s, Work(HPush(to, m, role)), Pushed(s, to, m, role), id)
  {
    if to.fcgiId == 0 {
    } else if to in s.requests {
    } else if m.kind == BEGIN_REQUEST {
    } else {
    }
  }

  lemma QueuedRequests(s: State, to: FullId, m: Msg, id: FullId)
    ensures SameRequest(s, Queued(s, to, m), id)
  {
  }

  lemma FoundRequests(s: State, to: FullId, env: Env, id: FullId)
    ensures SameRequest(s, Found(s, to, env), id)
  {
    hide Caught, Refuse, Entries, Onward, KnownRole;
    if to !in s.requests {
    } else if !KnownRole(s.requests[to].role) {
    } else if s.requests[to].messages == [] {
    } else {
    }
  }

  lemma RanRequests(s: State, to: FullId, m: Msg, env: Env, id: FullId)
    ensures SameRequest(s, Ran(s, to, m, env), id)
  {
    hide Handle, Entries, Onward;
  }

  lemma JobRequests(s: State, j: JobStep, id: FullId)
    requires JobEnabled(s, j)
    ensures RequestsChange(s, Background(j), JobApply(s, j), id)
  {
    hide Queued, Checked;
    match j
    case JSwap => case JRun => case JLookup => case JTask =>
    case JQueue => QueuedRequests(s, s.jpc.job.id, Callback, id);
    case JCheck => CheckedFlags(s);
  }

  /** A first record for `id` came at step `j`, and the request was not erased before step `n`. */
  ghost predicate Open(steps: seq<Step>, j: nat, n: nat, id: FullId) {
    && j < n <= |steps| && Begins(steps[j], id)
    && forall k: nat, s, t :: j < k < n && Runs(steps, k, s, t) ==> !Erases(s, steps[k], id)
  }

  /** The requests known are those whose first record has come and that have not been erased since. */
  lemma {:induction false} OpenIffBegun(steps: seq<Step>, n: nat, t: State, id: FullId)
    requires n <= |steps| && After(steps[..n]) == At(t)
    ensures id in t.requests <==> exists j :: Open(steps, j, n, id)
  {
    hide After, Enabled, Apply, Begins, Erases, Open;
    if n == 0 {
      assert steps[..0] == [];
      AtStart(t);
      OpenNever(steps, id);
    } else {
      var s := AfterPrefix(steps, n, t);
      OpenIffBegun(steps, n - 1, s, id);
      RequestsStep(s, steps[n - 1], id);
      assert Runs(steps, n - 1, s, t);
      OpenMore(steps, n - 1, n, s, t, id);
      NotBoth(s, steps[n - 1], id);
    }
  }

  lemma NotBoth(s: State, step: Step, id: FullId)
    ensures !(Begins(step, id) && Erases(s, step, id))
  {
  }

  lemma OpenNever(steps: seq<Step>, id: FullId)
    ensures forall j :: !Open(steps, j, 0, id)
  {
  }

  lemma OpenMore(steps: seq<Step>, n: nat, m: nat, s: State, t: State, id: FullId)
    requires m == n + 1 && n < |steps| && Runs(steps, n, s, t)
    ensures (exists j :: Open(steps, j, m, id)) <==>
              Begins(steps[n], id) || ((exists j :: Open(steps, j, n, id)) && !Erases(s, steps[n], id))
  {
    hide After, Begins, Erases;
    if Begins(steps[n], id) {
      assert Open(steps, n, m, id);
    }
    forall j: nat | Open(steps, j, n, id) && !Erases(s, steps[n], id) ensures Open(steps, j, m, id) {
      forall k: nat, a, b | j < k < m && Runs(steps, k, a, b) ensures !Erases(a, steps[k], id) {
        if k == n {
          assert a == s;
        }
      }
    }
    forall j: nat | Open(steps, j, m, id) && j < n ensures Open(steps, j, n, id) && !Erases(s, steps[n], id) {
    }
  }

  /** A record for a request that is not known and that is no first record changes nothing. */
  lemma Discarded(s: State, id: FullId, m: Msg, role: uint16)
    requires Enabled(s, Work(HPush(id, m, role)))
    requires id.fcgiId != 0 && id !in s.requests && m.kind != BEGIN_REQUEST
    ensures Apply(s, Work(HPush(id, m, role))) == s.(hpc := Polled(false))
  {
  }

  // ---- Exceptions ------------------------------------------------------------------------------

  /** The handler thread is gone. */
  predicate Gone(hpc: HandlerPc) {
    hpc.Fallen? || hpc.Down?
  }

  /** A step by which an exception leaves the handler: of the transceiver, of the manager's own handler, or of a
    * request's handler. */
  predicate Breaks(s: State, step: Step) {
    match step
    case Loop(l) => l.HPollThrows?
    case Work(HLocal(throws)) => throws && s.managerMessages > 0
    case Work(HFind(env)) =>
      && s.hpc.Popped? && s.hpc.id in s.requests
      && var r := s.requests[s.hpc.id];
         !KnownRole(r.role) && Caught(Refuse(r.stage, r.app, env), env).verdict.Threw?
    case Work(HRun(env)) =>
      && s.hpc.Running? && s.hpc.id in s.requests
      && var r := s.requests[s.hpc.id]; Handle(r.stage, r.app, s.hpc.m, env).verdict.Threw?
    case _ => false
  }

  /** It is gone once an exception has left it, and only then, and for good. */
  lemma GoneHow(s: State, step: Step)
    requires Enabled(s, step)
    ensures Gone(Apply(s, step).hpc) <==> Gone(s.hpc) || Breaks(s, step)
    ensures Gone(s.hpc) ==> step.Background? || step.Control?
  {
    hide LoopEnabled, LoopApply, WorkEnabled, WorkApply, JobEnabled, JobApply;
    match step
    case Loop(l) => LoopGone(s, l);
    case Work(w) => WorkGone(s, w);
    case Background(j) => JobGone(s, j);
    case Control(c) =>
  }

  lemma LoopGone(s: State, l: LoopStep)
    requires LoopEnabled(s, l)
    ensures !Gone(s.hpc) && (Gone(LoopApply(s, l).hpc) <==> Breaks(s, Loop(l)))
  {
    match l
    case HTop => case HRecall => case HPoll(_) => case HPollThrows => case HReadWakeByte => case HTerminate =>
    case HPass => case HTake => case HDoze => case HWake(_) => case HUp =>
  }

  lemma WorkGone(s: State, w: WorkStep)
    requires WorkEnabled(s, w)
    ensures !Gone(s.hpc) && (Gone(WorkApply(s, w).hpc) <==> Breaks(s, Work(w)))
  {
    hide Pushed, Queued, Checked, Found, Ran;
    match w
    case HPush(id, m, role) => PushedGone(s, id, m, role);
    case HQueue =>
    case HTask =>
    case HCheck =>
    case HLocal(_) =>
    case HFind(env) => FoundGone(s, s.hpc.id, env);
    case HRun(env) => RanGone(s, s.hpc.id, s.hpc.m, env);
    case HErase =>
  }

  lemma PushedGone(s: State, id: FullId, m: Msg, role: uint16)
    requires m.Record?
    ensures !Gone(Pushed(s, id, m, role).hpc)
  {
    if id.fcgiId == 0 {
    } else if id in s.requests {
    } else if m.kind == BEGIN_REQUEST {
    } else {
    }
  }

  lemma FoundGone(s: State, id: FullId, env: Env)
    requires s.hpc == Popped(id)
    ensures Gone(Found(s, id, env).hpc) <==> Breaks(s, Work(HFind(env)))
  {
    hide Caught, Refuse, Entries, Dequeue, KnownRole;
    if id !in s.requests {
    } else if !KnownRole(s.requests[id].role) {
    } else if s.requests[id].messages == [] {
    } else {
    }
  }

  lemma RanGone(s: State, id: FullId, m: Msg, env: Env)
    requires s.hpc == Running(id, m)
    ensures Gone(Ran(s, id, m, env).hpc) <==> Breaks(s, Work(HRun(env)))
  {
    hide Handle, Entries;
  }

  lemma JobGone(s: State, j: JobStep)
    requires JobEnabled(s, j)
    ensures JobApply(s, j).hpc == s.hpc && !Breaks(s, Background(j))
  {
    hide Enqueue;
    match j
    case JSwap => case JRun => case JLookup => case JQueue => case JTask => case JCheck =>
  }

  // ---- Wake-up bytes ---------------------------------------------------------------------------

  /** Somebody looks whether the handler sleeps, and wakes it if so. */
  predicate Looks(step: Step) {
    step == Work(HCheck) || step == Background(JCheck) || step == Control(Stop) || step == Control(Terminate)
  }

  /** A wake-up byte is written for every look at a sleeping handler and read one at a time. */
  lemma WakesHow(s: State, step: Step)
    requires Enabled(s, step)
    ensures Apply(s, step).wakeBytes
         == s.wakeBytes + (if Looks(step) && s.asleep then 1 else 0) - (if step == Loop(HReadWakeByte) then 1 else 0)
  {
    hide LoopEnabled, LoopApply, WorkEnabled, WorkApply, JobEnabled, JobApply;
    match step
    case Loop(l) => LoopBytes(s, l);
    case Work(w) => WorkBytes(s, w);
    case Background(j) => JobBytes(s, j);
    case Control(c) =>
  }

  lemma LoopBytes(s: State, l: LoopStep)
    requires LoopEnabled(s, l)
    ensures LoopApply(s, l).wakeBytes == s.wakeBytes - (if l.HReadWakeByte? then 1 else 0)
  {
    match l
    case HTop => case HRecall => case HPoll(_) => case HPollThrows => case HReadWakeByte => case HTerminate =>
    case HPass => case HTake => case HDoze => case HWake(_) => case HUp =>
  }

  lemma WorkBytes(s: State, w: WorkStep)
    requires WorkEnabled(s, w)
    ensures WorkApply(s, w).wakeBytes == s.wakeBytes + (if w.HCheck? && s.asleep then 1 else 0)
  {
    hide Pushed, Queued, Checked, Found, Ran;
    match w
    case HPush(id, m, role) => PushedFlags(s, id, m, role);
    case HQueue => QueuedFlags(s, s.hpc.id, s.hpc.m);
    case HTask =>
    case HCheck => CheckedFlags(s);
    case HLocal(_) =>
    case HFind(env) => FoundFlags(s, s.hpc.id, env);
    case HRun(env) => RanFlags(s, s.hpc.id, s.hpc.m, env);
    case HErase =>
  }

  lemma JobBytes(s: State, j: JobStep)
    requires JobEnabled(s, j)
    ensures JobApply(s, j).wakeBytes == s.wakeBytes + (if j.JCheck? && s.asleep then 1 else 0)
  {
    hide Enqueue;
    match j
    case JSwap => case JRun => case JLookup => case JQueue => case JTask => case JCheck =>
  }
}
