/** The manager, its handler thread, the job thread and whoever calls `stop` or `terminate`, as
  * one state machine.  Every step is one critical section, or a piece of thread-local work.  The
  * one exception is finding the request of a task, taking its oldest message and running its
  * handler up to there: nobody but the handler thread erases requests or takes messages. */
module Manager {
  import opened Protocol
  import opened R = Request

  /** A job remembers the request whose completion message it will send; `serial` tells
    * successive requests with the same id apart. */
  datatype Job = Job(id: FullId, serial: nat)

  /** Where the handler thread stands.  `nap` is the result of the transceiver's handler: true
    * when there was nothing to do. */
  datatype HandlerPc =
    | Top
    | Polling
    | HLocated(id: FullId, m: Msg)     // in push: request found, its registry lock held
    | HQueued(id: FullId)              // in push: message queued, the request's message lock held
    | HChecking                        // in push: about to look at `asleep`
    | Polled(nap: bool)                // about to look at the terminate flag
    | Passed(nap: bool)                // terminate flag seen, no lock held yet
    | Deciding(nap: bool)              // no task found, sleep lock still held
    | Sleeping(nap: bool)
    | Waking
    | Popped(id: FullId)               // a task has been taken
    | Running(id: FullId, m: Msg)      // the request's handler has taken a message
    | Erasing(id: FullId)              // the handler returned true
    | Fallen(id: FullId)               // an exception has left the request's handler, and so the thread
    | Down                             // an exception has left the transceiver or the manager's own handler
    | Returned

  /** Where the job thread stands. */
  datatype JobPc =
    | JResting
    | JRan(job: Job)                   // the job is done, its completion handler not begun
    | JLocated(job: Job)
    | JQueued(job: Job)
    | JChecking

  datatype Entry = Entry(serial: nat, event: Event)

  datatype State = State(
    tasks: seq<FullId>,
    requests: map<FullId, Request>,
    managerMessages: nat,
    asleep: bool,
    wakeBytes: nat,
    stopFlag: bool,
    terminateFlag: bool,
    hpc: HandlerPc,
    jobs: seq<Job>,
    batch: seq<Job>,
    jobStop: bool,
    jpc: JobPc,
    nextSerial: nat,
    log: seq<Entry>,
    fault: bool)

  const INITIAL: State :=
    State([], map[], 0, false, 0, false, false, Top, [], [], false, JResting, 0, [], false)

  /** Steps of the handler thread up to the decision to sleep or to work. */
  datatype LoopStep =
    | HTop | HRecall
    | HPoll(nap: bool) | HPollThrows | HReadWakeByte
    | HTerminate | HPass | HTake | HDoze | HWake(otherActivity: bool) | HUp

  /** Steps of the handler thread inside `push`, and inside the handling of one task. */
  datatype WorkStep =
    | HPush(id: FullId, m: Msg, role: uint16)
    | HQueue | HTask | HCheck
    | HLocal(throws: bool) | HFind(env: Env) | HRun(env: Env) | HErase

  datatype JobStep = JSwap | JRun | JLookup | JQueue | JTask | JCheck

  datatype ControlStep = Stop | Terminate | StopJobs

  datatype Step = Loop(l: LoopStep) | Work(w: WorkStep) | Background(j: JobStep) | Control(c: ControlStep)

  // ---- Locks -----------------------------------------------------------------------------------

  /** The job thread holds the registry lock (shared) and, in `JQueued`, the message lock. */
  predicate JobReads(s: State) {
    s.jpc.JLocated? || s.jpc.JQueued?
  }

  predicate SleepLockFree(s: State) {
    !s.hpc.Deciding?
  }

  /** The assumption under which request ids may be used again: nothing of the former request
    * with this id is outstanding, neither a task nor a job nor a completion message on its way. */
  predicate CleanReuse(s: State, id: FullId) {
    && id !in s.tasks
    && (forall i :: 0 <= i < |s.jobs| ==> s.jobs[i].id != id)
    && (forall i :: 0 <= i < |s.batch| ==> s.batch[i].id != id)
    && (s.jpc.JRan? || s.jpc.JLocated? || s.jpc.JQueued? ==> s.jpc.job.id != id)
  }

  predicate LoopEnabled(s: State, step: LoopStep) {
    match step
    case HTop => s.hpc.Top?
    case HRecall => s.hpc.Returned?
    case HPoll(nap) => s.hpc.Polling?
    case HPollThrows => s.hpc.Polling?
    case HReadWakeByte => s.hpc.Polling? && s.wakeBytes > 0
    case HTerminate => s.hpc.Polled? && s.terminateFlag && s.hpc.nap && s.requests == map[]
    case HPass => s.hpc.Polled? && !(s.terminateFlag && s.hpc.nap && s.requests == map[])
    case HTake => s.hpc.Passed?
    case HDoze => s.hpc.Deciding?
    case HWake(other) => s.hpc.Sleeping? && (s.hpc.nap ==> s.wakeBytes > 0 || other)
    case HUp => s.hpc.Waking?
  }

  predicate WorkEnabled(s: State, step: WorkStep) {
    match step
    case HPush(id, m, role) =>
      && s.hpc.Polling? && m.Record?
      && (id.fcgiId != 0 && id !in s.requests && m.kind == BEGIN_REQUEST ==>
            !JobReads(s) && CleanReuse(s, id))
    case HQueue => s.hpc.HLocated? && !(s.jpc.JQueued? && s.jpc.job.id == s.hpc.id)
    case HTask => s.hpc.HQueued?
    case HCheck => s.hpc.HChecking?
    case HLocal(throws) => s.hpc.Popped? && s.hpc.id.fcgiId == 0
    case HFind(env) => s.hpc.Popped? && s.hpc.id.fcgiId != 0
                       && !(s.jpc.JQueued? && s.jpc.job.id == s.hpc.id)
    case HRun(env) => s.hpc.Running?
    case HErase => s.hpc.Erasing? && !JobReads(s)
  }

  predicate JobEnabled(s: State, step: JobStep) {
    match step
    case JSwap => s.jpc.JResting? && s.batch == [] && !s.jobStop && s.jobs != []
    case JRun => s.jpc.JResting? && s.batch != []
    case JLookup => s.jpc.JRan?
    case JQueue => s.jpc.JLocated? && s.hpc != HQueued(s.jpc.job.id)
    case JTask => s.jpc.JQueued?
    case JCheck => s.jpc.JChecking? && SleepLockFree(s)
  }

  predicate Enabled(s: State, step: Step) {
    match step
    case Loop(l) => LoopEnabled(s, l)
    case Work(w) => WorkEnabled(s, w)
    case Background(j) => JobEnabled(s, j)
    case Control(c) => c.StopJobs? || SleepLockFree(s)
  }

  // ---- Steps -------------------------------------------------------------------------------------

  function Entries(serial: nat, events: seq<Event>): (es: seq<Entry>)
    ensures |es| == |events|
  {
    seq(|events|, i requires 0 <= i < |events| => Entry(serial, events[i]))
  }

  /** A record handed to `push` by the transceiver. */
  function Pushed(s: State, id: FullId, m: Msg, role: uint16): State
    requires m.Record?
  {
    if id.fcgiId == 0 then
      s.(managerMessages := s.managerMessages + 1, hpc := HQueued(id))
    else if id in s.requests then s.(hpc := HLocated(id, m))
    else if m.kind == BEGIN_REQUEST then
      s.(requests := s.requests[id := NewRequest(s.nextSerial, role)], nextSerial := s.nextSerial + 1,
         log := s.log + [Entry(s.nextSerial, Began)], hpc := HChecking)
    else s.(hpc := Polled(false))
  }

  function Queued(s: State, id: FullId, m: Msg): State {
    if id in s.requests then s.(requests := s.requests[id := Enqueue(s.requests[id], m)])
    else s.(fault := true)
  }

  function Checked(s: State): State {
    if s.asleep then s.(wakeBytes := s.wakeBytes + 1) else s
  }

  function Notified(s: State): State {
    if s.asleep then s.(wakeBytes := s.wakeBytes + 1, asleep := false) else s
  }

  /** Where the handler thread goes on after a request's handler. */
  function Onward(verdict: Verdict, id: FullId): HandlerPc {
    match verdict
    case More => Top
    case Done => Erasing(id)
    case Threw => Fallen(id)
  }

  /** Looking up the request of a task, and the beginning of its handler; an unknown role is refused at
    * once. */
  function Found(s: State, id: FullId, env: Env): State {
    if id !in s.requests then s.(hpc := Top)
    else
      var r := s.requests[id];
      if !KnownRole(r.role) then
        var e := Caught(Refuse(r.stage, r.app, env), env);
        s.(log := s.log + Entries(r.serial, e.events), hpc := Onward(e.verdict, id))
      else if r.messages == [] then s.(fault := true, hpc := Top)
      else s.(requests := s.requests[id := Dequeue(r)], hpc := Running(id, r.messages[0]))
  }

  function Ran(s: State, id: FullId, m: Msg, env: Env): State {
    if id !in s.requests then s.(fault := true, hpc := Top)
    else
      var r := s.requests[id];
      var e := Handle(r.stage, r.app, m, env);
      s.(requests := s.requests[id := r.(stage := e.stage, app := e.app)],
         jobs := if e.schedule then s.jobs + [Job(id, r.serial)] else s.jobs,
         log := s.log + Entries(r.serial, e.events),
         hpc := Onward(e.verdict, id))
  }

  function LoopApply(s: State, step: LoopStep): State
    requires LoopEnabled(s, step)
  {
    match step
    case HTop => if s.stopFlag then s.(stopFlag := false, hpc := Returned) else s.(hpc := Polling)
    case HRecall => s.(hpc := Top)
    case HPoll(nap) => s.(hpc := Polled(nap))
    case HPollThrows => s.(hpc := Down)
    case HReadWakeByte => s.(wakeBytes := s.wakeBytes - 1, hpc := Polled(false))
    case HTerminate => s.(terminateFlag := false, hpc := Returned)
    case HPass => s.(hpc := Passed(s.hpc.nap))
    case HTake =>
      if s.tasks == [] then s.(hpc := Deciding(s.hpc.nap))
      else s.(tasks := s.tasks[1..], hpc := Popped(s.tasks[0]))
    case HDoze => s.(asleep := true, hpc := Sleeping(s.hpc.nap))
    case HWake(_) => s.(hpc := Waking)
    case HUp => s.(asleep := false, hpc := Top)
  }

  /** What no step of the loop touches. */
  lemma LoopKeeps(s: State, step: LoopStep)
    requires LoopEnabled(s, step)
    ensures var t := LoopApply(s, step);
            && t.log == s.log && t.requests == s.requests && t.nextSerial == s.nextSerial
            && t.managerMessages == s.managerMessages && t.fault == s.fault
            && t.jobs == s.jobs && t.batch == s.batch && t.jpc == s.jpc
  {
    match step
    case HTop => case HRecall => case HPoll(_) => case HPollThrows => case HReadWakeByte => case HTerminate =>
    case HPass => case HTake => case HDoze => case HWake(_) => case HUp =>
  }

  function WorkApply(s: State, step: WorkStep): State
    requires WorkEnabled(s, step)
  {
    match step
    case HPush(id, m, role) => Pushed(s, id, m, role)
    case HQueue => Queued(s, s.hpc.id, s.hpc.m).(hpc := HQueued(s.hpc.id))
    case HTask => s.(tasks := s.tasks + [s.hpc.id], hpc := HChecking)
    case HCheck => Checked(s).(hpc := Polled(false))
    case HLocal(throws) =>
      if s.managerMessages == 0 then s.(fault := true, hpc := Top)
      else s.(managerMessages := s.managerMessages - 1, hpc := if throws then Down else Top)
    case HFind(env) => Found(s, s.hpc.id, env)
    case HRun(env) => Ran(s, s.hpc.id, s.hpc.m, env)
    case HErase => s.(requests := s.requests - {s.hpc.id}, hpc := Top)
  }

  function JobApply(s: State, step: JobStep): State
    requires JobEnabled(s, step)
  {
    match step
    case JSwap => s.(batch := s.jobs, jobs := [])
    case JRun => s.(batch := s.batch[1..], log := s.log + [Entry(s.batch[0].serial, JobRan)],
                    jpc := JRan(s.batch[0]))
    case JLookup =>
      if s.jpc.job.id in s.requests then s.(jpc := JLocated(s.jpc.job)) else s.(jpc := JChecking)
    case JQueue => Queued(s, s.jpc.job.id, Callback).(jpc := JQueued(s.jpc.job))
    case JTask => s.(tasks := s.tasks + [s.jpc.job.id], jpc := JChecking)
    case JCheck => Checked(s).(jpc := JResting)
  }

  function ControlApply(s: State, step: ControlStep): State {
    match step
    case Stop => Notified(s).(stopFlag := true)
    case Terminate => Notified(s).(terminateFlag := true)
    case StopJobs => s.(jobStop := true)
  }

  function Apply(s: State, step: Step): State
    requires Enabled(s, step)
  {
    match step
    case Loop(l) => LoopApply(s, l)
    case Work(w) => WorkApply(s, w)
    case Background(j) => JobApply(s, j)
    case Control(c) => ControlApply(s, c)
  }

  datatype Outcome = Stuck | At(state: State)

  /** Where a sequence of steps leads, if each is possible when its turn comes. */
  function After(steps: seq<Step>): Outcome {
    if steps == [] then At(INITIAL)
    else match After(steps[..|steps| - 1])
      case Stuck => Stuck
      case At(s) => var last := steps[|steps| - 1];
        if Enabled(s, last) then At(Apply(s, last)) else Stuck
  }
}
