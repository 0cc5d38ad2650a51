/** Tasks and messages match in every reachable state, so nobody takes from an empty queue. */
module ManagerTasks {
  import opened Protocol
  import opened Request
  import opened Manager
  import ManagerSleep

  function One(b: bool): nat {
    if b then 1 else 0
  }

  /** Tasks for `id` that are queued, just taken, or about to be queued for a message already
    * there. */
  function InPlay(s: State, id: FullId): nat {
    multiset(s.tasks)[id] + One(s.hpc == Popped(id)) + One(s.hpc == HQueued(id))
    + One(s.jpc.JQueued? && s.jpc.job.id == id)
  }

  /** Queued tasks that are addressed to the manager itself. */
  function ManagerTasks(tasks: seq<FullId>): nat {
    if tasks == [] then 0
    else ManagerTasks(tasks[..|tasks| - 1]) + One(tasks[|tasks| - 1].fcgiId == 0)
  }

  lemma {:induction false} ManagerTasksFront(tasks: seq<FullId>)
    requires tasks != []
    ensures ManagerTasks(tasks) == One(tasks[0].fcgiId == 0) + ManagerTasks(tasks[1..])
  {
    if |tasks| > 1 {
      var init := tasks[..|tasks| - 1];
      ManagerTasksFront(init);
      assert init[1..] == tasks[1..][..|tasks| - 2];
    }
  }

  lemma ManagerTasksBack(tasks: seq<FullId>, id: FullId)
    ensures ManagerTasks(tasks + [id]) == ManagerTasks(tasks) + One(id.fcgiId == 0)
  {
    assert (tasks + [id])[..|tasks|] == tasks;
  }

  lemma CountFront(tasks: seq<FullId>)
    requires tasks != []
    ensures multiset(tasks) == multiset(tasks[1..])[tasks[0] := multiset(tasks[1..])[tasks[0]] + 1]
  {
    assert tasks == [tasks[0]] + tasks[1..];
  }

  lemma CountBack(tasks: seq<FullId>, id: FullId, i: FullId)
    ensures multiset(tasks + [id])[i] == multiset(tasks)[i] + One(i == id)
  {
  }

  /** Whoever has located a request holds on to it. */
  predicate Located(s: State) {
    && (forall id :: id in s.requests ==> id.fcgiId != 0)
    && (s.hpc.HLocated? || s.hpc.Running? || s.hpc.Erasing? || s.hpc.Fallen? ==> s.hpc.id in s.requests)
    && (s.hpc.HQueued? ==> s.hpc.id.fcgiId == 0 || s.hpc.id in s.requests)
    && (JobReads(s) ==> s.jpc.job.id in s.requests)
    && (s.hpc.HLocated? ==> s.hpc.m.Record?)
  }

  /** The handler of request `id` is over: it is about to be erased, or an exception has left it. */
  predicate Over(hpc: HandlerPc, id: FullId) {
    hpc == Erasing(id) || hpc == Fallen(id)
  }

  /** For every request whose handler is not over, tasks in play and messages are equally many. */
  predicate Counted(s: State) {
    forall id :: id in s.requests && !Over(s.hpc, id) ==> InPlay(s, id) == |s.requests[id].messages|
  }

  predicate ManagerCounted(s: State) {
    ManagerTasks(s.tasks) + One((s.hpc.Popped? || s.hpc.HQueued?) && s.hpc.id.fcgiId == 0) == s.managerMessages
  }

  /** Messages are handled in arrival order, each at most once. */
  predicate InOrder(s: State) {
    forall id :: id in s.requests ==> s.requests[id].handled + s.requests[id].messages == s.requests[id].arrived
  }

  predicate TaskInv(s: State) {
    Located(s) && Counted(s) && ManagerCounted(s) && InOrder(s) && !s.fault
  }

  lemma TaskLoop(s: State, step: LoopStep)
    requires TaskInv(s) && LoopEnabled(s, step)
    ensures TaskInv(LoopApply(s, step))
  {
    if step.HTake? && s.tasks != [] {
      TaskPopped(s);
    } else {
      LoopKeeps(s, step);
      TaskLoopPlaces(s, step);
      TaskIdle(s, LoopApply(s, step));
    }
  }

  lemma TaskLoopPlaces(s: State, step: LoopStep)
    requires LoopEnabled(s, step) && !(step.HTake? && s.tasks != [])
    ensures var t := LoopApply(s, step);
            t.tasks == s.tasks && Idle(s.hpc) && Idle(t.hpc)
  {
    match step
    case HTop => case HRecall => case HPoll(_) => case HPollThrows => case HReadWakeByte => case HTerminate =>
    case HPass => case HTake => case HDoze => case HWake(_) => case HUp =>
  }

  /** The handler holds neither a task nor a request. */
  predicate Idle(hpc: HandlerPc) {
    !(hpc.Popped? || hpc.HQueued? || hpc.HLocated? || hpc.Running? || hpc.Erasing? || hpc.Fallen?)
  }

  lemma TaskIdle(s: State, t: State)
    requires TaskInv(s) && Idle(s.hpc) && Idle(t.hpc) && t.tasks == s.tasks && t.requests == s.requests
    requires t.jpc == s.jpc && t.managerMessages == s.managerMessages && t.fault == s.fault
    ensures TaskInv(t)
  {
    forall i | i in t.requests ensures InPlay(t, i) == InPlay(s, i) {
    }
  }

  /** Taking a task keeps it in play. */
  lemma TaskPopped(s: State)
    requires TaskInv(s) && s.hpc.Passed? && s.tasks != []
    ensures TaskInv(s.(tasks := s.tasks[1..], hpc := Popped(s.tasks[0])))
  {
    var t := s.(tasks := s.tasks[1..], hpc := Popped(s.tasks[0]));
    ManagerTasksFront(s.tasks);
    CountFront(s.tasks);
    forall i | i in t.requests ensures InPlay(t, i) == InPlay(s, i) {
    }
  }

  /** If requests change for at most the entry `id`, and no other id's tasks change, only `id`
    * has to be counted anew. */
  lemma CountedExcept(s: State, t: State, id: FullId)
    requires Counted(s)
    requires forall i :: i in t.requests && i != id ==>
               i in s.requests && s.requests[i].messages == t.requests[i].messages
               && InPlay(t, i) == InPlay(s, i) && (Over(s.hpc, i) ==> Over(t.hpc, i))
    requires id in t.requests && !Over(t.hpc, id) ==> InPlay(t, id) == |t.requests[id].messages|
    ensures Counted(t)
  {
    forall i | i in t.requests && !Over(t.hpc, i)
      ensures InPlay(t, i) == |t.requests[i].messages|
    {
    }
  }

  lemma TaskManagerMessage(s: State, id: FullId, m: Msg, role: uint16)
    requires TaskInv(s) && s.hpc.Polling? && m.Record? && id.fcgiId == 0
    ensures TaskInv(Pushed(s, id, m, role))
  {
    var t := Pushed(s, id, m, role);
    forall i | i in t.requests ensures InPlay(t, i) == InPlay(s, i) {
      assert i != id;
    }
  }

  lemma TaskRecord(s: State, id: FullId, m: Msg, role: uint16)
    requires TaskInv(s) && WorkEnabled(s, HPush(id, m, role)) && id.fcgiId != 0
    ensures TaskInv(Pushed(s, id, m, role))
  {
    if id !in s.requests && m.kind == BEGIN_REQUEST {
      TaskBegin(s, id, m, role);
    } else {
      CountedExcept(s, Pushed(s, id, m, role), id);
    }
  }

  /** A request may begin only when no task of its predecessor is left: it starts with none. */
  lemma TaskBegin(s: State, id: FullId, m: Msg, role: uint16)
    requires TaskInv(s) && s.hpc.Polling? && m.Record? && m.kind == BEGIN_REQUEST
    requires id.fcgiId != 0 && id !in s.requests && !JobReads(s) && id !in s.tasks
    ensures TaskInv(Pushed(s, id, m, role))
  {
    var t := Pushed(s, id, m, role);
    assert InPlay(t, id) == 0;
    CountedExcept(s, t, id);
  }

  lemma ArrivesLast(handled: seq<Msg>, messages: seq<Msg>, m: Msg)
    ensures handled + (messages + [m]) == (handled + messages) + [m]
  {
  }

  lemma TakenFirst(handled: seq<Msg>, messages: seq<Msg>)
    requires messages != []
    ensures (handled + [messages[0]]) + messages[1..] == handled + messages
  {
  }

  /** Adding a message for `id`, by whichever thread, raises what is in play by the pusher. */
  lemma TaskMessage(s: State, t: State, id: FullId, m: Msg)
    requires TaskInv(s) && id in s.requests
    requires t.requests == s.requests[id := Enqueue(s.requests[id], m)]
    requires Located(t) && ManagerCounted(t) && t.fault == s.fault
    requires forall i :: Over(s.hpc, i) <==> Over(t.hpc, i)
    requires forall i :: i in s.requests ==> InPlay(t, i) == InPlay(s, i) + One(i == id)
    ensures TaskInv(t)
  {
    forall i | i in t.requests && !Over(t.hpc, i)
      ensures InPlay(t, i) == |t.requests[i].messages|
    {
      assert InPlay(s, i) == |s.requests[i].messages|;
    }
    var r := s.requests[id];
    ArrivesLast(r.handled, r.messages, m);
  }

  /** An entry that is queued moves from the pusher to the queue. */
  lemma TaskQueued(s: State, t: State, id: FullId)
    requires TaskInv(s) && t.tasks == s.tasks + [id]
    requires t.requests == s.requests && t.managerMessages == s.managerMessages && !t.fault
    requires Located(t)
    requires s.hpc == t.hpc || (s.hpc == HQueued(id) && t.hpc == HChecking && t.jpc == s.jpc)
    requires s.hpc == t.hpc ==> s.jpc.JQueued? && s.jpc.job.id == id && id in s.requests && t.jpc == JChecking
    ensures TaskInv(t)
  {
    hide InPlay;
    ManagerTasksBack(s.tasks, id);
    forall i | i in t.requests && !Over(t.hpc, i)
      ensures InPlay(t, i) == |t.requests[i].messages|
    {
      InPlayQueued(s, t, id, i);
    }
  }

  lemma InPlayQueued(s: State, t: State, id: FullId, i: FullId)
    requires t.tasks == s.tasks + [id]
    requires s.hpc == t.hpc || (s.hpc == HQueued(id) && t.hpc == HChecking && t.jpc == s.jpc)
    requires s.hpc == t.hpc ==> s.jpc.JQueued? && s.jpc.job.id == id && t.jpc == JChecking
    ensures InPlay(t, i) == InPlay(s, i)
  {
    CountBack(s.tasks, id, i);
  }

  /** A task in play has a message, so the handler never finds an empty queue. */
  lemma TaskFound(s: State, id: FullId, env: Env)
    requires TaskInv(s) && s.hpc == Popped(id) && id.fcgiId != 0
    ensures TaskInv(Found(s, id, env))
  {
    if id in s.requests {
      assert InPlay(s, id) == |s.requests[id].messages|;
      if KnownRole(s.requests[id].role) {
        TaskTaken(s, id);
      }
    }
    if !(id in s.requests && KnownRole(s.requests[id].role)) {
      CountedExcept(s, Found(s, id, env), id);
    }
  }

  lemma TaskTaken(s: State, id: FullId)
    requires TaskInv(s) && s.hpc == Popped(id) && id in s.requests && s.requests[id].messages != []
    ensures TaskInv(s.(requests := s.requests[id := Dequeue(s.requests[id])],
                       hpc := Running(id, s.requests[id].messages[0])))
  {
    var r := s.requests[id];
    var t := s.(requests := s.requests[id := Dequeue(r)], hpc := Running(id, r.messages[0]));
    assert InPlay(s, id) == |r.messages|;
    TakenFirst(r.handled, r.messages);
    CountedExcept(s, t, id);
  }

  lemma TaskRan(s: State, env: Env)
    requires TaskInv(s) && s.hpc.Running?
    ensures TaskInv(Ran(s, s.hpc.id, s.hpc.m, env))
  {
    var t := Ran(s, s.hpc.id, s.hpc.m, env);
    forall i | i in t.requests && !Over(t.hpc, i)
      ensures InPlay(t, i) == |t.requests[i].messages|
    {
      assert InPlay(s, i) == |s.requests[i].messages|;
    }
  }

  lemma TaskErased(s: State)
    requires TaskInv(s) && WorkEnabled(s, HErase)
    ensures TaskInv(WorkApply(s, HErase))
  {
    var t := WorkApply(s, HErase);
    forall i | i in t.requests
      ensures InPlay(t, i) == |t.requests[i].messages|
    {
      assert InPlay(s, i) == |s.requests[i].messages|;
    }
  }

  /** The steps that touch neither requests nor tasks. */
  lemma TaskAside(s: State, step: WorkStep)
    requires TaskInv(s) && WorkEnabled(s, step) && (step.HCheck? || step.HLocal?)
    ensures TaskInv(WorkApply(s, step))
  {
    var t := WorkApply(s, step);
    forall i | i in t.requests ensures InPlay(t, i) == InPlay(s, i) {
    }
  }

  lemma TaskPush(s: State, id: FullId, m: Msg, role: uint16)
    requires TaskInv(s) && WorkEnabled(s, HPush(id, m, role))
    ensures TaskInv(Pushed(s, id, m, role))
  {
    if id.fcgiId == 0 {
      TaskManagerMessage(s, id, m, role);
    } else {
      TaskRecord(s, id, m, role);
    }
  }

  lemma TaskWork(s: State, step: WorkStep)
    requires TaskInv(s) && WorkEnabled(s, step)
    ensures TaskInv(WorkApply(s, step))
  {
    match step
    case HPush(id, m, role) => TaskPush(s, id, m, role);
    case HQueue => TaskMessage(s, WorkApply(s, step), s.hpc.id, s.hpc.m);
    case HTask => TaskQueued(s, WorkApply(s, step), s.hpc.id);
    case HCheck => TaskAside(s, step);
    case HLocal(_) => TaskAside(s, step);
    case HFind(env) => TaskFound(s, s.hpc.id, env);
    case HRun(env) => TaskRan(s, env);
    case HErase => TaskErased(s);
  }

  /** Steps of the job thread that touch neither requests nor tasks. */
  lemma TaskSame(s: State, t: State)
    requires TaskInv(s) && !t.fault && t.hpc == s.hpc && (JobReads(t) ==> t.jpc.job.id in t.requests)
    requires t.requests == s.requests && t.tasks == s.tasks && t.managerMessages == s.managerMessages
    requires !s.jpc.JQueued? && !t.jpc.JQueued?
    ensures TaskInv(t)
  {
    forall i | i in t.requests && !Over(t.hpc, i) ensures InPlay(t, i) == |t.requests[i].messages| {
      assert InPlay(t, i) == InPlay(s, i);
    }
  }

  lemma TaskCallback(s: State)
    requires TaskInv(s) && JobEnabled(s, JQueue)
    ensures TaskInv(JobApply(s, JQueue))
  {
    var t, id := JobApply(s, JQueue), s.jpc.job.id;
    assert t.tasks == s.tasks && t.hpc == s.hpc && t.managerMessages == s.managerMessages && t.fault == s.fault;
    assert t.requests == s.requests[id := Enqueue(s.requests[id], Callback)];
    assert t.jpc == JQueued(s.jpc.job);
    hide JobApply, JobEnabled, Queued;
    forall i | i in s.requests ensures InPlay(t, i) == InPlay(s, i) + One(i == id) {
    }
    TaskMessage(s, t, id, Callback);
  }

  lemma TaskReleased(s: State)
    requires TaskInv(s) && JobEnabled(s, JTask)
    ensures TaskInv(JobApply(s, JTask))
  {
    hide InPlay, Counted, ManagerCounted, InOrder;
    TaskQueued(s, JobApply(s, JTask), s.jpc.job.id);
  }

  /** What the other steps of the job thread leave alone. */
  lemma JobLeaves(s: State, step: JobStep)
    requires JobEnabled(s, step) && !step.JQueue? && !step.JTask?
    ensures var t := JobApply(s, step);
            && t.hpc == s.hpc && t.requests == s.requests && t.tasks == s.tasks
            && t.managerMessages == s.managerMessages && t.fault == s.fault
  {
    match step
    case JSwap => case JRun => case JLookup => case JQueue => case JTask => case JCheck =>
  }

  /** Only a look-up that finds the request makes the job thread hold on to it. */
  lemma JobHolds(s: State, step: JobStep)
    requires JobEnabled(s, step) && !step.JQueue? && !step.JTask?
    ensures var t := JobApply(s, step);
            && !s.jpc.JQueued? && !t.jpc.JQueued?
            && (JobReads(t) ==> t.jpc.job.id in s.requests)
  {
    match step
    case JSwap => case JRun => case JLookup => case JQueue => case JTask => case JCheck =>
  }

  lemma TaskJob(s: State, step: JobStep)
    requires TaskInv(s) && JobEnabled(s, step)
    ensures TaskInv(JobApply(s, step))
  {
    hide InPlay, Located, Counted, ManagerCounted, InOrder, JobApply;
    match step
    case JQueue => TaskCallback(s);
    case JTask => TaskReleased(s);
    case _ =>
      JobLeaves(s, step);
      JobHolds(s, step);
      TaskSame(s, JobApply(s, step));
  }

  lemma TaskControl(s: State, step: ControlStep)
    requires TaskInv(s)
    ensures TaskInv(ControlApply(s, step))
  {
    forall id | id in s.requests ensures InPlay(ControlApply(s, step), id) == InPlay(s, id) {
    }
  }

  lemma TaskStep(s: State, step: Step)
    requires TaskInv(s) && Enabled(s, step)
    ensures TaskInv(Apply(s, step))
  {
    match step
    case Loop(l) => TaskLoop(s, l);
    case Work(w) => TaskWork(s, w);
    case Background(j) => TaskJob(s, j);
    case Control(c) => TaskControl(s, c);
  }

  lemma {:induction false} TasksAlways(steps: seq<Step>, s: State)
    requires After(steps) == At(s)
    ensures TaskInv(s)
  {
    if steps != [] {
      var before, last := After(steps[..|steps| - 1]).state, steps[|steps| - 1];
      TasksAlways(steps[..|steps| - 1], before);
      TaskStep(before, last);
    }
  }

  /** While the handler is blocked in its sleep and no wake-up byte is under way, nothing at all
    * is waiting: no task, no message for the manager and none for any request. */
  lemma NothingWaitsInSleep(steps: seq<Step>, s: State)
    requires After(steps) == At(s) && s.hpc.Sleeping? && s.wakeBytes == 0
    requires s.jpc.JResting? || s.jpc.JRan? || s.jpc.JLocated?
    ensures s.tasks == [] && s.managerMessages == 0
    ensures forall id :: id in s.requests ==> s.requests[id].messages == []
  {
    ManagerSleep.SleepAlways(steps, s);
    TasksAlways(steps, s);
    forall id | id in s.requests ensures s.requests[id].messages == [] {
      assert InPlay(s, id) == 0;
    }
  }
}
