/** The life of every request over whole runs: what it does, in which order, and how it ends. */
module ManagerLife {
  import opened Protocol
  import opened R = Request
  import opened Manager
  import ManagerTasks

  /** The events of the request with this serial number. */
  function EventsOf(log: seq<Entry>, serial: nat): seq<Event> {
    if log == [] then []
    else
      var earlier := EventsOf(log[..|log| - 1], serial);
      if log[|log| - 1].serial == serial then earlier + [log[|log| - 1].event] else earlier
  }

  function PhaseOf(log: seq<Entry>, serial: nat): Phase {
    PhaseAfter(Unborn, EventsOf(log, serial))
  }

  lemma LogOne(log: seq<Entry>, e: Entry, serial: nat)
    ensures EventsOf(log + [e], serial) ==
            if e.serial == serial then EventsOf(log, serial) + [e.event] else EventsOf(log, serial)
    ensures PhaseOf(log + [e], serial) ==
            if e.serial == serial then Advance(PhaseOf(log, serial), e.event) else PhaseOf(log, serial)
  {
    assert (log + [e])[..|log|] == log;
    var events := EventsOf(log, serial);
    assert (events + [e.event])[..|events|] == events;
  }

  lemma {:induction false} LogMany(log: seq<Entry>, of: nat, events: seq<Event>, serial: nat)
    ensures PhaseOf(log + Entries(of, events), serial) ==
            if of == serial then PhaseAfter(PhaseOf(log, serial), events) else PhaseOf(log, serial)
  {
    if events == [] {
      assert log + Entries(of, events) == log;
    } else {
      var before := events[..|events| - 1];
      LogMany(log, of, before, serial);
      assert log + Entries(of, events) == (log + Entries(of, before)) + [Entry(of, events[|events| - 1])];
      LogOne(log + Entries(of, before), Entry(of, events[|events| - 1]), serial);
    }
  }

  // ---- The invariant -----------------------------------------------------------------------------

  /** The job whose completion message is on its way. */
  predicate Calling(s: State) {
    s.jpc.JRan? || s.jpc.JLocated? || s.jpc.JQueued?
  }

  /** Jobs that have not run yet, oldest first. */
  function Outstanding(s: State): seq<Job> {
    s.batch + s.jobs
  }

  predicate SerialsApart(s: State) {
    && (forall id :: id in s.requests ==> s.requests[id].serial < s.nextSerial)
    && (forall a, b :: a in s.requests && b in s.requests && a != b ==>
                         s.requests[a].serial != s.requests[b].serial)
  }

  /** The handler of some request is over. */
  predicate Leaving(hpc: HandlerPc) {
    hpc.Erasing? || hpc.Fallen?
  }

  /** A request's state variables match its phase; one being erased is over, one that an exception has
    * left is not.  A completion message is found only where the job has run. */
  predicate RequestFits(s: State, id: FullId)
    requires id in s.requests
  {
    var r := s.requests[id];
    var p := PhaseOf(s.log, r.serial);
    if s.hpc == Erasing(id) then p.Gone?
    else if s.hpc == Fallen(id) then Alive(p) || p.Failing?
    else && Matches(r.stage, r.app, p)
         && (Callback in r.messages || s.hpc == Running(id, Callback) ==> p.JobDone?)
  }

  predicate RequestsFit(s: State) {
    forall id :: id in s.requests ==> RequestFits(s, id)
  }

  ghost predicate InUse(s: State, n: nat) {
    exists id :: id in s.requests && s.requests[id].serial == n
  }

  /** A serial number not in use belongs to the future or to a request that is over. */
  ghost predicate Settled(s: State, n: nat) {
    InUse(s, n) || (if n < s.nextSerial then PhaseOf(s.log, n).Gone? else PhaseOf(s.log, n).Unborn?)
  }

  ghost predicate RestSettled(s: State) {
    forall n: nat :: Settled(s, n)
  }

  predicate JobFits(s: State, j: Job) {
    var p := PhaseOf(s.log, j.serial);
    && j.serial < s.nextSerial
    && JobOpen(p)
    && (j.id in s.requests ==> s.requests[j.id].serial == j.serial)
  }

  predicate JobsFit(s: State) {
    var js := Outstanding(s);
    && (forall i :: 0 <= i < |js| ==> JobFits(s, js[i]))
    && (forall i, k :: 0 <= i < k < |js| ==> js[i].serial != js[k].serial)
  }

  predicate CallFits(s: State) {
    Calling(s) ==>
      var j := s.jpc.job;
      var p := PhaseOf(s.log, j.serial);
      && j.serial < s.nextSerial
      && JobClosed(p)
      && (j.id in s.requests ==> s.requests[j.id].serial == j.serial)
  }

  ghost predicate LifeInv(s: State) {
    SerialsApart(s) && RequestsFit(s) && RestSettled(s) && JobsFit(s) && CallFits(s)
  }

  /** The change from `s` to `t` touches neither the log nor the requests nor the jobs. */
  predicate Aside(s: State, t: State) {
    && t.log == s.log && t.requests == s.requests && t.nextSerial == s.nextSerial
    && Outstanding(t) == Outstanding(s)
    && (Calling(t) ==> Calling(s) && t.jpc.job == s.jpc.job)
    && (Leaving(s.hpc) || Leaving(t.hpc) ==> s.hpc == t.hpc)
    && (t.hpc.Running? ==> s.hpc == t.hpc)
  }

  lemma LoopPlaces(s: State, step: LoopStep)
    requires LoopEnabled(s, step)
    ensures var t := LoopApply(s, step);
            !Leaving(s.hpc) && !Leaving(t.hpc) && !t.hpc.Running?
  {
    match step
    case HTop => case HRecall => case HPoll(_) => case HPollThrows => case HReadWakeByte => case HTerminate =>
    case HPass => case HTake => case HDoze => case HWake(_) => case HUp =>
  }

  lemma LoopAside(s: State, step: LoopStep)
    requires LoopEnabled(s, step)
    ensures Aside(s, LoopApply(s, step))
  {
    LoopKeeps(s, step);
    LoopPlaces(s, step);
    hide LoopEnabled, LoopApply;
  }

  lemma LifeIdle(s: State, t: State)
    requires LifeInv(s) && Aside(s, t)
    ensures LifeInv(t)
  {
    forall id | id in t.requests ensures RequestFits(t, id) {
      assert RequestFits(s, id);
    }
    forall n: nat ensures Settled(t, n) {
      assert Settled(s, n);
    }
    JobsKeep(s, t);
  }

  /** Outstanding jobs stay in order when phases change lawfully for their requests. */
  lemma JobsKeep(s: State, t: State)
    requires JobsFit(s) && Outstanding(t) == Outstanding(s) && s.nextSerial <= t.nextSerial
    requires forall i :: 0 <= i < |Outstanding(s)| ==>
               var j := Outstanding(s)[i];
               var p := PhaseOf(t.log, j.serial);
               && JobOpen(p)
               && (j.id in t.requests ==> t.requests[j.id].serial == j.serial)
    ensures JobsFit(t)
  {
    var js := Outstanding(t);
    forall i | 0 <= i < |js| ensures JobFits(t, js[i]) {
      assert JobFits(s, js[i]);
    }
  }

  /** A new request: its serial number is fresh, and nothing outstanding carries its id. */
  lemma LifeBegin(s: State, id: FullId, m: Msg, role: uint16)
    requires LifeInv(s) && s.hpc.Polling? && m.Record? && m.kind == BEGIN_REQUEST
    requires id.fcgiId != 0 && id !in s.requests && CleanReuse(s, id)
    ensures LifeInv(Pushed(s, id, m, role))
  {
    hide PhaseOf;
    var t := Pushed(s, id, m, role);
    var born := s.nextSerial;
    forall n: nat ensures PhaseOf(t.log, n) == if n == born then ReadingParams else PhaseOf(s.log, n) {
      LogOne(s.log, Entry(born, Began), n);
      assert Settled(s, born);
    }
    forall i | i in t.requests ensures RequestFits(t, i) {
      assert i != id ==> RequestFits(s, i);
    }
    forall n: nat ensures Settled(t, n) {
      assert Settled(s, n);
      if n == born {
        assert id in t.requests;
      } else if InUse(s, n) {
        var i :| i in s.requests && s.requests[i].serial == n;
        assert i in t.requests;
      }
    }
    forall i | 0 <= i < |Outstanding(s)| ensures JobFits(s, Outstanding(s)[i]) && Outstanding(s)[i].id != id {
      assert i < |s.batch| ==> Outstanding(s)[i] == s.batch[i];
      assert i >= |s.batch| ==> Outstanding(s)[i] == s.jobs[i - |s.batch|];
    }
    JobsKeep(s, t);
  }

  /** A change to the queues of one request that only a completed job may add a completion
    * message to. */
  lemma LifeMessages(s: State, t: State, id: FullId, r: Request)
    requires LifeInv(s) && id in s.requests
    requires r.serial == s.requests[id].serial && r.stage == s.requests[id].stage && r.app == s.requests[id].app
    requires t.requests == s.requests[id := r]
    requires t.log == s.log && t.nextSerial == s.nextSerial && Outstanding(t) == Outstanding(s)
    requires Calling(t) ==> Calling(s) && t.jpc.job == s.jpc.job
    requires Leaving(s.hpc) || Leaving(t.hpc) ==> s.hpc == t.hpc
    requires t.hpc.Running? ==> s.hpc == t.hpc || t.hpc.id == id
    requires !ManagerTasks.Over(t.hpc, id) && (Callback in r.messages || t.hpc == Running(id, Callback)) ==>
               PhaseOf(s.log, r.serial).JobDone?
    ensures LifeInv(t)
  {
    forall i | i in t.requests ensures RequestFits(t, i) {
      assert RequestFits(s, i);
    }
    forall n: nat ensures Settled(t, n) {
      assert Settled(s, n);
      if InUse(s, n) {
        var i :| i in s.requests && s.requests[i].serial == n;
        assert t.requests[i].serial == n;
      }
    }
    assert forall i :: 0 <= i < |Outstanding(s)| ==> JobFits(s, Outstanding(s)[i]);
    JobsKeep(s, t);
  }

  /** The handler of request `id` lets events happen and perhaps ends it. */
  lemma LifeEvents(s: State, t: State, id: FullId, e: Effect)
    requires LifeInv(s) && id in s.requests && !Leaving(s.hpc)
    requires Lawful(e, PhaseOf(s.log, s.requests[id].serial)) && Alive(PhaseOf(s.log, s.requests[id].serial))
    requires Came(s, t, id, e)
    ensures LifeInv(t)
  {
    hide PhaseOf, PhaseAfter, Entries, RequestFits, Settled, JobsFit;
    EventPhases(s, t, id, e);
    EventFits(s, t, id, e);
    EventSettled(s, t, id, e);
    LifeEventsJobs(s, t, id, e);
    EventCall(s, t, id, e);
  }

  /** Only the phase of the request itself moves. */
  ghost predicate Moved(s: State, t: State, serial: nat, events: seq<Event>) {
    forall n: nat ::
      PhaseOf(t.log, n) == if n == serial then PhaseAfter(PhaseOf(s.log, n), events) else PhaseOf(s.log, n)
  }

  lemma EventPhases(s: State, t: State, id: FullId, e: Effect)
    requires id in s.requests && Came(s, t, id, e)
    ensures Moved(s, t, s.requests[id].serial, e.events)
  {
    hide PhaseOf, PhaseAfter, Entries;
    forall n: nat
      ensures PhaseOf(t.log, n)
           == if n == s.requests[id].serial then PhaseAfter(PhaseOf(s.log, n), e.events) else PhaseOf(s.log, n)
    {
      LogMany(s.log, s.requests[id].serial, e.events, n);
    }
  }

  lemma EventFits(s: State, t: State, id: FullId, e: Effect)
    requires RequestsFit(s) && SerialsApart(s) && id in s.requests && !Leaving(s.hpc)
    requires Lawful(e, PhaseOf(s.log, s.requests[id].serial))
    requires Came(s, t, id, e) && Moved(s, t, s.requests[id].serial, e.events)
    ensures RequestsFit(t)
  {
    hide PhaseOf, PhaseAfter, Entries;
    forall i | i in t.requests ensures RequestFits(t, i) {
      assert RequestFits(s, i);
      assert i != id ==> t.requests[i] == s.requests[i];
    }
  }

  lemma EventSettled(s: State, t: State, id: FullId, e: Effect)
    requires RestSettled(s) && id in s.requests && Came(s, t, id, e)
    requires Moved(s, t, s.requests[id].serial, e.events)
    ensures RestSettled(t)
  {
    hide PhaseOf, PhaseAfter, Entries;
    forall n: nat ensures Settled(t, n) {
      assert Settled(s, n);
      if InUse(s, n) {
        var i :| i in s.requests && s.requests[i].serial == n;
        assert t.requests[i].serial == n;
      }
    }
  }

  lemma EventCall(s: State, t: State, id: FullId, e: Effect)
    requires CallFits(s) && id in s.requests && Came(s, t, id, e)
    requires Lawful(e, PhaseOf(s.log, s.requests[id].serial)) && Moved(s, t, s.requests[id].serial, e.events)
    ensures CallFits(t)
  {
    hide PhaseOf, PhaseAfter, Entries;
  }

  /** The effect `e` of its handler has come over request `id`. */
  predicate Came(s: State, t: State, id: FullId, e: Effect)
    requires id in s.requests
  {
    var r := s.requests[id];
    && t.log == s.log + Entries(r.serial, e.events)
    && t.requests == s.requests[id := r.(stage := e.stage, app := e.app)]
    && t.hpc == Onward(e.verdict, id) && t.batch == s.batch
    && t.jobs == (if e.schedule then s.jobs + [Job(id, r.serial)] else s.jobs)
    && t.nextSerial == s.nextSerial && t.jpc == s.jpc
  }

  lemma LifeEventsJobs(s: State, t: State, id: FullId, e: Effect)
    requires JobsFit(s) && SerialsApart(s) && id in s.requests
    requires Lawful(e, PhaseOf(s.log, s.requests[id].serial)) && Alive(PhaseOf(s.log, s.requests[id].serial))
    requires Came(s, t, id, e)
    ensures JobsFit(t)
  {
    hide PhaseOf, PhaseAfter, Entries;
    var r := s.requests[id];
    var before, js := Outstanding(s), Outstanding(t);
    assert js == before + if e.schedule then [Job(id, r.serial)] else [];
    forall i | 0 <= i < |before| ensures JobFits(t, js[i]) && (e.schedule ==> js[i].serial != r.serial) {
      assert JobFits(s, before[i]);
      LogMany(s.log, r.serial, e.events, before[i].serial);
    }
    LogMany(s.log, r.serial, e.events, r.serial);
  }

  /** The job thread runs the oldest outstanding job. */
  lemma LifeJobRan(s: State)
    requires LifeInv(s) && JobEnabled(s, JRun)
    ensures LifeInv(JobApply(s, JRun))
  {
    var t := JobApply(s, JRun);
    var j := s.batch[0];
    assert Outstanding(s)[0] == j && Outstanding(s)[1..] == Outstanding(t);
    assert JobFits(s, j);
    forall n: nat
      ensures PhaseOf(t.log, n) == if n == j.serial then Advance(PhaseOf(s.log, n), JobRan) else PhaseOf(s.log, n)
    {
      LogOne(s.log, Entry(j.serial, JobRan), n);
    }
    RunKeepsRequests(s, t, j);
    JobsAfterRun(s, t);
  }

  /** A job that has run fits its request, which may be waiting for it or be over. */
  lemma RunKeepsRequests(s: State, t: State, j: Job)
    requires RequestsFit(s) && RestSettled(s) && JobFits(s, j)
    requires t.requests == s.requests && t.nextSerial == s.nextSerial && t.hpc == s.hpc
    requires forall n: nat ::
               PhaseOf(t.log, n) == if n == j.serial then Advance(PhaseOf(s.log, n), JobRan) else PhaseOf(s.log, n)
    ensures RequestsFit(t) && RestSettled(t)
  {
    hide PhaseOf;
    forall i | i in t.requests ensures RequestFits(t, i) {
      assert RequestFits(s, i);
    }
    forall n: nat ensures Settled(t, n) {
      assert Settled(s, n);
      assert InUse(s, n) ==> InUse(t, n);
    }
  }

  /** The other outstanding jobs belong to other requests, whose phases stay. */
  lemma JobsAfterRun(s: State, t: State)
    requires JobsFit(s) && Outstanding(s) != [] && Outstanding(t) == Outstanding(s)[1..]
    requires t.requests == s.requests && t.nextSerial == s.nextSerial
    requires forall n: nat :: n != Outstanding(s)[0].serial ==> PhaseOf(t.log, n) == PhaseOf(s.log, n)
    ensures JobsFit(t)
  {
    hide PhaseOf;
    var js := Outstanding(t);
    forall i | 0 <= i < |js| ensures JobFits(t, js[i]) {
      assert js[i] == Outstanding(s)[i + 1] && JobFits(s, js[i]);
    }
  }

  lemma LifeErased(s: State)
    requires LifeInv(s) && WorkEnabled(s, HErase) && s.hpc.id in s.requests
    ensures LifeInv(WorkApply(s, HErase))
  {
    var t := WorkApply(s, HErase);
    var gone := s.requests[s.hpc.id].serial;
    assert RequestFits(s, s.hpc.id);
    forall i | i in t.requests ensures RequestFits(t, i) {
      assert RequestFits(s, i);
    }
    forall n: nat ensures Settled(t, n) {
      assert Settled(s, n);
      if n != gone && InUse(s, n) {
        var i :| i in s.requests && s.requests[i].serial == n;
        assert i in t.requests;
      }
    }
    assert forall i :: 0 <= i < |Outstanding(s)| ==> JobFits(s, Outstanding(s)[i]);
    JobsKeep(s, t);
  }

  /** A request whose role is not known is answered at once. */
  lemma LifeRefused(s: State, id: FullId, env: Env)
    requires LifeInv(s) && s.hpc == Popped(id) && id in s.requests && !KnownRole(s.requests[id].role)
    ensures LifeInv(Found(s, id, env))
  {
    var r := s.requests[id];
    assert RequestFits(s, id);
    var e := Caught(Refuse(r.stage, r.app, env), env);
    RefusedLawful(r.stage, r.app, env, PhaseOf(s.log, r.serial));
    assert s.requests[id := r.(stage := e.stage, app := e.app)] == s.requests;
    LifeEvents(s, Found(s, id, env), id, e);
  }

  lemma LifeTaken(s: State, id: FullId, env: Env)
    requires LifeInv(s) && ManagerTasks.TaskInv(s) && s.hpc == Popped(id) && id in s.requests
    requires KnownRole(s.requests[id].role)
    ensures LifeInv(Found(s, id, env))
  {
    var r := s.requests[id];
    assert RequestFits(s, id);
    assert ManagerTasks.InPlay(s, id) == |r.messages|;
    LifeMessages(s, Found(s, id, env), id, Dequeue(r));
  }

  lemma LifeFound(s: State, id: FullId, env: Env)
    requires LifeInv(s) && ManagerTasks.TaskInv(s) && s.hpc == Popped(id) && id.fcgiId != 0
    ensures LifeInv(Found(s, id, env))
  {
    if id !in s.requests {
      LifeIdle(s, Found(s, id, env));
    } else if KnownRole(s.requests[id].role) {
      LifeTaken(s, id, env);
    } else {
      LifeRefused(s, id, env);
    }
  }

  lemma LifeRan(s: State, env: Env)
    requires LifeInv(s) && ManagerTasks.TaskInv(s) && s.hpc.Running?
    ensures LifeInv(Ran(s, s.hpc.id, s.hpc.m, env))
  {
    var id, m := s.hpc.id, s.hpc.m;
    var r := s.requests[id];
    assert RequestFits(s, id);
    HandleLawful(r.stage, r.app, m, env, PhaseOf(s.log, r.serial));
    LifeEvents(s, Ran(s, id, m, env), id, Handle(r.stage, r.app, m, env));
  }

  lemma LifePush(s: State, id: FullId, m: Msg, role: uint16)
    requires LifeInv(s) && WorkEnabled(s, HPush(id, m, role))
    ensures LifeInv(Pushed(s, id, m, role))
  {
    if id.fcgiId != 0 && id !in s.requests && m.kind == BEGIN_REQUEST {
      LifeBegin(s, id, m, role);
    } else {
      PushAside(s, id, m, role);
      LifeIdle(s, Pushed(s, id, m, role));
    }
  }

  lemma PushAside(s: State, id: FullId, m: Msg, role: uint16)
    requires s.hpc.Polling? && m.Record? && !(id.fcgiId != 0 && id !in s.requests && m.kind == BEGIN_REQUEST)
    ensures Aside(s, Pushed(s, id, m, role))
  {
  }

  lemma LifeQueue(s: State)
    requires LifeInv(s) && ManagerTasks.TaskInv(s) && WorkEnabled(s, HQueue)
    ensures LifeInv(WorkApply(s, HQueue))
  {
    assert RequestFits(s, s.hpc.id);
    LifeMessages(s, WorkApply(s, HQueue), s.hpc.id, Enqueue(s.requests[s.hpc.id], s.hpc.m));
  }

  lemma LifeWork(s: State, step: WorkStep)
    requires LifeInv(s) && ManagerTasks.TaskInv(s) && WorkEnabled(s, step)
    ensures LifeInv(WorkApply(s, step))
  {
    hide LifeInv, Aside;
    match step
    case HPush(id, m, role) => LifePush(s, id, m, role);
    case HQueue => LifeQueue(s);
    case HTask => TaskQueuedAside(s); LifeIdle(s, WorkApply(s, step));
    case HCheck => CheckAside(s); LifeIdle(s, WorkApply(s, step));
    case HLocal(throws) => LocalAside(s, throws); LifeIdle(s, WorkApply(s, step));
    case HFind(env) => LifeFound(s, s.hpc.id, env);
    case HRun(env) => LifeRan(s, env);
    case HErase => ErasedHeld(s); LifeErased(s);
  }

  lemma ErasedHeld(s: State)
    requires ManagerTasks.TaskInv(s) && s.hpc.Erasing?
    ensures s.hpc.id in s.requests
  {
  }

  lemma TaskQueuedAside(s: State)
    requires s.hpc.HQueued?
    ensures Aside(s, WorkApply(s, HTask))
  {
    hide Aside;
    FieldsAside(s, WorkApply(s, HTask));
  }

  lemma CheckAside(s: State)
    requires s.hpc.HChecking?
    ensures Aside(s, WorkApply(s, HCheck))
  {
    hide Aside;
    FieldsAside(s, WorkApply(s, HCheck));
  }

  lemma LocalAside(s: State, throws: bool)
    requires WorkEnabled(s, HLocal(throws))
    ensures Aside(s, WorkApply(s, HLocal(throws)))
  {
    hide Aside;
    if s.managerMessages == 0 {
      FieldsAside(s, s.(fault := true, hpc := Top));
    } else {
      FieldsAside(s, s.(managerMessages := s.managerMessages - 1, hpc := if throws then Down else Top));
    }
  }

  lemma FieldsAside(s: State, t: State)
    requires t.log == s.log && t.requests == s.requests && t.nextSerial == s.nextSerial
    requires t.jobs == s.jobs && t.batch == s.batch && t.jpc == s.jpc
    requires !Leaving(s.hpc) && !Leaving(t.hpc) && !t.hpc.Running?
    ensures Aside(s, t)
  {
  }

  lemma JobAside(s: State, step: JobStep)
    requires JobEnabled(s, step) && !step.JRun? && !step.JQueue?
    ensures Aside(s, JobApply(s, step))
  {
    match step
    case JSwap => assert s.batch + s.jobs == s.jobs + [];
    case JRun => case JLookup => case JQueue => case JTask => case JCheck =>
  }

  lemma LifeCallback(s: State)
    requires LifeInv(s) && ManagerTasks.TaskInv(s) && JobEnabled(s, JQueue)
    ensures LifeInv(JobApply(s, JQueue))
  {
    assert RequestFits(s, s.jpc.job.id);
    LifeMessages(s, JobApply(s, JQueue), s.jpc.job.id, Enqueue(s.requests[s.jpc.job.id], Callback));
  }

  lemma LifeJob(s: State, step: JobStep)
    requires LifeInv(s) && ManagerTasks.TaskInv(s) && JobEnabled(s, step)
    ensures LifeInv(JobApply(s, step))
  {
    hide LifeInv, Aside;
    match step
    case JRun => LifeJobRan(s);
    case JQueue => LifeCallback(s);
    case _ =>
      JobAside(s, step);
      LifeIdle(s, JobApply(s, step));
  }

  lemma LifeLoop(s: State, step: LoopStep)
    requires LifeInv(s) && LoopEnabled(s, step)
    ensures LifeInv(LoopApply(s, step))
  {
    LoopAside(s, step);
    LifeIdle(s, LoopApply(s, step));
  }

  lemma LifeControl(s: State, step: ControlStep)
    requires LifeInv(s)
    ensures LifeInv(ControlApply(s, step))
  {
    LifeIdle(s, ControlApply(s, step));
  }

  lemma LifeInitial()
    ensures LifeInv(INITIAL)
  {
    forall n: nat ensures Settled(INITIAL, n) {
    }
  }

  lemma {:induction false} LifeAlways(steps: seq<Step>, s: State)
    requires After(steps) == At(s)
    ensures LifeInv(s)
  {
    if steps == [] {
      LifeInitial();
    } else {
      var before, last := After(steps[..|steps| - 1]).state, steps[|steps| - 1];
      LifeAlways(steps[..|steps| - 1], before);
      ManagerTasks.TasksAlways(steps[..|steps| - 1], before);
      match last
      case Loop(l) => LifeLoop(before, l);
      case Work(w) => LifeWork(before, w);
      case Background(j) => LifeJob(before, j);
      case Control(c) => LifeControl(before, c);
    }
  }

  /** THE LIFE OF A REQUEST, over every run in which ids are reused cleanly: its events are
    * orderly.  Once it is erased it was either aborted or has ended; then END_REQUEST is its last
    * record, and the only one, if and only if no transmission of its END_REQUEST has failed.  A failed
    * one is answered by a second END_REQUEST, and never by a third. */
  lemma Lifecycle(steps: seq<Step>, s: State, serial: nat)
    requires After(steps) == At(s)
    ensures var es := EventsOf(s.log, serial);
            && Orderly(es) && Ends(es) <= 2
            && (es != [] && !InUse(s, serial) ==>
                  && (Aborted in es <==> Ends(es) == 0)
                  && (Ends(es) > 0 ==> EndLast(es) && (Ends(es) == 1 <==> SendFailed !in es)))
  {
    LifeAlways(steps, s);
    assert Settled(s, serial);
    if InUse(s, serial) {
      var id :| id in s.requests && s.requests[id].serial == serial;
      assert RequestFits(s, id);
    }
    AcceptedIsOrderly(EventsOf(s.log, serial));
  }

  // ---- Runs without a failing transmission --------------------------------------------------------

  /** No call of `complete` in this step throws after committing its record. */
  predicate SendsWell(step: Step) {
    match step
    case Work(HFind(env)) => !env.first.ThrowsLate? && !env.second.ThrowsLate?
    case Work(HRun(env)) => !env.first.ThrowsLate? && !env.second.ThrowsLate?
    case _ => true
  }

  predicate Unfailing(log: seq<Entry>) {
    forall i :: 0 <= i < |log| ==> log[i].event != SendFailed
  }

  lemma LogUnfailing(log: seq<Entry>, serial: nat, events: seq<Event>)
    requires Unfailing(log) && SendFailed !in events
    ensures Unfailing(log + Entries(serial, events))
  {
    assert forall i :: 0 <= i < |events| ==> events[i] in events;
  }

  lemma RanUnfailing(s: State, id: FullId, m: Msg, env: Env)
    requires Unfailing(s.log) && !env.first.ThrowsLate? && !env.second.ThrowsLate?
    ensures Unfailing(Ran(s, id, m, env).log)
  {
    hide Handle, Unfailing, Entries;
    if id in s.requests {
      var r := s.requests[id];
      WhenSendFails(r.stage, r.app, m, env);
      LogUnfailing(s.log, r.serial, Handle(r.stage, r.app, m, env).events);
    }
  }

  lemma FoundUnfailing(s: State, id: FullId, env: Env)
    requires Unfailing(s.log) && !env.first.ThrowsLate? && !env.second.ThrowsLate?
    ensures Unfailing(Found(s, id, env).log)
  {
    hide Unfailing, Entries;
    if id in s.requests {
      var r := s.requests[id];
      LogUnfailing(s.log, r.serial, Caught(Refuse(r.stage, r.app, env), env).events);
    }
  }

  lemma OtherUnfailing(s: State, step: WorkStep)
    requires Unfailing(s.log) && WorkEnabled(s, step) && !step.HFind? && !step.HRun?
    ensures Unfailing(WorkApply(s, step).log)
  {
    match step
    case HPush(id, m, role) =>
    case HQueue => case HTask => case HCheck => case HLocal(_) => case HFind(_) => case HRun(_) => case HErase =>
  }

  lemma JobUnfailing(s: State, step: JobStep)
    requires Unfailing(s.log) && JobEnabled(s, step)
    ensures Unfailing(JobApply(s, step).log)
  {
    match step
    case JSwap => case JRun => case JLookup => case JQueue => case JTask => case JCheck =>
  }

  lemma StepUnfailing(s: State, step: Step)
    requires Unfailing(s.log) && Enabled(s, step) && SendsWell(step)
    ensures Unfailing(Apply(s, step).log)
  {
    match step
    case Loop(l) => LoopKeeps(s, l);
    case Work(HFind(env)) => FoundUnfailing(s, s.hpc.id, env);
    case Work(HRun(env)) => RanUnfailing(s, s.hpc.id, s.hpc.m, env);
    case Work(w) => OtherUnfailing(s, w);
    case Background(j) => JobUnfailing(s, j);
    case Control(c) =>
  }

  lemma {:induction false} RunUnfailing(steps: seq<Step>, s: State)
    requires After(steps) == At(s) && forall i :: 0 <= i < |steps| ==> SendsWell(steps[i])
    ensures Unfailing(s.log)
  {
    if steps != [] {
      var before, last := After(steps[..|steps| - 1]).state, steps[|steps| - 1];
      RunUnfailing(steps[..|steps| - 1], before);
      StepUnfailing(before, last);
    }
  }

  lemma {:induction false} EventsInLog(log: seq<Entry>, serial: nat)
    requires Unfailing(log)
    ensures SendFailed !in EventsOf(log, serial)
  {
    if log != [] {
      EventsInLog(log[..|log| - 1], serial);
    }
  }

  /** ONE END_REQUEST.  In a run in which no transmission after an END_REQUEST throws, every request that
    * is erased was aborted without one or has sent exactly one, its last record. */
  lemma OneEnd(steps: seq<Step>, s: State, serial: nat)
    requires After(steps) == At(s) && forall i :: 0 <= i < |steps| ==> SendsWell(steps[i])
    requires serial < s.nextSerial && !InUse(s, serial)
    ensures var es := EventsOf(s.log, serial);
            if Aborted in es then Ends(es) == 0 else Ends(es) == 1 && EndLast(es)
  {
    Lifecycle(steps, s, serial);
    RunUnfailing(steps, s);
    EventsInLog(s.log, serial);
    LifeAlways(steps, s);
    assert Settled(s, serial);
  }
}
