/** What the threads can do: from a quiet state a record is handled by eight steps of the handler,
  * a scheduled job and its completion message go through, and so a request can live its whole life.
  * The other theorems about runs are therefore not about a machine that stands still. */
module ManagerProgress {
  import opened Protocol
  import opened R = Request
  import opened Manager
  import ManagerLife

  /** Both threads are at the top of their loops and nothing waits. */
  predicate Quiet(s: State) {
    && s.hpc.Top? && s.jpc.JResting? && !s.asleep && !s.stopFlag && !s.terminateFlag && !s.jobStop
    && s.tasks == [] && s.batch == []
  }

  lemma Goes(steps: seq<Step>, s: State, step: Step) returns (more: seq<Step>)
    requires After(steps) == At(s) && Enabled(s, step)
    ensures more == steps + [step] && After(more) == At(Apply(s, step))
  {
    more := steps + [step];
    assert more[..|steps|] == steps;
  }

  lemma NoSteps()
    ensures After([]) == At(INITIAL)
  {
  }

  /** The request after taking the message `m` that came in, with the effect of its handler. */
  function Handled(r: Request, m: Msg, env: Env): Request {
    var e := Handle(r.stage, r.app, m, env);
    Request(r.serial, r.role, e.stage, e.app, [], r.arrived + [m], r.handled + [m])
  }

  /** The state after a quiet one in which request `id` handles `m`. */
  function Answered(s: State, id: FullId, m: Msg, env: Env): State
    requires id in s.requests
  {
    var r := s.requests[id];
    var e := Handle(r.stage, r.app, m, env);
    s.(requests := s.requests[id := Handled(r, m, env)],
       jobs := if e.schedule then s.jobs + [Job(id, r.serial)] else s.jobs,
       log := s.log + Entries(r.serial, e.events),
       hpc := Onward(e.verdict, id))
  }

  /** A task has been taken, and the oldest message of its request. */
  function Taken(s: State, id: FullId, m: Msg): State
    requires id in s.requests && s.requests[id].messages != []
  {
    s.(tasks := [], requests := s.requests[id := Dequeue(s.requests[id])], hpc := Running(id, m))
  }

  /** A message for `id` and its task have been queued by the handler thread, which is now done
    * polling. */
  function Waiting(s: State, id: FullId, m: Msg): State
    requires id in s.requests
  {
    s.(requests := s.requests[id := Enqueue(s.requests[id], m)], tasks := [id], hpc := Polled(false))
  }

  lemma RecordQueued(steps: seq<Step>, s: State, id: FullId, m: Msg, role: uint16) returns (more: seq<Step>)
    requires After(steps) == At(s) && Quiet(s) && m.Record? && id.fcgiId != 0 && id in s.requests
    ensures After(more) == At(Waiting(s, id, m))
  {
    var queued := s.(requests := s.requests[id := Enqueue(s.requests[id], m)]);
    more := Goes(steps, s, Loop(HTop));
    more := Goes(more, s.(hpc := Polling), Work(HPush(id, m, role)));
    more := Goes(more, s.(hpc := HLocated(id, m)), Work(HQueue));
    more := Goes(more, queued.(hpc := HQueued(id)), Work(HTask));
    more := Goes(more, queued.(tasks := [id], hpc := HChecking), Work(HCheck));
  }

  lemma TaskHandled(steps: seq<Step>, s: State, id: FullId, m: Msg, env: Env) returns (more: seq<Step>)
    requires After(steps) == At(s) && s.hpc.Polled? && !s.terminateFlag && s.jpc.JResting?
    requires s.tasks == [id] && id.fcgiId != 0 && id in s.requests
    requires KnownRole(s.requests[id].role) && s.requests[id].messages == [m]
    ensures After(more) == At(Ran(Taken(s, id, m), id, m, env))
  {
    more := Goes(steps, s, Loop(HPass));
    more := Goes(more, s.(hpc := Passed(s.hpc.nap)), Loop(HTake));
    more := Goes(more, s.(tasks := [], hpc := Popped(id)), Work(HFind(env)));
    more := Goes(more, Taken(s, id, m), Work(HRun(env)));
  }

  lemma Overwritten(requests: map<FullId, Request>, id: FullId, a: Request, b: Request)
    ensures requests[id := a][id := b] == requests[id := b]
  {
  }

  /** Queueing, taking and handling a message, put together. */
  lemma AllTogether(s: State, id: FullId, m: Msg, env: Env)
    requires Quiet(s) && id in s.requests && s.requests[id].messages == []
    ensures Ran(Taken(Waiting(s, id, m), id, m), id, m, env) == Answered(s, id, m, env)
  {
    var r := s.requests[id];
    var queued := Enqueue(r, m);
    assert queued.messages[1..] == [];
    Overwritten(s.requests, id, queued, Dequeue(queued));
    Overwritten(s.requests, id, Dequeue(queued), Handled(r, m, env));
  }

  /** From a quiet state the handler takes in a record for a live request and handles it. */
  lemma RecordHandled(steps: seq<Step>, s: State, id: FullId, m: Msg, role: uint16, env: Env) returns (more: seq<Step>)
    requires After(steps) == At(s) && Quiet(s) && m.Record? && id.fcgiId != 0 && id in s.requests
    requires KnownRole(s.requests[id].role) && s.requests[id].messages == []
    ensures After(more) == At(Answered(s, id, m, env))
  {
    more := RecordQueued(steps, s, id, m, role);
    more := TaskHandled(more, Waiting(s, id, m), id, m, env);
    AllTogether(s, id, m, env);
  }

  /** From a quiet state the job thread does the only job and hands in the completion message. */
  lemma JobDone(steps: seq<Step>, s: State, j: Job) returns (more: seq<Step>)
    requires After(steps) == At(s) && Quiet(s) && s.jobs == [j] && j.id in s.requests
    ensures After(more) == At(s.(jobs := [], log := s.log + [Entry(j.serial, JobRan)],
                                 requests := s.requests[j.id := Enqueue(s.requests[j.id], Callback)], tasks := [j.id]))
  {
    var ran := s.(jobs := [], log := s.log + [Entry(j.serial, JobRan)]);
    var queued := ran.(requests := s.requests[j.id := Enqueue(s.requests[j.id], Callback)]);
    more := Goes(steps, s, Background(JSwap));
    more := Goes(more, s.(batch := [j], jobs := []), Background(JRun));
    more := Goes(more, ran.(jpc := JRan(j)), Background(JLookup));
    more := Goes(more, ran.(jpc := JLocated(j)), Background(JQueue));
    more := Goes(more, queued.(jpc := JQueued(j)), Background(JTask));
    more := Goes(more, queued.(tasks := [j.id], jpc := JChecking), Background(JCheck));
  }

  /** Job, completion message and its handling. */
  lemma CompletionHandled(steps: seq<Step>, s: State, j: Job, env: Env) returns (more: seq<Step>)
    requires After(steps) == At(s) && Quiet(s) && s.jobs == [j] && j.id in s.requests && j.id.fcgiId != 0
    requires KnownRole(s.requests[j.id].role) && s.requests[j.id].messages == []
    ensures After(more) == At(Answered(s.(jobs := [], log := s.log + [Entry(j.serial, JobRan)]), j.id, Callback, env))
  {
    var ran := s.(jobs := [], log := s.log + [Entry(j.serial, JobRan)]);
    more := JobDone(steps, s, j);
    var told := ran.(requests := s.requests[j.id := Enqueue(s.requests[j.id], Callback)], tasks := [j.id]);
    more := Goes(more, told, Loop(HTop));
    more := Goes(more, told.(hpc := Polling), Loop(HPoll(false)));
    more := TaskHandled(more, Waiting(ran, j.id, Callback), j.id, Callback, env);
    AllTogether(ran, j.id, Callback, env);
  }

  const WELL: Env := Env(false, true, true, false, false, Well, Well)

  /** The transmission after the first END_REQUEST throws. */
  const BROKEN: Env := WELL.(first := ThrowsLate)

  lemma WellEffects()
    ensures Handle(Params, Start, Record(PARAMS, 0), WELL) == Effect(Body, Start, More, false, [EmptyParams])
    ensures Handle(Body, Start, Record(IN, 0), WELL)
         == Effect(Output, AppState.Finish, More, true, [EmptyIn, Started, Scheduled])
  {
  }

  /** A life from the very start of the program up to the completed job, whose completion message is handled
    * with `env`: the request begins, gets its empty PARAMS and IN records and schedules its job. */
  lemma LifeWith(id: FullId, env: Env) returns (steps: seq<Step>, s: State)
    requires id.fcgiId != 0 && Handle(Output, AppState.Finish, Callback, env).verdict.Done?
    ensures After(steps) == At(s) && s.requests == map[]
    ensures ManagerLife.EventsOf(s.log, 0)
         == UP_TO_THE_JOB + Handle(Output, AppState.Finish, Callback, env).events
  {
    hide After, Entries, Handle;
    WellEffects();
    var begun: State;
    steps, begun := Begins(id);
    steps := RecordHandled(steps, begun, id, Record(PARAMS, 0), RESPONDER, WELL);
    var reading := Answered(begun, id, Record(PARAMS, 0), WELL);
    steps := RecordHandled(steps, reading, id, Record(IN, 0), RESPONDER, WELL);
    var waiting := Answered(reading, id, Record(IN, 0), WELL);
    steps := CompletionHandled(steps, waiting, Job(id, 0), env);
    var ran := waiting.(jobs := [], log := waiting.log + [Entry(0, JobRan)]);
    s := Answered(ran, id, Callback, env);
    steps := Goes(steps, s, Work(HErase));
    s := Apply(s, Work(HErase));
    LogWhole(s.log, Handle(Output, AppState.Finish, Callback, env).events);
  }

  const UP_TO_THE_JOB: seq<Event> := [Began, EmptyParams, EmptyIn, Started, Scheduled, JobRan]

  /** The whole life of a request that nothing goes wrong with: when the job has run it sends its result
    * and its one END_REQUEST and is erased. */
  lemma WholeLife(id: FullId) returns (steps: seq<Step>, s: State)
    requires id.fcgiId != 0
    ensures After(steps) == At(s) && s.requests == map[]
    ensures ManagerLife.EventsOf(s.log, 0)
         == [Began, EmptyParams, EmptyIn, Started, Scheduled, JobRan, Finishing, Wrote, Ended]
  {
    hide After;
    steps, s := LifeWith(id, WELL);
  }

  /** A run in which the transmission of an END_REQUEST fails: the request sends a second one. */
  lemma EndsTwice(id: FullId) returns (steps: seq<Step>, s: State)
    requires id.fcgiId != 0
    ensures After(steps) == At(s) && s.requests == map[]
    ensures ManagerLife.EventsOf(s.log, 0)
         == [Began, EmptyParams, EmptyIn, Started, Scheduled, JobRan, Finishing, Wrote, Ended,
             SendFailed, Wrote, Ended]
  {
    hide After;
    steps, s := LifeWith(id, BROKEN);
  }

  /** A turn of the loop that finds no task. */
  lemma IdleTurn(steps: seq<Step>, s: State) returns (more: seq<Step>)
    requires After(steps) == At(s) && s.hpc == HChecking && !s.asleep && s.tasks == [] && !s.terminateFlag
    ensures After(more) == At(s.(hpc := Top))
  {
    hide After;
    more := Goes(steps, s, Work(HCheck));
    more := Goes(more, s.(hpc := Polled(false)), Loop(HPass));
    more := Goes(more, s.(hpc := Passed(false)), Loop(HTake));
    more := Goes(more, s.(hpc := Deciding(false)), Loop(HDoze));
    more := Goes(more, s.(hpc := Sleeping(false), asleep := true), Loop(HWake(false)));
    more := Goes(more, s.(hpc := Waking, asleep := true), Loop(HUp));
    assert s.(hpc := Waking, asleep := true).(asleep := false, hpc := Top) == s.(hpc := Top);
  }

  /** A request begins, and the handler naps once because there is no task. */
  lemma Begins(id: FullId) returns (steps: seq<Step>, s: State)
    requires id.fcgiId != 0
    ensures After(steps) == At(s) && Quiet(s) && s.jobs == [] && s.log == [Entry(0, Began)]
    ensures s.requests == map[id := NewRequest(0, RESPONDER)]
  {
    hide After;
    NoSteps();
    var m := Record(BEGIN_REQUEST, 8);
    steps := Goes([], INITIAL, Loop(HTop));
    s := INITIAL.(hpc := Polling);
    steps := Goes(steps, s, Work(HPush(id, m, RESPONDER)));
    s := INITIAL.(requests := map[id := NewRequest(0, RESPONDER)], nextSerial := 1,
                  log := [Entry(0, Began)], hpc := HChecking);
    steps := IdleTurn(steps, s);
    s := s.(hpc := Top);
  }

  lemma LogWhole(log: seq<Entry>, events: seq<Event>)
    requires log == [Entry(0, Began)] + Entries(0, [EmptyParams]) + Entries(0, [EmptyIn, Started, Scheduled])
                    + [Entry(0, JobRan)] + Entries(0, events)
    ensures ManagerLife.EventsOf(log, 0) == UP_TO_THE_JOB + events
  {
    assert log == Entries(0, UP_TO_THE_JOB + events);
    EventsOfEntries(0, UP_TO_THE_JOB + events);
  }

  lemma {:induction false} EventsOfEntries(serial: nat, events: seq<Event>)
    ensures ManagerLife.EventsOf(Entries(serial, events), serial) == events
  {
    if events != [] {
      var before := events[..|events| - 1];
      EventsOfEntries(serial, before);
      assert Entries(serial, events)[..|before|] == Entries(serial, before);
    }
  }
}
