/** One request: the record state machine of the library together with the Start/Finish machine
  * of the application, as a pure step and as the object that performs it. */
module Request {
  import opened Protocol
  import opened Seqs

  /** A record (its type and content length), or the completion message of the request's job. */
  datatype Msg = Record(kind: byte, length: nat) | Callback

  /** What the library is reading: parameters, input, or nothing any more. */
  datatype Stage = Params | Body | Output

  datatype AppState = Start | Finish

  /** `arrived` and `handled` are history: every message ever queued and every one ever taken. */
  datatype Request = Request(serial: nat, role: uint16, stage: Stage, app: AppState,
                             messages: seq<Msg>, arrived: seq<Msg>, handled: seq<Msg>)

  function NewRequest(serial: nat, role: uint16): Request {
    Request(serial, role, Params, Start, [], [], [])
  }

  function Enqueue(r: Request, m: Msg): Request {
    r.(messages := r.messages + [m], arrived := r.arrived + [m])
  }

  function Dequeue(r: Request): Request
    requires r.messages != []
  {
    r.(messages := r.messages[1..], handled := r.handled + [r.messages[0]])
  }

  /** How a call of `complete` goes: well, or it throws before or after its END_REQUEST record has
    * been committed, the latter when the transmission that follows meets a failing write. */
  datatype Completion = Well | ThrowsEarly | ThrowsLate

  /** What the environment decides: is the announced or received post data too big, is the
    * content type known, does the application answer at once, does what is done with a record or
    * with the result of the job throw, and how the calls of `complete` go, the one in the handler's try
    * block and the one that answers an exception. */
  datatype Env = Env(tooBig: bool, typeKnown: bool, fits: bool, answersAtOnce: bool, throws: bool,
                     first: Completion, second: Completion)

  /** What is worth remembering about a request: `Ended` is an END_REQUEST record committed, `SendFailed`
    * the exception of the transmission right after it. */
  datatype Event =
    | Began | EmptyParams | EmptyIn | Started | Scheduled | JobRan | Finishing | Wrote | Ended | SendFailed
    | Aborted

  /** The handler returns false, returns true, or throws. */
  datatype Verdict = More | Done | Threw

  /** `schedule` says that a job was added to the job queue. */
  datatype Effect = Effect(stage: Stage, app: AppState, verdict: Verdict, schedule: bool, events: seq<Event>)

  predicate KnownRole(role: uint16) {
    role == RESPONDER || role == AUTHORIZER
  }

  /** What a call of `complete` adds behind the output. */
  function Endings(c: Completion): seq<Event> {
    match c
    case Well => [Ended]
    case ThrowsEarly => []
    case ThrowsLate => [Ended, SendFailed]
  }

  /** `complete()` in the try block, after some output. */
  function Completed(stage: Stage, app: AppState, before: seq<Event>, env: Env): Effect {
    Effect(stage, app, if env.first.Well? then Done else Threw, false, before + [Wrote] + Endings(env.first))
  }

  function Respond(stage: Stage, app: AppState, env: Env, before: seq<Event>): Effect {
    if app.Start? then
      if env.throws then Effect(stage, app, Threw, false, before + [Started])
      else if env.answersAtOnce then Completed(stage, app, before + [Started], env)
      else Effect(stage, Finish, More, true, before + [Started, Scheduled])
    else if env.throws then Effect(stage, app, Threw, false, before + [Finishing])
    else Completed(stage, app, before + [Finishing], env)
  }

  /** The try block of the handler for one message that has been taken. */
  function Attend(stage: Stage, app: AppState, m: Msg, env: Env): Effect {
    match m
    case Callback => Respond(stage, app, env, [])
    case Record(kind, length) =>
      if kind == PARAMS then
        if stage != Params || (length != 0 && env.throws) then Effect(stage, app, Threw, false, [])
        else if length != 0 then Effect(stage, app, More, false, [])
        else if env.tooBig then Completed(stage, app, [], env)
        else Effect(Body, app, More, false, [EmptyParams])
      else if kind == IN then
        if stage != Body || (length != 0 && env.throws) then Effect(stage, app, Threw, false, [])
        else if length != 0 then
          if env.fits then Effect(stage, app, More, false, []) else Completed(stage, app, [], env)
        else if !env.typeKnown then Effect(stage, app, Threw, false, [])
        else Respond(Output, app, env, [EmptyIn])
      else if kind == ABORT_REQUEST then Effect(stage, app, Done, false, [Aborted])
      else Effect(stage, app, More, false, [])
  }

  /** The try block's effect for a request with an unknown role. */
  function Refuse(stage: Stage, app: AppState, env: Env): Effect {
    Effect(stage, app, if env.first.Well? then Done else Threw, false, Endings(env.first))
  }

  /** The catch block: an error page, and `complete` (again).  What that throws leaves the handler. */
  function Caught(e: Effect, env: Env): Effect {
    if e.verdict.Threw? then
      Effect(e.stage, e.app, if env.second.Well? then Done else Threw, e.schedule,
             e.events + ([Wrote] + Endings(env.second)))
    else e
  }

  /** The handler for one message that has been taken. */
  function Handle(stage: Stage, app: AppState, m: Msg, env: Env): Effect {
    Caught(Attend(stage, app, m, env), env)
  }

  // ---- The life of a request -----------------------------------------------------------------

  /** After an end, `ends` counts the END_REQUEST records and `job` remembers that a scheduled job has
    * not run yet.  `Failing` is the moment after a transmission has thrown. */
  datatype Phase =
    | Unborn | ReadingParams | ReadingBody | Ready | Responding | Waiting | JobDone | Closing
    | Gone(ends: nat, job: bool) | Failing(ends: nat, job: bool) | Bad

  predicate Alive(p: Phase) {
    !p.Unborn? && !p.Gone? && !p.Failing? && !p.Bad?
  }

  /** The request has a job that has not run yet. */
  predicate JobOpen(p: Phase) {
    p.Waiting? || ((p.Gone? || p.Failing?) && p.job)
  }

  /** The request's job, if it had one, has run. */
  predicate JobClosed(p: Phase) {
    p.JobDone? || p.Closing? || ((p.Gone? || p.Failing?) && !p.job)
  }

  /** The only orders of events a request may show. */
  function Advance(p: Phase, e: Event): Phase {
    match e
    case Began => if p.Unborn? then ReadingParams else Bad
    case EmptyParams => if p.ReadingParams? then ReadingBody else Bad
    case EmptyIn => if p.ReadingBody? then Ready else Bad
    case Started => if p.Ready? then Responding else Bad
    case Scheduled => if p.Responding? then Waiting else Bad
    case JobRan =>
      if p.Waiting? then JobDone
      else if p.Gone? && p.job then Gone(p.ends, false)
      else if p.Failing? && p.job then Failing(p.ends, false)
      else Bad
    case Finishing => if p.JobDone? then Closing else Bad
    case Wrote => if Alive(p) || (p.Failing? && p.ends == 1) then p else Bad
    case Ended =>
      if Alive(p) then Gone(1, p.Waiting?)
      else if p.Failing? && p.ends == 1 then Gone(2, p.job)
      else Bad
    case SendFailed => if p.Gone? && p.ends > 0 then Failing(p.ends, p.job) else Bad
    case Aborted => if Alive(p) then Gone(0, p.Waiting?) else Bad
  }

  function PhaseAfter(p: Phase, events: seq<Event>): Phase {
    if events == [] then p else Advance(PhaseAfter(p, events[..|events| - 1]), events[|events| - 1])
  }

  lemma {:induction false} PhaseAfterAppend(p: Phase, a: seq<Event>, b: seq<Event>)
    ensures PhaseAfter(p, a + b) == PhaseAfter(PhaseAfter(p, a), b)
  {
    if b == [] {
      assert a + b == a;
    } else {
      PhaseAfterAppend(p, a, b[..|b| - 1]);
      assert (a + b)[..|a + b| - 1] == a + b[..|b| - 1];
    }
  }

  /** The phase a live request must be in, told from the two state variables. */
  predicate Matches(stage: Stage, app: AppState, p: Phase) {
    match stage
    case Params => app.Start? && p.ReadingParams?
    case Body => app.Start? && p.ReadingBody?
    case Output => app.Finish? && (p.Waiting? || p.JobDone?)
  }

  lemma PhaseTwo(p: Phase, a: Event, b: Event)
    ensures PhaseAfter(p, [a]) == Advance(p, a)
    ensures PhaseAfter(p, [a, b]) == Advance(Advance(p, a), b)
  {
    assert [a][..0] == [];
    assert [a, b][..1] == [a];
  }

  /** What one call of `complete` does to the phase. */
  function EndedBy(p: Phase, c: Completion): Phase {
    match c
    case Well => Advance(p, Ended)
    case ThrowsEarly => p
    case ThrowsLate => Advance(Advance(p, Ended), SendFailed)
  }

  lemma PhaseEndings(p: Phase, c: Completion)
    ensures PhaseAfter(p, Endings(c)) == EndedBy(p, c)
    ensures PhaseAfter(p, [Wrote] + Endings(c)) == EndedBy(Advance(p, Wrote), c)
  {
    PhaseTwo(p, Ended, SendFailed);
    PhaseTwo(p, Wrote, Ended);
    var q := Advance(p, Wrote);
    PhaseTwo(q, Ended, SendFailed);
    PhaseAfterAppend(p, [Wrote], Endings(c));
  }

  /** An exception may be caught in this phase: nothing has ended yet, or the transmission after the first
    * END_REQUEST has failed. */
  predicate Catching(p: Phase) {
    Alive(p) || (p.Failing? && p.ends == 1)
  }

  /** What a step may do to a request that is in phase `p`: it goes on in a matching phase, waiting for
    * a job exactly if one was scheduled by this step or before, it is over, or an exception is on its
    * way.  The job that it may have is not affected. */
  predicate Lawful(e: Effect, p: Phase) {
    var q := PhaseAfter(p, e.events);
    && (JobClosed(p) ==> JobClosed(q))
    && match e.verdict
       case Done => q.Gone? && q.job == p.Waiting? && !e.schedule
       case Threw => (Alive(q) || q.Failing?) && JobOpen(q) == p.Waiting? && !e.schedule
       case More =>
         && Matches(e.stage, e.app, q)
         && (if e.schedule then q.Waiting? && p.ReadingBody? else q == p || (p.ReadingParams? && q.ReadingBody?))
  }

  /** The same for the try block, whose exceptions are caught. */
  predicate TryLawful(e: Effect, p: Phase) {
    Lawful(e, p) && (e.verdict.Threw? ==> Catching(PhaseAfter(p, e.events)))
  }

  /** An error page and a completion from where an exception is caught. */
  lemma CatchEnds(q: Phase, c: Completion)
    requires Catching(q)
    ensures var t := EndedBy(Advance(q, Wrote), c);
            && (JobClosed(q) ==> JobClosed(t))
            && if c.Well? then t.Gone? && t.job == JobOpen(q)
               else (Alive(t) || t.Failing?) && JobOpen(t) == JobOpen(q)
  {
  }

  lemma CaughtLawful(e: Effect, env: Env, p: Phase)
    requires TryLawful(e, p)
    ensures Lawful(Caught(e, env), p)
  {
    hide PhaseAfter, Endings, EndedBy, Advance;
    if e.verdict.Threw? {
      var q := PhaseAfter(p, e.events);
      PhaseAfterAppend(p, e.events, [Wrote] + Endings(env.second));
      PhaseEndings(q, env.second);
      CatchEnds(q, env.second);
    }
  }

  /** Events before a completion that leave the request alive, and the completion. */
  lemma CompletedLawful(stage: Stage, app: AppState, before: seq<Event>, env: Env, p: Phase)
    requires Alive(PhaseAfter(p, before)) && PhaseAfter(p, before).Waiting? == p.Waiting?
    requires JobClosed(p) ==> JobClosed(PhaseAfter(p, before))
    ensures TryLawful(Completed(stage, app, before, env), p)
  {
    hide PhaseAfter, Endings;
    CompletedPhase(before, env.first, p);
  }

  lemma CompletedPhase(before: seq<Event>, c: Completion, p: Phase)
    ensures PhaseAfter(p, before + [Wrote] + Endings(c)) == EndedBy(Advance(PhaseAfter(p, before), Wrote), c)
  {
    hide PhaseAfter, Endings;
    Regroup(before, [Wrote], Endings(c));
    PhaseAfterAppend(p, before, [Wrote] + Endings(c));
    PhaseEndings(PhaseAfter(p, before), c);
  }

  lemma RefusedLawful(stage: Stage, app: AppState, env: Env, p: Phase)
    requires Alive(p)
    ensures Lawful(Caught(Refuse(stage, app, env), env), p)
  {
    hide Lawful, PhaseAfter, Endings;
    TriedLawful(stage, app, env, p);
    CaughtLawful(Refuse(stage, app, env), env, p);
  }

  lemma TriedLawful(stage: Stage, app: AppState, env: Env, p: Phase)
    requires Alive(p)
    ensures TryLawful(Refuse(stage, app, env), p)
  {
    hide PhaseAfter, Endings;
    PhaseEndings(p, env.first);
  }

  /** The effects that write nothing. */
  lemma QuietLawful(stage: Stage, app: AppState, p: Phase)
    requires Matches(stage, app, p)
    ensures TryLawful(Effect(stage, app, More, false, []), p)
    ensures TryLawful(Effect(stage, app, Threw, false, []), p)
    ensures TryLawful(Effect(stage, app, Done, false, [Aborted]), p)
    ensures stage == Params ==> TryLawful(Effect(Body, app, More, false, [EmptyParams]), p)
  {
    PhaseTwo(p, EmptyParams, Wrote);
    PhaseTwo(p, Aborted, Wrote);
  }

  lemma RecordLawful(stage: Stage, app: AppState, kind: byte, length: nat, env: Env, p: Phase)
    requires Matches(stage, app, p)
    ensures TryLawful(Attend(stage, app, Record(kind, length), env), p)
  {
    hide TryLawful;
    CompletedLawful(stage, app, [], env, p);
    QuietLawful(stage, app, p);
    if kind == IN && stage == Body && length == 0 && env.typeKnown {
      RespondLawful(Output, app, env, p, [EmptyIn]);
    }
  }

  lemma AttendLawful(stage: Stage, app: AppState, m: Msg, env: Env, p: Phase)
    requires Matches(stage, app, p) && (m.Callback? ==> p.JobDone?)
    ensures TryLawful(Attend(stage, app, m, env), p)
  {
    match m
    case Callback => RespondLawful(stage, app, env, p, []);
    case Record(kind, length) => RecordLawful(stage, app, kind, length, env, p);
  }

  /** Handling any message in a matching phase (a completion message only once the job has run)
    * keeps to the lawful orders. */
  lemma HandleLawful(stage: Stage, app: AppState, m: Msg, env: Env, p: Phase)
    requires Matches(stage, app, p) && (m.Callback? ==> p.JobDone?)
    ensures Lawful(Handle(stage, app, m, env), p)
  {
    AttendLawful(stage, app, m, env, p);
    CaughtLawful(Attend(stage, app, m, env), env, p);
  }

  lemma RespondLawful(stage: Stage, app: AppState, env: Env, p: Phase, before: seq<Event>)
    requires stage == Output
    requires if app.Start? then p.ReadingBody? && before == [EmptyIn] else p.JobDone? && before == []
    ensures var e := Respond(stage, app, env, before);
            && TryLawful(e, p)
            && (e.verdict.More? ==> e.schedule)
  {
    hide PhaseAfter;
    var event := if app.Start? then Started else Finishing;
    RespondPhase(p, before, event);
    CompletedLawful(stage, app, before + [event], env, p);
    if app.Start? {
      assert before + [Started, Scheduled] == before + [Started] + [Scheduled];
      PhaseAfterAppend(p, before + [Started], [Scheduled]);
      PhaseTwo(PhaseAfter(p, before + [Started]), Scheduled, Scheduled);
    }
  }

  lemma RespondPhase(p: Phase, before: seq<Event>, event: Event)
    requires if event.Started? then p.ReadingBody? && before == [EmptyIn]
             else event.Finishing? && p.JobDone? && before == []
    ensures PhaseAfter(p, before + [event]) == if event.Started? then Responding else Closing
  {
    PhaseAfterAppend(p, before, [event]);
    PhaseTwo(p, EmptyIn, EmptyIn);
    PhaseTwo(PhaseAfter(p, before), event, event);
  }

  /** `SendFailed` comes exactly from a call of `complete` that throws late: the one in the try block, or
    * the one that answers an exception. */
  lemma WhenSendFails(stage: Stage, app: AppState, m: Msg, env: Env)
    ensures var e := Attend(stage, app, m, env);
            SendFailed in Handle(stage, app, m, env).events <==>
              || (env.first.ThrowsLate? && Wrote in e.events)
              || (env.second.ThrowsLate? && e.verdict.Threw?)
  {
    hide Attend;
    AttendFails(stage, app, m, env);
    assert SendFailed in Endings(env.second) <==> env.second.ThrowsLate?;
  }

  lemma RespondFails(stage: Stage, app: AppState, env: Env, before: seq<Event>)
    requires before == [] || before == [EmptyIn]
    ensures var events := Respond(stage, app, env, before).events;
            SendFailed in events <==> env.first.ThrowsLate? && Wrote in events
  {
    assert SendFailed in Endings(env.first) <==> env.first.ThrowsLate?;
  }

  lemma AttendFails(stage: Stage, app: AppState, m: Msg, env: Env)
    ensures var events := Attend(stage, app, m, env).events;
            SendFailed in events <==> env.first.ThrowsLate? && Wrote in events
  {
    hide Respond, Endings;
    RespondFails(stage, app, env, []);
    RespondFails(Output, app, env, [EmptyIn]);
    EndingsFail(stage, app, env);
  }

  lemma EndingsFail(stage: Stage, app: AppState, env: Env)
    ensures var events := Completed(stage, app, [], env).events;
            Wrote in events && (SendFailed in events <==> env.first.ThrowsLate?)
  {
  }

  // ---- What a lawful life looks like from outside -----------------------------------------------

  /** The event that must have happened before `e`, if there is one. */
  function Needs(e: Event): Event {
    match e
    case EmptyParams => Began
    case EmptyIn => EmptyParams
    case Started => EmptyIn
    case Scheduled => Started
    case JobRan => Scheduled
    case Finishing => JobRan
    case SendFailed => Ended
    case _ => e
  }

  /** The event `e` has happened between the positions `i` and `k`. */
  predicate Between(es: seq<Event>, i: nat, k: nat, e: Event)
    requires k <= |es|
  {
    exists j :: i < j < k && es[j] == e
  }

  /** The only events that may come again: output, and after a failed transmission a second
    * END_REQUEST, whose transmission may fail in turn. */
  predicate MayRepeat(es: seq<Event>, i: nat, k: nat)
    requires i < k <= |es|
  {
    match es[i]
    case Wrote => true
    case Ended => Between(es, i, k, SendFailed)
    case SendFailed => Between(es, i, k, Ended)
    case _ => false
  }

  /** The event `e` may come at position `k`, the event at `i` being a final one. */
  predicate MayFollow(es: seq<Event>, i: nat, k: nat, e: Event)
    requires i < k <= |es|
  {
    e == JobRan || (es[i] == Ended && (e == SendFailed || Between(es, i, k, SendFailed)))
  }

  predicate Final(e: Event) {
    e.Ended? || e.Aborted?
  }

  /** The response starts only after the empty PARAMS and, after that, the empty IN record; the
    * job is scheduled by the response and its result delivered after it ran; nothing but output
    * happens twice unless a transmission fails; after the end of the request only its job may still
    * run, and the answer to a failed transmission follow. */
  predicate Orderly(es: seq<Event>) {
    && (forall k :: 0 <= k < |es| && Needs(es[k]) != es[k] ==> Needs(es[k]) in es[..k])
    && (forall i, k :: 0 <= i < k < |es| && es[i] == es[k] ==> MayRepeat(es, i, k))
    && (forall i, k :: 0 <= i < k < |es| && Final(es[i]) ==> MayFollow(es, i, k, es[k]))
  }

  /** How many END_REQUEST records have been committed. */
  function Ends(es: seq<Event>): nat {
    if es == [] then 0 else Ends(es[..|es| - 1]) + if es[|es| - 1] == Ended then 1 else 0
  }

  /** END_REQUEST is the last record; only the job may still run. */
  predicate EndLast(es: seq<Event>) {
    exists k :: 0 <= k < |es| && es[k] == Ended && forall j :: k < j < |es| ==> es[j] == JobRan
  }

  function EventRank(e: Event): int {
    match e
    case Began => 0
    case EmptyParams => 1
    case EmptyIn => 2
    case Started => 3
    case Scheduled => 4
    case JobRan => 5
    case Finishing => 6
    case _ => -1
  }

  /** How many of the ranked events a live request in this phase has seen. */
  function PhaseRank(p: Phase): int {
    match p
    case ReadingParams => 1
    case ReadingBody => 2
    case Ready => 3
    case Responding => 4
    case Waiting => 5
    case JobDone => 6
    case Closing => 7
    case _ => 0
  }

  /** What the phase says about the events so far. */
  predicate Told(es: seq<Event>, p: Phase) {
    && Ends(es) == (if p.Gone? || p.Failing? then p.ends else 0)
    && (Ended in es <==> Ends(es) > 0)
    && (SendFailed in es <==> p.Failing? || (p.Gone? && p.ends == 2))
    && (Aborted in es <==> p.Gone? && p.ends == 0)
    && (if p.Gone? || p.Failing? then p.job ==> JobRan !in es && Scheduled in es else LiveTold(es, p))
    && (p.Gone? && p.ends > 0 ==> EndLast(es))
    && (p.Gone? || p.Failing? ==> p.ends <= 2)
    && (p.Failing? ==> forall i :: 0 <= i < |es| && es[i] == Ended ==> Between(es, i, |es|, SendFailed))
  }

  /** What a live request has seen. */
  predicate LiveTold(es: seq<Event>, p: Phase) {
    && (forall e :: e in es && EventRank(e) >= 0 ==> EventRank(e) < PhaseRank(p))
    && (forall e :: 0 <= EventRank(e) < PhaseRank(p) ==> e in es)
    && (p.Unborn? ==> es == [])
  }

  lemma BetweenKept(es: seq<Event>, e: Event, i: nat, k: nat, f: Event)
    requires i < k <= |es|
    ensures Between(es + [e], i, k, f) <==> Between(es, i, k, f)
    ensures MayRepeat(es + [e], i, k) <==> MayRepeat(es, i, k)
    ensures forall g :: MayFollow(es + [e], i, k, g) <==> MayFollow(es, i, k, g)
  {
    var next := es + [e];
    assert next[i] == es[i];
    forall f: Event ensures Between(next, i, k, f) <==> Between(es, i, k, f) {
      if Between(es, i, k, f) {
        var j :| i < j < k && es[j] == f;
        assert next[j] == f;
      }
      if Between(next, i, k, f) {
        var j :| i < j < k && next[j] == f;
        assert es[j] == f;
      }
    }
  }

  lemma OrderlyStep(es: seq<Event>, e: Event)
    requires Orderly(es)
    requires forall i :: 0 <= i < |es| && es[i] == e ==> MayRepeat(es, i, |es|)
    requires Needs(e) != e ==> Needs(e) in es
    requires forall i :: 0 <= i < |es| && Final(es[i]) ==> MayFollow(es, i, |es|, e)
    ensures Orderly(es + [e])
  {
    var next := es + [e];
    forall k | 0 <= k < |next| && Needs(next[k]) != next[k] ensures Needs(next[k]) in next[..k] {
      assert next[..k] == if k < |es| then es[..k] else es;
    }
    forall i, k | 0 <= i < k < |next| && next[i] == next[k] ensures MayRepeat(next, i, k) {
      BetweenKept(es, e, i, k, e);
    }
    forall i, k | 0 <= i < k < |next| && Final(next[i]) ensures MayFollow(next, i, k, next[k]) {
      BetweenKept(es, e, i, k, e);
    }
  }

  lemma RankStep(p: Phase, e: Event)
    requires Advance(p, e) != Bad && EventRank(e) >= 0 && !p.Gone? && !p.Failing?
    ensures EventRank(e) == PhaseRank(p) && PhaseRank(Advance(p, e)) == PhaseRank(p) + 1
    ensures !Advance(p, e).Gone? && !Advance(p, e).Failing? && !Advance(p, e).Unborn?
    ensures Needs(e) != e ==> 0 <= EventRank(Needs(e)) < EventRank(e)
  {
  }

  lemma RankTells(e: Event, f: Event)
    requires EventRank(e) == EventRank(f) >= 0
    ensures e == f
  {
  }

  /** Behind the last END_REQUEST there was at most the job. */
  lemma EndBehind(es: seq<Event>, i: nat)
    requires EndLast(es) && i < |es| && es[i] == SendFailed
    ensures Between(es, i, |es|, Ended)
  {
    var k :| 0 <= k < |es| && es[k] == Ended && forall j :: k < j < |es| ==> es[j] == JobRan;
    assert i < k;
  }

  /** An accepted event is new, or output, or may come again; it comes after what it needs. */
  lemma ToldAllows(es: seq<Event>, p: Phase, e: Event)
    requires Told(es, p) && Advance(p, e) != Bad
    ensures Needs(e) != e ==> Needs(e) in es
    ensures forall i :: 0 <= i < |es| && es[i] == e ==> MayRepeat(es, i, |es|)
  {
    if EventRank(e) >= 0 && !p.Gone? && !p.Failing? {
      RankStep(p, e);
    }
    forall i | 0 <= i < |es| && es[i] == e ensures MayRepeat(es, i, |es|) {
      assert e in es;
      if e == SendFailed {
        EndBehind(es, i);
      }
    }
  }

  /** After an end only the job and the answer to a failed transmission follow. */
  lemma ToldFollows(es: seq<Event>, p: Phase, e: Event)
    requires Told(es, p) && Advance(p, e) != Bad
    ensures forall i :: 0 <= i < |es| && Final(es[i]) ==> MayFollow(es, i, |es|, e)
  {
    forall i | 0 <= i < |es| && Final(es[i]) ensures MayFollow(es, i, |es|, e) {
      assert es[i] in es;
    }
  }

  lemma EndsOne(es: seq<Event>, e: Event)
    ensures Ends(es + [e]) == Ends(es) + if e == Ended then 1 else 0
    ensures forall f :: f in es + [e] <==> f in es || f == e
  {
    assert (es + [e])[..|es|] == es;
    assert (es + [e])[|es|] == e;
  }

  lemma EndLastStep(es: seq<Event>, e: Event)
    requires e == Ended || (e == JobRan && EndLast(es))
    ensures EndLast(es + [e])
  {
    var next := es + [e];
    if e == Ended {
      assert next[|es|] == Ended;
    } else {
      var k :| 0 <= k < |es| && es[k] == Ended && forall j :: k < j < |es| ==> es[j] == JobRan;
      assert next[k] == Ended;
    }
  }

  lemma FailingStep(es: seq<Event>, p: Phase, e: Event)
    requires Told(es, p) && Advance(p, e).Failing?
    ensures forall i :: 0 <= i < |es + [e]| && (es + [e])[i] == Ended ==> Between(es + [e], i, |es| + 1, SendFailed)
  {
    var next := es + [e];
    forall i | 0 <= i < |next| && next[i] == Ended ensures Between(next, i, |next|, SendFailed) {
      if e == SendFailed {
        assert next[|es|] == SendFailed;
      } else {
        assert Between(es, i, |es|, SendFailed);
        var j :| i < j < |es| && es[j] == SendFailed;
        assert next[j] == SendFailed;
      }
    }
  }

  lemma LiveStep(es: seq<Event>, p: Phase, e: Event)
    requires !p.Gone? && !p.Failing? && LiveTold(es, p) && Advance(p, e) != Bad
    requires !Advance(p, e).Gone? && !Advance(p, e).Failing?
    ensures LiveTold(es + [e], Advance(p, e))
  {
    EndsOne(es, e);
    if EventRank(e) >= 0 {
      RankStep(p, e);
      forall f: Event | EventRank(f) == EventRank(e) ensures f == e {
        RankTells(e, f);
      }
    }
  }

  lemma ToldStep(es: seq<Event>, p: Phase, e: Event)
    requires Told(es, p) && Advance(p, e) != Bad
    ensures Told(es + [e], Advance(p, e))
  {
    hide Ends, EndLast, Between;
    EndsOne(es, e);
    var q := Advance(p, e);
    if q.Gone? && q.ends > 0 {
      EndLastStep(es, e);
    }
    if q.Failing? {
      FailingStep(es, p, e);
    }
    if !q.Gone? && !q.Failing? {
      LiveStep(es, p, e);
    }
  }

  lemma AcceptStep(es: seq<Event>, p: Phase, e: Event)
    requires Orderly(es) && Told(es, p) && Advance(p, e) != Bad
    ensures Orderly(es + [e]) && Told(es + [e], Advance(p, e))
  {
    ToldAllows(es, p, e);
    ToldFollows(es, p, e);
    OrderlyStep(es, e);
    ToldStep(es, p, e);
  }

  lemma NothingTold()
    ensures Orderly([]) && Told([], Unborn)
  {
  }

  lemma BadStays(e: Event)
    ensures Advance(Bad, e) == Bad
  {
  }

  /** Whatever the automaton accepts is orderly. */
  lemma {:induction false} AcceptedIsOrderly(es: seq<Event>)
    requires PhaseAfter(Unborn, es) != Bad
    ensures Orderly(es) && Told(es, PhaseAfter(Unborn, es))
  {
    hide Orderly, Told, Advance;
    if es == [] {
      NothingTold();
    } else {
      var before, last := es[..|es| - 1], es[|es| - 1];
      BadStays(last);
      AcceptedIsOrderly(before);
      AcceptStep(before, PhaseAfter(Unborn, before), last);
      assert before + [last] == es;
    }
  }

  // ---- The object -----------------------------------------------------------------------------

  class RequestObject {
    const serial: nat
    const role: uint16
    var state: Stage
    var appState: AppState
    var messages: seq<Msg>
    ghost var arrived: seq<Msg>
    ghost var handled: seq<Msg>

    constructor (serial: nat, role: uint16)
      ensures View() == NewRequest(serial, role)
    {
      this.serial, this.role := serial, role;
      state, appState, messages := Params, Start, [];
      arrived, handled := [], [];
    }

    ghost function View(): Request
      reads this
    {
      Request(serial, role, state, appState, messages, arrived, handled)
    }

    /** The part of `push` done under the message lock. */
    method Push(m: Msg)
      modifies this
      ensures View() == Enqueue(old(View()), m)
    {
      messages := messages + [m];
      arrived := arrived + [m];
    }

    method Pop() returns (m: Msg)
      requires messages != []
      modifies this
      ensures m == old(messages)[0] && View() == Dequeue(old(View()))
    {
      m := messages[0];
      messages := messages[1..];
      handled := handled + [m];
    }

    /** `complete()`: the END_REQUEST record is committed and then transmitted; `c` says how that goes. */
    method Complete(c: Completion) returns (threw: bool, ghost events: seq<Event>)
      ensures threw == !c.Well? && events == Endings(c)
    {
      match c
      case Well => return false, [Ended];
      case ThrowsEarly => return true, [];
      case ThrowsLate => return true, [Ended, SendFailed];
    }

    /** Some output and `complete()`, at the end of the try block. */
    method FinishUp(env: Env, ghost before: seq<Event>)
      returns (verdict: Verdict, schedule: bool, ghost events: seq<Event>)
      ensures var e := Completed(state, appState, before, env);
              verdict == e.verdict && schedule == e.schedule && events == e.events
    {
      var threw;
      threw, events := Complete(env.first);
      verdict, schedule, events := if threw then Threw else Done, false, before + [Wrote] + events;
    }

    /** `response()`: the first call starts the work, the second one delivers it. */
    method Response(env: Env, ghost before: seq<Event>)
      returns (verdict: Verdict, schedule: bool, ghost events: seq<Event>)
      modifies `appState
      ensures var e := Respond(state, old(appState), env, before);
              verdict == e.verdict && schedule == e.schedule && events == e.events && appState == e.app
      ensures (schedule <==> verdict.More?) && (appState != old(appState) ==> schedule)
    {
      if appState == Start {
        if env.throws {
          return Threw, false, before + [Started];
        }
        if env.answersAtOnce {
          verdict, schedule, events := FinishUp(env, before + [Started]);
        } else {
          appState := AppState.Finish;
          return More, true, before + [Started, Scheduled];
        }
      } else if env.throws {
        return Threw, false, before + [Finishing];
      } else {
        verdict, schedule, events := FinishUp(env, before + [Finishing]);
      }
    }

    /** A record with content, or the empty one that ends its stream. */
    method AttendRecord(kind: byte, length: nat, env: Env)
      returns (verdict: Verdict, schedule: bool, ghost events: seq<Event>)
      modifies `state, `appState
      ensures var e := Attend(old(state), old(appState), Record(kind, length), env);
              && verdict == e.verdict && schedule == e.schedule && events == e.events
              && state == e.stage && appState == e.app
    {
      verdict, schedule, events := More, false, [];
      if kind == PARAMS {
        if state != Params || (length != 0 && env.throws) {
          return Threw, false, [];
        }
        if length == 0 {
          if env.tooBig {
            verdict, schedule, events := FinishUp(env, []);
          } else {
            state, events := Body, [EmptyParams];
          }
        }
      } else if kind == IN {
        if state != Body || (length != 0 && env.throws) {
          return Threw, false, [];
        }
        if length == 0 {
          if !env.typeKnown {
            return Threw, false, [];
          }
          state := Output;
          verdict, schedule, events := Response(env, [EmptyIn]);
        } else if !env.fits {
          verdict, schedule, events := FinishUp(env, []);
        }
      } else if kind == ABORT_REQUEST {
        return Done, false, [Aborted];
      }
    }

    /** The try block: an unknown role is rejected without looking at the message queue, anything
      * else takes one message. */
    method Try(env: Env) returns (verdict: Verdict, schedule: bool, ghost events: seq<Event>)
      requires KnownRole(role) ==> messages != []
      modifies this
      ensures !KnownRole(role) ==>
                var e := Refuse(old(state), old(appState), env);
                && verdict == e.verdict && schedule == e.schedule && events == e.events && View() == old(View())
      ensures KnownRole(role) ==>
                var e := Attend(old(state), old(appState), old(messages)[0], env);
                && View() == Dequeue(old(View())).(stage := e.stage, app := e.app)
                && verdict == e.verdict && schedule == e.schedule && events == e.events
    {
      if !KnownRole(role) {
        var threw;
        threw, events := Complete(env.first);
        return if threw then Threw else Done, false, events;
      }
      var m := Pop();
      match m
      case Record(kind, length) => verdict, schedule, events := AttendRecord(kind, length, env);
      case Callback => verdict, schedule, events := Response(env, []);
    }

    /** The handler: the try block, and its catch block with an error page and `complete()`, whose own
      * exceptions leave the handler. */
    method Handler(env: Env) returns (verdict: Verdict, schedule: bool, ghost events: seq<Event>)
      requires KnownRole(role) ==> messages != []
      modifies this
      ensures !KnownRole(role) ==>
                var e := Caught(Refuse(old(state), old(appState), env), env);
                && verdict == e.verdict && schedule == e.schedule && events == e.events && View() == old(View())
      ensures KnownRole(role) ==>
                var e := Handle(old(state), old(appState), old(messages)[0], env);
                && View() == Dequeue(old(View())).(stage := e.stage, app := e.app)
                && verdict == e.verdict && schedule == e.schedule && events == e.events
    {
      verdict, schedule, events := Try(env);
      if verdict == Threw {
        var threw;
        ghost var more;
        threw, more := Complete(env.second);
        verdict, events := if threw then Threw else Done, events + ([Wrote] + more);
      }
    }
  }
}
