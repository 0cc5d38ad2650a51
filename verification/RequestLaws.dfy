/** What a request does with the messages it gets, list by list. */
module RequestLaws {
  import opened Protocol
  import opened R = Request
  import opened Seqs

  /** A message, and what the environment decides while it is handled. */
  datatype Given = Given(m: Msg, env: Env)

  /** One message after the other, until the handler does not want any more. */
  function Serve(stage: Stage, app: AppState, given: seq<Given>): Effect
    decreases given
  {
    if given == [] then Effect(stage, app, More, false, [])
    else
      var e := Handle(stage, app, given[0].m, given[0].env);
      if e.verdict.More? then Then(e, Serve(e.stage, e.app, given[1..])) else e
  }

  /** Going on with `b` after `a`. */
  function Then(a: Effect, b: Effect): Effect {
    b.(schedule := a.schedule || b.schedule, events := a.events + b.events)
  }

  lemma {:induction false} ServeAppend(stage: Stage, app: AppState, a: seq<Given>, b: seq<Given>)
    ensures var e := Serve(stage, app, a);
            Serve(stage, app, a + b) == if e.verdict.More? then Then(e, Serve(e.stage, e.app, b)) else e
    decreases a
  {
    hide Handle;
    if a == [] {
      assert a + b == b && [] + Serve(stage, app, b).events == Serve(stage, app, b).events;
    } else {
      var e := Handle(stage, app, a[0].m, a[0].env);
      assert (a + b)[0] == a[0] && (a + b)[1..] == a[1..] + b;
      if e.verdict.More? {
        ServeAppend(e.stage, e.app, a[1..], b);
        var more := Serve(e.stage, e.app, a[1..]);
        Regroup(e.events, more.events, Serve(more.stage, more.app, b).events);
      }
    }
  }

  lemma ServeOne(stage: Stage, app: AppState, g: Given)
    ensures Serve(stage, app, [g]) == Handle(stage, app, g.m, g.env)
  {
    hide Handle;
    var e := Handle(stage, app, g.m, g.env);
    assert [g][1..] == [] && e.events + [] == e.events;
  }

  /** Records of this type that have content and are taken in without an exception or a protest. */
  predicate TakenIn(given: seq<Given>, kind: byte) {
    forall i :: 0 <= i < |given| ==>
      && given[i].m.Record? && given[i].m.kind == kind && given[i].m.length > 0
      && !given[i].env.throws && given[i].env.fits
  }

  /** Content of PARAMS is only read in. */
  lemma {:induction false} ParamsRead(app: AppState, given: seq<Given>)
    requires TakenIn(given, PARAMS)
    ensures Serve(Params, app, given) == Effect(Params, app, More, false, [])
  {
    if given != [] {
      ParamsRead(app, given[1..]);
    }
  }

  /** So is content of IN that fits. */
  lemma {:induction false} BodyRead(app: AppState, given: seq<Given>)
    requires TakenIn(given, IN)
    ensures Serve(Body, app, given) == Effect(Body, app, More, false, [])
  {
    if given != [] {
      BodyRead(app, given[1..]);
    }
  }

  /** The parameters, ended by their empty record, which announce content within the limit. */
  lemma ParamsDone(app: AppState, params: seq<Given>, last: Given)
    requires TakenIn(params, PARAMS) && last.m == Record(PARAMS, 0) && !last.env.tooBig
    ensures Serve(Params, app, params + [last]) == Effect(Body, app, More, false, [EmptyParams])
  {
    ParamsRead(app, params);
    ServeAppend(Params, app, params, [last]);
    ServeOne(Params, app, last);
    assert [] + [EmptyParams] == [EmptyParams];
  }

  /** Everything up to the last content record. */
  lemma ReadSoFar(params: seq<Given>, last: Given, ins: seq<Given>)
    requires TakenIn(params, PARAMS) && last.m == Record(PARAMS, 0) && !last.env.tooBig && TakenIn(ins, IN)
    ensures Serve(Params, Start, params + [last] + ins) == Effect(Body, Start, More, false, [EmptyParams])
  {
    ParamsDone(Start, params, last);
    BodyRead(Start, ins);
    ServeAppend(Params, Start, params + [last], ins);
    assert [EmptyParams] + [] == [EmptyParams];
  }

  /** A WELL-BEHAVED REQUEST: any parameters, any content that fits, of a known type.  Nothing is answered before
    * the end of the content; then the response starts, and either schedules the job or is the whole answer. */
  lemma Answered(params: seq<Given>, last: Given, ins: seq<Given>, end: Given)
    requires TakenIn(params, PARAMS) && last.m == Record(PARAMS, 0) && !last.env.tooBig && TakenIn(ins, IN)
    requires end.m == Record(IN, 0) && end.env.typeKnown && !end.env.throws
    ensures Serve(Params, Start, params + [last] + ins).events == [EmptyParams]
    ensures var e := Serve(Params, Start, params + [last] + ins + [end]);
            && (!end.env.answersAtOnce ==>
                  e == Effect(Output, AppState.Finish, More, true, [EmptyParams, EmptyIn, Started, Scheduled]))
            && (end.env.answersAtOnce && end.env.first.Well? ==>
                  e == Effect(Output, Start, Done, false, [EmptyParams, EmptyIn, Started, Wrote, Ended]))
  {
    ReadSoFar(params, last, ins);
    ServeAppend(Params, Start, params + [last] + ins, [end]);
    ServeOne(Body, Start, end);
  }

  /** The parameters announce too much: a page and END_REQUEST, whatever follows. */
  lemma AnnouncesTooMuch(params: seq<Given>, last: Given, rest: seq<Given>)
    requires TakenIn(params, PARAMS) && last.m == Record(PARAMS, 0) && last.env.tooBig && last.env.first.Well?
    ensures Serve(Params, Start, params + [last] + rest) == Effect(Params, Start, Done, false, [Wrote, Ended])
  {
    ParamsRead(Start, params);
    ServeAppend(Params, Start, params, [last]);
    ServeOne(Params, Start, last);
    assert [] + [Wrote, Ended] == [Wrote, Ended];
    ServeAppend(Params, Start, params + [last], rest);
  }

  /** The first record of content that does not fit: a page and END_REQUEST, whatever follows. */
  lemma ReceivesTooMuch(params: seq<Given>, last: Given, ins: seq<Given>, big: Given, rest: seq<Given>)
    requires TakenIn(params, PARAMS) && last.m == Record(PARAMS, 0) && !last.env.tooBig && TakenIn(ins, IN)
    requires big.m.Record? && big.m.kind == IN && big.m.length > 0
    requires !big.env.throws && !big.env.fits && big.env.first.Well?
    ensures Serve(Params, Start, params + [last] + ins + [big] + rest)
         == Effect(Body, Start, Done, false, [EmptyParams, Wrote, Ended])
  {
    ReadSoFar(params, last, ins);
    ServeAppend(Params, Start, params + [last] + ins, [big]);
    ServeOne(Body, Start, big);
    ServeAppend(Params, Start, params + [last] + ins + [big], rest);
  }

  /** Content of unknown type: an exception, answered by a page and END_REQUEST; no response starts. */
  lemma UnknownType(params: seq<Given>, last: Given, ins: seq<Given>, end: Given, rest: seq<Given>)
    requires TakenIn(params, PARAMS) && last.m == Record(PARAMS, 0) && !last.env.tooBig && TakenIn(ins, IN)
    requires end.m == Record(IN, 0) && !end.env.typeKnown
    ensures Attend(Body, Start, end.m, end.env).verdict.Threw?
    ensures end.env.second.Well? ==>
              Serve(Params, Start, params + [last] + ins + [end] + rest)
                == Effect(Body, Start, Done, false, [EmptyParams, Wrote, Ended])
  {
    ReadSoFar(params, last, ins);
    ServeAppend(Params, Start, params + [last] + ins, [end]);
    ServeOne(Body, Start, end);
    ServeAppend(Params, Start, params + [last] + ins + [end], rest);
  }

  /** An abort record ends the request wherever it stands, without END_REQUEST. */
  lemma AbortEnds(stage: Stage, app: AppState, before: seq<Given>, abort: Given, rest: seq<Given>)
    requires Serve(stage, app, before).verdict.More?
    requires abort.m.Record? && abort.m.kind == ABORT_REQUEST
    ensures var e := Serve(stage, app, before + [abort] + rest);
            && e.verdict.Done? && e.events == Serve(stage, app, before).events + [Aborted]
            && e.schedule == Serve(stage, app, before).schedule
  {
    var e := Serve(stage, app, before);
    ServeAppend(stage, app, before, [abort]);
    ServeOne(e.stage, e.app, abort);
    ServeAppend(stage, app, before + [abort], rest);
  }

  /** A record out of order, or one that cannot be taken in, raises an exception; it is answered by a page and
    * END_REQUEST. */
  lemma OutOfOrder(stage: Stage, app: AppState, g: Given)
    requires g.m.Record?
    requires || (g.m.kind == PARAMS && (stage != Params || (g.m.length > 0 && g.env.throws)))
             || (g.m.kind == IN && (stage != Body || (g.m.length > 0 && g.env.throws)))
    ensures Attend(stage, app, g.m, g.env) == Effect(stage, app, Threw, false, [])
    ensures g.env.second.Well? ==>
              Serve(stage, app, [g]) == Effect(stage, app, Done, false, [Wrote, Ended])
  {
    ServeOne(stage, app, g);
  }

  /** Records of other types are passed over. */
  lemma OthersIgnored(stage: Stage, app: AppState, g: Given)
    requires g.m.Record? && g.m.kind != PARAMS && g.m.kind != IN && g.m.kind != ABORT_REQUEST
    ensures Serve(stage, app, [g]) == Effect(stage, app, More, false, [])
  {
    ServeOne(stage, app, g);
  }

  /** The completion message of the job: its result and END_REQUEST, once; a page in place of the result if
    * delivering it throws. */
  lemma CompletionAnswers(g: Given)
    requires g.m.Callback?
    ensures g.env.first.Well? && !g.env.throws ==>
              Serve(Output, AppState.Finish, [g])
                == Effect(Output, AppState.Finish, Done, false, [Finishing, Wrote, Ended])
    ensures g.env.throws && g.env.second.Well? ==>
              Serve(Output, AppState.Finish, [g])
                == Effect(Output, AppState.Finish, Done, false, [Finishing, Wrote, Ended])
  {
    ServeOne(Output, AppState.Finish, g);
  }

  /** How completions that throw are answered, here after the job: one that throws before its END_REQUEST by
    * a second attempt, one that throws behind it by a second END_REQUEST; what the second one throws leaves
    * the handler. */
  lemma CompletionThrows(g: Given)
    requires g.m.Callback? && !g.env.throws && !g.env.first.Well?
    ensures var e := Serve(Output, AppState.Finish, [g]);
            var before :=
              [Finishing, Wrote] + (if g.env.first.ThrowsEarly? then [] else [Ended, SendFailed]);
            match g.env.second
            case Well => e == Effect(Output, AppState.Finish, Done, false, before + [Wrote, Ended])
            case ThrowsEarly => e == Effect(Output, AppState.Finish, Threw, false, before + [Wrote])
            case ThrowsLate => e == Effect(Output, AppState.Finish, Threw, false, before + [Wrote, Ended, SendFailed])
  {
    ServeOne(Output, AppState.Finish, g);
  }

  /** An unknown role is answered by END_REQUEST alone, if that does not throw. */
  lemma RoleRefused(stage: Stage, app: AppState, env: Env)
    ensures env.first.Well? ==> Caught(Refuse(stage, app, env), env) == Effect(stage, app, Done, false, [Ended])
    ensures env.first.ThrowsLate? && env.second.Well? ==>
              Caught(Refuse(stage, app, env), env)
                == Effect(stage, app, Done, false, [Ended, SendFailed, Wrote, Ended])
  {
  }
}
