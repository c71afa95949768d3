/**
 One action at a time: admission, interruption, recovery and poisoning of a browser session
 (`execute` in packages/browser-core/src/browser-core.ts). Promises settle, signals abort and
 deadlines pass at any moment, so the protocol is a transition system over those moments.
 */
module ActionGate {
  import opened Prelude

  datatype Promise = Absent | Pending | Fulfilled | Rejected(interruption: bool)

  /** Where a call of `execute` is: waiting for the transport, for the action, recovering, settling, or gone. */
  datatype Phase = Starting | Acting | Recovering | Settling(recovered: bool) | Released(end: End)

  datatype End = Finished | Interrupted(recovered: bool, settled: bool)

  /** `interruptedAt` is the generation at which an interruption was noticed. */
  datatype Execution = Execution(phase: Phase, start: Promise, action: Promise, aborted: bool,
                                 interruptedAt: Option<nat>)

  datatype Session = Session(
    active: bool, poisoned: bool, generation: nat,
    commandSignal: bool, commandTimeout: bool, commandSessionId: Option<string>,
    executions: seq<Execution>)

  const INITIAL := Session(false, false, 0, false, false, None, [])

  datatype Event =
    | Call(signalAborted: bool, deadlineRejected: bool, startThrows: Option<bool>)
    | StartSettles(i: nat, outcome: Promise)
    | ActionSettles(i: nat, outcome: Promise)
    | ActionTargets(i: nat, sessionId: Option<string>)
    | Abort(i: nat)
    | Resume(i: nat, byAbort: bool)
    | Recovered(i: nat, ok: bool)
    | AllSettled(i: nat)
    | SettleDeadline(i: nat)
    | Navigate

  datatype Refusal = Busy | Poisoned | Cancelled | DeadlineRejected

  /** Why a call is turned away before it touches the session; None admits it. */
  function Refuse(s: Session, signalAborted: bool, deadlineRejected: bool): Option<Refusal> {
    if s.active then Some(Busy)
    else if s.poisoned then Some(Poisoned)
    else if signalAborted then Some(Cancelled)
    else if deadlineRejected then Some(DeadlineRejected)
    else None
  }

  predicate SettledPromise(p: Promise) {
    p.Fulfilled? || p.Rejected?
  }

  function Admit(s: Session, startThrows: Option<bool>): Session {
    var claimed := s.(active := true, commandSignal := true, commandTimeout := true);
    var i := |s.executions|;
    if startThrows.None? then
      claimed.(executions := s.executions + [Execution(Starting, Pending, Absent, false, None)])
    else
      Catch(claimed.(executions := s.executions + [Execution(Starting, Absent, Absent, false, None)]), i,
            startThrows.value)
  }

  function With(s: Session, i: nat, e: Execution): (r: Session)
    requires i < |s.executions|
    ensures r == s.(executions := r.executions) && |r.executions| == |s.executions|
    ensures forall j | 0 <= j < |s.executions| :: r.executions[j] == if j == i then e else s.executions[j]
  {
    s.(executions := s.executions[i := e])
  }

  /** The catch clause: an interruption keeps the gate closed until recovery, any other error releases it. */
  function Catch(s: Session, i: nat, interruption: bool): Session
    requires i < |s.executions|
  {
    var e := s.executions[i];
    if e.aborted || interruption then With(s, i, e.(phase := Recovering, interruptedAt := Some(s.generation)))
    else Release(s, i, Finished)
  }

  /** The finally clause. */
  function Release(s: Session, i: nat, end: End): Session
    requires i < |s.executions|
  {
    With(s, i, s.executions[i].(phase := Released(end))).(active := false, commandSignal := false,
                                                          commandTimeout := false, commandSessionId := None)
  }

  /** The end of an interruption: refs are invalidated, and a session that may still be busy is poisoned. */
  function Finish(s: Session, i: nat, recovered: bool, settled: bool): Session
    requires i < |s.executions|
  {
    Release(s.(generation := s.generation + 1, poisoned := !recovered || !settled), i, Interrupted(recovered, settled))
  }

  /** Continues an execution whose race has been won by its promise or by the abort. */
  function Continue(s: Session, i: nat, byAbort: bool): Session
    requires i < |s.executions|
  {
    var e := s.executions[i];
    match e.phase
    case Starting =>
      if byAbort then (if e.aborted then Catch(s, i, false) else s)
      else (match e.start
        case Fulfilled => With(s, i, e.(phase := Acting, action := Pending))
        case Rejected(interruption) => Catch(s, i, interruption)
        case _ => s)
    case Acting =>
      if byAbort then (if e.aborted then Catch(s, i, false) else s)
      else (match e.action
        case Fulfilled => Release(s, i, Finished)
        case Rejected(interruption) => Catch(s, i, interruption)
        case _ => s)
    case _ => s
  }

  /** An action, as long as it runs, points the session's commands at the frame of its target (`ActionTargets`). */
  function Step(s: Session, event: Event): Session {
    match event
    case Call(signalAborted, deadlineRejected, startThrows) =>
      if Refuse(s, signalAborted, deadlineRejected).Some? then s else Admit(s, startThrows)
    case StartSettles(i, outcome) =>
      if i < |s.executions| && s.executions[i].start.Pending? && SettledPromise(outcome)
      then With(s, i, s.executions[i].(start := outcome)) else s
    case ActionSettles(i, outcome) =>
      if i < |s.executions| && s.executions[i].action.Pending? && SettledPromise(outcome)
      then With(s, i, s.executions[i].(action := outcome)) else s
    case ActionTargets(i, sessionId) =>
      if i < |s.executions| && s.executions[i].action.Pending? then s.(commandSessionId := sessionId) else s
    case Abort(i) =>
      if i < |s.executions| && !s.executions[i].phase.Released? then With(s, i, s.executions[i].(aborted := true))
        else s
    case Resume(i, byAbort) =>
      if i < |s.executions| then Continue(s, i, byAbort) else s
    case Recovered(i, ok) =>
      if i < |s.executions| && s.executions[i].phase.Recovering?
        then With(s, i, s.executions[i].(phase := Settling(ok))) else s
    case AllSettled(i) =>
      if i < |s.executions| && s.executions[i].phase.Settling? && !s.executions[i].start.Pending? &&
        !s.executions[i].action.Pending?
      then Finish(s, i, s.executions[i].phase.recovered, true) else s
    case SettleDeadline(i) =>
      if i < |s.executions| && s.executions[i].phase.Settling?
      then Finish(s, i, s.executions[i].phase.recovered, false) else s
    case Navigate =>
      s.(generation := s.generation + 1)
  }

  function Run(trace: seq<Event>): Session {
    if trace == [] then INITIAL else Step(Run(trace[..|trace| - 1]), trace[|trace| - 1])
  }

  lemma RunSnoc(trace: seq<Event>, event: Event)
    ensures Run(trace + [event]) == Step(Run(trace), event)
  {
    assert (trace + [event])[..|trace|] == trace;
  }

  // ---- The invariant ----

  predicate Quiet(e: Execution) {
    !e.start.Pending? && !e.action.Pending?
  }

  /** An interruption that was not cleanly ended. */
  predicate LeftUncertain(e: Execution) {
    e.phase.Released? && e.phase.end.Interrupted? && !(e.phase.end.recovered && e.phase.end.settled)
  }

  ghost predicate ExecutionOk(generation: nat, e: Execution) {
    && (e.phase.Starting? ==> e.action.Absent? && e.interruptedAt.None?)
    && (e.phase.Acting? ==> e.start.Fulfilled? && e.interruptedAt.None?)
    && (e.phase.Recovering? || e.phase.Settling? ==> e.interruptedAt.Some? && e.interruptedAt.value <= generation)
    && (e.phase.Released? ==> ReleasedOk(generation, e, e.phase.end))
  }

  /** A promise may outlive its execution only if settling was given up. */
  ghost predicate ReleasedOk(generation: nat, e: Execution, end: End) {
    && (end.Interrupted? <==> e.interruptedAt.Some?)
    && (e.interruptedAt.Some? ==> e.interruptedAt.value < generation)
    && (Quiet(e) || (end.Interrupted? && !end.settled))
  }

  ghost predicate GaveUp(e: Execution) {
    e.phase.Released? && e.phase.end.Interrupted? && !e.phase.end.settled
  }

  ghost predicate Inv(s: Session) {
    ExecutionsOk(s) && FieldsOk(s)
  }

  ghost predicate ExecutionsOk(s: Session) {
    var n := |s.executions|;
    && (forall i | 0 <= i < n :: ExecutionOk(s.generation, s.executions[i]))
    && (forall i | 0 <= i < n - 1 :: s.executions[i].phase.Released? && !LeftUncertain(s.executions[i]))
  }

  ghost predicate FieldsOk(s: Session) {
    var n := |s.executions|;
    && (s.active <==> n > 0 && !s.executions[n - 1].phase.Released?)
    && (s.commandSignal <==> s.active) && (s.commandTimeout <==> s.active)
    && (s.poisoned <==> n > 0 && LeftUncertain(s.executions[n - 1]))
    && (s.commandSessionId.Some? && !s.active ==> n > 0 && GaveUp(s.executions[n - 1]))
  }

  /** A change of one execution that neither starts nor ends it. */
  lemma WithKeepsInv(s: Session, i: nat, e: Execution)
    requires Inv(s) && i < |s.executions| && ExecutionOk(s.generation, e)
    requires e.phase == s.executions[i].phase || (!e.phase.Released? && !s.executions[i].phase.Released?)
    ensures Inv(With(s, i, e))
  {
  }

  lemma EndKeepsInv(s: Session, i: nat, generation: nat, poisoned: bool, end: End)
    requires Inv(s) && i < |s.executions| && !s.executions[i].phase.Released? && s.generation <= generation
    requires var e := s.executions[i].(phase := Released(end));
      ExecutionOk(generation, e) && poisoned == LeftUncertain(e)
    ensures Inv(Release(s.(generation := generation, poisoned := poisoned), i, end))
  {
    assert i == |s.executions| - 1;
  }

  lemma CatchKeepsInv(s: Session, i: nat, interruption: bool)
    requires Inv(s) && i < |s.executions| && (s.executions[i].phase.Starting? || s.executions[i].phase.Acting?)
    requires !s.executions[i].aborted && !interruption ==> Quiet(s.executions[i])
    ensures Inv(Catch(s, i, interruption))
  {
    var e := s.executions[i];
    assert ExecutionOk(s.generation, e);
    if e.aborted || interruption {
      WithKeepsInv(s, i, e.(phase := Recovering, interruptedAt := Some(s.generation)));
    } else {
      NotPoisonedWhileActive(s, i);
      EndKeepsInv(s, i, s.generation, s.poisoned, Finished);
    }
  }

  lemma NotPoisonedWhileActive(s: Session, i: nat)
    requires Inv(s) && i < |s.executions| && !s.executions[i].phase.Released?
    ensures !s.poisoned && s.active && i == |s.executions| - 1
  {
  }

  lemma ContinueKeepsInv(s: Session, i: nat, byAbort: bool)
    requires Inv(s) && i < |s.executions|
    ensures Inv(Continue(s, i, byAbort))
  {
    var e := s.executions[i];
    assert ExecutionOk(s.generation, e);
    if e.phase.Starting? || e.phase.Acting? {
      if byAbort {
        if e.aborted {
          CatchKeepsInv(s, i, false);
        }
      } else if e.phase.Starting? {
        if e.start.Rejected? {
          CatchKeepsInv(s, i, e.start.interruption);
        } else if e.start.Fulfilled? {
          WithKeepsInv(s, i, e.(phase := Acting, action := Pending));
        }
      } else if e.action.Rejected? {
        CatchKeepsInv(s, i, e.action.interruption);
      } else if e.action.Fulfilled? {
        NotPoisonedWhileActive(s, i);
        EndKeepsInv(s, i, s.generation, s.poisoned, Finished);
      }
    }
  }

  lemma FinishKeepsInv(s: Session, i: nat, settled: bool)
    requires Inv(s) && i < |s.executions| && s.executions[i].phase.Settling? && (settled ==> Quiet(s.executions[i]))
    ensures Inv(Finish(s, i, s.executions[i].phase.recovered, settled))
  {
    var recovered := s.executions[i].phase.recovered;
    assert ExecutionOk(s.generation, s.executions[i]);
    EndKeepsInv(s, i, s.generation + 1, !recovered || !settled, Interrupted(recovered, settled));
  }

  lemma SettleKeepsInv(s: Session, i: nat, e: Execution)
    requires Inv(s) && i < |s.executions|
    requires e == s.executions[i].(start := e.start, action := e.action, aborted := e.aborted)
    requires e.start == s.executions[i].start || (s.executions[i].start.Pending? && SettledPromise(e.start))
    requires e.action == s.executions[i].action || (s.executions[i].action.Pending? && SettledPromise(e.action))
    ensures Inv(With(s, i, e))
  {
    assert ExecutionOk(s.generation, s.executions[i]);
    WithKeepsInv(s, i, e);
  }

  lemma TargetKeepsInv(s: Session, i: nat, sessionId: Option<string>)
    requires Inv(s) && i < |s.executions| && s.executions[i].action.Pending?
    ensures Inv(s.(commandSessionId := sessionId)) && i == |s.executions| - 1
  {
    assert ExecutionOk(s.generation, s.executions[i]);
  }

  lemma AdmitKeepsInv(s: Session, startThrows: Option<bool>)
    requires Inv(s) && !s.active && !s.poisoned
    ensures Inv(Admit(s, startThrows))
  {
    var i := |s.executions|;
    var e := Execution(Starting, if startThrows.None? then Pending else Absent, Absent, false, None);
    var claimed := s.(active := true, commandSignal := true, commandTimeout := true, executions := s.executions + [e]);
    assert forall j | 0 <= j < i :: claimed.executions[j] == s.executions[j];
    assert Inv(claimed);
    if startThrows.Some? {
      CatchKeepsInv(claimed, i, startThrows.value);
    }
  }

  lemma StepKeepsInv(s: Session, event: Event)
    requires Inv(s)
    ensures Inv(Step(s, event))
  {
    match event
    case Call(signalAborted, deadlineRejected, startThrows) =>
      if Refuse(s, signalAborted, deadlineRejected).None? {
        AdmitKeepsInv(s, startThrows);
      }
    case Navigate =>
      NavigateKeepsInv(s);
    case Resume(i, byAbort) =>
      if i < |s.executions| {
        ContinueKeepsInv(s, i, byAbort);
      }
    case StartSettles(i, outcome) => SettlesKeepInv(s, event, i);
    case ActionSettles(i, outcome) => SettlesKeepInv(s, event, i);
    case ActionTargets(i, sessionId) =>
      if i < |s.executions| && s.executions[i].action.Pending? {
        TargetKeepsInv(s, i, sessionId);
      }
    case Abort(i) => SettlesKeepInv(s, event, i);
    case Recovered(i, ok) =>
      if i < |s.executions| && s.executions[i].phase.Recovering? {
        assert ExecutionOk(s.generation, s.executions[i]);
        WithKeepsInv(s, i, s.executions[i].(phase := Settling(ok)));
      }
    case AllSettled(i) =>
      if i < |s.executions| && s.executions[i].phase.Settling? && Quiet(s.executions[i]) {
        FinishKeepsInv(s, i, true);
      }
    case SettleDeadline(i) =>
      if i < |s.executions| && s.executions[i].phase.Settling? {
        FinishKeepsInv(s, i, false);
      }
  }

  lemma NavigateKeepsInv(s: Session)
    requires Inv(s)
    ensures Inv(s.(generation := s.generation + 1))
  {
    forall i | 0 <= i < |s.executions| ensures ExecutionOk(s.generation + 1, s.executions[i]) {
      assert ExecutionOk(s.generation, s.executions[i]);
    }
  }

  lemma SettlesKeepInv(s: Session, event: Event, i: nat)
    requires Inv(s)
    requires (event.StartSettles? && event.i == i) || (event.ActionSettles? && event.i == i) || event == Abort(i)
    ensures Inv(Step(s, event))
  {
    if i < |s.executions| {
      var e := s.executions[i];
      match event
      case StartSettles(_, outcome) =>
        if e.start.Pending? && SettledPromise(outcome) {
          SettleKeepsInv(s, i, e.(start := outcome));
        }
      case ActionSettles(_, outcome) =>
        if e.action.Pending? && SettledPromise(outcome) {
          SettleKeepsInv(s, i, e.(action := outcome));
        }
      case Abort(_) =>
        if !e.phase.Released? {
          SettleKeepsInv(s, i, e.(aborted := true));
        }
    }
  }

  lemma {:induction false} RunKeepsInv(trace: seq<Event>)
    ensures Inv(Run(trace))
  {
    if trace != [] {
      RunKeepsInv(trace[..|trace| - 1]);
      StepKeepsInv(Run(trace[..|trace| - 1]), trace[|trace| - 1]);
    }
  }

  // ---- Main results ----

  lemma QuietUnlessPoisoned(s: Session, e: Execution)
    requires Inv(s) && !s.active && !s.poisoned && e in s.executions
    ensures e.phase.Released? && Quiet(e)
  {
    var i :| 0 <= i < |s.executions| && s.executions[i] == e;
    assert ExecutionOk(s.generation, s.executions[i]);
  }

  /**
   A call is admitted only when every earlier call has been released with its start and its action
   settled, however they were aborted, timed out or rejected; it finds no command field of an earlier one.
   */
  lemma AdmissionMeansQuiet(trace: seq<Event>, call: Event)
    requires call.Call? && Refuse(Run(trace), call.signalAborted, call.deadlineRejected).None?
    ensures var s := Run(trace);
      && (forall e | e in s.executions :: e.phase.Released? && Quiet(e))
      && !s.commandSignal && !s.commandTimeout && s.commandSessionId.None?
      && |Step(s, call).executions| == |s.executions| + 1
  {
    RunKeepsInv(trace);
    var s := Run(trace);
    forall e | e in s.executions ensures e.phase.Released? && Quiet(e) {
      QuietUnlessPoisoned(s, e);
    }
  }

  lemma HeldByLast(s: Session)
    requires Inv(s)
    ensures s.active <==> exists e | e in s.executions :: !e.phase.Released?
  {
    if s.active {
      assert s.executions[|s.executions| - 1] in s.executions;
    }
  }

  /**
   At most one call holds the session, and it is the last one admitted. The signal and the timeout are set exactly
   while it does; the session id of its commands is unset whenever no call holds a session that is not poisoned.
   */
  lemma OneAtATime(trace: seq<Event>)
    ensures var s := Run(trace);
      && (forall i | 0 <= i < |s.executions| - 1 :: s.executions[i].phase.Released?)
      && (s.active <==> exists e | e in s.executions :: !e.phase.Released?)
      && s.commandSignal == s.active && s.commandTimeout == s.active
      && (!s.active && !s.poisoned ==> s.commandSessionId.None?)
  {
    RunKeepsInv(trace);
    HeldByLast(Run(trace));
  }

  lemma StepClearsFields(s: Session, event: Event)
    requires s.active && !Step(s, event).active
    ensures var next := Step(s, event); !next.commandSignal && !next.commandTimeout && next.commandSessionId.None?
  {
  }

  /** Whichever way a call ends, all three command fields are unset when it releases the session. */
  lemma ReleaseClearsFields(trace: seq<Event>, event: Event)
    requires Run(trace).active && !Run(trace + [event]).active
    ensures var next := Run(trace + [event]); !next.commandSignal && !next.commandTimeout && next.commandSessionId.None?
  {
    RunSnoc(trace, event);
    StepClearsFields(Run(trace), event);
  }

  lemma SetByLast(s: Session, event: Event)
    requires Inv(s) && event.ActionTargets? && Step(s, event) != s
    ensures event.i == |s.executions| - 1 && s.executions[event.i].action.Pending?
    ensures s.active || GaveUp(s.executions[event.i])
  {
    TargetKeepsInv(s, event.i, event.sessionId);
    assert ExecutionOk(s.generation, s.executions[event.i]);
  }

  lemma UncertainWhenGivenUp(s: Session, i: nat)
    requires Inv(s) && i < |s.executions| && i == |s.executions| - 1
    ensures GaveUp(s.executions[i]) ==> s.poisoned
  {
  }

  /**
   The session id is only ever set by the action of the last call admitted: the one that holds the session, or one that
   was released, poisoning the session, while its action was still pending. Such a late id stays, but no call follows.
   */
  lemma SessionIdIsOfLastAction(trace: seq<Event>, event: Event)
    requires event.ActionTargets? && Step(Run(trace), event) != Run(trace)
    ensures var s := Run(trace);
      && event.i == |s.executions| - 1 && s.executions[event.i].action.Pending?
      && (s.active || (s.poisoned && GaveUp(s.executions[event.i])))
  {
    var s := Run(trace);
    RunKeepsInv(trace);
    SetByLast(s, event);
    UncertainWhenGivenUp(s, event.i);
  }

  const STARTED: seq<Event> := [Call(false, false, None), StartSettles(0, Fulfilled), Resume(0, false)]
  const GIVEN_UP: seq<Event> := [Abort(0), Resume(0, true), Recovered(0, true), SettleDeadline(0)]

  function Only(s: Session, e: Execution): Session {
    s.(executions := [e])
  }

  lemma RunPair(trace: seq<Event>, a: Event, b: Event)
    ensures Run(trace + [a, b]) == Step(Step(Run(trace), a), b)
  {
    RunSnoc(trace, a);
    RunSnoc(trace + [a], b);
    assert trace + [a, b] == trace + [a] + [b];
  }

  lemma StartedSteps()
    ensures Step(Step(Step(INITIAL, STARTED[0]), STARTED[1]), STARTED[2])
      == Session(true, false, 0, true, true, None, [Execution(Acting, Fulfilled, Pending, false, None)])
  {
    var called := Session(true, false, 0, true, true, None, [Execution(Starting, Pending, Absent, false, None)]);
    assert Step(INITIAL, STARTED[0]) == called;
    assert Step(called, STARTED[1]) == Only(called, Execution(Starting, Fulfilled, Absent, false, None));
  }

  lemma StartedActs()
    ensures Run(STARTED) ==
      Session(true, false, 0, true, true, None, [Execution(Acting, Fulfilled, Pending, false, None)])
  {
    StartedSteps();
    RunStarted([], STARTED[0], STARTED[1], STARTED[2]);
    assert [] + [STARTED[0], STARTED[1], STARTED[2]] == STARTED;
  }

  lemma RunStarted(trace: seq<Event>, a: Event, b: Event, c: Event)
    ensures Run(trace + [a, b, c]) == Step(Step(Step(Run(trace), a), b), c)
  {
    RunPair(trace, a, b);
    RunSnoc(trace + [a, b], c);
    assert trace + [a, b, c] == trace + [a, b] + [c];
  }

  lemma GivenUpPoisons(acting: Session)
    requires acting == Session(true, false, 0, true, true, None, [Execution(Acting, Fulfilled, Pending, false, None)])
    ensures var s := Step(Step(Step(Step(acting, GIVEN_UP[0]), GIVEN_UP[1]), GIVEN_UP[2]), GIVEN_UP[3]);
      !s.active && s.poisoned && |s.executions| == 1 && s.executions[0].action.Pending?
  {
    var aborted := Only(acting, Execution(Acting, Fulfilled, Pending, true, None));
    var recovering := Only(acting, Execution(Recovering, Fulfilled, Pending, true, Some(0)));
    var settling := Only(acting, Execution(Settling(true), Fulfilled, Pending, true, Some(0)));
    assert Step(acting, GIVEN_UP[0]) == aborted && Step(aborted, GIVEN_UP[1]) == recovering;
    assert Step(recovering, GIVEN_UP[2]) == settling;
  }

  lemma RunGivenUp(trace: seq<Event>, a: Event, b: Event, c: Event, d: Event)
    ensures Run(trace + [a, b, c, d]) == Step(Step(Step(Step(Run(trace), a), b), c), d)
  {
    RunPair(trace, a, b);
    RunPair(trace + [a, b], c, d);
    assert trace + [a, b, c, d] == trace + [a, b] + [c, d];
  }

  /** An action that outlives its poisoned release can leave its session id behind. */
  lemma LateActionLeavesSessionId(sessionId: string)
    ensures var s := Run(STARTED + GIVEN_UP + [ActionTargets(0, Some(sessionId))]);
      !s.active && s.poisoned && s.commandSessionId == Some(sessionId)
  {
    StartedActs();
    GivenUpPoisons(Run(STARTED));
    RunGivenUp(STARTED, GIVEN_UP[0], GIVEN_UP[1], GIVEN_UP[2], GIVEN_UP[3]);
    RunSnoc(STARTED + GIVEN_UP, ActionTargets(0, Some(sessionId)));
  }

  lemma UncertainIffPoisoned(s: Session)
    requires Inv(s)
    ensures s.poisoned <==> exists e | e in s.executions :: LeftUncertain(e)
  {
    if s.poisoned {
      assert s.executions[|s.executions| - 1] in s.executions;
    }
  }

  /** The session is poisoned exactly when some interruption was not recovered or its promises did not settle. */
  lemma PoisonedIffUncertain(trace: seq<Event>)
    ensures Run(trace).poisoned <==> exists e | e in Run(trace).executions :: LeftUncertain(e)
  {
    RunKeepsInv(trace);
    UncertainIffPoisoned(Run(trace));
  }

  lemma PoisonedStep(s: Session, event: Event)
    requires Inv(s) && s.poisoned
    ensures Step(s, event).poisoned && |Step(s, event).executions| == |s.executions|
  {
    assert forall i | 0 <= i < |s.executions| :: s.executions[i].phase.Released?;
  }

  /** Once poisoned, whatever happens, the session stays poisoned and admits nothing. */
  lemma {:induction false} PoisonIsFinal(trace: seq<Event>, more: seq<Event>)
    requires Run(trace).poisoned
    ensures Run(trace + more).poisoned && |Run(trace + more).executions| == |Run(trace).executions|
    decreases |more|
  {
    if more == [] {
      assert trace + more == trace;
    } else {
      var fewer, last := more[..|more| - 1], more[|more| - 1];
      PoisonIsFinal(trace, fewer);
      RunKeepsInv(trace + fewer);
      PoisonedStep(Run(trace + fewer), last);
      RunSnoc(trace + fewer, last);
      assert trace + fewer + [last] == trace + more;
    }
  }

  lemma InterruptedBefore(s: Session, i: nat)
    requires Inv(s) && i < |s.executions| && s.executions[i].interruptedAt.Some?
    ensures s.executions[i].interruptedAt.value <= s.generation
    ensures !s.active ==> s.executions[i].interruptedAt.value < s.generation
  {
    assert ExecutionOk(s.generation, s.executions[i]);
  }

  /** Every interruption raises the generation before the gate opens again: refs issued before it are then outdated. */
  lemma InterruptionRaisesGeneration(trace: seq<Event>, i: nat)
    requires i < |Run(trace).executions| && Run(trace).executions[i].interruptedAt.Some?
    ensures Run(trace).executions[i].interruptedAt.value <= Run(trace).generation
    ensures !Run(trace).active ==> Run(trace).executions[i].interruptedAt.value < Run(trace).generation
  {
    RunKeepsInv(trace);
    InterruptedBefore(Run(trace), i);
  }

  lemma ReleasedByResume(s: Session, i: nat, byAbort: bool)
    requires Inv(s) && i < |s.executions| && !s.executions[i].phase.Released?
    ensures var next := Continue(s, i, byAbort);
      next.executions[i].phase.Released? ==>
        next.generation == s.generation && !next.poisoned && !next.active && Quiet(next.executions[i])
  {
    NotPoisonedWhileActive(s, i);
    ContinueKeepsInv(s, i, byAbort);
    assert ExecutionOk(s.generation, s.executions[i]);
  }

  /** A call that ends without an interruption leaves generation and poison alone. */
  lemma OrdinaryEndChangesNothing(trace: seq<Event>, i: nat, byAbort: bool)
    requires i < |Run(trace).executions| && !Run(trace).executions[i].phase.Released?
    ensures var next := Step(Run(trace), Resume(i, byAbort));
      next.executions[i].phase.Released? ==>
        next.generation == Run(trace).generation && !next.poisoned && !next.active && Quiet(next.executions[i])
  {
    RunKeepsInv(trace);
    ReleasedByResume(Run(trace), i, byAbort);
  }

  // ---- Which call is admitted ----

  ghost predicate AllReleased(s: Session) {
    forall e | e in s.executions :: e.phase.Released?
  }

  ghost predicate SomeUncertain(s: Session) {
    exists e | e in s.executions :: LeftUncertain(e)
  }

  /**
   A call is admitted exactly when every earlier one is released, none has left the session uncertain, and its own
   signal and deadline allow it. Otherwise the first of these reasons is given, in this order.
   */
  lemma AdmittedIff(trace: seq<Event>, signalAborted: bool, deadlineRejected: bool)
    ensures var s := Run(trace);
      Refuse(s, signalAborted, deadlineRejected) ==
        if !AllReleased(s) then Some(Busy)
        else if SomeUncertain(s) then Some(Poisoned)
        else if signalAborted then Some(Cancelled)
        else if deadlineRejected then Some(DeadlineRejected)
        else None
  {
    OneAtATime(trace);
    PoisonedIffUncertain(trace);
  }

  // ---- How calls end ----

  /** The session while its last call is at `e`. */
  function At(s: Session, e: Execution): Session
    requires s.executions != []
  {
    s.(executions := s.executions[|s.executions| - 1 := e])
  }

  /** A call whose start and action settle without interruption leaves the session as it found it. */
  lemma UninterruptedCallEnds(trace: seq<Event>, outcome: Promise)
    requires AllReleased(Run(trace)) && !SomeUncertain(Run(trace)) && outcome in {Fulfilled, Rejected(false)}
    ensures var s, i := Run(trace), |Run(trace).executions|;
      Run(trace + [Call(false, false, None), StartSettles(i, Fulfilled), Resume(i, false)] +
          [ActionSettles(i, outcome), Resume(i, false)]) ==
        s.(executions := s.executions + [Execution(Released(Finished), Fulfilled, outcome, false, None)])
  {
    var s, i := Run(trace), |Run(trace).executions|;
    AdmittedIff(trace, false, false);
    OneAtATime(trace);
    StartSteps(s);
    ActionSteps(s, outcome);
    RunStarted(trace, Call(false, false, None), StartSettles(i, Fulfilled), Resume(i, false));
    RunPair(trace + [Call(false, false, None), StartSettles(i, Fulfilled), Resume(i, false)], ActionSettles(i, outcome),
            Resume(i, false));
  }

  function Held(s: Session, e: Execution): Session {
    s.(active := true, commandSignal := true, commandTimeout := true, executions := s.executions + [e])
  }

  lemma HeldAt(s: Session, e: Execution, f: Execution)
    ensures With(Held(s, e), |s.executions|, f) == Held(s, f) && Held(s, e).executions[|s.executions|] == e
  {
    assert (s.executions + [e])[|s.executions| := f] == s.executions + [f];
  }

  lemma StartSteps(s: Session)
    requires Refuse(s, false, false).None?
    ensures var i := |s.executions|;
      Step(Step(Step(s, Call(false, false, None)), StartSettles(i, Fulfilled)), Resume(i, false)) ==
        Held(s, Execution(Acting, Fulfilled, Pending, false, None))
  {
    var called, started := Execution(Starting, Pending, Absent, false, None),
                           Execution(Starting, Fulfilled, Absent, false, None);
    HeldAt(s, called, started);
    HeldAt(s, started, Execution(Acting, Fulfilled, Pending, false, None));
  }

  lemma ActionSteps(s: Session, outcome: Promise)
    requires outcome in {Fulfilled, Rejected(false)}
    requires !s.active && !s.commandSignal && !s.commandTimeout && s.commandSessionId.None?
    ensures var i, acting := |s.executions|, Held(s, Execution(Acting, Fulfilled, Pending, false, None));
      Step(Step(acting, ActionSettles(i, outcome)), Resume(i, false)) ==
        s.(executions := s.executions + [Execution(Released(Finished), Fulfilled, outcome, false, None)])
  {
    var settled := Execution(Acting, Fulfilled, outcome, false, None);
    HeldAt(s, Execution(Acting, Fulfilled, Pending, false, None), settled);
    HeldAt(s, settled, settled.(phase := Released(Finished)));
  }

  /** A call that is aborted while it waits for its start or its action goes on to settle what it began. */
  lemma AbortedCallSettles(trace: seq<Event>, i: nat, ok: bool)
    requires i < |Run(trace).executions|
    requires Run(trace).executions[i].phase.Starting? || Run(trace).executions[i].phase.Acting?
    ensures var s := Run(trace);
      i == |s.executions| - 1 && s.active && !s.poisoned
    ensures var s := Run(trace);
      Run(trace + [Abort(i), Resume(i, true), Recovered(i, ok)]) ==
        At(s, s.executions[i].(phase := Settling(ok), aborted := true, interruptedAt := Some(s.generation)))
  {
    RunKeepsInv(trace);
    var s := Run(trace);
    NotPoisonedWhileActive(s, i);
    var e := s.executions[i].(aborted := true);
    var caught := e.(phase := Recovering, interruptedAt := Some(s.generation));
    assert Step(s, Abort(i)) == At(s, e);
    assert Step(At(s, e), Resume(i, true)) == At(s, caught);
    assert Step(At(s, caught), Recovered(i, ok)) == At(s, caught.(phase := Settling(ok)));
    RunStarted(trace, Abort(i), Resume(i, true), Recovered(i, ok));
  }

  /** What the call waits for. */
  function Awaited(e: Execution): Promise {
    if e.phase.Starting? then e.start else e.action
  }

  /** `next` is what becomes of a waiting call `e` when the abort, or else what it waits for, is noticed. */
  predicate GoesOn(e: Execution, generation: nat, byAbort: bool, next: Execution) {
    && (next.phase.Released? <==>
          !byAbort && ((e.phase.Acting? && e.action.Fulfilled?) || (Awaited(e) == Rejected(false) && !e.aborted)))
    && (next.phase.Recovering? <==>
          if byAbort then e.aborted else Awaited(e).Rejected? && (e.aborted || Awaited(e).interruption))
    && (next.phase.Recovering? ==> next.interruptedAt == Some(generation))
  }

  lemma ContinueGoesOn(s: Session, i: nat, byAbort: bool)
    requires i < |s.executions| && (s.executions[i].phase.Starting? || s.executions[i].phase.Acting?)
    ensures GoesOn(s.executions[i], s.generation, byAbort, Continue(s, i, byAbort).executions[i])
  {
    CatchGoesOn(s, i, false);
    CatchGoesOn(s, i, true);
    if s.executions[i].phase.Starting? {
      assert byAbort || Awaited(s.executions[i]) == s.executions[i].start;
    } else {
      assert byAbort || Awaited(s.executions[i]) == s.executions[i].action;
    }
  }

  lemma CatchGoesOn(s: Session, i: nat, interruption: bool)
    requires i < |s.executions|
    ensures var e, next := s.executions[i], Catch(s, i, interruption).executions[i];
      next.phase == (if e.aborted || interruption then Recovering else Released(Finished)) &&
      (next.phase.Recovering? ==> next.interruptedAt == Some(s.generation))
  {
  }

  /**
   A call that waits is released when its action succeeds, or when what it waits for fails without interruption before
   an abort. An abort, or a failure that is an interruption, makes it recover first, whichever is noticed.
   */
  lemma WaitingCallEndsIff(trace: seq<Event>, i: nat, byAbort: bool)
    requires i < |Run(trace).executions|
    requires Run(trace).executions[i].phase.Starting? || Run(trace).executions[i].phase.Acting?
    ensures var s, next := Run(trace), Run(trace + [Resume(i, byAbort)]);
      GoesOn(s.executions[i], s.generation, byAbort, next.executions[i])
  {
    RunSnoc(trace, Resume(i, byAbort));
    ContinueGoesOn(Run(trace), i, byAbort);
  }

  /** What an interrupted call leaves: nothing is set, refs are outdated, and the session is usable if all went well. */
  predicate IsLeft(s: Session, t: Session, i: nat, recovered: bool, settled: bool)
    requires i < |s.executions|
  {
    && !t.active && !t.commandSignal && !t.commandTimeout && t.commandSessionId.None?
    && t.generation == s.generation + 1 && t.poisoned == !(recovered && settled)
    && t.executions == s.executions[i := s.executions[i].(phase := Released(Interrupted(recovered, settled)))]
  }

  lemma FinishLeaves(s: Session, i: nat, recovered: bool, settled: bool)
    requires i < |s.executions|
    ensures IsLeft(s, Finish(s, i, recovered, settled), i, recovered, settled)
  {
  }

  lemma SettlingSteps(s: Session, i: nat)
    requires i < |s.executions| && s.executions[i].phase.Settling?
    ensures var recovered := s.executions[i].phase.recovered;
      && Step(s, AllSettled(i)) == (if Quiet(s.executions[i]) then Finish(s, i, recovered, true) else s)
      && Step(s, SettleDeadline(i)) == Finish(s, i, recovered, false)
  {
  }

  /**
   Once an interruption is settling, the call ends when the start and the action have settled; until then nothing but
   the deadline ends it, and that poisons the session.
   */
  lemma SettlingCallEnds(trace: seq<Event>, i: nat)
    requires i < |Run(trace).executions| && Run(trace).executions[i].phase.Settling?
    ensures var s, e := Run(trace), Run(trace).executions[i];
      var all, late := Run(trace + [AllSettled(i)]), Run(trace + [SettleDeadline(i)]);
      && (if Quiet(e) then IsLeft(s, all, i, e.phase.recovered, true) else all == s)
      && IsLeft(s, late, i, e.phase.recovered, false)
  {
    RunSnoc(trace, AllSettled(i));
    RunSnoc(trace, SettleDeadline(i));
    SettlingSteps(Run(trace), i);
    FinishLeaves(Run(trace), i, Run(trace).executions[i].phase.recovered, true);
    FinishLeaves(Run(trace), i, Run(trace).executions[i].phase.recovered, false);
  }

  /** A start that throws at once leaves the session as it was, or if that was an interruption, recovering. */
  lemma ThrowingStartEnds(trace: seq<Event>, interruption: bool)
    requires AllReleased(Run(trace)) && !SomeUncertain(Run(trace))
    ensures var s, next := Run(trace), Run(trace + [Call(false, false, Some(interruption))]);
      next == if interruption
              then Held(s, Execution(Recovering, Absent, Absent, false, Some(s.generation)))
              else s.(executions := s.executions + [Execution(Released(Finished), Absent, Absent, false, None)])
  {
    var s, starting := Run(trace), Execution(Starting, Absent, Absent, false, None);
    AdmittedIff(trace, false, false);
    OneAtATime(trace);
    RunSnoc(trace, Call(false, false, Some(interruption)));
    HeldAt(s, starting, starting.(phase := Recovering, interruptedAt := Some(s.generation)));
    HeldAt(s, starting, starting.(phase := Released(Finished)));
  }

  // ---- What raises the generation ----

  function Navigations(trace: seq<Event>): nat {
    if trace == [] then 0 else Navigations(trace[..|trace| - 1]) + if trace[|trace| - 1].Navigate? then 1 else 0
  }

  predicate EndedInterrupted(e: Execution) {
    e.phase.Released? && e.phase.end.Interrupted?
  }

  function Interruptions(executions: seq<Execution>): nat {
    if executions == [] then 0
    else
      var n := |executions| - 1;
      Interruptions(executions[..n]) + if EndedInterrupted(executions[n]) then 1 else 0
  }

  lemma {:induction false} SameInterruptions(a: seq<Execution>, b: seq<Execution>)
    requires |a| == |b| && forall i | 0 <= i < |a| :: EndedInterrupted(a[i]) == EndedInterrupted(b[i])
    ensures Interruptions(a) == Interruptions(b)
  {
    if a != [] {
      SameInterruptions(a[..|a| - 1], b[..|b| - 1]);
    }
  }

  lemma OneMoreExecution(executions: seq<Execution>, e: Execution)
    ensures Interruptions(executions + [e]) == Interruptions(executions) + if EndedInterrupted(e) then 1 else 0
  {
    assert (executions + [e])[..|executions|] == executions;
  }

  lemma FinishCounts(s: Session, i: nat, recovered: bool, settled: bool)
    requires Inv(s) && i < |s.executions| && s.executions[i].phase.Settling?
    ensures Interruptions(Finish(s, i, recovered, settled).executions) == Interruptions(s.executions) + 1
  {
    var before := s.executions[..i];
    NotPoisonedWhileActive(s, i);
    assert s.executions == before + [s.executions[i]];
    OneMoreExecution(before, s.executions[i]);
    OneMoreExecution(before, s.executions[i].(phase := Released(Interrupted(recovered, settled))));
    assert Finish(s, i, recovered, settled).executions ==
      before + [s.executions[i].(phase := Released(Interrupted(recovered, settled)))];
  }

  /** What the step of an event adds to the generation. */
  predicate Counted(s: Session, t: Session, event: Event) {
    t.generation + Interruptions(s.executions) ==
      s.generation + Interruptions(t.executions) + if event.Navigate? then 1 else 0
  }

  lemma WithCounts(s: Session, i: nat, e: Execution)
    requires i < |s.executions| && EndedInterrupted(e) == EndedInterrupted(s.executions[i])
    ensures Interruptions(With(s, i, e).executions) == Interruptions(s.executions)
  {
    SameInterruptions(s.executions, With(s, i, e).executions);
  }

  lemma CatchCounts(s: Session, i: nat, interruption: bool)
    requires i < |s.executions| && !s.executions[i].phase.Released?
    ensures var t := Catch(s, i, interruption);
      t.generation == s.generation && Interruptions(t.executions) == Interruptions(s.executions)
  {
    WithCounts(s, i, s.executions[i].(phase := Recovering, interruptedAt := Some(s.generation)));
    WithCounts(s, i, s.executions[i].(phase := Released(Finished)));
  }

  /** What `t` counts is what `s` counts. */
  predicate CountsSame(s: Session, t: Session) {
    t.generation == s.generation && Interruptions(t.executions) == Interruptions(s.executions)
  }

  lemma NoticedCounts(s: Session, i: nat, p: Promise, done: Session)
    requires i < |s.executions| && !s.executions[i].phase.Released? && CountsSame(s, done)
    ensures CountsSame(s, Catch(s, i, false))
    ensures CountsSame(s, match p case Fulfilled => done case Rejected(x) => Catch(s, i, x) case _ => s)
  {
    CatchCounts(s, i, false);
    CatchCounts(s, i, true);
  }

  lemma ContinueCounts(s: Session, i: nat, byAbort: bool)
    requires i < |s.executions|
    ensures CountsSame(s, Continue(s, i, byAbort))
  {
    var e := s.executions[i];
    if e.phase.Starting? {
      WithCounts(s, i, e.(phase := Acting, action := Pending));
      NoticedCounts(s, i, e.start, With(s, i, e.(phase := Acting, action := Pending)));
    } else if e.phase.Acting? {
      WithCounts(s, i, e.(phase := Released(Finished)));
      NoticedCounts(s, i, e.action, Release(s, i, Finished));
    }
  }

  lemma AdmitCounts(s: Session, startThrows: Option<bool>)
    ensures var t := Admit(s, startThrows);
      t.generation == s.generation && Interruptions(t.executions) == Interruptions(s.executions)
  {
    var t, i := Admit(s, startThrows), |s.executions|;
    assert t.executions == s.executions + [t.executions[i]] && !EndedInterrupted(t.executions[i]);
    OneMoreExecution(s.executions, t.executions[i]);
  }

  lemma StepCounts(s: Session, event: Event)
    requires Inv(s)
    ensures Counted(s, Step(s, event), event)
  {
    match event
    case Call(_, _, startThrows) => AdmitCounts(s, startThrows);
    case Resume(i, byAbort) =>
      if i < |s.executions| {
        ContinueCounts(s, i, byAbort);
      }
    case AllSettled(i) =>
      if i < |s.executions| && s.executions[i].phase.Settling? {
        FinishCounts(s, i, s.executions[i].phase.recovered, true);
      }
    case SettleDeadline(i) =>
      if i < |s.executions| && s.executions[i].phase.Settling? {
        FinishCounts(s, i, s.executions[i].phase.recovered, false);
      }
    case StartSettles(i, outcome) =>
      if i < |s.executions| {
        WithCounts(s, i, s.executions[i].(start := outcome));
      }
    case ActionSettles(i, outcome) =>
      if i < |s.executions| {
        WithCounts(s, i, s.executions[i].(action := outcome));
      }
    case Abort(i) =>
      if i < |s.executions| {
        WithCounts(s, i, s.executions[i].(aborted := true));
      }
    case Recovered(i, ok) =>
      if i < |s.executions| && s.executions[i].phase.Recovering? {
        WithCounts(s, i, s.executions[i].(phase := Settling(ok)));
      }
    case _ =>
  }

  /** The generation counts the navigations and the calls that ended interrupted, and nothing else. */
  lemma {:induction false} GenerationCounts(trace: seq<Event>)
    ensures Run(trace).generation == Navigations(trace) + Interruptions(Run(trace).executions)
  {
    if trace != [] {
      var shorter := trace[..|trace| - 1];
      GenerationCounts(shorter);
      RunKeepsInv(shorter);
      StepCounts(Run(shorter), trace[|trace| - 1]);
    }
  }
}
