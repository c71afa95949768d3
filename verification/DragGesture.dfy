/**
 A drag gesture over a connection on which every command may fail: whatever fails, the next action
 must not inherit a pressed button or intercepted drags
 (`dispatchDragGesture` in packages/browser-core/src/cdp-helper.ts).
 */
module DragGesture {
  import opened Prelude

  datatype Command =
    | MoveTo(pressed: bool) | Press | ReleaseButton | Intercept(on: bool)
    | DragEnter | DragOver | Drop | Cancel

  /** A command that was sent, and whether the browser acknowledged it. */
  datatype Sent = Sent(command: Command, acked: bool)

  datatype Failure = Interruption | OtherFailure | DropDispatchFailed
  datatype Outcome = Html5Drag | PointerDrag | Failed(failure: Failure)

  // ---- What a log of commands leaves behind ----

  datatype Account = Account(owesPointer: bool, owesIntercept: bool, released: bool, dropped: bool)

  function Book(a: Account, s: Sent): Account {
    match s.command
    case Press => if s.acked then a.(owesPointer := true) else a
    case ReleaseButton => a.(owesPointer := false, released := a.released || s.acked)
    case Drop => if s.acked then a.(owesPointer := false, dropped := true) else a
    case Cancel => a.(owesPointer := false)
    case Intercept(on) => if on then (if s.acked then a.(owesIntercept := true) else a) else a.(owesIntercept := false)
    case _ => a
  }

  function Tally(log: seq<Sent>): Account {
    if log == [] then Account(false, false, false, false) else Book(Tally(log[..|log| - 1]), log[|log| - 1])
  }

  /** Position `j` takes back an acknowledged press: a release or a cancel was tried, or a drop acknowledged. */
  predicate TakesBackPress(s: Sent) {
    s.command.ReleaseButton? || s.command.Cancel? || (s.command.Drop? && s.acked)
  }

  ghost predicate PressesTakenBack(log: seq<Sent>) {
    forall i | 0 <= i < |log| && log[i].command.Press? && log[i].acked ::
      exists j :: i < j < |log| && TakesBackPress(log[j])
  }

  ghost predicate InterceptionsTakenBack(log: seq<Sent>) {
    forall i | 0 <= i < |log| && log[i].command == Intercept(true) && log[i].acked ::
      exists j :: i < j < |log| && log[j].command == Intercept(false)
  }

  ghost predicate Acked(log: seq<Sent>, command: Command) {
    exists i :: 0 <= i < |log| && log[i] == Sent(command, true)
  }

  /** The account says exactly what the log leaves to be taken back, and what was acknowledged. */
  lemma {:induction false} TallyIsExact(log: seq<Sent>)
    ensures !Tally(log).owesPointer <==> PressesTakenBack(log)
    ensures !Tally(log).owesIntercept <==> InterceptionsTakenBack(log)
    ensures Tally(log).released <==> Acked(log, ReleaseButton)
    ensures Tally(log).dropped <==> Acked(log, Drop)
  {
    if log != [] {
      TallyIsExact(log[..|log| - 1]);
      PressStep(log);
      InterceptionStep(log);
      AckedStep(log, ReleaseButton);
      AckedStep(log, Drop);
    }
  }

  lemma PressStep(log: seq<Sent>)
    requires log != []
    ensures PressesTakenBack(log) <==>
      TakesBackPress(log[|log| - 1]) ||
        (PressesTakenBack(log[..|log| - 1]) && !(log[|log| - 1].command.Press? && log[|log| - 1].acked))
  {
    var n := |log| - 1;
    var shorter := log[..n];
    if PressesTakenBack(log) && !TakesBackPress(log[n]) {
      forall i | 0 <= i < n && shorter[i].command.Press? && shorter[i].acked
        ensures exists j :: i < j < n && TakesBackPress(shorter[j])
      {
        var j :| i < j < |log| && TakesBackPress(log[j]);
        assert TakesBackPress(shorter[j]);
      }
    } else if PressesTakenBack(shorter) && !(log[n].command.Press? && log[n].acked) {
      forall i | 0 <= i < |log| && log[i].command.Press? && log[i].acked
        ensures exists j :: i < j < |log| && TakesBackPress(log[j])
      {
        assert shorter[i] == log[i];
        var j :| i < j < n && TakesBackPress(shorter[j]);
        assert TakesBackPress(log[j]);
      }
    }
  }

  lemma InterceptionStep(log: seq<Sent>)
    requires log != []
    ensures InterceptionsTakenBack(log) <==>
      log[|log| - 1].command == Intercept(false) ||
        (InterceptionsTakenBack(log[..|log| - 1]) && log[|log| - 1] != Sent(Intercept(true), true))
  {
    var n := |log| - 1;
    var shorter := log[..n];
    if InterceptionsTakenBack(log) && log[n].command != Intercept(false) {
      forall i | 0 <= i < n && shorter[i].command == Intercept(true) && shorter[i].acked
        ensures exists j :: i < j < n && shorter[j].command == Intercept(false)
      {
        var j :| i < j < |log| && log[j].command == Intercept(false);
        assert shorter[j].command == Intercept(false);
      }
    } else if InterceptionsTakenBack(shorter) && log[n] != Sent(Intercept(true), true) {
      forall i | 0 <= i < |log| && log[i].command == Intercept(true) && log[i].acked
        ensures exists j :: i < j < |log| && log[j].command == Intercept(false)
      {
        assert shorter[i] == log[i];
        var j :| i < j < n && shorter[j].command == Intercept(false);
        assert log[j].command == Intercept(false);
      }
    }
  }

  lemma AckedStep(log: seq<Sent>, command: Command)
    requires log != []
    ensures Acked(log, command) <==> Acked(log[..|log| - 1], command) || log[|log| - 1] == Sent(command, true)
  {
    var shorter := log[..|log| - 1];
    if Acked(shorter, command) {
      var i :| 0 <= i < |shorter| && shorter[i] == Sent(command, true);
      assert log[i] == Sent(command, true);
    }
    if Acked(log, command) && log[|log| - 1] != Sent(command, true) {
      var i :| 0 <= i < |log| && log[i] == Sent(command, true);
      assert shorter[i] == Sent(command, true);
    }
  }

  // ---- The gesture ----

  /** `commands`, each acknowledged. */
  function AllAcked(commands: seq<Command>): (r: seq<Sent>)
    ensures |r| == |commands|
  {
    seq(|commands|, i requires 0 <= i < |commands| => Sent(commands[i], true))
  }

  function Repeat(command: Command, n: nat): seq<Command> {
    seq(n, _ => command)
  }

  lemma AckedMore(log: seq<Sent>, commands: seq<Command>, command: Command)
    ensures log + AllAcked(commands) + [Sent(command, true)] == log + AllAcked(commands + [command])
  {
    assert AllAcked(commands + [command]) == AllAcked(commands) + [Sent(command, true)];
  }

  lemma AckedPath(log: seq<Sent>, steps: nat)
    ensures log + [Sent(DragEnter, true)] + AllAcked(Repeat(DragOver, steps)) + [Sent(Drop, true)]
      == log + AllAcked([DragEnter] + Repeat(DragOver, steps) + [Drop])
  {
    assert AllAcked([DragEnter] + Repeat(DragOver, steps)) ==
      [Sent(DragEnter, true)] + AllAcked(Repeat(DragOver, steps));
    AckedMore(log, [DragEnter] + Repeat(DragOver, steps), Drop);
  }

  lemma RepeatMore(before: seq<Command>, command: Command, n: nat)
    ensures before + Repeat(command, n) + [command] == before + Repeat(command, n + 1)
  {
    assert Repeat(command, n + 1) == Repeat(command, n) + [command];
  }

  const OPENING := [MoveTo(false), Press, Intercept(true), MoveTo(true), Intercept(false)]

  /** The commands of a gesture that succeeds, over a path of `steps` points after the first. */
  function CompleteGesture(outcome: Outcome, steps: nat): (r: seq<Command>)
    requires !outcome.Failed?
    ensures |r| == 6 + steps + (if outcome.Html5Drag? then 1 else 0)
    ensures forall i | 0 <= i < |r| ::
      r[i] ==
        if i == 0 then MoveTo(false) else if i == 1 then Press
        else if i == 2 then Intercept(true) else if i == 4 then Intercept(false)
        else if i == |r| - 1 then (if outcome.Html5Drag? then Drop else ReleaseButton)
        else if i == 3 || outcome.PointerDrag? then MoveTo(true)
        else if i == 5 then DragEnter else DragOver
  {
    OPENING + if outcome.Html5Drag? then [DragEnter] + Repeat(DragOver, steps) + [Drop]
              else Repeat(MoveTo(true), steps) + [ReleaseButton]
  }

  /** `reliable`: no call fails. `draggable`: the page starts a drag when the pressed pointer moves. */
  class Gesture {
    const reliable: bool
    const draggable: bool
    ghost var log: seq<Sent>
    var interceptEnabled: bool
    var listenerAttached: bool
    var pointerDown: bool
    var probeInstalled: bool
    var probeListens: bool

    constructor (reliable: bool, draggable: bool)
      ensures this.reliable == reliable && this.draggable == draggable
      ensures log == [] && !interceptEnabled && !listenerAttached && !pointerDown && !probeInstalled
    {
      this.reliable, this.draggable := reliable, draggable;
      log := [];
      interceptEnabled, listenerAttached, pointerDown := false, false, false;
      probeInstalled, probeListens := false, false;
    }

    ghost function Books(): Account
      reads this`log
    {
      Tally(log)
    }

    /** Something outside may fail: the connection, the page, a deadline or the caller. */
    method Attempt() returns (failure: Option<Failure>)
      ensures failure.Some? ==> failure.value != DropDispatchFailed && !reliable
    {
      var fails: bool := *;
      var interrupted: bool := *;
      failure := if !fails || reliable then None else if interrupted then Some(Interruption) else Some(OtherFailure);
    }

    method Send(command: Command) returns (failure: Option<Failure>)
      modifies this`log
      ensures log == old(log) + [Sent(command, failure.None?)]
      ensures Books() == Book(old(Books()), Sent(command, failure.None?))
      ensures failure.Some? ==> failure.value != DropDispatchFailed && !reliable
    {
      failure := Attempt();
      log := log + [Sent(command, failure.None?)];
      assert log[..|log| - 1] == old(log);
    }

    method StopInterception() returns (failure: Option<Failure>)
      requires Books().owesIntercept ==> interceptEnabled
      modifies this`log, this`interceptEnabled, this`listenerAttached
      ensures !listenerAttached && !Books().owesIntercept
      ensures failure.None? ==> !interceptEnabled
      ensures Books() == old(Books()).(owesIntercept := false)
      ensures failure.Some? ==> failure.value != DropDispatchFailed && !reliable
      ensures !old(interceptEnabled) ==> failure.None? && log == old(log)
      ensures old(interceptEnabled) && failure.None? ==> log == old(log) + [Sent(Intercept(false), true)]
    {
      failure := None;
      listenerAttached := false;
      assert Books() == old(Books());
      if interceptEnabled {
        failure := Send(Intercept(false));
        if failure.None? {
          interceptEnabled := false;
        }
      }
    }

    method ReleasePointer() returns (failure: Option<Failure>)
      modifies this`log, this`pointerDown
      ensures old(pointerDown) ==>
        Books() == old(Books()).(owesPointer := false, released := old(Books()).released || failure.None?)
      ensures old(pointerDown) && failure.None? ==> !pointerDown && log == old(log) + [Sent(ReleaseButton, true)]
      ensures failure.Some? ==> old(pointerDown) && pointerDown && failure.value != DropDispatchFailed && !reliable
      ensures !old(pointerDown) ==> !pointerDown && log == old(log) && failure.None?
    {
      failure := None;
      if pointerDown {
        failure := Send(ReleaseButton);
        if failure.None? {
          pointerDown := false;
        }
      }
    }

    /** Moves to the source, presses there and installs the probe; one that cannot be installed expects no drag. */
    method PressSource() returns (failure: Option<Failure>)
      requires log == [] && !pointerDown && !probeInstalled
      modifies this`log, this`pointerDown, this`probeInstalled, this`probeListens
      ensures Books() == Account(pointerDown, false, false, false)
      ensures failure.Some? ==> failure.value != DropDispatchFailed
      ensures reliable ==> failure.None? && probeListens
      ensures failure.None? ==> pointerDown && probeInstalled && log == AllAcked([MoveTo(false), Press])
    {
      failure := Attempt();
      if failure.Some? { return; }
      failure := Send(MoveTo(false));
      if failure.Some? { return; }
      failure := Send(Press);
      if failure.Some? { return; }
      pointerDown := true;
      var setup := Attempt();
      if setup == Some(Interruption) { return setup; }
      failure := None;
      probeInstalled, probeListens := true, setup.None?;
    }

    /** Whether the probe has seen a drag start; it has not when it cannot be asked. */
    method FinishProbe() returns (failure: Option<Failure>, expectingDrag: bool)
      ensures failure.None? || failure == Some(Interruption)
      ensures expectingDrag ==> draggable && failure.None?
      ensures reliable && probeListens ==> failure.None? && expectingDrag == draggable
    {
      failure, expectingDrag := None, false;
      if probeListens {
        var asked := Attempt();
        if asked == Some(Interruption) { return asked, false; }
        expectingDrag := asked.None? && draggable;
      }
    }

    /** Makes the first pressed move and asks the probe whether it started a drag. */
    method ProbeMove() returns (failure: Option<Failure>, expectingDrag: bool)
      modifies this`log, this`probeInstalled
      ensures log == old(log) + [Sent(MoveTo(true), true)] ||
        (failure.Some? && log == old(log) + [Sent(MoveTo(true), false)])
      ensures Books() == old(Books()) && (failure.None? ==> !probeInstalled)
      ensures failure.Some? ==> failure.value != DropDispatchFailed
      ensures expectingDrag ==> draggable
      ensures reliable && probeListens ==> failure.None? && expectingDrag == draggable
    {
      expectingDrag := false;
      failure := Send(MoveTo(true));
      if failure.Some? { return; }
      failure, expectingDrag := FinishProbe();
      if failure.Some? { return; }
      failure := Attempt();
      if failure.None? {
        probeInstalled := false;
      }
    }

    /** Presses at the source, intercepts the first pressed move, and finds out whether it starts a drag. */
    method StartDrag() returns (failure: Option<Failure>, expectingDrag: bool)
      requires log == [] && !interceptEnabled && !listenerAttached && !pointerDown && !probeInstalled
      modifies this
      ensures Books().owesPointer == pointerDown && !Books().released && !Books().dropped
      ensures Books().owesIntercept ==> interceptEnabled
      ensures failure.None? ==>
        pointerDown && !Books().owesIntercept && !listenerAttached && !interceptEnabled && !probeInstalled
      ensures failure.None? ==> log == AllAcked(OPENING)
      ensures failure.Some? ==> failure.value != DropDispatchFailed
      ensures expectingDrag ==> draggable
      ensures reliable ==> failure.None? && expectingDrag == draggable
    {
      expectingDrag := false;
      failure := PressSource();
      if failure.Some? { return; }
      listenerAttached := true;
      failure := Send(Intercept(true));
      if failure.Some? { return; }
      interceptEnabled := true;
      failure, expectingDrag := ProbeMove();
      var stopFailure := StopInterception();
      if stopFailure.Some? {
        failure := stopFailure;
      }
    }

    /** Drags over the rest of the path. */
    method DragAlong(steps: nat) returns (failure: Option<Failure>)
      modifies this`log
      ensures Books() == old(Books())
      ensures failure.None? ==> log == old(log) + AllAcked(Repeat(DragOver, steps))
      ensures failure.Some? ==> failure.value != DropDispatchFailed && !reliable
    {
      failure := None;
      var i := 0;
      while failure.None? && i < steps
        invariant Books() == old(Books()) && (failure.Some? ==> failure.value != DropDispatchFailed && !reliable)
        invariant i <= steps && (failure.None? ==> log == old(log) + AllAcked(Repeat(DragOver, i)))
      {
        failure := Send(DragOver);
        AckedMore(old(log), Repeat(DragOver, i), DragOver);
        RepeatMore([], DragOver, i);
        i := i + 1;
      }
    }

    /** Enter, over and drop; a drag that cannot be completed is cancelled. */
    method DispatchDrag(steps: nat) returns (outcome: Outcome)
      requires Books().owesPointer && !Books().released && !Books().dropped
      modifies this`log
      ensures !Books().owesPointer && !Books().released && Books().dropped == outcome.Html5Drag?
      ensures Books().owesIntercept == old(Books()).owesIntercept
      ensures !outcome.PointerDrag? && (reliable ==> outcome.Html5Drag?)
      ensures outcome.Html5Drag? ==> log == old(log) + AllAcked([DragEnter] + Repeat(DragOver, steps) + [Drop])
    {
      var failure := Send(DragEnter);
      if failure.None? {
        failure := DragAlong(steps);
      }
      if failure.None? {
        failure := Send(Drop);
        AckedPath(old(log), steps);
      }
      if failure.None? {
        return Html5Drag;
      }
      var ignored := Send(Cancel);
      return Failed(if failure.value.Interruption? then Interruption else DropDispatchFailed);
    }

    /** The gesture up to the point where an error would be caught. */
    method Perform(steps: nat) returns (outcome: Outcome)
      requires log == [] && !interceptEnabled && !listenerAttached && !pointerDown && !probeInstalled
      modifies this
      ensures Books().owesPointer ==> pointerDown
      ensures Books().owesIntercept ==> interceptEnabled
      ensures pointerDown ==> outcome.Failed? && !Books().released && !Books().dropped
      ensures Books().released == outcome.PointerDrag? && Books().dropped == outcome.Html5Drag?
      ensures !outcome.Failed? ==>
        log == AllAcked(CompleteGesture(outcome, steps)) && !interceptEnabled && !probeInstalled
      ensures outcome.Html5Drag? || outcome == Failed(DropDispatchFailed) ==> draggable
      ensures reliable ==> outcome == if draggable then Html5Drag else PointerDrag
    {
      var failure, expectingDrag := StartDrag();
      if failure.Some? {
        return Failed(failure.value);
      }
      var dragData := false;
      if expectingDrag {
        failure := Attempt();
        if failure.Some? {
          return Failed(failure.value);
        }
        dragData := true;
      }
      if dragData {
        pointerDown := false;
        outcome := DispatchDrag(steps);
        return;
      }
      var i := 0;
      while i < steps
        invariant i <= steps && log == AllAcked(OPENING + Repeat(MoveTo(true), i)) && !interceptEnabled
        invariant !probeInstalled
        invariant pointerDown && Books().owesPointer && !Books().owesIntercept && !Books().released && !Books().dropped
      {
        failure := Send(MoveTo(true));
        if failure.Some? {
          return Failed(failure.value);
        }
        i := i + 1;
      }
      failure := ReleasePointer();
      return if failure.None? then PointerDrag else Failed(failure.value);
    }

    /**
     For every pattern of failures: an acknowledged press is taken back, an acknowledged interception
     is switched off or tried to be, the listener is gone, and a release and a drop are never both acknowledged. A drop
     takes a page that starts a drag; without failures the gesture succeeds, with a drop exactly on such a page.
     */
    method DispatchDragGesture(steps: nat) returns (outcome: Outcome)
      requires log == [] && !interceptEnabled && !listenerAttached && !pointerDown && !probeInstalled
      modifies this
      ensures PressesTakenBack(log) && InterceptionsTakenBack(log) && !listenerAttached
      ensures !(Acked(log, ReleaseButton) && Acked(log, Drop))
      ensures !outcome.Failed? ==> log == AllAcked(CompleteGesture(outcome, steps))
      ensures outcome.Html5Drag? || outcome == Failed(DropDispatchFailed) ==> draggable
      ensures reliable ==> outcome == if draggable then Html5Drag else PointerDrag
    {
      outcome := Perform(steps);
      if outcome.Failed? {
        var ignored := ReleasePointer();
      }
      if probeInstalled {
        var ignored := Attempt();
        probeInstalled := false;
      }
      var failure := StopInterception();
      if failure.Some? {
        outcome := Failed(failure.value);
      }
      TallyIsExact(log);
    }
  }
}
