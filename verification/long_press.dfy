/**
 * The long-press widget (app/components/minigames/LongPress.tsx): pressing the
 * button arms a three-second timer; the timer firing succeeds, and releasing
 * (or leaving, or cancelling) the press before that fails. The firing of the
 * hold timer is an event of the model; `armed` says whether a timer is pending.
 */
module LongPressWidget {
  import opened Common

  /** How long the button must be held, in milliseconds. */
  const HoldMs: int := 3000

  datatype Press = Press(pressed: bool, armed: bool, done: bool, hasOnFailure: bool)

  /** Pointer down; pointer up, leave or cancel; the hold timer fires. */
  datatype Event = PressStart | PressEnd | HoldTimer

  /** The mounted widget: not pressed, no timer. */
  function Mount(hasOnFailure: bool): (s: Press)
    ensures Inv(s) && !s.pressed && !s.armed && !s.done
  {
    Press(false, false, false, hasOnFailure)
  }

  /** `finish`: the first call ends the game, releases the press, clears the timer and reports. */
  function Finish(s: Press, success: bool): (r: Reaction<Press>)
    ensures s.done ==> r == Reaction(s, None)
    ensures !s.done ==> r.next == s.(done := true, pressed := false, armed := false)
    ensures !s.done ==> (r.outcome == Some(Success) <==> success)
    ensures !s.done && !success ==> r.outcome == (if s.hasOnFailure then Some(Failure) else None)
  {
    if s.done then Reaction(s, None)
    else Reaction(s.(done := true, pressed := false, armed := false),
      if success then Some(Success) else if s.hasOnFailure then Some(Failure) else None)
  }

  /** `handlePressStart`: unless done, the press starts and a single fresh timer replaces any pending one. */
  function HandlePressStart(s: Press): (n: Press)
    ensures s.done ==> n == s
    ensures !s.done ==> n == s.(pressed := true, armed := true)
  {
    if s.done then s else s.(pressed := true, armed := true)
  }

  /** `handlePressEnd`: a release of a running press fails; any other release is ignored. */
  function HandlePressEnd(s: Press): (r: Reaction<Press>)
    ensures s.done || !s.pressed ==> r == Reaction(s, None)
    ensures !s.done && s.pressed ==>
      && r.next == s.(done := true, pressed := false, armed := false)
      && r.outcome == (if s.hasOnFailure then Some(Failure) else None)
  {
    if s.done || !s.pressed then Reaction(s, None)
    else Finish(s.(pressed := false, armed := false), false)
  }

  /** The pending hold timer fires and finishes with success; a cleared timer never fires. */
  function FireHoldTimer(s: Press): (r: Reaction<Press>)
    ensures !s.armed ==> r == Reaction(s, None)
    ensures s.armed && !s.done ==> r == Reaction(s.(done := true, pressed := false, armed := false), Some(Success))
  {
    if !s.armed then Reaction(s, None) else Finish(s.(armed := false), true)
  }

  function Step(s: Press, e: Event): (r: Reaction<Press>)
    ensures Inv(s) ==> Inv(r.next)
    ensures Done(s) ==> Done(r.next) && r.outcome.None?
    ensures r.outcome.Some? ==> Done(r.next)
  {
    match e
    case PressStart => Reaction(HandlePressStart(s), None)
    case PressEnd => HandlePressEnd(s)
    case HoldTimer => FireHoldTimer(s)
  }

  /** A timer is pending exactly while the button is held, and only before the game is over. */
  predicate Inv(s: Press) {
    (s.armed <==> s.pressed) && (s.pressed ==> !s.done)
  }

  predicate Done(s: Press) {
    s.done
  }

  /** Whatever the pointer does, at most one outcome is reported and a finished widget holds no timer. */
  lemma AtMostOneOutcomeOverall(s: Press, events: seq<Event>)
    requires Inv(s)
    ensures |Run(Step, s, events).1| <= 1
    ensures Run(Step, s, events).0.done ==> !Run(Step, s, events).0.armed
  {
    assert Guarded(Step, Done, Inv);
    AtMostOneOutcome(Step, Done, Inv, s, events);
  }

  /** Holding the button until the timer fires succeeds. */
  lemma HoldSucceeds(hasOnFailure: bool)
    ensures Run(Step, Mount(hasOnFailure), [PressStart, HoldTimer]).1 == [Success]
  {
    var s := Mount(hasOnFailure);
    var held := s.(pressed := true, armed := true);
    RunAppend(Step, s, [PressStart], [HoldTimer]);
    RunSingle(Step, s, PressStart);
    RunSingle(Step, held, HoldTimer);
    assert [PressStart] + [HoldTimer] == [PressStart, HoldTimer];
  }

  /** Releasing before the timer fires fails, and the cleared timer then reports nothing. */
  lemma EarlyReleaseFails()
    ensures Run(Step, Mount(true), [PressStart, PressEnd, HoldTimer]).1 == [Failure]
  {
    var s := Mount(true);
    var held := s.(pressed := true, armed := true);
    var released := s.(done := true);
    RunAppend(Step, s, [PressStart], [PressEnd]);
    RunAppend(Step, s, [PressStart, PressEnd], [HoldTimer]);
    RunSingle(Step, s, PressStart);
    RunSingle(Step, held, PressEnd);
    RunSingle(Step, released, HoldTimer);
    assert [PressStart] + [PressEnd] == [PressStart, PressEnd];
    assert [PressStart, PressEnd] + [HoldTimer] == [PressStart, PressEnd, HoldTimer];
  }

  /** A release with no press running (the pointer leaving an idle button) is ignored. */
  lemma ReleaseWithoutPressIgnored(s: Press)
    requires Inv(s) && !s.pressed
    ensures Step(s, PressEnd) == Reaction(s, None)
  {
  }

  /** Pressing again while held keeps a single pending timer and reports nothing. */
  lemma RepressKeepsOneTimer(s: Press)
    requires Inv(s) && s.pressed
    ensures Step(s, PressStart) == Reaction(s, None)
  {
  }
}
