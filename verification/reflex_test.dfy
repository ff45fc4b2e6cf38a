/**
 * The reflex widget (app/components/minigames/ReflexTest.tsx): after a random
 * delay the button signals "now"; a click within 450 ms of the signal
 * succeeds, a click before it fails, and no click at all fails when the
 * reaction limit runs out. One timer slot holds first the signal timer and
 * then the reaction-limit timer; its firing is an event of the model.
 */
module ReflexTestWidget {
  import opened Common

  /** Bounds of the signal delay and the reaction limit, in milliseconds. */
  const MinDelayMs: int := 700
  const MaxDelayMs: int := 1800
  const ReactionLimitMs: int := 450

  /** What the button shows. */
  datatype Status = Waiting | Ready | Fail

  /** The timer held in the widget's timer slot. */
  datatype Timer = SignalTimer | LimitTimer | NoTimer

  datatype Reflex = Reflex(status: Status, timer: Timer, delay: int, done: bool, hasOnFailure: bool)

  /** The pending timer fires, or the player clicks. */
  datatype Event = Fire | Click

  /** `Math.floor(r * (MAX - MIN)) + MIN`: the wait before the signal. */
  function SignalDelay(r: Unit): (ms: int)
    ensures MinDelayMs <= ms < MaxDelayMs
  {
    Pick(r, MaxDelayMs - MinDelayMs) + MinDelayMs
  }

  /** The mounted widget: waiting, with the signal timer set to a delay drawn from `r`. */
  function Mount(r: Unit, hasOnFailure: bool): (s: Reflex)
    ensures Inv(s) && s.status == Waiting && s.timer == SignalTimer && !s.done
    ensures MinDelayMs <= s.delay <= 1799
  {
    Reflex(Waiting, SignalTimer, SignalDelay(r), false, hasOnFailure)
  }

  /**
   * The pending timer fires. The signal shows "ready" and arms the reaction limit, whether
   * or not the game is already over; the reaction limit reports failure unless the game
   * is over.
   */
  function FireTimer(s: Reflex): (r: Reaction<Reflex>)
    ensures s.timer == SignalTimer ==> r == Reaction(s.(status := Ready, timer := LimitTimer), None)
    ensures s.timer == LimitTimer && s.done ==> r == Reaction(s.(timer := NoTimer), None)
    ensures s.timer == LimitTimer && !s.done ==>
      && r.next == s.(timer := NoTimer, done := true)
      && r.outcome == (if s.hasOnFailure then Some(Failure) else None)
    ensures s.timer == NoTimer ==> r == Reaction(s, None)
  {
    match s.timer
    case SignalTimer => Reaction(s.(status := Ready, timer := LimitTimer), None)
    case LimitTimer =>
      if s.done then Reaction(s.(timer := NoTimer), None)
      else Reaction(s.(timer := NoTimer, done := true), if s.hasOnFailure then Some(Failure) else None)
    case NoTimer => Reaction(s, None)
  }

  /**
   * `handleClick`: ignored once done; a click while waiting fails and shows "fail"; a
   * click while ready succeeds. Neither cancels the pending timer.
   */
  function HandleClick(s: Reflex): (r: Reaction<Reflex>)
    ensures s.done ==> r == Reaction(s, None)
    ensures !s.done && s.status == Waiting ==>
      && r.next == s.(done := true, status := Fail)
      && r.outcome == (if s.hasOnFailure then Some(Failure) else None)
    ensures !s.done && s.status == Ready ==> r == Reaction(s.(done := true), Some(Success))
    ensures r.next.timer == s.timer
  {
    if s.done then Reaction(s, None)
    else
      match s.status
      case Waiting => Reaction(s.(done := true, status := Fail), if s.hasOnFailure then Some(Failure) else None)
      case Ready => Reaction(s.(done := true), Some(Success))
      case Fail => Reaction(s, None)
  }

  function Step(s: Reflex, e: Event): (r: Reaction<Reflex>)
    ensures Inv(s) ==> Inv(r.next)
    ensures Done(s) ==> Done(r.next) && r.outcome.None?
    ensures r.outcome.Some? ==> Done(r.next)
  {
    match e
    case Fire => FireTimer(s)
    case Click => HandleClick(s)
  }

  /** "fail" is only ever shown after the game is over. */
  predicate Inv(s: Reflex) {
    s.status == Fail ==> s.done
  }

  predicate Done(s: Reflex) {
    s.done
  }

  /** The label under the button. */
  function Label(status: Status): (text: string)
    ensures status == Waiting ==> text == "光るまで待って"
    ensures status == Ready ==> text == "今だ！"
    ensures status == Fail ==> text == "早すぎ！"
  {
    match status
    case Waiting => "光るまで待って"
    case Ready => "今だ！"
    case Fail => "早すぎ！"
  }

  /** Both paths to an outcome pass the done guard, so at most one outcome is reported. */
  lemma AtMostOneOutcomeOverall(s: Reflex, events: seq<Event>)
    requires Inv(s)
    ensures |Run(Step, s, events).1| <= 1
  {
    assert Guarded(Step, Done, Inv);
    AtMostOneOutcome(Step, Done, Inv, s, events);
  }

  /** A click after the signal and before the reaction limit succeeds. */
  lemma ClickAfterSignalSucceeds(r: Unit, hasOnFailure: bool)
    ensures Run(Step, Mount(r, hasOnFailure), [Fire, Click]).1 == [Success]
  {
    var s := Mount(r, hasOnFailure);
    var ready := s.(status := Ready, timer := LimitTimer);
    assert Step(s, Fire) == Reaction(ready, None);
    RunAppend(Step, s, [Fire], [Click]);
    RunSingle(Step, s, Fire);
    RunSingle(Step, ready, Click);
    assert [Fire] + [Click] == [Fire, Click];
  }

  /** A click before the signal fails and shows "fail". */
  lemma ClickBeforeSignalFails(r: Unit)
    ensures Run(Step, Mount(r, true), [Click]).1 == [Failure]
    ensures Run(Step, Mount(r, true), [Click]).0.status == Fail
  {
    RunSingle(Step, Mount(r, true), Click);
  }

  /** With no click, the reaction limit fails the game 450 ms after the signal. */
  lemma NoClickFails(r: Unit)
    ensures Run(Step, Mount(r, true), [Fire, Fire]).1 == [Failure]
  {
    var s := Mount(r, true);
    var ready := s.(status := Ready, timer := LimitTimer);
    assert Step(s, Fire) == Reaction(ready, None);
    RunAppend(Step, s, [Fire], [Fire]);
    RunSingle(Step, s, Fire);
    RunSingle(Step, ready, Fire);
    assert [Fire] + [Fire] == [Fire, Fire];
  }

  /**
   * The signal timer is not cancelled by an early click: it still fires, and the button
   * then shows "ready" although the game was lost; nothing more is reported.
   */
  lemma SignalAfterEarlyClickShowsReady(r: Unit)
    ensures Run(Step, Mount(r, true), [Click, Fire]).0.status == Ready
    ensures Run(Step, Mount(r, true), [Click, Fire]).1 == [Failure]
  {
    var s := Mount(r, true);
    var failed := s.(done := true, status := Fail);
    assert Step(s, Click) == Reaction(failed, Some(Failure));
    RunAppend(Step, s, [Click], [Fire]);
    RunSingle(Step, s, Click);
    RunSingle(Step, failed, Fire);
    assert [Click] + [Fire] == [Click, Fire];
    assert [Failure] + [] == [Failure];
  }
}
