/**
 * The timing widget (app/components/minigames/TimingGame.tsx): a marker
 * bounces along a gauge from 0 to 100, and clicking while it is between 45 and
 * 55 succeeds. Before the gauge starts there is a fifteen-second reading
 * pause (on the first attempt only); once it runs, a timeout reports failure.
 * The gauge is kept in tenths, so the marker's step of 2.4 is the whole number 24.
 */
module TimingGameWidget {
  import opened Common

  /** The success window and the gauge, in tenths. */
  const SuccessMin: int := 450
  const SuccessMax: int := 550
  const GaugeMax: int := 1000
  const GaugeStep: int := 24

  /** Milliseconds: the reading pause and the gauge's tick. */
  const ReadTime: int := 15000
  const TickMs: int := 30

  /** Seconds before the timeout when no `timeLimit` is given. */
  const DefaultTimeLimit: int := 8

  datatype Timing = Timing(
    position: int,
    direction: int,
    reading: bool,
    done: bool,
    timeoutMs: int,
    hasOnFailure: bool)

  /** The reading pause ends, the gauge ticks, the timeout fires, or the player clicks. */
  datatype Event = ReadOver | Tick | Timeout | Click

  /** The mounted widget: the pause runs exactly when `failedAttempts` (default 0) is 0. */
  function Mount(timeLimit: Option<int>, failedAttempts: Option<int>, hasOnFailure: bool): (t: Timing)
    ensures Inv(t) && !t.done && t.position == 0 && t.direction == 1
    ensures t.reading <==> failedAttempts.GetOr(0) == 0
    ensures t.timeoutMs == timeLimit.GetOr(DefaultTimeLimit) * 1000
  {
    Timing(0, 1, failedAttempts.GetOr(0) == 0, false, timeLimit.GetOr(DefaultTimeLimit) * 1000, hasOnFailure)
  }

  /** One tick of the gauge: a step in the current direction, turning round at either end. */
  function Advance(position: int, direction: int): (r: (int, int))
    ensures 0 <= position <= GaugeMax && (direction == 1 || direction == -1) ==>
      0 <= r.0 <= GaugeMax && (r.1 == 1 || r.1 == -1) && -GaugeStep <= r.0 - position <= GaugeStep
    ensures 0 < position + direction * GaugeStep < GaugeMax ==> r == (position + direction * GaugeStep, direction)
    ensures position + direction * GaugeStep >= GaugeMax ==> r == (GaugeMax, -1)
    ensures position + direction * GaugeStep <= 0 ==> r == (0, 1)
  {
    var next := position + direction * GaugeStep;
    var bounced := if next >= GaugeMax then (GaugeMax, -1) else (next, direction);
    if bounced.0 <= 0 then (0, 1) else bounced
  }

  /** `finish`: the first call ends the game and reports its outcome; later calls do nothing. */
  function Finish(t: Timing, success: bool): (r: Reaction<Timing>)
    ensures t.done ==> r == Reaction(t, None)
    ensures !t.done ==> r.next == t.(done := true)
    ensures !t.done && success ==> r.outcome == Some(Success)
    ensures !t.done && !success ==> r.outcome == (if t.hasOnFailure then Some(Failure) else None)
  {
    if t.done then Reaction(t, None)
    else Reaction(t.(done := true), if success then Some(Success) else if t.hasOnFailure then Some(Failure) else None)
  }

  /** The marker is in the success window. */
  predicate InWindow(position: int) {
    SuccessMin <= position <= SuccessMax
  }

  /**
   * While reading, only the end of the pause matters (the button is not shown and
   * the gauge's timers are not started). Afterwards the gauge ticks until the game
   * is over, the timeout finishes with failure, and a click finishes with success
   * exactly when the marker is in the window.
   */
  function Step(t: Timing, e: Event): (r: Reaction<Timing>)
    ensures Inv(t) ==> Inv(r.next)
    ensures t.reading ==> (e == ReadOver && !t.done ==> r == Reaction(t.(reading := false), None))
    ensures t.reading && e != ReadOver ==> r == Reaction(t, None)
    ensures !t.reading && e == Click && !t.done ==>
      r.next.done && (r.outcome == Some(Success) <==> InWindow(t.position))
    ensures !t.reading && e == Timeout && !t.done ==>
      r.next.done && r.outcome == (if t.hasOnFailure then Some(Failure) else None)
    ensures !t.reading && e == Tick && !t.done ==>
      r == Reaction(t.(position := Advance(t.position, t.direction).0, direction := Advance(t.position, t.direction).1), None)
    ensures t.done ==> r.next == t && r.outcome.None?
  {
    match e
    case ReadOver => if t.reading && !t.done then Reaction(t.(reading := false), None) else Reaction(t, None)
    case Tick =>
      if t.reading || t.done then Reaction(t, None)
      else
        var a := Advance(t.position, t.direction);
        Reaction(t.(position := a.0, direction := a.1), None)
    case Timeout => if t.reading then Reaction(t, None) else Finish(t, false)
    case Click => if t.reading then Reaction(t, None) else Finish(t, InWindow(t.position))
  }

  /** The marker stays on the gauge and moves one way or the other. */
  predicate Inv(t: Timing) {
    0 <= t.position <= GaugeMax && (t.direction == 1 || t.direction == -1)
  }

  predicate Done(t: Timing) {
    t.done
  }

  lemma StepGuarded()
    ensures Guarded(Step, Done, Inv)
  {
  }

  /** At most one outcome is reported, and the marker never leaves the gauge. */
  lemma AtMostOneOutcomeOverall(t: Timing, events: seq<Event>)
    requires Inv(t)
    ensures |Run(Step, t, events).1| <= 1
    ensures 0 <= Run(Step, t, events).0.position <= GaugeMax
  {
    StepGuarded();
    AtMostOneOutcome(Step, Done, Inv, t, events);
  }

  /** From the bottom, the marker rises one step per tick until it nears the top. */
  lemma {:induction false} Rising(t: Timing, k: nat)
    requires Inv(t) && !t.reading && !t.done && t.position == 0 && t.direction == 1
    requires k * GaugeStep < GaugeMax
    ensures Run(Step, t, Repeat(Tick, k)) == (t.(position := k * GaugeStep), [])
    decreases k
  {
    if k > 0 {
      Rising(t, k - 1);
      var before := t.(position := (k - 1) * GaugeStep);
      assert Repeat(Tick, k) == Repeat(Tick, k - 1) + [Tick];
      RunAppend(Step, t, Repeat(Tick, k - 1), [Tick]);
      RunSingle(Step, before, Tick);
      assert Step(before, Tick) == Reaction(t.(position := k * GaugeStep), None);
    }
  }

  /** After the pause, nineteen ticks bring the marker to 45.6, where a click succeeds. */
  lemma WindowIsReachable(t: Timing)
    requires Inv(t) && t.reading && !t.done && t.position == 0 && t.direction == 1
    ensures Run(Step, t, [ReadOver] + Repeat(Tick, 19) + [Click]).1 == [Success]
  {
    var started := t.(reading := false);
    RunSingle(Step, t, ReadOver);
    Rising(started, 19);
    var there := started.(position := 19 * GaugeStep);
    RunSingle(Step, there, Click);
    RunAppend(Step, t, [ReadOver], Repeat(Tick, 19));
    RunAppend(Step, t, [ReadOver] + Repeat(Tick, 19), [Click]);
  }
}
