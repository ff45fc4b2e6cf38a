/**
 * The rapid-click widget (app/components/minigames/RapidClick.tsx): twelve
 * clicks before the countdown runs out succeed; a countdown that runs out
 * first reports failure. The callback is deferred by `setTimeout(…, 0)`; the
 * model reports it at the event that schedules it.
 */
module RapidClickWidget {
  import opened Common

  const TargetClicks: int := 12

  /** Seconds on the countdown when no `timeLimit` is given. */
  const DefaultTimeLimit: int := 6

  datatype Rapid = Rapid(count: int, timeLeft: int, ticking: bool, done: bool, hasOnFailure: bool)

  /** A click on the button, or one second of the countdown. */
  datatype Event = Click | Tick

  /** The mounted widget: no clicks and the full countdown. */
  function Mount(timeLimit: Option<int>, hasOnFailure: bool): (s: Rapid)
    ensures Inv(s) && s.count == 0 && s.ticking && !s.done
    ensures s.timeLeft == timeLimit.GetOr(DefaultTimeLimit)
  {
    Rapid(0, timeLimit.GetOr(DefaultTimeLimit), true, false, hasOnFailure)
  }

  /** `finish`: the first call ends the game and reports its outcome; later calls do nothing. */
  function Finish(s: Rapid, success: bool): (r: Reaction<Rapid>)
    ensures s.done ==> r == Reaction(s, None)
    ensures !s.done ==> r.next == s.(done := true)
    ensures !s.done ==> (r.outcome == Some(Success) <==> success)
    ensures !s.done && !success ==> (r.outcome == Some(Failure) <==> s.hasOnFailure)
  {
    if s.done then Reaction(s, None)
    else Reaction(s.(done := true), if success then Some(Success) else if s.hasOnFailure then Some(Failure) else None)
  }

  /** `handleClick`: ignored once done; otherwise counts, and the twelfth click succeeds. */
  function ClickButton(s: Rapid): (r: Reaction<Rapid>)
    ensures s.done ==> r == Reaction(s, None)
    ensures !s.done ==> r.next.count == s.count + 1 && r.next.timeLeft == s.timeLeft && r.next.ticking == s.ticking
    ensures !s.done ==> (r.outcome.Some? <==> s.count + 1 >= TargetClicks)
    ensures !s.done ==> (r.next.done <==> s.count + 1 >= TargetClicks)
    ensures r.outcome.Some? ==> r.outcome == Some(Success)
  {
    if s.done then Reaction(s, None)
    else
      var counted := s.(count := s.count + 1);
      if counted.count >= TargetClicks then Finish(counted, true) else Reaction(counted, None)
  }

  /**
   * One countdown second: at one second or less the interval stops at zero and the
   * game finishes, successfully exactly when twelve clicks were counted.
   */
  function TickSecond(s: Rapid): (r: Reaction<Rapid>)
    ensures !s.ticking ==> r == Reaction(s, None)
    ensures s.ticking && s.timeLeft > 1 ==> r == Reaction(s.(timeLeft := s.timeLeft - 1), None)
    ensures s.ticking && s.timeLeft <= 1 ==>
      r == Finish(s.(timeLeft := 0, ticking := false), s.count >= TargetClicks)
  {
    if !s.ticking then Reaction(s, None)
    else if s.timeLeft <= 1 then Finish(s.(timeLeft := 0, ticking := false), s.count >= TargetClicks)
    else Reaction(s.(timeLeft := s.timeLeft - 1), None)
  }

  function Step(s: Rapid, e: Event): (r: Reaction<Rapid>)
    ensures Inv(s) ==> Inv(r.next)
    ensures Done(s) ==> Done(r.next) && r.outcome.None?
    ensures r.outcome.Some? ==> Done(r.next)
  {
    match e
    case Click => ClickButton(s)
    case Tick => TickSecond(s)
  }

  /** The count never passes the target, and reaching it has ended the game. */
  predicate Inv(s: Rapid) {
    0 <= s.count <= TargetClicks && (s.count == TargetClicks ==> s.done)
  }

  predicate Done(s: Rapid) {
    s.done
  }

  /** However clicks and seconds interleave, at most one outcome is reported and at most twelve clicks count. */
  lemma AtMostOneOutcomeOverall(s: Rapid, events: seq<Event>)
    requires Inv(s)
    ensures |Run(Step, s, events).1| <= 1
    ensures Run(Step, s, events).0.count <= TargetClicks
  {
    assert Guarded(Step, Done, Inv);
    AtMostOneOutcome(Step, Done, Inv, s, events);
  }

  /** The countdown can only end in failure: twelve clicks would already have finished the game. */
  lemma CountdownEndsOnlyInFailure(s: Rapid)
    requires Inv(s)
    ensures TickSecond(s).outcome != Some(Success)
  {
  }

  /** Before the twelfth, every click only counts. */
  lemma {:induction false} ClicksCount(s: Rapid, k: nat)
    requires !s.done && s.count + k < TargetClicks
    ensures Run(Step, s, Repeat(Click, k)) == (s.(count := s.count + k), [])
    decreases k
  {
    if k > 0 {
      var next := s.(count := s.count + 1);
      assert Step(s, Click) == Reaction(next, None);
      assert Repeat(Click, k)[1..] == Repeat(Click, k - 1);
      ClicksCount(next, k - 1);
    }
  }

  /** Twelve clicks on a fresh widget succeed, on the twelfth. */
  lemma TwelveClicksSucceed(s: Rapid)
    requires !s.done && s.count == 0
    ensures Run(Step, s, Repeat(Click, TargetClicks)) == (s.(count := TargetClicks, done := true), [Success])
  {
    ClicksCount(s, TargetClicks - 1);
    assert Repeat(Click, TargetClicks) == Repeat(Click, TargetClicks - 1) + [Click];
    RunAppend(Step, s, Repeat(Click, TargetClicks - 1), [Click]);
    var last := s.(count := TargetClicks - 1);
    RunSingle(Step, last, Click);
    assert Run(Step, s, Repeat(Click, TargetClicks - 1)).0 == last;
    assert Step(last, Click) == Reaction(s.(count := TargetClicks, done := true), Some(Success));
    assert [] + [Success] == [Success];
  }

  /** Before the last second, the countdown only counts down. */
  lemma {:induction false} CountdownRuns(s: Rapid, k: nat)
    requires s.ticking && k < s.timeLeft
    ensures Run(Step, s, Repeat(Tick, k)) == (s.(timeLeft := s.timeLeft - k), [])
    decreases k
  {
    if k > 0 {
      var next := s.(timeLeft := s.timeLeft - 1);
      assert Step(s, Tick) == Reaction(next, None);
      assert Repeat(Tick, k)[1..] == Repeat(Tick, k - 1);
      CountdownRuns(next, k - 1);
    }
  }

  /** Left without enough clicks, the countdown runs out and reports failure once. */
  lemma CountdownExpires(s: Rapid)
    requires s.ticking && !s.done && s.timeLeft >= 1 && s.count < TargetClicks && s.hasOnFailure
    ensures Run(Step, s, Repeat(Tick, s.timeLeft)).1 == [Failure]
  {
    var n := s.timeLeft;
    CountdownRuns(s, n - 1);
    assert Repeat(Tick, n) == Repeat(Tick, n - 1) + [Tick];
    RunAppend(Step, s, Repeat(Tick, n - 1), [Tick]);
    var last := s.(timeLeft := 1);
    RunSingle(Step, last, Tick);
    assert Step(last, Tick).outcome == Some(Failure);
  }
}
