/**
 * The slot-machine widget (app/components/minigames/SlotMachine.tsx): three
 * reels spin; a stop button per reel halts it, and once all three stand still
 * the result is judged: three equal symbols win, anything else loses. The spin
 * button restarts all reels and, three seconds later, stops them all. The
 * widget has no done guard, so it can report more than once.
 *
 * The 300 ms reel intervals, the three-second timer and `Math.random()` are
 * events and parameters of the model. The effect on the spinning flags is
 * reported at the event that changed the flags.
 */
module SlotMachineWidget {
  import opened Common

  /** `symbols`, in order. */
  const Symbols: seq<string> := ["🍒", "🍋", "🍊", "⭐", "🍇"]

  /** What the three reels show. */
  type Reels = s: seq<string> | |s| == 3 witness ["🍒", "🍋", "🍊"]

  /** Which of the three reels are spinning. */
  type Flags = s: seq<bool> | |s| == 3 witness [true, true, true]

  /** The result line: none yet, "win" or "lose". */
  datatype SlotResult = NoResult | Win | Lose

  /**
   * The widget. `batches` holds, for every press of the spin button whose timer is still
   * pending, the reels its own intervals turn (those spinning when it was pressed).
   */
  datatype Slot = Slot(slots: Reels, spinning: Flags, batches: seq<Flags>, result: SlotResult, hasOnFailure: bool)

  /**
   * A stop button is pressed; the spin button is pressed; an interval turns reel `i`
   * to a symbol drawn from `r`; the oldest pending spin timer fires.
   */
  datatype Event = Stop(i: int) | Spin | Turn(i: int, r: Unit) | SpinTimer

  /** All three reels stand still. */
  predicate AllStopped(spinning: Flags) {
    !spinning[0] && !spinning[1] && !spinning[2]
  }

  /** The three reels show the same symbol. */
  predicate AllEqual(slots: Reels) {
    slots[0] == slots[1] && slots[1] == slots[2]
  }

  /** `getRandomSymbol`. */
  function RandomSymbol(r: Unit): (s: string)
    ensures s in Symbols
  {
    Symbols[Pick(r, |Symbols|)]
  }

  /** The mounted widget: cherry, lemon, orange, all spinning, no result. */
  function Mount(hasOnFailure: bool): (s: Slot)
    ensures Inv(s) && s.spinning == [true, true, true] && s.batches == [] && s.result == NoResult
    ensures s.slots[0] != s.slots[1] && s.slots[1] != s.slots[2] && s.slots[0] != s.slots[2]
  {
    Slot(["🍒", "🍋", "🍊"], [true, true, true], [], NoResult, hasOnFailure)
  }

  /** The judgement: a win and success on three equal symbols, otherwise a loss and failure. */
  function Judge(s: Slot): (r: Reaction<Slot>)
    ensures r.next == s.(result := r.next.result)
    ensures AllEqual(s.slots) ==> r.next.result == Win && r.outcome == Some(Success)
    ensures !AllEqual(s.slots) ==> r.next.result == Lose && r.outcome == (if s.hasOnFailure then Some(Failure) else None)
  {
    if AllEqual(s.slots) then Reaction(s.(result := Win), Some(Success))
    else Reaction(s.(result := Lose), if s.hasOnFailure then Some(Failure) else None)
  }

  /** The effect that runs whenever the spinning flags are replaced: it judges once all reels stand still. */
  function SpinningChanged(s: Slot): (r: Reaction<Slot>)
    ensures AllStopped(s.spinning) ==> r == Judge(s)
    ensures !AllStopped(s.spinning) ==> r == Reaction(s, None)
  {
    if AllStopped(s.spinning) then Judge(s) else Reaction(s, None)
  }

  /** `stopSlot(i)` from an enabled button: reel `i` stops and nothing else changes before the effect. */
  function StopSlot(s: Slot, i: int): (r: Reaction<Slot>)
    ensures !(0 <= i < 3 && s.spinning[i]) ==> r == Reaction(s, None)
    ensures 0 <= i < 3 && s.spinning[i] ==>
      && r.next.spinning == s.spinning[i := false]
      && r.next.slots == s.slots && r.next.batches == s.batches
      && (AllStopped(s.spinning[i := false]) ==> r == Judge(s.(spinning := s.spinning[i := false])))
      && (!AllStopped(s.spinning[i := false]) ==> r.outcome.None? && r.next.result == s.result)
  {
    if 0 <= i < 3 && s.spinning[i] then SpinningChanged(s.(spinning := s.spinning[i := false]))
    else Reaction(s, None)
  }

  /** `spinSlots`: all reels spin again, and a timer is set that will stop them in three seconds. */
  function SpinSlots(s: Slot): (n: Slot)
    ensures n.spinning == [true, true, true]
    ensures n.batches == s.batches + [s.spinning]
    ensures n.slots == s.slots && n.result == s.result
  {
    s.(spinning := [true, true, true], batches := s.batches + [s.spinning])
  }

  /** An interval turns reel `i`; it exists while the reel spins or a pending spin press turns it. */
  function TurnReel(s: Slot, i: int, r: Unit): (n: Slot)
    ensures 0 <= i < 3 && Turning(s, i) ==> n == s.(slots := s.slots[i := RandomSymbol(r)])
    ensures !(0 <= i < 3 && Turning(s, i)) ==> n == s
  {
    if 0 <= i < 3 && Turning(s, i) then s.(slots := s.slots[i := RandomSymbol(r)]) else s
  }

  /** Some interval turns reel `i`. */
  predicate Turning(s: Slot, i: int)
    requires 0 <= i < 3
  {
    s.spinning[i] || exists b :: b in s.batches && b[i]
  }

  /** The oldest spin timer fires: its intervals end, all reels stop, and the effect judges. */
  function FireSpinTimer(s: Slot): (r: Reaction<Slot>)
    ensures s.batches == [] ==> r == Reaction(s, None)
    ensures s.batches != [] ==> r == Judge(s.(spinning := [false, false, false], batches := s.batches[1..]))
  {
    if s.batches == [] then Reaction(s, None)
    else
      var stopped := s.(spinning := [false, false, false], batches := s.batches[1..]);
      assert AllStopped(stopped.spinning);
      SpinningChanged(stopped)
  }

  function Step(s: Slot, e: Event): (r: Reaction<Slot>)
    ensures Inv(s) ==> Inv(r.next)
    ensures r.outcome.Some? ==> AllStopped(r.next.spinning)
    ensures r.outcome == Some(Success) <==> r.outcome.Some? && AllEqual(r.next.slots) && r.next.result == Win
    ensures r.outcome.Some? ==> r.next.slots == s.slots
  {
    match e
    case Stop(i) => StopSlot(s, i)
    case Spin => Reaction(SpinSlots(s), None)
    case Turn(i, r) => Reaction(TurnReel(s, i, r), None)
    case SpinTimer => FireSpinTimer(s)
  }

  /** Every reel shows one of the five symbols. */
  predicate Inv(s: Slot) {
    forall k :: 0 <= k < 3 ==> s.slots[k] in Symbols
  }

  /** The reels keep showing symbols from the five, whatever happens. */
  lemma {:induction false} SymbolsStayInSet(s: Slot, events: seq<Event>)
    requires Inv(s)
    ensures Inv(Run(Step, s, events).0)
    decreases |events|
  {
    if |events| > 0 {
      SymbolsStayInSet(Step(s, events[0]).next, events[1..]);
    }
  }

  /** The five symbols are distinct. */
  lemma SymbolsAreDistinct()
    ensures |Symbols| == 5
    ensures forall i, j :: 0 <= i < j < |Symbols| ==> Symbols[i] != Symbols[j]
  {
  }

  /** Pressing the three stop buttons in order stops the reels and judges once, at the third. */
  lemma StopAllJudgesOnce(s: Slot)
    requires s.spinning == [true, true, true]
    ensures var stopped := s.(spinning := [false, false, false]);
      Run(Step, s, [Stop(0), Stop(1), Stop(2)]) == (Judge(stopped).next, Emitted(Judge(stopped)))
  {
    var s1 := s.(spinning := [false, true, true]);
    var s2 := s.(spinning := [false, false, true]);
    var s3 := s.(spinning := [false, false, false]);
    assert s.spinning[0 := false] == s1.spinning;
    assert s1.spinning[1 := false] == s2.spinning;
    assert s2.spinning[2 := false] == s3.spinning;
    assert Step(s, Stop(0)) == Reaction(s1, None);
    assert Step(s1, Stop(1)) == Reaction(s2, None);
    assert Step(s2, Stop(2)) == Judge(s3);
    RunSingle(Step, s2, Stop(2));
    assert [Stop(1), Stop(2)][1..] == [Stop(2)];
    assert [Stop(0), Stop(1), Stop(2)][1..] == [Stop(1), Stop(2)];
    assert [] + Run(Step, s2, [Stop(2)]).1 == Run(Step, s2, [Stop(2)]).1;
    assert Run(Step, s1, [Stop(1), Stop(2)]) == Run(Step, s2, [Stop(2)]);
    assert [] + Run(Step, s1, [Stop(1), Stop(2)]).1 == Run(Step, s1, [Stop(1), Stop(2)]).1;
    assert Run(Step, s, [Stop(0), Stop(1), Stop(2)]) == Run(Step, s1, [Stop(1), Stop(2)]);
  }

  /** Stopping the three reels of the fresh machine loses: cherry, lemon and orange differ. */
  lemma StoppingAtMountLoses()
    ensures Run(Step, Mount(true), [Stop(0), Stop(1), Stop(2)]).1 == [Failure]
    ensures Run(Step, Mount(true), [Stop(0), Stop(1), Stop(2)]).0.result == Lose
  {
    StopAllJudgesOnce(Mount(true));
  }

  /** Two turns to cherry, then three stops: a win. */
  lemma CherriesWin()
    ensures Run(Step, Mount(true), [Turn(1, 0.0), Turn(2, 0.0)] + [Stop(0), Stop(1), Stop(2)]).1 == [Success]
  {
    var turns := [Turn(1, 0.0), Turn(2, 0.0)];
    var stops := [Stop(0), Stop(1), Stop(2)];
    var cherries := Mount(true).(slots := ["🍒", "🍒", "🍒"]);
    TurnsToCherries();
    EqualReelsWin(cherries);
    RunAppend(Step, Mount(true), turns, stops);
    assert Run(Step, Mount(true), turns) == (cherries, []);
    assert Run(Step, Mount(true), turns + stops).1 == [] + [Success];
  }

  /** Three stops on spinning reels that show the same symbol: a win. */
  lemma EqualReelsWin(s: Slot)
    requires s.spinning == [true, true, true] && AllEqual(s.slots)
    ensures Run(Step, s, [Stop(0), Stop(1), Stop(2)]).1 == [Success]
  {
    StopAllJudgesOnce(s);
    var stopped := s.(spinning := [false, false, false]);
    assert Judge(stopped).outcome == Some(Success);
    assert Emitted(Judge(stopped)) == [Success];
  }

  /** Turning the second and third reels with the draw 0.0 shows three cherries and reports nothing. */
  lemma TurnsToCherries()
    ensures Run(Step, Mount(true), [Turn(1, 0.0), Turn(2, 0.0)]) == (Mount(true).(slots := ["🍒", "🍒", "🍒"]), [])
  {
    var s0 := Mount(true);
    var a := s0.(slots := ["🍒", "🍒", "🍊"]);
    var b := s0.(slots := ["🍒", "🍒", "🍒"]);
    assert RandomSymbol(0.0) == "🍒";
    assert s0.slots[1 := "🍒"] == a.slots;
    assert a.slots[2 := "🍒"] == b.slots;
    assert Step(s0, Turn(1, 0.0)) == Reaction(a, None);
    assert Step(a, Turn(2, 0.0)) == Reaction(b, None);
    RunAppend(Step, s0, [Turn(1, 0.0)], [Turn(2, 0.0)]);
    RunSingle(Step, s0, Turn(1, 0.0));
    RunSingle(Step, a, Turn(2, 0.0));
    assert [Turn(1, 0.0)] + [Turn(2, 0.0)] == [Turn(1, 0.0), Turn(2, 0.0)];
  }

  /**
   * Nothing ends the game: after a judged round, the spin button and its timer judge
   * again, so a second outcome is reported.
   */
  lemma SpinAgainReportsAgain(s: Slot)
    requires AllStopped(s.spinning) && s.batches == [] && !AllEqual(s.slots) && s.hasOnFailure
    ensures Run(Step, s, [Spin, SpinTimer]).1 == [Failure]
  {
    var spun := SpinSlots(s);
    assert spun.batches[1..] == [];
    assert Step(spun, SpinTimer).outcome == Some(Failure);
    RunAppend(Step, s, [Spin], [SpinTimer]);
    RunSingle(Step, s, Spin);
    RunSingle(Step, spun, SpinTimer);
    assert [Spin] + [SpinTimer] == [Spin, SpinTimer];
  }
}
