/**
 * The memory widget (app/components/minigames/MemoryGame.tsx): a sequence of
 * four coloured tiles is flashed one by one, and the player repeats it. A wrong
 * pick reports failure at once; repeating the whole sequence reports success.
 */
module MemoryGameWidget {
  import opened Common

  /** The ids of `TILES`. */
  const TileIds: seq<string> := ["emerald", "sky", "rose", "amber"]
  const SequenceLength: int := 4

  /** Timer delays in milliseconds: before the first flash, one flash, the gap after it. */
  const StartDelay: int := 2000
  const FlashMs: int := 450
  const GapMs: int := 350

  /** The sequence, one tile drawn per entry of `draws`. */
  function GenerateSequence(draws: seq<Unit>): (sequence: seq<string>)
    ensures |sequence| == |draws|
    ensures forall k :: 0 <= k < |draws| ==> sequence[k] == TileIds[Pick(draws[k], |TileIds|)]
    ensures forall k :: 0 <= k < |draws| ==> sequence[k] in TileIds
  {
    seq(|draws|, k requires 0 <= k < |draws| => TileIds[Pick(draws[k], |TileIds|)])
  }

  /**
   * Where the reveal is: waiting for the first flash, flashing entry `index`,
   * in the gap before entry `index`, or finished.
   */
  datatype Phase = BeforeStart | Showing(index: int) | Gap(index: int) | Finished

  /** The delay of the timer pending in each phase; none once finished. */
  function PendingDelay(p: Phase): Option<int> {
    match p
    case BeforeStart => Some(StartDelay)
    case Showing(_) => Some(FlashMs)
    case Gap(_) => Some(GapMs)
    case Finished => None
  }

  datatype Memory = Memory(
    sequence: seq<string>,
    step: int,
    revealing: bool,
    activeId: Option<string>,
    phase: Phase,
    done: bool,
    hasOnFailure: bool)

  /** The pending timer fires, or the player picks a tile. */
  datatype Event = Fire | Choose(id: string)

  /** The mounted widget: the reveal is pending and nothing is picked yet. */
  function Mount(draws: seq<Unit>, hasOnFailure: bool): (m: Memory)
    requires |draws| == SequenceLength
    ensures Inv(m) && m.revealing && m.phase == BeforeStart && m.step == 0 && !m.done
  {
    Memory(GenerateSequence(draws), 0, true, None, BeforeStart, false, hasOnFailure)
  }

  /** `playNext` at `index`: flash the entry, or end the reveal when none is left. */
  function PlayNext(m: Memory, index: int): (n: Memory)
    requires 0 <= index
    ensures index < |m.sequence| ==> n == m.(activeId := Some(m.sequence[index]), phase := Showing(index))
    ensures index >= |m.sequence| ==> n == m.(activeId := None, revealing := false, phase := Finished)
  {
    if index >= |m.sequence| then m.(activeId := None, revealing := false, phase := Finished)
    else m.(activeId := Some(m.sequence[index]), phase := Showing(index))
  }

  /** The pending reveal timer fires. */
  function FireTimer(m: Memory): (n: Memory)
    ensures n.sequence == m.sequence && n.step == m.step && n.done == m.done
    ensures n.hasOnFailure == m.hasOnFailure
    ensures m.phase == Finished ==> n == m
  {
    match m.phase
    case BeforeStart => PlayNext(m, 0)
    case Showing(i) => if i < 0 then m else m.(activeId := None, phase := Gap(i + 1))
    case Gap(i) => if i < 0 then m else PlayNext(m, i)
    case Finished => m
  }

  /**
   * `handlePick`: ignored once done or while revealing. The expected tile advances
   * the step, or reports success on the last entry; any other tile reports failure.
   */
  function HandlePick(m: Memory, id: string): (r: Reaction<Memory>)
    requires 0 <= m.step < |m.sequence|
    ensures m.done || m.revealing ==> r == Reaction(m, None)
    ensures !m.done && !m.revealing && id == m.sequence[m.step] && m.step + 1 < |m.sequence| ==>
      r == Reaction(m.(step := m.step + 1), None)
    ensures !m.done && !m.revealing && id == m.sequence[m.step] && m.step + 1 >= |m.sequence| ==>
      r == Reaction(m.(done := true), Some(Success))
    ensures !m.done && !m.revealing && id != m.sequence[m.step] ==>
      r.next == m.(done := true) && r.outcome == (if m.hasOnFailure then Some(Failure) else None)
  {
    if m.done || m.revealing then Reaction(m, None)
    else if id == m.sequence[m.step] then
      var nextStep := m.step + 1;
      if nextStep >= |m.sequence| then Reaction(m.(done := true), Some(Success))
      else Reaction(m.(step := nextStep), None)
    else Reaction(m.(done := true), if m.hasOnFailure then Some(Failure) else None)
  }

  /** The step always points into the sequence; the reveal is running exactly until it has finished. */
  ghost predicate Inv(m: Memory) {
    && |m.sequence| == SequenceLength
    && (forall k :: 0 <= k < |m.sequence| ==> m.sequence[k] in TileIds)
    && 0 <= m.step < |m.sequence|
    && (m.revealing <==> m.phase != Finished)
    && (m.phase.Showing? ==> 0 <= m.phase.index < |m.sequence|)
    && (m.phase.Gap? ==> 1 <= m.phase.index <= |m.sequence|)
  }

  predicate Done(m: Memory) {
    m.done
  }

  function Step(m: Memory, e: Event): (r: Reaction<Memory>)
    ensures Inv(m) ==> Inv(r.next)
    ensures Done(m) ==> Done(r.next) && r.outcome.None?
    ensures r.outcome.Some? ==> Done(r.next)
  {
    match e
    case Fire => Reaction(FireTimer(m), None)
    case Choose(id) => if 0 <= m.step < |m.sequence| then HandlePick(m, id) else Reaction(m, None)
  }

  /** At most one outcome is ever reported, and the step never leaves the sequence. */
  lemma AtMostOneOutcomeOverall(m: Memory, events: seq<Event>)
    requires Inv(m)
    ensures |Run(Step, m, events).1| <= 1
    ensures 0 <= Run(Step, m, events).0.step < SequenceLength
  {
    AtMostOneOutcome(Step, Done, Inv, m, events);
  }

  /** `n` timer firings. */
  function Fires(n: nat): (events: seq<Event>)
    ensures |events| == n && forall k :: 0 <= k < n ==> events[k] == Fire
  {
    seq(n, _ => Fire)
  }

  /** One more firing applies the reveal timer to where the earlier firings left the widget. */
  lemma FireOnceMore(m: Memory, n: nat)
    ensures Run(Step, m, Fires(n + 1)).0 == FireTimer(Run(Step, m, Fires(n)).0)
    ensures Run(Step, m, Fires(n + 1)).1 == Run(Step, m, Fires(n)).1
  {
    assert Fires(n + 1) == Fires(n) + [Fire];
    RunAppend(Step, m, Fires(n), [Fire]);
    RunSingle(Step, Run(Step, m, Fires(n)).0, Fire);
  }

  /**
   * The reveal flashes the entries in order: after `2k + 1` firings entry `k` is lit,
   * after `2k + 2` nothing is lit, and no outcome is reported meanwhile.
   */
  lemma {:induction false} RevealOrder(m: Memory, k: nat)
    requires Inv(m) && m.phase == BeforeStart && k < |m.sequence|
    ensures Run(Step, m, Fires(2 * k + 1)) ==
      (m.(activeId := Some(m.sequence[k]), phase := Showing(k)), [])
    ensures Run(Step, m, Fires(2 * k + 2)) ==
      (m.(activeId := None, phase := Gap(k + 1)), [])
    decreases k
  {
    if k == 0 {
      RunSingle(Step, m, Fire);
      assert Fires(1) == [Fire];
    } else {
      RevealOrder(m, k - 1);
      FireOnceMore(m, 2 * k);
    }
    FireOnceMore(m, 2 * k + 1);
  }

  /** After the last gap the reveal ends: nothing is lit and picks are accepted. */
  lemma RevealEnds(m: Memory)
    requires Inv(m) && m.phase == BeforeStart
    ensures Run(Step, m, Fires(2 * SequenceLength + 1)) ==
      (m.(activeId := None, revealing := false, phase := Finished), [])
  {
    RevealOrder(m, SequenceLength - 1);
    FireOnceMore(m, 2 * SequenceLength);
  }
}
