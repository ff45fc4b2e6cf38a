/**
 * The colour widget (app/components/minigames/ColorMatch.tsx): a target colour
 * is drawn from four, and the first swatch picked decides the game: the same
 * colour value succeeds, any other fails.
 */
module ColorMatchWidget {
  import opened Common

  /** An option: `name` is the source's `label` field (`label` is reserved in Dafny). */
  datatype ColorOption = ColorOption(name: string, value: string)

  /** `COLORS`, in order. */
  const Colors: seq<ColorOption> := [
    ColorOption("ミント", "#34d399"),
    ColorOption("コーラル", "#fb7185"),
    ColorOption("サンド", "#facc15"),
    ColorOption("インク", "#38bdf8")
  ]

  /** No two options share a colour value. */
  predicate DistinctValues(options: seq<ColorOption>) {
    forall i, j :: 0 <= i < j < |options| ==> options[i].value != options[j].value
  }

  lemma ColorsAreDistinct()
    ensures |Colors| == 4 && DistinctValues(Colors)
  {
  }

  /** The target: `COLORS[Math.floor(Math.random() * COLORS.length)]`. */
  function ChooseTarget(r: Unit): (c: ColorOption)
    ensures c in Colors
  {
    Colors[Pick(r, |Colors|)]
  }

  datatype Match = Match(target: ColorOption, done: bool, hasOnFailure: bool)

  /** `handlePick`: the first pick ends the game and succeeds exactly on the target's value. */
  function HandlePick(m: Match, option: ColorOption): (r: Reaction<Match>)
    ensures m.done ==> r == Reaction(m, None)
    ensures !m.done ==> r.next == m.(done := true)
    ensures !m.done ==> (r.outcome == Some(Success) <==> option.value == m.target.value)
    ensures !m.done && option.value != m.target.value ==> r.outcome == (if m.hasOnFailure then Some(Failure) else None)
  {
    if m.done then Reaction(m, None)
    else if option.value == m.target.value then Reaction(m.(done := true), Some(Success))
    else Reaction(m.(done := true), if m.hasOnFailure then Some(Failure) else None)
  }

  predicate Done(m: Match) {
    m.done
  }

  /** Only the first pick is judged: later picks report nothing. */
  lemma AtMostOneOutcomeOverall(m: Match, picks: seq<ColorOption>)
    ensures |Run(HandlePick, m, picks).1| <= 1
    ensures |picks| > 0 && !m.done ==> Run(HandlePick, m, picks).1 == Emitted(HandlePick(m, picks[0]))
  {
    // the guard needs no invariant beyond the done flag
    var always := (x: Match) => true;
    assert Guarded(HandlePick, Done, always);
    AtMostOneOutcome(HandlePick, Done, always, m, picks);
    if |picks| > 0 && !m.done {
      AtMostOneOutcome(HandlePick, Done, always, m.(done := true), picks[1..]);
      assert Emitted(HandlePick(m, picks[0])) + [] == Emitted(HandlePick(m, picks[0]));
    }
  }

  /** Whatever the target, exactly one of the four swatches succeeds. */
  lemma ExactlyOneOptionSucceeds(r: Unit, hasOnFailure: bool)
    ensures var m := Match(ChooseTarget(r), false, hasOnFailure);
      && (exists k :: 0 <= k < |Colors| && HandlePick(m, Colors[k]).outcome == Some(Success))
      && (forall i, j :: 0 <= i < j < |Colors| ==>
            !(HandlePick(m, Colors[i]).outcome == Some(Success) && HandlePick(m, Colors[j]).outcome == Some(Success)))
  {
    var m := Match(ChooseTarget(r), false, hasOnFailure);
    var k := Pick(r, |Colors|);
    assert HandlePick(m, Colors[k]).outcome == Some(Success);
    ColorsAreDistinct();
  }
}
