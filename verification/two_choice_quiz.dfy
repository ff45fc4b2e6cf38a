/**
 * The two-choice widget (app/components/minigames/TwoChoiceQuiz.tsx): one of
 * three questions is drawn, and the first of its two buttons pressed decides
 * the game: the correct side succeeds, the other fails.
 */
module TwoChoiceQuizWidget {
  import opened Common

  datatype Side = Left | Right

  datatype Choice = Choice(question: string, left: string, right: string, correct: Side)

  /** `QUESTIONS`, in order. */
  const Questions: seq<Choice> := [
    Choice("同意するを選んでください", "同意する", "同意しない", Left),
    Choice("規約を読むふりをしますか？", "はい", "いいえ", Right),
    Choice("開発者に優しいのはどっち？", "優しい", "厳しい", Left)
  ]

  /** The question: `QUESTIONS[Math.floor(Math.random() * QUESTIONS.length)]`. */
  function ChooseQuestion(r: Unit): (q: Choice)
    ensures q in Questions
  {
    Questions[Pick(r, |Questions|)]
  }

  datatype TwoChoice = TwoChoice(quiz: Choice, done: bool, hasOnFailure: bool)

  /** `handleSelect`: the first selection ends the game and succeeds exactly on the correct side. */
  function HandleSelect(t: TwoChoice, choice: Side): (r: Reaction<TwoChoice>)
    ensures t.done ==> r == Reaction(t, None)
    ensures !t.done ==> r.next == t.(done := true)
    ensures !t.done ==> (r.outcome == Some(Success) <==> choice == t.quiz.correct)
    ensures !t.done && choice != t.quiz.correct ==> r.outcome == (if t.hasOnFailure then Some(Failure) else None)
  {
    if t.done then Reaction(t, None)
    else if choice == t.quiz.correct then Reaction(t.(done := true), Some(Success))
    else Reaction(t.(done := true), if t.hasOnFailure then Some(Failure) else None)
  }

  predicate Done(t: TwoChoice) {
    t.done
  }

  /** Only the first selection is judged: later selections report nothing. */
  lemma AtMostOneOutcomeOverall(t: TwoChoice, choices: seq<Side>)
    ensures |Run(HandleSelect, t, choices).1| <= 1
    ensures |choices| > 0 && !t.done ==> Run(HandleSelect, t, choices).1 == Emitted(HandleSelect(t, choices[0]))
  {
    // the guard needs no invariant beyond the done flag
    var always := (x: TwoChoice) => true;
    assert Guarded(HandleSelect, Done, always);
    AtMostOneOutcome(HandleSelect, Done, always, t, choices);
    if |choices| > 0 && !t.done {
      AtMostOneOutcome(HandleSelect, Done, always, t.(done := true), choices[1..]);
      assert Emitted(HandleSelect(t, choices[0])) + [] == Emitted(HandleSelect(t, choices[0]));
    }
  }

  /** For every question exactly one of the two buttons succeeds. */
  lemma ExactlyOneSideSucceeds(r: Unit, hasOnFailure: bool)
    ensures var t := TwoChoice(ChooseQuestion(r), false, hasOnFailure);
      (HandleSelect(t, Left).outcome == Some(Success)) != (HandleSelect(t, Right).outcome == Some(Success))
  {
  }

  /** The draw can give each of the three questions, with the correct sides left, right, left. */
  lemma CorrectSides()
    ensures |Questions| == 3
    ensures Questions[0].correct == Left && Questions[1].correct == Right && Questions[2].correct == Left
    ensures ChooseQuestion(0.0) == Questions[0]
    ensures ChooseQuestion(0.5) == Questions[1]
    ensures ChooseQuestion(0.9) == Questions[2]
  {
    assert Pick(0.5, 3) == 1;
    assert Pick(0.9, 3) == 2;
  }
}
