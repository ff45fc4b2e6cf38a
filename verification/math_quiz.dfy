/**
 * The arithmetic widget (app/components/minigames/MathQuiz.tsx): a sum or
 * difference of two two-digit numbers is shown; submitting the right answer
 * succeeds, a wrong one fails, and the timeout fails an unanswered quiz. The
 * typed answer enters the model already converted by `Number(...)`: `None`
 * stands for a text that converts to no number.
 */
module MathQuizWidget {
  import opened Common

  /** Seconds before the timeout when no `timeLimit` is given. */
  const DefaultTimeLimit: int := 12

  datatype Operator = Plus | Minus

  /** `OPERATORS`, in order. */
  const Operators: seq<Operator> := [Plus, Minus]

  datatype Quiz = Quiz(left: int, right: int, op: Operator, result: int)

  /** The value of `left op right`. */
  function Apply(op: Operator, left: int, right: int): int {
    match op
    case Plus => left + right
    case Minus => left - right
  }

  /** An operand: `Math.floor(r * 90) + 10`. */
  function Operand(r: Unit): (n: int)
    ensures 10 <= n <= 99
  {
    Pick(r, 90) + 10
  }

  /** The quiz drawn from three outputs of `Math.random()`. */
  function MakeQuiz(r1: Unit, r2: Unit, r3: Unit): (q: Quiz)
    ensures 10 <= q.left <= 99 && 10 <= q.right <= 99
    ensures q.op in Operators
    ensures q.result == Apply(q.op, q.left, q.right)
    ensures -89 <= q.result <= 198
  {
    var left := Operand(r1);
    var right := Operand(r2);
    var op := Operators[Pick(r3, |Operators|)];
    Quiz(left, right, op, Apply(op, left, right))
  }

  /** Both ends of the result range are met: 10 − 99 and 99 + 99. */
  lemma ResultRangeIsTight()
    ensures Apply(Minus, 10, 99) == -89 && Apply(Plus, 99, 99) == 198
  {
  }

  datatype MathState = MathState(quiz: Quiz, armed: bool, done: bool, timeoutMs: int, hasOnFailure: bool)

  /** The answer is submitted; the timeout fires. */
  datatype Event = Submit(answer: Option<int>) | Timeout

  /** The mounted widget: the timeout is armed for `timeLimit` seconds (default 12). */
  function Mount(quiz: Quiz, timeLimit: Option<int>, hasOnFailure: bool): (s: MathState)
    ensures Inv(s) && s.armed && !s.done && s.quiz == quiz
    ensures s.timeoutMs == timeLimit.GetOr(DefaultTimeLimit) * 1000
  {
    MathState(quiz, true, false, timeLimit.GetOr(DefaultTimeLimit) * 1000, hasOnFailure)
  }

  /** `handleSubmit`: the first submission ends the game, cancels the timeout and is judged. */
  function HandleSubmit(s: MathState, answer: Option<int>): (r: Reaction<MathState>)
    ensures s.done ==> r == Reaction(s, None)
    ensures !s.done ==> r.next == s.(done := true, armed := false)
    ensures !s.done ==> (r.outcome == Some(Success) <==> answer == Some(s.quiz.result))
    ensures !s.done && answer != Some(s.quiz.result) ==> r.outcome == (if s.hasOnFailure then Some(Failure) else None)
  {
    if s.done then Reaction(s, None)
    else
      var closed := s.(done := true, armed := false);
      if answer == Some(s.quiz.result) then Reaction(closed, Some(Success))
      else Reaction(closed, if s.hasOnFailure then Some(Failure) else None)
  }

  /** The timeout fires, if it was not cancelled, and fails a quiz that is still open. */
  function FireTimeout(s: MathState): (r: Reaction<MathState>)
    ensures !s.armed ==> r == Reaction(s, None)
    ensures s.armed && s.done ==> r == Reaction(s.(armed := false), None)
    ensures s.armed && !s.done ==>
      r == Reaction(s.(armed := false, done := true), if s.hasOnFailure then Some(Failure) else None)
  {
    if !s.armed then Reaction(s, None)
    else if s.done then Reaction(s.(armed := false), None)
    else Reaction(s.(armed := false, done := true), if s.hasOnFailure then Some(Failure) else None)
  }

  function Step(s: MathState, e: Event): (r: Reaction<MathState>)
    ensures Inv(s) ==> Inv(r.next)
    ensures Done(s) ==> Done(r.next) && r.outcome.None?
    ensures r.outcome.Some? ==> Done(r.next)
    ensures r.next.quiz == s.quiz
  {
    match e
    case Submit(answer) => HandleSubmit(s, answer)
    case Timeout => FireTimeout(s)
  }

  /** The timeout is pending exactly while the quiz is open. */
  predicate Inv(s: MathState) {
    s.armed <==> !s.done
  }

  predicate Done(s: MathState) {
    s.done
  }

  /** Across submissions and the timeout, at most one outcome is reported. */
  lemma AtMostOneOutcomeOverall(s: MathState, events: seq<Event>)
    requires Inv(s)
    ensures |Run(Step, s, events).1| <= 1
  {
    assert Guarded(Step, Done, Inv);
    AtMostOneOutcome(Step, Done, Inv, s, events);
  }

  /** The quiz drawn at mount is the one judged at every later submission. */
  lemma {:induction false} QuizIsFixed(s: MathState, events: seq<Event>)
    ensures Run(Step, s, events).0.quiz == s.quiz
    decreases |events|
  {
    if |events| > 0 {
      QuizIsFixed(Step(s, events[0]).next, events[1..]);
    }
  }

  /** A submission cancels the timeout: the timeout firing afterwards adds nothing. */
  lemma SubmitCancelsTimeout(s: MathState, answer: Option<int>)
    requires Inv(s) && !s.done
    ensures Run(Step, s, [Submit(answer), Timeout]).1 == Emitted(HandleSubmit(s, answer))
    ensures !Run(Step, s, [Submit(answer), Timeout]).0.armed
  {
    var after := HandleSubmit(s, answer).next;
    RunAppend(Step, s, [Submit(answer)], [Timeout]);
    RunSingle(Step, s, Submit(answer));
    RunSingle(Step, after, Timeout);
    assert [Submit(answer)] + [Timeout] == [Submit(answer), Timeout];
    assert Emitted(HandleSubmit(s, answer)) + [] == Emitted(HandleSubmit(s, answer));
  }

  /** The correct answer succeeds and any other submission (or no number at all) fails. */
  lemma AnswerDecides(r1: Unit, r2: Unit, r3: Unit, answer: Option<int>)
    ensures var s := Mount(MakeQuiz(r1, r2, r3), None, true);
      Run(Step, s, [Submit(answer)]).1 == (if answer == Some(s.quiz.result) then [Success] else [Failure])
  {
    RunSingle(Step, Mount(MakeQuiz(r1, r2, r3), None, true), Submit(answer));
  }

  /** An unanswered quiz fails at the timeout; a later submission is ignored. */
  lemma TimeoutThenSubmitIgnored(quiz: Quiz, answer: Option<int>)
    ensures Run(Step, Mount(quiz, None, true), [Timeout, Submit(answer)]).1 == [Failure]
  {
    var s := Mount(quiz, None, true);
    var expired := s.(armed := false, done := true);
    RunAppend(Step, s, [Timeout], [Submit(answer)]);
    RunSingle(Step, s, Timeout);
    RunSingle(Step, expired, Submit(answer));
    assert [Timeout] + [Submit(answer)] == [Timeout, Submit(answer)];
    assert [Failure] + [] == [Failure];
  }
}
