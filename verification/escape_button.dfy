/**
 * The escape-button widget (app/components/minigames/EscapeButton.tsx): the
 * "agree" button jumps away when the pointer comes near. After five near
 * misses it tires and stays put; clicking it then succeeds, and clicking it
 * earlier fails. The callback is deferred by `setTimeout(…, 0)`; the model
 * reports it at the click. The clock, the container's size and
 * `Math.random()` are parameters of the events.
 */
module EscapeButtonWidget {
  import opened Common

  const AttemptsBeforeSuccess: int := 5
  /** Milliseconds between two jumps caused by mouse movement. */
  const MoveCooldownMs: int := 120
  /** The button's footprint subtracted from the container's size. */
  const ButtonWidth: real := 140.0
  const ButtonHeight: real := 48.0

  /** Where the button is: centred (the initial `50%`), or at an offset in pixels. */
  datatype Placement = Centred | At(x: real, y: real)

  datatype Escape = Escape(attempts: int, lastMove: int, placement: Placement, done: bool, hasOnFailure: bool)

  /**
   * The pointer enters (or focuses) the button; the pointer moves inside the container
   * at time `now`; the button is clicked. The container's size and two draws place a jump.
   */
  datatype Event =
    | Hover(width: real, height: real, r1: Unit, r2: Unit)
    | Chase(now: int, width: real, height: real, r1: Unit, r2: Unit)
    | Press

  /** The mounted widget: no attempts, the button centred. */
  function Mount(hasOnFailure: bool): (e: Escape)
    ensures Inv(e) && e.attempts == 0 && e.placement == Centred && !e.done
  {
    Escape(0, 0, Centred, false, hasOnFailure)
  }

  /** `Math.max(v, 0)`. */
  function NonNegative(v: real): (m: real)
    ensures 0.0 <= m && (0.0 <= v ==> m == v)
  {
    if v < 0.0 then 0.0 else v
  }

  /** `moveButton`: a random offset that keeps the button inside the container. */
  function Jump(width: real, height: real, r1: Unit, r2: Unit): (p: Placement)
    ensures p.At?
    ensures 0.0 <= p.x <= NonNegative(width - ButtonWidth)
    ensures 0.0 <= p.y <= NonNegative(height - ButtonHeight)
  {
    At(Scale(r1, NonNegative(width - ButtonWidth)), Scale(r2, NonNegative(height - ButtonHeight)))
  }

  /** `handleHover`: counts a near miss and jumps away, except on the fifth, where the button stays. */
  function HandleHover(e: Escape, width: real, height: real, r1: Unit, r2: Unit): (n: Escape)
    ensures e.done || e.attempts >= AttemptsBeforeSuccess ==> n == e
    ensures !e.done && e.attempts < AttemptsBeforeSuccess ==>
      && n.attempts == e.attempts + 1
      && (n.attempts < AttemptsBeforeSuccess ==> n.placement == Jump(width, height, r1, r2))
      && (n.attempts >= AttemptsBeforeSuccess ==> n.placement == e.placement)
      && n.done == e.done && n.lastMove == e.lastMove
  {
    if e.done || e.attempts >= AttemptsBeforeSuccess then e
    else
      var next := e.attempts + 1;
      if next < AttemptsBeforeSuccess then e.(attempts := next, placement := Jump(width, height, r1, r2))
      else e.(attempts := next)
  }

  /** `handleChase`: a jump at most once per cooldown, and none once the button has tired. */
  function HandleChase(e: Escape, now: int, width: real, height: real, r1: Unit, r2: Unit): (n: Escape)
    ensures e.done || e.attempts >= AttemptsBeforeSuccess || now - e.lastMove < MoveCooldownMs ==> n == e
    ensures !e.done && e.attempts < AttemptsBeforeSuccess && now - e.lastMove >= MoveCooldownMs ==>
      n == e.(lastMove := now, placement := Jump(width, height, r1, r2))
  {
    if e.done || e.attempts >= AttemptsBeforeSuccess then e
    else if now - e.lastMove < MoveCooldownMs then e
    else e.(lastMove := now, placement := Jump(width, height, r1, r2))
  }

  /** `handleClick`: the first click ends the game, successfully exactly after five near misses. */
  function HandleClick(e: Escape): (r: Reaction<Escape>)
    ensures e.done ==> r == Reaction(e, None)
    ensures !e.done ==> r.next == e.(done := true)
    ensures !e.done ==> (r.outcome == Some(Success) <==> e.attempts >= AttemptsBeforeSuccess)
    ensures !e.done && e.attempts < AttemptsBeforeSuccess ==> (r.outcome == Some(Failure) <==> e.hasOnFailure)
  {
    if e.done then Reaction(e, None)
    else if e.attempts >= AttemptsBeforeSuccess then Reaction(e.(done := true), Some(Success))
    else Reaction(e.(done := true), if e.hasOnFailure then Some(Failure) else None)
  }

  function Step(e: Escape, ev: Event): (r: Reaction<Escape>)
    ensures Inv(e) ==> Inv(r.next)
    ensures Done(e) ==> Done(r.next) && r.outcome.None?
    ensures r.outcome.Some? ==> Done(r.next)
    ensures !ev.Press? ==> r.outcome.None? && r.next.done == e.done
  {
    match ev
    case Hover(w, h, r1, r2) => Reaction(HandleHover(e, w, h, r1, r2), None)
    case Chase(now, w, h, r1, r2) => Reaction(HandleChase(e, now, w, h, r1, r2), None)
    case Press => HandleClick(e)
  }

  /** The attempts never pass five. */
  predicate Inv(e: Escape) {
    0 <= e.attempts <= AttemptsBeforeSuccess
  }

  predicate Done(e: Escape) {
    e.done
  }

  /** At most one outcome is reported, and the attempts stay between zero and five. */
  lemma AtMostOneOutcomeOverall(e: Escape, events: seq<Event>)
    requires Inv(e)
    ensures |Run(Step, e, events).1| <= 1
    ensures 0 <= Run(Step, e, events).0.attempts <= AttemptsBeforeSuccess
  {
    assert Guarded(Step, Done, Inv);
    AtMostOneOutcome(Step, Done, Inv, e, events);
  }

  /** The hint under the button, by the number of near misses. */
  function Hint(attempts: int): (text: string)
    ensures attempts == 0 ==> text == "近づいただけではダメ。"
    ensures attempts == 1 ==> text == "あと少しで逃げ疲れそう…"
    ensures attempts != 0 && attempts != 1 ==> text == "最後のチャンス。"
  {
    if attempts == 0 then "近づいただけではダメ。"
    else if attempts == 1 then "あと少しで逃げ疲れそう…"
    else "最後のチャンス。"
  }

  /** After a mouse move that made the button jump, another within the cooldown does nothing. */
  lemma ChaseIsThrottled(e: Escape, t1: int, t2: int, w: real, h: real, a1: Unit, a2: Unit, b1: Unit, b2: Unit)
    requires HandleChase(e, t1, w, h, a1, a2) != e
    requires t2 - t1 < MoveCooldownMs
    ensures HandleChase(HandleChase(e, t1, w, h, a1, a2), t2, w, h, b1, b2) == HandleChase(e, t1, w, h, a1, a2)
  {
  }

  /** Each near miss before the button tires adds one attempt and reports nothing. */
  lemma {:induction false} HoversCount(e: Escape, k: nat, w: real, h: real, r: Unit)
    requires !e.done && e.attempts + k <= AttemptsBeforeSuccess
    ensures Run(Step, e, Repeat(Hover(w, h, r, r), k)).0.attempts == e.attempts + k
    ensures !Run(Step, e, Repeat(Hover(w, h, r, r), k)).0.done
    ensures Run(Step, e, Repeat(Hover(w, h, r, r), k)).1 == []
    decreases k
  {
    if k > 0 {
      var next := Step(e, Hover(w, h, r, r)).next;
      assert Repeat(Hover(w, h, r, r), k)[1..] == Repeat(Hover(w, h, r, r), k - 1);
      HoversCount(next, k - 1, w, h, r);
    }
  }

  /** Five near misses, then a click: success. */
  lemma FiveMissesThenClickSucceeds(e: Escape, w: real, h: real, r: Unit)
    requires !e.done && e.attempts == 0
    ensures Run(Step, e, Repeat(Hover(w, h, r, r), AttemptsBeforeSuccess) + [Press]).1 == [Success]
  {
    var misses := Repeat(Hover(w, h, r, r), AttemptsBeforeSuccess);
    HoversCount(e, AttemptsBeforeSuccess, w, h, r);
    RunAppend(Step, e, misses, [Press]);
    RunSingle(Step, Run(Step, e, misses).0, Press);
  }

  /** A click before the fifth near miss fails. */
  lemma EarlyClickFails(e: Escape)
    requires !e.done && e.attempts < AttemptsBeforeSuccess && e.hasOnFailure
    ensures Step(e, Press) == Reaction(e.(done := true), Some(Failure))
  {
  }
}
