/**
 * app/components/minigames/MiniGameContainer.tsx: the registry from a kind's
 * tag to the widget that renders it, with a placeholder for unregistered
 * kinds, and the header, time-limit badge and consent block around it.
 */
module Container {
  import opened Common
  import Types

  /** The sixteen widgets the registry knows. */
  datatype Widget =
    | BasicAgreeView | EscapeButtonView | LongPressView | ClickerView
    | MathQuizView | MemoryGameView | ReflexTestView | TwoChoiceQuizView
    | ColorMatchView | RapidClickView | TimingGameView | WordSearchView
    | DragDropView | MazeView | SlotMachineView | SlidePuzzleView

  /** The registry keys, in declaration order. */
  const RegistryKeys: seq<string> := [
    "basic-agree", "escape-button", "long-press", "clicker",
    "math-quiz", "memory-game", "reflex-test", "two-choice-quiz",
    "color-match", "rapid-click", "timing-game", "word-search",
    "drag-drop", "maze", "slot-machine", "slide-puzzle"
  ]

  /** `gameComponentMap[key]`: the widget registered under `key`, if any. */
  function Lookup(key: string): (w: Option<Widget>)
    ensures w.Some? <==> key in RegistryKeys
  {
    if key == "basic-agree" then Some(BasicAgreeView)
    else if key == "escape-button" then Some(EscapeButtonView)
    else if key == "long-press" then Some(LongPressView)
    else if key == "clicker" then Some(ClickerView)
    else if key == "math-quiz" then Some(MathQuizView)
    else if key == "memory-game" then Some(MemoryGameView)
    else if key == "reflex-test" then Some(ReflexTestView)
    else if key == "two-choice-quiz" then Some(TwoChoiceQuizView)
    else if key == "color-match" then Some(ColorMatchView)
    else if key == "rapid-click" then Some(RapidClickView)
    else if key == "timing-game" then Some(TimingGameView)
    else if key == "word-search" then Some(WordSearchView)
    else if key == "drag-drop" then Some(DragDropView)
    else if key == "maze" then Some(MazeView)
    else if key == "slot-machine" then Some(SlotMachineView)
    else if key == "slide-puzzle" then Some(SlidePuzzleView)
    else None
  }

  /** The kinds without a registered widget. */
  predicate Unregistered(t: Types.MiniGameType) {
    t == Types.RhythmGame || t == Types.DodgeGame || t == Types.ChessBoard || t == Types.FinalChallenge
  }

  /** Exactly sixteen distinct keys; of the twenty kinds, only the four unregistered ones resolve to nothing. */
  lemma RegistryCoversSixteenKinds(t: Types.MiniGameType)
    ensures |RegistryKeys| == 16
    ensures forall i, j :: 0 <= i < j < |RegistryKeys| ==> RegistryKeys[i] != RegistryKeys[j]
    ensures Lookup(Types.TypeTag(t)).None? <==> Unregistered(t)
  {
    RegistryKeysDistinct();
    LookupOfKind(t);
  }

  lemma RegistryKeysDistinct()
    ensures forall i, j :: 0 <= i < j < |RegistryKeys| ==> RegistryKeys[i] != RegistryKeys[j]
  {
  }

  lemma LookupOfKind(t: Types.MiniGameType)
    ensures Lookup(Types.TypeTag(t)).None? <==> Unregistered(t)
  {
    if Unregistered(t) { LookupUnregistered(t); } else { LookupRegistered(t); }
  }

  /** The four kinds without a widget resolve to nothing. */
  lemma LookupUnregistered(t: Types.MiniGameType)
    requires Unregistered(t)
    ensures Lookup(Types.TypeTag(t)).None?
  {
    match t
    case RhythmGame => RhythmGameUnregistered();
    case DodgeGame => DodgeGameUnregistered();
    case ChessBoard => ChessBoardUnregistered();
    case FinalChallenge => FinalChallengeUnregistered();
  }

  /** One ground fact per unregistered kind, so that each comparison with the sixteen keys is made once. */
  lemma RhythmGameUnregistered() ensures Lookup(Types.TypeTag(Types.RhythmGame)).None? {}
  lemma DodgeGameUnregistered() ensures Lookup(Types.TypeTag(Types.DodgeGame)).None? {}
  lemma ChessBoardUnregistered() ensures Lookup(Types.TypeTag(Types.ChessBoard)).None? {}
  lemma FinalChallengeUnregistered() ensures Lookup(Types.TypeTag(Types.FinalChallenge)).None? {}

  /** The sixteen registered kinds resolve to a widget. */
  lemma LookupRegistered(t: Types.MiniGameType)
    requires !Unregistered(t)
    ensures Lookup(Types.TypeTag(t)).Some?
  {
  }

  /** A consent article shown above the widget. */
  datatype Consent = Consent(article: string, title: string, items: seq<string>)

  /** What the `{game.timeLimit && …}` slot renders: nothing, the falsy number 0 as text, or the badge. */
  datatype BadgeSlot = NoBadge | ZeroText | Badge(seconds: int)

  /** The widget area: a mounted widget with its props, or the "not ready" placeholder. */
  datatype Body = Mounted(widget: Widget, props: Types.ComponentProps) | Placeholder

  /** The rendered container. */
  datatype View = View(
    eyebrow: string,
    heading: string,
    description: string,
    badge: BadgeSlot,
    consentBlock: Option<Consent>,
    body: Body)

  const ConsentPrefix: string := "利用規約 "

  /** `MiniGameContainer` for one game, consent article, and callback pair. */
  function Render(game: Types.MiniGame, consent: Option<Consent>, onSuccess: Types.Callback, onFailure: Types.Callback): (v: View)
    ensures v.body.Mounted? <==> !Unregistered(game.id)
    ensures v.body.Mounted? ==>
      Lookup(Types.TypeTag(game.id)) == Some(v.body.widget)
      && v.body.props == Types.ComponentProps(onSuccess, Some(onFailure), game.timeLimit)
    ensures consent.Some? ==> v.eyebrow == ConsentPrefix + consent.value.article && v.heading == consent.value.title
    ensures consent.None? ==> v.eyebrow == "Mini Game" && v.heading == game.name
    ensures v.description == game.description
    ensures v.badge.Badge? <==> game.timeLimit.Some? && game.timeLimit.value != 0
    ensures v.badge.Badge? ==> v.badge.seconds == game.timeLimit.value
    ensures v.consentBlock == consent
  {
    RegistryCoversSixteenKinds(game.id);
    var eyebrow := if consent.Some? then ConsentPrefix + consent.value.article else "Mini Game";
    var heading := if consent.Some? then consent.value.title else game.name;
    var badge :=
      match game.timeLimit
      case None => NoBadge
      case Some(t) => if t == 0 then ZeroText else Badge(t);
    var body :=
      match Lookup(Types.TypeTag(game.id))
      case Some(w) => Mounted(w, Types.ComponentProps(onSuccess, Some(onFailure), game.timeLimit))
      case None => Placeholder;
    View(eyebrow, heading, game.description, badge, consent, body)
  }

  /** The placeholder is shown exactly for the four unregistered kinds, and
      the body does not depend on the consent article shown above it. */
  lemma RenderPlaceholderIffUnregistered(game: Types.MiniGame, c1: Option<Consent>, c2: Option<Consent>, onSuccess: Types.Callback, onFailure: Types.Callback)
    ensures Render(game, c1, onSuccess, onFailure).body.Placeholder? <==> Unregistered(game.id)
    ensures Render(game, c1, onSuccess, onFailure).body == Render(game, c2, onSuccess, onFailure).body
  {
    var v1 := Render(game, c1, onSuccess, onFailure);
    var v2 := Render(game, c2, onSuccess, onFailure);
    if v1.body.Mounted? {
      assert v1.body.widget == v2.body.widget by {
        assert Some(v1.body.widget) == Some(v2.body.widget);
      }
    }
  }
}
