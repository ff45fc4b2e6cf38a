/**
 * The shared record shapes declared in app/types/game.ts: the session
 * status union, the closed union of mini-game kinds, the difficulty tier,
 * the mini-game definition, the declared session record, the widget props
 * and the configuration constants.
 */
module Types {
  import opened Common

  /** The declared session status: a closed union of six tags (no "exploded"). */
  datatype GameStatus = Idle | Playing | Cleared | GameOver | WaitingNfc | Paused

  const AllStatuses: seq<GameStatus> := [Idle, Playing, Cleared, GameOver, WaitingNfc, Paused]

  /** The string literal each status stands for. */
  function StatusTag(s: GameStatus): string {
    match s
    case Idle => "idle"
    case Playing => "playing"
    case Cleared => "cleared"
    case GameOver => "game-over"
    case WaitingNfc => "waiting-nfc"
    case Paused => "paused"
  }

  /** Reads a string literal as a status; only the six declared tags are accepted. */
  function ParseStatus(tag: string): (r: Option<GameStatus>)
    ensures r.Some? ==> StatusTag(r.value) == tag
    ensures r.None? ==> forall s: GameStatus :: StatusTag(s) != tag
  {
    if tag == "idle" then Some(Idle)
    else if tag == "playing" then Some(Playing)
    else if tag == "cleared" then Some(Cleared)
    else if tag == "game-over" then Some(GameOver)
    else if tag == "waiting-nfc" then Some(WaitingNfc)
    else if tag == "paused" then Some(Paused)
    else None
  }

  /** The status union is closed: six distinct tags, every status listed, and "exploded" is not one of them. */
  lemma StatusUnionClosed()
    ensures |AllStatuses| == 6
    ensures forall s: GameStatus :: s in AllStatuses
    ensures forall i, j :: 0 <= i < j < |AllStatuses| ==> StatusTag(AllStatuses[i]) != StatusTag(AllStatuses[j])
    ensures forall s: GameStatus :: ParseStatus(StatusTag(s)) == Some(s)
    ensures ParseStatus("exploded") == None
  {
    forall s: GameStatus ensures s in AllStatuses {
      match s
      case Idle => assert AllStatuses[0] == s;
      case Playing => assert AllStatuses[1] == s;
      case Cleared => assert AllStatuses[2] == s;
      case GameOver => assert AllStatuses[3] == s;
      case WaitingNfc => assert AllStatuses[4] == s;
      case Paused => assert AllStatuses[5] == s;
    }
  }

  /** The twenty mini-game kinds. */
  datatype MiniGameType =
    | BasicAgree | EscapeButton | TimingGame | RapidClick | SlotMachine
    | SlidePuzzle | Maze | MemoryGame | ReflexTest | MathQuiz
    | LongPress | TwoChoiceQuiz | ColorMatch | WordSearch | DragDrop
    | RhythmGame | DodgeGame | Clicker | ChessBoard | FinalChallenge

  const AllTypes: seq<MiniGameType> := [
    BasicAgree, EscapeButton, TimingGame, RapidClick, SlotMachine,
    SlidePuzzle, Maze, MemoryGame, ReflexTest, MathQuiz,
    LongPress, TwoChoiceQuiz, ColorMatch, WordSearch, DragDrop,
    RhythmGame, DodgeGame, Clicker, ChessBoard, FinalChallenge
  ]

  /** The string literal each kind stands for. */
  function TypeTag(t: MiniGameType): string {
    match t
    case BasicAgree => "basic-agree"
    case EscapeButton => "escape-button"
    case TimingGame => "timing-game"
    case RapidClick => "rapid-click"
    case SlotMachine => "slot-machine"
    case SlidePuzzle => "slide-puzzle"
    case Maze => "maze"
    case MemoryGame => "memory-game"
    case ReflexTest => "reflex-test"
    case MathQuiz => "math-quiz"
    case LongPress => "long-press"
    case TwoChoiceQuiz => "two-choice-quiz"
    case ColorMatch => "color-match"
    case WordSearch => "word-search"
    case DragDrop => "drag-drop"
    case RhythmGame => "rhythm-game"
    case DodgeGame => "dodge-game"
    case Clicker => "clicker"
    case ChessBoard => "chess-board"
    case FinalChallenge => "final-challenge"
  }

  /** Reads a string literal as a kind; only the twenty declared tags are accepted. */
  function ParseType(tag: string): (r: Option<MiniGameType>)
    ensures r.Some? ==> TypeTag(r.value) == tag
    ensures r.None? ==> forall t: MiniGameType :: TypeTag(t) != tag
  {
    if tag == "basic-agree" then Some(BasicAgree)
    else if tag == "escape-button" then Some(EscapeButton)
    else if tag == "timing-game" then Some(TimingGame)
    else if tag == "rapid-click" then Some(RapidClick)
    else if tag == "slot-machine" then Some(SlotMachine)
    else if tag == "slide-puzzle" then Some(SlidePuzzle)
    else if tag == "maze" then Some(Maze)
    else if tag == "memory-game" then Some(MemoryGame)
    else if tag == "reflex-test" then Some(ReflexTest)
    else if tag == "math-quiz" then Some(MathQuiz)
    else if tag == "long-press" then Some(LongPress)
    else if tag == "two-choice-quiz" then Some(TwoChoiceQuiz)
    else if tag == "color-match" then Some(ColorMatch)
    else if tag == "word-search" then Some(WordSearch)
    else if tag == "drag-drop" then Some(DragDrop)
    else if tag == "rhythm-game" then Some(RhythmGame)
    else if tag == "dodge-game" then Some(DodgeGame)
    else if tag == "clicker" then Some(Clicker)
    else if tag == "chess-board" then Some(ChessBoard)
    else if tag == "final-challenge" then Some(FinalChallenge)
    else None
  }

  /** Reading a kind's tag gives the kind back, so distinct kinds have distinct tags. */
  lemma TypeTagRoundTrip(t: MiniGameType)
    ensures ParseType(TypeTag(t)) == Some(t)
    ensures forall u: MiniGameType :: TypeTag(u) == TypeTag(t) ==> u == t
  {
    ParseTypeOfTag(t);
    forall u: MiniGameType | TypeTag(u) == TypeTag(t) ensures u == t {
      ParseTypeOfTag(u);
    }
  }

  lemma ParseTypeOfTag(t: MiniGameType)
    ensures ParseType(TypeTag(t)) == Some(t)
  {
    ParseFirstTags();
    ParseSecondTags();
    ParseLongPressTag();
    ParseTwoChoiceQuizTag();
    ParseColorMatchTag();
    ParseWordSearchTag();
    ParseDragDropTag();
    ParseRhythmGameTag();
    ParseDodgeGameTag();
    ParseClickerTag();
    ParseChessBoardTag();
    ParseFinalChallengeTag();
  }

  /** The tags of BasicAgree, EscapeButton, TimingGame, RapidClick, SlotMachine parse back to their kinds. */
  lemma ParseFirstTags()
    ensures ParseType("basic-agree") == Some(BasicAgree)
    ensures ParseType("escape-button") == Some(EscapeButton)
    ensures ParseType("timing-game") == Some(TimingGame)
    ensures ParseType("rapid-click") == Some(RapidClick)
    ensures ParseType("slot-machine") == Some(SlotMachine)
  {
  }

  /** The tags of SlidePuzzle, Maze, MemoryGame, ReflexTest, MathQuiz parse back to their kinds. */
  lemma ParseSecondTags()
    ensures ParseType("slide-puzzle") == Some(SlidePuzzle)
    ensures ParseType("maze") == Some(Maze)
    ensures ParseType("memory-game") == Some(MemoryGame)
    ensures ParseType("reflex-test") == Some(ReflexTest)
    ensures ParseType("math-quiz") == Some(MathQuiz)
  {
  }

  /** Each of the later tags parses back to its kind. */
  lemma ParseLongPressTag()
    ensures ParseType("long-press") == Some(LongPress)
  {
  }

  lemma ParseTwoChoiceQuizTag()
    ensures ParseType("two-choice-quiz") == Some(TwoChoiceQuiz)
  {
  }

  lemma ParseColorMatchTag()
    ensures ParseType("color-match") == Some(ColorMatch)
  {
  }

  lemma ParseWordSearchTag()
    ensures ParseType("word-search") == Some(WordSearch)
  {
  }

  lemma ParseDragDropTag()
    ensures ParseType("drag-drop") == Some(DragDrop)
  {
  }

  lemma ParseRhythmGameTag()
    ensures ParseType("rhythm-game") == Some(RhythmGame)
  {
  }

  lemma ParseDodgeGameTag()
    ensures ParseType("dodge-game") == Some(DodgeGame)
  {
  }

  lemma ParseClickerTag()
    ensures ParseType("clicker") == Some(Clicker)
  {
  }

  lemma ParseChessBoardTag()
    ensures ParseType("chess-board") == Some(ChessBoard)
  {
  }

  lemma ParseFinalChallengeTag()
    ensures ParseType("final-challenge") == Some(FinalChallenge)
  {
  }

  /** The kind union is closed: twenty kinds, every kind listed exactly once. */
  lemma TypeUnionClosed()
    ensures |AllTypes| == 20
    ensures forall t: MiniGameType :: t in AllTypes
    ensures forall i, j :: 0 <= i < j < |AllTypes| ==> AllTypes[i] != AllTypes[j]
  {
    EveryTypeListed();
    TypesListedOnce();
  }

  lemma EveryTypeListed()
    ensures forall t: MiniGameType :: t in AllTypes
  {
    forall t: MiniGameType ensures t in AllTypes {
      assert AllTypes[TypeIndex(t)] == t;
    }
  }

  lemma TypesListedOnce()
    ensures forall i, j :: 0 <= i < j < |AllTypes| ==> AllTypes[i] != AllTypes[j]
  {
    forall i, j | 0 <= i < j < |AllTypes| ensures AllTypes[i] != AllTypes[j] {
      assert TypeIndex(AllTypes[i]) == i;
      assert TypeIndex(AllTypes[j]) == j;
    }
  }

  /** Position of each kind in the declaration order. */
  function TypeIndex(t: MiniGameType): (i: nat)
    ensures i < |AllTypes| && AllTypes[i] == t
  {
    match t
    case BasicAgree => 0
    case EscapeButton => 1
    case TimingGame => 2
    case RapidClick => 3
    case SlotMachine => 4
    case SlidePuzzle => 5
    case Maze => 6
    case MemoryGame => 7
    case ReflexTest => 8
    case MathQuiz => 9
    case LongPress => 10
    case TwoChoiceQuiz => 11
    case ColorMatch => 12
    case WordSearch => 13
    case DragDrop => 14
    case RhythmGame => 15
    case DodgeGame => 16
    case Clicker => 17
    case ChessBoard => 18
    case FinalChallenge => 19
  }

  /** Difficulty tier: 1, 2 or 3. */
  type Difficulty = d: int | 1 <= d <= 3 witness 1

  /** The declared mini-game definition; `timeLimit` is an optional number of seconds. */
  datatype MiniGame = MiniGame(
    id: MiniGameType,
    name: string,
    description: string,
    difficulty: Difficulty,
    timeLimit: Option<int>)

  /** The declared whole-session record (the logic module keeps its own record instead). */
  datatype GameState = GameState(
    status: GameStatus,
    currentLife: int,
    maxLife: int,
    totalGames: int,
    currentGameIndex: int,
    gameSequence: seq<MiniGame>,
    clearedGames: seq<MiniGameType>,
    failedAttempts: int,
    startTime: Option<int>,
    endTime: Option<int>)

  /** An opaque callback handed to a widget. */
  datatype Callback = Callback(name: string)

  /** The outcome record of one play. */
  datatype GameResult = GameResult(success: bool, message: Option<string>, score: Option<int>)

  /** The props every widget receives: `onSuccess` required, `onFailure` and `timeLimit` optional. */
  datatype ComponentProps = ComponentProps(
    onSuccess: Callback,
    onFailure: Option<Callback>,
    timeLimit: Option<int>)

  /** The configuration constants. */
  datatype GameConstants = GameConstants(
    maxLife: nat,
    totalGames: nat,
    activeGames: nat,
    defaultTimeLimit: nat,
    portfolioUrl: string)

  const Constants: GameConstants :=
    GameConstants(3, 20, 10, 30, "https://portfolio-nine-green-82.vercel.app/")

  /** Three lives, twenty kinds in all, ten per play: a play never asks for more kinds than exist. */
  lemma ConstantsAgree()
    ensures Constants.maxLife == 3 && Constants.totalGames == |AllTypes|
    ensures Constants.activeGames <= Constants.totalGames
    ensures Constants.defaultTimeLimit == 30
  {
  }
}
