/**
 * The session logic of app/lib/gameLogic.ts: the catalogue of twenty
 * mini-games, the Fisher–Yates shuffle, the initial session record and the
 * success / failure / advance transitions. The record here is the one this
 * file builds (`lives`, `maxLives`, `portfolioUrl`, status "exploded"),
 * which is not the `GameState` declared in module Types.
 */
module GameLogic {
  import opened Common
  import Types

  /** One catalogue entry: the `id` is "game-NN" and the kind is kept in a separate `type` field. */
  datatype CatalogEntry = CatalogEntry(
    id: string,
    kind: Types.MiniGameType,
    title: string,
    description: string,
    difficulty: Types.Difficulty,
    timeLimit: Option<int>)

  const AllMiniGames: seq<CatalogEntry> := [
    CatalogEntry("game-01", Types.BasicAgree, "基本の同意", "「同意する」ボタンをクリックしてください", 1, None),
    CatalogEntry("game-02", Types.EscapeButton, "逃げる同意", "マウスから逃げるボタンをクリック！", 2, Some(30)),
    CatalogEntry("game-03", Types.TimingGame, "タイミング同意", "ゲージが緑の時にクリックしてください", 2, None),
    CatalogEntry("game-04", Types.RapidClick, "連打同意", "時間内に連打してゲージを貯めよう！", 1, Some(10)),
    CatalogEntry("game-05", Types.SlotMachine, "スロット同意", "スロットを揃えて同意しよう", 2, None),
    CatalogEntry("game-06", Types.SlidePuzzle, "スライドパズル", "パズルを完成させてください", 3, Some(60)),
    CatalogEntry("game-07", Types.Maze, "迷路", "迷路をゴールまで進もう", 2, Some(45)),
    CatalogEntry("game-08", Types.MemoryGame, "記憶力テスト", "表示された順番を記憶してください", 2, None),
    CatalogEntry("game-09", Types.ReflexTest, "反射神経", "光ったボタンをすぐにクリック！", 2, Some(20)),
    CatalogEntry("game-10", Types.MathQuiz, "計算問題", "簡単な算数の答えを入力してください", 1, Some(20)),
    CatalogEntry("game-11", Types.LongPress, "長押し", "ボタンを3秒間長押ししてください", 1, None),
    CatalogEntry("game-12", Types.TwoChoiceQuiz, "二択クイズ", "正しい答えを選んでください", 1, None),
    CatalogEntry("game-13", Types.ColorMatch, "色合わせ", "指定された色を選択してください", 1, None),
    CatalogEntry("game-14", Types.WordSearch, "文字探し", "「同意する」という文字を探してください", 2, Some(20)),
    CatalogEntry("game-15", Types.DragDrop, "ドラッグ&ドロップ", "要素を正しい位置に配置してください", 2, None),
    CatalogEntry("game-16", Types.RhythmGame, "音ゲー", "タイミングよくボタンを押そう", 3, Some(30)),
    CatalogEntry("game-17", Types.DodgeGame, "避けゲー", "障害物を避けながら進もう", 2, Some(25)),
    CatalogEntry("game-18", Types.Clicker, "クリッカー", "10回クリックしてください", 1, None),
    CatalogEntry("game-19", Types.ChessBoard, "チェス盤", "指定されたマスをクリックしてください", 2, None),
    CatalogEntry("game-20", Types.FinalChallenge, "最終試練", "複数の挑戦を連続でクリアしよう", 3, Some(40))
  ]

  /** The catalogue lists each of the twenty kinds exactly once, in declaration order. */
  lemma CatalogueCoversEveryKindOnce()
    ensures |AllMiniGames| == 20 == |Types.AllTypes|
    ensures forall i :: 0 <= i < |AllMiniGames| ==> AllMiniGames[i].kind == Types.AllTypes[i]
    ensures forall i, j :: 0 <= i < j < |AllMiniGames| ==> AllMiniGames[i].kind != AllMiniGames[j].kind
    ensures forall t: Types.MiniGameType :: AllMiniGames[Types.TypeIndex(t)].kind == t
  {
    CatalogueKinds();
    Types.TypeUnionClosed();
  }

  lemma CatalogueKinds()
    ensures |AllMiniGames| == 20 == |Types.AllTypes|
    ensures forall i :: 0 <= i < |AllMiniGames| ==> AllMiniGames[i].kind == Types.AllTypes[i]
  {
    var kinds := seq(|AllMiniGames|, i requires 0 <= i < |AllMiniGames| => AllMiniGames[i].kind);
    assert kinds == Types.AllTypes;
  }

  /** Every catalogue id has the form "game-NN": seven characters starting with "game-". */
  lemma CatalogueIdsStartWithG()
    ensures forall i :: 0 <= i < |AllMiniGames| ==> |AllMiniGames[i].id| == 7 && AllMiniGames[i].id[..5] == "game-"
    ensures forall i :: 0 <= i < |AllMiniGames| ==> |AllMiniGames[i].id| > 0 && AllMiniGames[i].id[0] == 'g'
  {
    var ids := seq(|AllMiniGames|, i requires 0 <= i < |AllMiniGames| => AllMiniGames[i].id);
    assert ids == [
      "game-01", "game-02", "game-03", "game-04", "game-05", "game-06", "game-07", "game-08", "game-09", "game-10",
      "game-11", "game-12", "game-13", "game-14", "game-15", "game-16", "game-17", "game-18", "game-19", "game-20"];
    forall i | 0 <= i < |AllMiniGames| ensures |AllMiniGames[i].id| == 7 && AllMiniGames[i].id[..5] == "game-" {
      assert AllMiniGames[i].id == ids[i];
    }
  }

  /**
   * `shuffleGames`: a copy of `games` shuffled by Fisher–Yates. `picks[i]` is
   * the index `Math.floor(Math.random() * (i + 1))` drawn when the loop is at
   * `i` (`picks[0]` is never used).
   */
  method ShuffleGames(games: seq<CatalogEntry>, picks: seq<int>) returns (shuffled: seq<CatalogEntry>)
    requires |picks| == |games|
    requires forall i :: 0 < i < |games| ==> 0 <= picks[i] <= i
    ensures |shuffled| == |games|
    ensures multiset(shuffled) == multiset(games)
    ensures forall g :: g in shuffled <==> g in games
  {
    shuffled := games;
    var i := |shuffled| - 1;
    while i > 0
      invariant -1 <= i < |games|
      invariant |shuffled| == |games|
      invariant multiset(shuffled) == multiset(games)
    {
      var j := picks[i];
      shuffled := Swap(shuffled, i, j);
      i := i - 1;
    }
    assert forall g :: g in shuffled <==> g in multiset(shuffled);
  }

  /** Pairwise-distinct catalogue ids. */
  ghost predicate DistinctIds(games: seq<CatalogEntry>) {
    forall i, j :: 0 <= i < j < |games| ==> games[i].id != games[j].id
  }

  /** A permutation of a list with pairwise-distinct ids also has pairwise-distinct ids. */
  lemma PermutationKeepsIdsDistinct(games: seq<CatalogEntry>, shuffled: seq<CatalogEntry>)
    requires multiset(shuffled) == multiset(games)
    requires DistinctIds(games)
    ensures DistinctIds(shuffled)
  {
    forall i, j | 0 <= i < j < |shuffled| ensures shuffled[i].id != shuffled[j].id {
      var a, b := shuffled[i], shuffled[j];
      assert a in multiset(games) && b in multiset(games);
      assert a in games && b in games;
      var p :| 0 <= p < |games| && games[p] == a;
      var q :| 0 <= q < |games| && games[q] == b;
      if p == q {
        MultisetCountTwo(shuffled, i, j);
        MultisetCountOne(games, p);
      }
    }
  }

  lemma MultisetCountTwo<T>(s: seq<T>, i: int, j: int)
    requires 0 <= i < j < |s| && s[i] == s[j]
    ensures multiset(s)[s[i]] >= 2
  {
    assert s == s[..i] + [s[i]] + s[i+1..j] + [s[j]] + s[j+1..];
  }

  lemma MultisetCountOne(s: seq<CatalogEntry>, p: int)
    requires 0 <= p < |s| && DistinctIds(s)
    ensures multiset(s)[s[p]] == 1
  {
    assert s == s[..p] + [s[p]] + s[p+1..];
    assert s[p] !in s[..p] by {
      forall k | 0 <= k < p ensures s[k] != s[p] { assert s[k].id != s[p].id; }
    }
    assert s[p] !in s[p+1..] by {
      forall k | p < k < |s| ensures s[k] != s[p] { assert s[k].id != s[p].id; }
    }
    assert multiset(s[..p])[s[p]] == 0;
    assert multiset(s[p+1..])[s[p]] == 0;
  }

  /** The session statuses this file writes. */
  datatype Status = Idle | Playing | Cleared | Exploded

  /** The two values read from the configuration object (`INITIAL_LIVES`, `PORTFOLIO_URL`). */
  datatype Config = Config(initialLives: int, portfolioUrl: string)

  /** The session record built by `createInitialGameState`. */
  datatype State = State(
    status: Status,
    currentGameIndex: int,
    lives: int,
    maxLives: int,
    clearedGames: seq<string>,
    failedAttempts: int,
    portfolioUrl: string)

  /** `createInitialGameState`: idle at index 0 with full lives, nothing cleared, no failures. */
  function CreateInitialGameState(config: Config): (s: State)
    ensures s.status == Idle && s.currentGameIndex == 0
    ensures s.lives == s.maxLives == config.initialLives
    ensures s.clearedGames == [] && s.failedAttempts == 0
    ensures s.portfolioUrl == config.portfolioUrl
  {
    State(Idle, 0, config.initialLives, config.initialLives, [], 0, config.portfolioUrl)
  }

  /** `isAllGamesCleared`: at least `totalGames` entries have been recorded as cleared. */
  predicate IsAllGamesCleared(s: State, totalGames: int) {
    |s.clearedGames| >= totalGames
  }

  /** `isGameOver`: no lives left (zero or below). */
  predicate IsGameOver(s: State) {
    s.lives <= 0
  }

  /** `proceedToNextGame`: clear the session past the last game, otherwise move to the next one. */
  function ProceedToNextGame(s: State, games: seq<CatalogEntry>): (r: State)
    ensures s.currentGameIndex + 1 >= |games| ==> r == s.(status := Cleared)
    ensures s.currentGameIndex + 1 < |games| ==>
      r == s.(currentGameIndex := s.currentGameIndex + 1, status := Playing)
  {
    var nextIndex := s.currentGameIndex + 1;
    if nextIndex >= |games| then s.(status := Cleared)
    else s.(currentGameIndex := nextIndex, status := Playing)
  }

  /** `handleGameFailure`: one life and one attempt; exploded when no life remains, otherwise idle. */
  function HandleGameFailure(s: State): (r: State)
    ensures r.lives == s.lives - 1
    ensures r.failedAttempts == s.failedAttempts + 1
    ensures r.status == (if r.lives <= 0 then Exploded else Idle)
    ensures r.currentGameIndex == s.currentGameIndex && r.maxLives == s.maxLives
    ensures r.clearedGames == s.clearedGames && r.portfolioUrl == s.portfolioUrl
  {
    var newLives := s.lives - 1;
    var newFailedAttempts := s.failedAttempts + 1;
    if newLives <= 0 then
      s.(lives := newLives, failedAttempts := newFailedAttempts, status := Exploded)
    else
      s.(lives := newLives, failedAttempts := newFailedAttempts, status := Idle)
  }

  /** `handleGameSuccess`: the id is appended, even when it is already present. */
  function HandleGameSuccess(s: State, gameId: string): (r: State)
    ensures |r.clearedGames| == |s.clearedGames| + 1
    ensures r.clearedGames[..|s.clearedGames|] == s.clearedGames
    ensures r.clearedGames[|s.clearedGames|] == gameId
    ensures r.(clearedGames := s.clearedGames) == s
  {
    s.(clearedGames := s.clearedGames + [gameId])
  }

  /** After a failure the session is over exactly when the failure exploded it. */
  lemma GameOverAfterFailureIffExploded(s: State)
    ensures IsGameOver(HandleGameFailure(s)) <==> HandleGameFailure(s).status == Exploded
    ensures IsGameOver(HandleGameFailure(s)) <==> s.lives <= 1
  {
  }

  /** `k` failures in a row. */
  function Failures(s: State, k: nat): State {
    if k == 0 then s else HandleGameFailure(Failures(s, k - 1))
  }

  /**
   * Starting with `L >= 1` lives, failures 1 .. L-1 leave the session idle and
   * the L-th explodes it; lives and attempts move by exactly one per failure.
   */
  lemma {:induction false} FailuresUntilExploded(s: State, k: nat)
    requires s.lives >= 1 && 1 <= k <= s.lives
    ensures Failures(s, k).lives == s.lives - k
    ensures Failures(s, k).failedAttempts == s.failedAttempts + k
    ensures Failures(s, k).status == (if k < s.lives then Idle else Exploded)
    ensures Failures(s, k).currentGameIndex == s.currentGameIndex
  {
    if k > 1 {
      FailuresUntilExploded(s, k - 1);
    }
  }

  /** Each success records one more id, so the all-cleared check needs exactly one fewer before it. */
  lemma AllClearedAfterSuccess(s: State, id: string, totalGames: int)
    ensures IsAllGamesCleared(HandleGameSuccess(s, id), totalGames) <==> IsAllGamesCleared(s, totalGames - 1)
    ensures IsAllGamesCleared(s, totalGames) ==> IsAllGamesCleared(HandleGameSuccess(s, id), totalGames)
    ensures IsAllGamesCleared(HandleGameFailure(s), totalGames) <==> IsAllGamesCleared(s, totalGames)
  {
  }

  /** Only a failure changes the game-over check, and a session that is over stays over and explodes. */
  lemma GameOverOnlyByFailure(s: State, id: string, games: seq<CatalogEntry>)
    ensures IsGameOver(HandleGameSuccess(s, id)) <==> IsGameOver(s)
    ensures IsGameOver(ProceedToNextGame(s, games)) <==> IsGameOver(s)
    ensures IsGameOver(s) ==> IsGameOver(HandleGameFailure(s)) && HandleGameFailure(s).status == Exploded
  {
  }

  /** There is no floor at zero: failing twice from one life leaves minus one life. */
  lemma LivesGoNegative(s: State)
    requires s.lives == 1
    ensures Failures(s, 2).lives == -1 && Failures(s, 2).status == Exploded
  {
    assert Failures(s, 1) == HandleGameFailure(s);
  }

  /** Success does not deduplicate: clearing the same id twice records it twice. */
  lemma SuccessRecordsDuplicates(s: State, id: string)
    ensures HandleGameSuccess(HandleGameSuccess(s, id), id).clearedGames == s.clearedGames + [id, id]
  {
  }

  /** Advancing keeps the failure counter: it is not reset for the next game. */
  lemma AdvanceKeepsFailedAttempts(s: State, games: seq<CatalogEntry>)
    ensures ProceedToNextGame(s, games).failedAttempts == s.failedAttempts
    ensures ProceedToNextGame(s, games).lives == s.lives
  {
  }
}
