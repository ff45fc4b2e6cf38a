/**
 * The pure pieces of app/components/GameManager.tsx: the filter that builds
 * the active game list, the progress counter, the consent article lookup,
 * the start / resume / reset updaters, the development-only "jump to game"
 * updater, and the success / failure callbacks built on the session logic.
 */
module Manager {
  import opened Common
  import Types
  import GameLogic
  import Container

  /** The nineteen kinds that have a widget, in declaration order (every kind but the final challenge). */
  const ImplementedGameIds: seq<Types.MiniGameType> := [
    Types.BasicAgree, Types.EscapeButton, Types.RapidClick, Types.TimingGame, Types.LongPress,
    Types.Clicker, Types.MathQuiz, Types.MemoryGame, Types.ReflexTest, Types.TwoChoiceQuiz,
    Types.ColorMatch, Types.WordSearch, Types.DragDrop, Types.Maze, Types.SlotMachine,
    Types.SlidePuzzle, Types.ChessBoard, Types.DodgeGame, Types.RhythmGame
  ]

  /** `ids.includes(id)`: `id` equals the tag of some listed kind. */
  function Includes(ids: seq<Types.MiniGameType>, id: string): (b: bool)
    ensures b <==> exists k :: 0 <= k < |ids| && Types.TypeTag(ids[k]) == id
  {
    if |ids| == 0 then false
    else Types.TypeTag(ids[0]) == id || Includes(ids[1..], id)
  }

  /** `a` is an order-preserving subsequence of `b`. */
  predicate IsSubsequence<T(==)>(a: seq<T>, b: seq<T>)
    decreases |b|
  {
    |a| == 0 || (|b| > 0 && ((a[0] == b[0] && IsSubsequence(a[1..], b[1..])) || IsSubsequence(a, b[1..])))
  }

  /** The `ACTIVE_GAMES` filter: keeps, in order, the entries whose `id` is an implemented kind's tag. */
  function FilterImplemented(games: seq<GameLogic.CatalogEntry>): (r: seq<GameLogic.CatalogEntry>)
    ensures forall g :: g in r <==> g in games && Includes(ImplementedGameIds, g.id)
    ensures IsSubsequence(r, games)
    ensures |r| <= |games|
  {
    if |games| == 0 then []
    else
      var rest := FilterImplemented(games[1..]);
      if Includes(ImplementedGameIds, games[0].id) then
        assert ([games[0]] + rest)[1..] == rest;
        [games[0]] + rest
      else rest
  }

  const ActiveGames: seq<GameLogic.CatalogEntry> := FilterImplemented(GameLogic.AllMiniGames)

  /** No kind tag starts with the letter g. */
  lemma NoTagStartsWithG(t: Types.MiniGameType)
    ensures |Types.TypeTag(t)| > 0 && Types.TypeTag(t)[0] != 'g'
  {
  }

  /** An id beginning with the letter g is no kind's tag, so it is never included. */
  lemma ExcludesIdsStartingWithG(id: string)
    requires |id| > 0 && id[0] == 'g'
    ensures !Includes(ImplementedGameIds, id)
  {
    forall k | 0 <= k < |ImplementedGameIds| ensures Types.TypeTag(ImplementedGameIds[k]) != id {
      NoTagStartsWithG(ImplementedGameIds[k]);
    }
  }

  /** The filter drops every entry whose id begins with the letter g. */
  lemma {:induction false} FilterDropsIdsStartingWithG(games: seq<GameLogic.CatalogEntry>)
    requires forall i :: 0 <= i < |games| ==> |games[i].id| > 0 && games[i].id[0] == 'g'
    ensures FilterImplemented(games) == []
    decreases |games|
  {
    if |games| > 0 {
      ExcludesIdsStartingWithG(games[0].id);
      FilterDropsIdsStartingWithG(games[1..]);
    }
  }

  /**
   * The filter compares catalogue ids ("game-01" …) with kind tags ("basic-agree" …),
   * which never match: the active game list is empty.
   */
  lemma ActiveGamesIsEmpty()
    ensures ActiveGames == []
  {
    GameLogic.CatalogueIdsStartWithG();
    FilterDropsIdsStartingWithG(GameLogic.AllMiniGames);
  }

  /** The session record the manager updates: the logic record plus the game sequence and its length. */
  datatype Session = Session(logic: GameLogic.State, gameSequence: seq<GameLogic.CatalogEntry>, totalGames: int)

  /** `state.gameSequence[state.currentGameIndex]`: undefined outside the sequence. */
  function CurrentGame(s: Session): (g: Option<GameLogic.CatalogEntry>)
    ensures g.Some? <==> 0 <= s.logic.currentGameIndex < |s.gameSequence|
    ensures g.Some? ==> g.value == s.gameSequence[s.logic.currentGameIndex]
  {
    var i := s.logic.currentGameIndex;
    if 0 <= i < |s.gameSequence| then Some(s.gameSequence[i]) else None
  }

  /** The progress counter: the 1-based game number, capped at the total. */
  function Progress(s: Session): (p: int)
    ensures p <= s.totalGames
    ensures p <= s.logic.currentGameIndex + 1
    ensures p == s.totalGames || p == s.logic.currentGameIndex + 1
  {
    var n := s.logic.currentGameIndex + 1;
    if n < s.totalGames then n else s.totalGames
  }

  const ConsentArticles: seq<Container.Consent> := [
    Container.Consent("第1条", "利用者の姿勢について", [
      "(1) 利用者は本ゲームを楽しむ姿勢で臨みます。",
      "(2) 利用者はクリア後に到達するポートフォリオが突貫のしょぼい物でも、苦言を呈さないと誓います。",
      "(3) 利用者は途中で不機嫌にならず、最後まで同意の姿勢を保ちます。",
      "(4) 利用者は必ず以後の利用規約を読みます。"]),
    Container.Consent("第2条", "開発者への配慮について", [
      "(1) 利用者は本ゲームを遊ぶ際、開発者の努力に敬意を払います。",
      "(2) 利用者は開発者も人間であることを理解し、些細な不具合や誤字脱字には目をつむります。",
      "(3) 利用者は開発者への連絡を行う場合、穏やかな文面を心がけます。",
      "(4) 利用者は文句がある場合でもピキることなく論理的に伝えます。"]),
    Container.Consent("第3条", "不具合に対する姿勢について", [
      "(1) 利用者は細かなバグや不具合があった場合、煽らずに開発者へ伝えます。",
      "(2) 利用者は脆弱性やセキュリティに関する指摘は、語気を抑えて伝えると誓います。",
      "(3) 利用者は再現手順が分かる場合、可能な範囲で補足情報を添えます。",
      "(4) 利用者は改善点の提案を行う際、代替案を添えて伝えます。"])
  ]

  /** `consentArticles[index] ?? null`: an article for the first three games only. */
  function ConsentArticleAt(index: int): (c: Option<Container.Consent>)
    ensures c.Some? <==> 0 <= index < 3
    ensures c.Some? ==> c.value == ConsentArticles[index]
  {
    if 0 <= index < |ConsentArticles| then Some(ConsentArticles[index]) else None
  }

  /** `startGame`: playing, every other field kept. */
  function StartGame(s: Session): (r: Session)
    ensures r.logic.status == GameLogic.Playing
    ensures r.logic.(status := s.logic.status) == s.logic
    ensures r.gameSequence == s.gameSequence && r.totalGames == s.totalGames
  {
    s.(logic := s.logic.(status := GameLogic.Playing))
  }

  /** `resumeGame`: the same update as `startGame`; the index and failure counter are kept. */
  function ResumeGame(s: Session): (r: Session)
    ensures r.logic.status == GameLogic.Playing
    ensures r.logic.(status := s.logic.status) == s.logic
    ensures r.gameSequence == s.gameSequence && r.totalGames == s.totalGames
  {
    s.(logic := s.logic.(status := GameLogic.Playing))
  }

  /**
   * `resetGame`: replaces the session with a fresh initial record; the active
   * list and count passed along are ignored by the initializer.
   */
  function ResetGame(config: GameLogic.Config, activeGames: seq<GameLogic.CatalogEntry>, count: int): (r: GameLogic.State)
    ensures r.status == GameLogic.Idle && r.currentGameIndex == 0 && r.failedAttempts == 0
    ensures r.lives == r.maxLives == config.initialLives && r.clearedGames == []
  {
    GameLogic.CreateInitialGameState(config)
  }

  /** Reset does not depend on the previous session or on the arguments passed to the initializer. */
  lemma ResetIgnoresArguments(config: GameLogic.Config, a: seq<GameLogic.CatalogEntry>, n: int, b: seq<GameLogic.CatalogEntry>, m: int)
    ensures ResetGame(config, a, n) == ResetGame(config, b, m)
  {
  }

  /** ASCII lower-casing of a key name (`event.key.toLowerCase()` on the keys that matter). */
  function LowerAscii(s: string): (r: string)
    ensures |r| == |s|
    ensures forall i :: 0 <= i < |s| ==>
      r[i] == if 'A' <= s[i] <= 'Z' then (s[i] as int + 32) as char else s[i]
  {
    if |s| == 0 then [] else
      var c := if 'A' <= s[0] <= 'Z' then (s[0] as int + 32) as char else s[0];
      [c] + LowerAscii(s[1..])
  }

  /** The development key map from a lower-cased key to a kind. */
  function KeyTarget(key: string): Option<Types.MiniGameType> {
    match key
    case "1" => Some(Types.BasicAgree)
    case "2" => Some(Types.EscapeButton)
    case "3" => Some(Types.RapidClick)
    case "4" => Some(Types.TimingGame)
    case "5" => Some(Types.LongPress)
    case "6" => Some(Types.Clicker)
    case "7" => Some(Types.MathQuiz)
    case "8" => Some(Types.MemoryGame)
    case "9" => Some(Types.ReflexTest)
    case "0" => Some(Types.TwoChoiceQuiz)
    case "q" => Some(Types.ColorMatch)
    case "w" => Some(Types.WordSearch)
    case "e" => Some(Types.DragDrop)
    case "a" => Some(Types.Maze)
    case "s" => Some(Types.SlotMachine)
    case "d" => Some(Types.SlidePuzzle)
    case "f" => Some(Types.ChessBoard)
    case "g" => Some(Types.DodgeGame)
    case "r" => Some(Types.RhythmGame)
    case _ => None
  }

  /** `findIndex(game => game.id === id)`: the first matching position, or -1. */
  function FindIndex(games: seq<GameLogic.CatalogEntry>, id: string): (i: int)
    ensures -1 <= i < |games|
    ensures i == -1 <==> forall k :: 0 <= k < |games| ==> games[k].id != id
    ensures i >= 0 ==> games[i].id == id && forall k :: 0 <= k < i ==> games[k].id != id
  {
    if |games| == 0 then -1
    else if games[0].id == id then 0
    else
      var j := FindIndex(games[1..], id);
      if j == -1 then -1 else j + 1
  }

  /** Playing at `index` with the failure counter cleared. */
  function JumpState(logic: GameLogic.State, index: int): GameLogic.State {
    logic.(currentGameIndex := index, status := GameLogic.Playing, failedAttempts := 0)
  }

  /** The debug updater for one target kind, given the active game list. */
  function JumpTo(prev: Session, target: Types.MiniGameType, active: seq<GameLogic.CatalogEntry>): (r: Session)
    // target already in the sequence: jump to its first position
    ensures FindIndex(prev.gameSequence, Types.TypeTag(target)) >= 0 ==>
      r == prev.(logic := JumpState(prev.logic, FindIndex(prev.gameSequence, Types.TypeTag(target))))
    // target only in the active list: append it and jump to the new last position
    ensures FindIndex(prev.gameSequence, Types.TypeTag(target)) == -1 && FindIndex(active, Types.TypeTag(target)) >= 0 ==>
      && r.gameSequence == prev.gameSequence + [active[FindIndex(active, Types.TypeTag(target))]]
      && r.logic == JumpState(prev.logic, |r.gameSequence| - 1)
      && r.totalGames == prev.totalGames
    // target nowhere: unchanged
    ensures FindIndex(prev.gameSequence, Types.TypeTag(target)) == -1 && FindIndex(active, Types.TypeTag(target)) == -1 ==>
      r == prev
    ensures r.logic.lives == prev.logic.lives && r.logic.clearedGames == prev.logic.clearedGames
  {
    var tag := Types.TypeTag(target);
    var gameIndex := FindIndex(prev.gameSequence, tag);
    if gameIndex != -1 then
      prev.(logic := JumpState(prev.logic, gameIndex))
    else
      var found := FindIndex(active, tag);
      if found != -1 then
        var newSequence := prev.gameSequence + [active[found]];
        prev.(gameSequence := newSequence, logic := JumpState(prev.logic, |newSequence| - 1))
      else prev
  }

  /** A key press: only in development, and only for a mapped key, does the jump updater run. */
  function DebugKeyDown(prev: Session, key: string, development: bool, active: seq<GameLogic.CatalogEntry>): (r: Session)
    ensures !development ==> r == prev
    ensures development && KeyTarget(LowerAscii(key)).None? ==> r == prev
    ensures development && KeyTarget(LowerAscii(key)).Some? ==> r == JumpTo(prev, KeyTarget(LowerAscii(key)).value, active)
  {
    if !development then prev
    else
      match KeyTarget(LowerAscii(key))
      case Some(target) => JumpTo(prev, target, active)
      case None => prev
  }

  /** With the list actually built, a jump to a kind missing from the sequence changes nothing. */
  lemma JumpOutsideSequenceIsNoOp(prev: Session, target: Types.MiniGameType)
    requires FindIndex(prev.gameSequence, Types.TypeTag(target)) == -1
    ensures JumpTo(prev, target, ActiveGames) == prev
  {
    ActiveGamesIsEmpty();
  }

  /** `handleSuccess`: record the current game's id, then advance; a no-op without a current game. */
  function HandleSuccess(s: Session): (r: Session)
    ensures CurrentGame(s).None? ==> r == s
    ensures CurrentGame(s).Some? ==>
      r == s.(logic := GameLogic.ProceedToNextGame(
        GameLogic.HandleGameSuccess(s.logic, CurrentGame(s).value.id), s.gameSequence))
  {
    match CurrentGame(s)
    case None => s
    case Some(game) =>
      var updated := GameLogic.HandleGameSuccess(s.logic, game.id);
      s.(logic := GameLogic.ProceedToNextGame(updated, s.gameSequence))
  }

  /** `handleFailure`: exactly the logic's failure transition. */
  function HandleFailure(s: Session): (r: Session)
    ensures r.logic == GameLogic.HandleGameFailure(s.logic)
    ensures r.gameSequence == s.gameSequence && r.totalGames == s.totalGames
  {
    s.(logic := GameLogic.HandleGameFailure(s.logic))
  }

  /** Success on the last game clears the session, whatever the failure count. */
  lemma SuccessOnLastGameClears(s: Session)
    requires |s.gameSequence| >= 1 && s.logic.currentGameIndex == |s.gameSequence| - 1
    ensures HandleSuccess(s).logic.status == GameLogic.Cleared
    ensures HandleSuccess(s).logic.failedAttempts == s.logic.failedAttempts
    ensures HandleSuccess(s).logic.clearedGames == s.logic.clearedGames + [s.gameSequence[|s.gameSequence| - 1].id]
    ensures HandleSuccess(s).logic.currentGameIndex == s.logic.currentGameIndex
    ensures HandleSuccess(s).gameSequence == s.gameSequence && HandleSuccess(s).logic.lives == s.logic.lives
  {
  }

  /** `k` successes in a row. */
  function Successes(s: Session, k: nat): Session
    decreases k
  {
    if k == 0 then s else Successes(HandleSuccess(s), k - 1)
  }

  /** The ids of a list of games, in order. */
  function Ids(games: seq<GameLogic.CatalogEntry>): (ids: seq<string>)
    ensures |ids| == |games|
  {
    if |games| == 0 then [] else [games[0].id] + Ids(games[1..])
  }

  /** One success while games remain: the current id is recorded and the index moves on. */
  lemma SuccessStep(s: Session)
    requires 0 <= s.logic.currentGameIndex && s.logic.currentGameIndex + 1 < |s.gameSequence|
    ensures HandleSuccess(s).logic.currentGameIndex == s.logic.currentGameIndex + 1
    ensures HandleSuccess(s).logic.clearedGames == s.logic.clearedGames + [s.gameSequence[s.logic.currentGameIndex].id]
    ensures HandleSuccess(s).logic.status == GameLogic.Playing
    ensures HandleSuccess(s).gameSequence == s.gameSequence
    ensures HandleSuccess(s).logic.lives == s.logic.lives
  {
  }

  /**
   * Successes on the games from the current one onwards move one game on each time,
   * until the last game, which clears the session; the sequence and the lives are kept.
   */
  lemma {:induction false} SuccessesAdvance(s: Session, k: nat)
    requires 0 <= s.logic.currentGameIndex
    requires s.logic.currentGameIndex + k <= |s.gameSequence|
    ensures Successes(s, k).gameSequence == s.gameSequence
    ensures Successes(s, k).logic.lives == s.logic.lives
    ensures s.logic.currentGameIndex + k < |s.gameSequence| ==>
      Successes(s, k).logic.currentGameIndex == s.logic.currentGameIndex + k
    ensures 0 < k && s.logic.currentGameIndex + k < |s.gameSequence| ==> Successes(s, k).logic.status == GameLogic.Playing
    ensures 0 < k && s.logic.currentGameIndex + k == |s.gameSequence| ==>
      Successes(s, k).logic.status == GameLogic.Cleared
      && Successes(s, k).logic.currentGameIndex == |s.gameSequence| - 1
    decreases k
  {
    if k > 0 {
      var next := HandleSuccess(s);
      if s.logic.currentGameIndex + 1 < |s.gameSequence| {
        SuccessStep(s);
        SuccessesAdvance(next, k - 1);
      } else {
        SuccessOnLastGameClears(s);
      }
    }
  }

  /** Successes on the games from the current one onwards record their ids in sequence order. */
  lemma {:induction false} SuccessesRecord(s: Session, k: nat)
    requires 0 <= s.logic.currentGameIndex
    requires s.logic.currentGameIndex + k <= |s.gameSequence|
    ensures Successes(s, k).logic.clearedGames ==
      s.logic.clearedGames + Ids(s.gameSequence[s.logic.currentGameIndex .. s.logic.currentGameIndex + k])
    decreases k
  {
    var i := s.logic.currentGameIndex;
    var games := s.gameSequence;
    if k == 0 {
      assert games[i .. i] == [];
    } else {
      IdsCons(games, i, k);
      if i + 1 < |games| {
        SuccessesRecord(HandleSuccess(s), k - 1);
        RecordStep(s, Successes(HandleSuccess(s), k - 1), k);
      } else {
        SuccessOnLastGameClears(s);
        assert Successes(s, k) == HandleSuccess(s);
      }
    }
  }

  /** One success before the last game, followed by records of the next `k - 1` games. */
  lemma RecordStep(s: Session, r: Session, k: nat)
    requires 0 < k && 0 <= s.logic.currentGameIndex
    requires s.logic.currentGameIndex + 1 < |s.gameSequence| && s.logic.currentGameIndex + k <= |s.gameSequence|
    requires r.logic.clearedGames == HandleSuccess(s).logic.clearedGames +
      Ids(HandleSuccess(s).gameSequence[HandleSuccess(s).logic.currentGameIndex .. HandleSuccess(s).logic.currentGameIndex + (k - 1)])
    ensures r.logic.clearedGames ==
      s.logic.clearedGames + Ids(s.gameSequence[s.logic.currentGameIndex .. s.logic.currentGameIndex + k])
  {
    var i := s.logic.currentGameIndex;
    var games := s.gameSequence;
    SuccessStep(s);
    IdsCons(games, i, k);
    assert games[i + 1 .. i + 1 + (k - 1)] == games[i + 1 .. i + k];
    var rest := Ids(games[i + 1 .. i + k]);
    assert (s.logic.clearedGames + [games[i].id]) + rest == s.logic.clearedGames + ([games[i].id] + rest);
  }

  /** The ids of a non-empty window: the first game's id, then the ids of the rest. */
  lemma IdsCons(games: seq<GameLogic.CatalogEntry>, i: int, k: int)
    requires 0 <= i && 0 < k && i + k <= |games|
    ensures Ids(games[i .. i + k]) == [games[i].id] + Ids(games[i + 1 .. i + k])
    ensures k == 1 ==> Ids(games[i .. i + k]) == [games[i].id]
  {
    var window := games[i .. i + k];
    assert window[0] == games[i] && window[1..] == games[i + 1 .. i + k];
    if k == 1 {
      assert games[i + 1 .. i + k] == [];
    }
  }

  /** One success per game from the first clears the session, with every id recorded in sequence order. */
  lemma PlayThroughClears(s: Session)
    requires |s.gameSequence| >= 1 && s.logic.currentGameIndex == 0
    ensures Successes(s, |s.gameSequence|).logic.status == GameLogic.Cleared
    ensures Successes(s, |s.gameSequence|).logic.clearedGames == s.logic.clearedGames + Ids(s.gameSequence)
    ensures Successes(s, |s.gameSequence|).logic.currentGameIndex == |s.gameSequence| - 1
    ensures GameLogic.IsAllGamesCleared(Successes(s, |s.gameSequence|).logic, |s.gameSequence|)
  {
    SuccessesAdvance(s, |s.gameSequence|);
    SuccessesRecord(s, |s.gameSequence|);
    assert s.gameSequence[0 .. |s.gameSequence|] == s.gameSequence;
  }

  /** From a fresh record, the all-cleared check holds after `k` successes exactly when `k` covers the sequence. */
  lemma AllClearedOnlyAtEnd(s: Session, k: nat)
    requires s.logic.currentGameIndex == 0 && s.logic.clearedGames == []
    requires k <= |s.gameSequence|
    ensures GameLogic.IsAllGamesCleared(Successes(s, k).logic, |s.gameSequence|) <==> k == |s.gameSequence|
  {
    SuccessesRecord(s, k);
  }

  /** A failure that leaves lives returns to idle; resuming plays the same game with the failure counted. */
  lemma ResumeAfterFailureRetriesSameGame(s: Session)
    requires s.logic.lives >= 2
    ensures HandleFailure(s).logic.status == GameLogic.Idle
    ensures ResumeGame(HandleFailure(s)).logic.status == GameLogic.Playing
    ensures ResumeGame(HandleFailure(s)).logic.currentGameIndex == s.logic.currentGameIndex
    ensures ResumeGame(HandleFailure(s)).logic.failedAttempts == s.logic.failedAttempts + 1
    ensures CurrentGame(ResumeGame(HandleFailure(s))) == CurrentGame(s)
  {
  }
}
