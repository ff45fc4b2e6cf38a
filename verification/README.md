# Consent-gate mini-game session, modelled in Dafny

The system is a browser game in which the player "agrees to the terms of
service" by clearing a run of small mini-games. A session is a record of
lives, the current game index, the cleared games and a failure counter. The
session logic advances it on success and takes a life on failure, and a
manager component wires the session to a container that mounts one widget
per game. Each widget is a small state machine: clicks, key presses, pointer
moves and timer firings come in, and the widget calls `onSuccess` or
`onFailure`.

The Dafny project models:

- the session logic (`GameLogic`);
- the declared record shapes (`Types`);
- the manager's pure updaters (`Manager`);
- the widget registry and header (`Container`);
- the heart row (`LifeDisplay`);
- sixteen widgets, one module each (`…Widget`).

Every widget is a pure transition `Step(state, event) -> Reaction(next, outcome)`. `Common.Run` feeds a sequence of events through a
widget and collects the outcomes it reports. Timer firings are events, and
the values `Math.random()` would return are parameters of the events or of
the mount (`Common.Unit`, a real in [0, 1)).

For the widgets that guard their callbacks with a done flag, one generic
lemma carries the one-shot property: `Common.Guarded` with
`Common.AtMostOneOutcome`. Each widget then proves its own guard and
invariant and gets "at most one outcome over any event sequence".

Where the declared types and the logic file disagree, each file is modelled
as written and the two are not reconciled:

- The logic record uses `lives`/`maxLives` and the status "exploded"; the declared `GameState` has neither.
- The logic's `createInitialGameState` takes no arguments, while the manager passes it two.
- The logic imports `GAME_CONFIG` from the types file (app/lib/gameLogic.ts:3), which exports only `GAME_CONSTANTS`. `createInitialGameState` reads its initial lives and portfolio URL from that missing binding (app/lib/gameLogic.ts:180-184). As written, the initializer fails the type check or throws at run time, and so do the manager's first state (app/components/GameManager.tsx:76-77) and its reset (app/components/GameManager.tsx:91-92). The model takes the intended values as a `Config` parameter.
- The logic writes the status "exploded" when the last life is lost (app/lib/gameLogic.ts:237), but the manager's final screen tests for "game-over" (app/components/GameManager.tsx:231). So on the last life no section renders and no reset button appears.
- Nothing sets the status "waiting-nfc", so the resume screen (app/components/GameManager.tsx:216-227) is unreachable. After a failure the session is "idle", and the idle screen's button calls `startGame` (app/components/GameManager.tsx:201-208), the same updater as `resumeGame`. `Manager.ResumeAfterFailureRetriesSameGame` therefore describes the retry the idle screen offers, not a path through the resume button.
- Catalogue entries carry `id: 'game-NN'`, `type` and `title` (app/lib/gameLogic.ts:8-15), while the declared `MiniGame` has `id` as a kind tag and `name` (app/types/game.ts:44-50). A catalogue entry passed to the container would look up "game-01", show the placeholder and have no heading. `Container.Render` takes the declared shape.
- The manager's implemented-games filter compares catalogue ids ("game-01" …) with kind tags ("basic-agree" …), so the active list is empty (`Manager.ActiveGamesIsEmpty`).

Other behaviour of the code, modelled as written:

- A failure returns the session to "idle", although the comment at app/lib/gameLogic.ts:243 says it should go back to waiting for the NFC card to be read again.
- Lives are not floored at zero.
- Cleared games are not deduplicated.
- Advancing to the next game does not reset `failedAttempts`.

## Model

| member | source | states |
|---|---|---|
| Types.ParseStatus | app/types/game.ts:4-10 | only the six declared status tags parse, each to the status whose tag it is |
| Types.StatusUnionClosed | app/types/game.ts:4-10 | the status union has exactly six members with distinct tags, each tag parses back to its status, and "exploded" is not a status |
| Types.ParseType | app/types/game.ts:15-35 | only the twenty declared kind tags parse, each to its kind |
| Types.TypeTagRoundTrip | app/types/game.ts:15-35 | reading a kind's tag gives the kind back, so distinct kinds have distinct tags |
| Types.TypeUnionClosed | app/types/game.ts:15-35 | the kind union has exactly twenty members, each listed once |
| Types.ConstantsAgree | app/types/game.ts:90-96 | three lives, one game per kind in total, no more games per play than exist, thirty-second default |
| GameLogic.CatalogueCoversEveryKindOnce | app/lib/gameLogic.ts:8-159 | the catalogue has twenty entries whose kinds are pairwise distinct and cover every kind |
| GameLogic.CatalogueIdsStartWithG | app/lib/gameLogic.ts:8-159 | every catalogue id is "game-NN", seven characters beginning with "game-" |
| GameLogic.ShuffleGames | app/lib/gameLogic.ts:164-171 | for any draws with j in [0, i], the result is a permutation of the input: same length, same multiset, same members |
| GameLogic.PermutationKeepsIdsDistinct | app/lib/gameLogic.ts:164-171 | a permutation of a list with distinct ids still has distinct ids |
| GameLogic.CreateInitialGameState | app/lib/gameLogic.ts:176-186 | idle, index 0, lives = maxLives = the configured initial lives, nothing cleared, no failures |
| GameLogic.ProceedToNextGame | app/lib/gameLogic.ts:205-223 | past the last game the status becomes cleared and the index is kept; otherwise index + 1 and playing; no other field changes |
| GameLogic.HandleGameFailure | app/lib/gameLogic.ts:228-247 | lives drop by exactly one and failures rise by one; exploded iff the new lives are at most zero, else idle; the rest is kept |
| GameLogic.HandleGameSuccess | app/lib/gameLogic.ts:252-260 | the id is appended at the end, so the list grows by exactly one; nothing else changes |
| GameLogic.AllClearedAfterSuccess | app/lib/gameLogic.ts:191-193 | `isAllGamesCleared`: after a success the check needs one fewer recorded game, so it stays true once true; a failure does not change it |
| GameLogic.GameOverOnlyByFailure | app/lib/gameLogic.ts:198-200 | `isGameOver`: success and advancing leave it unchanged; a failure when already over keeps it over and explodes the session |
| GameLogic.GameOverAfterFailureIffExploded | app/lib/gameLogic.ts:191-200 | after a failure, the game-over predicate holds iff the status is exploded, iff at most one life was left |
| GameLogic.FailuresUntilExploded | app/lib/gameLogic.ts:228-247 | from L >= 1 lives, failures 1 to L-1 leave the session idle and the L-th explodes it; lives and failures move by one each time |
| GameLogic.LivesGoNegative | app/lib/gameLogic.ts:228-247 | there is no floor: two failures from one life leave minus one life, still exploded |
| GameLogic.SuccessRecordsDuplicates | app/lib/gameLogic.ts:252-260 | clearing the same id twice records it twice |
| GameLogic.AdvanceKeepsFailedAttempts | app/lib/gameLogic.ts:205-223 | advancing keeps the failure counter and the lives |
| Manager.Includes | app/components/GameManager.tsx:38-40 | `includes` holds iff some listed kind's tag equals the id |
| Manager.FilterImplemented | app/components/GameManager.tsx:38-40 | the filter keeps exactly the entries whose id is an implemented tag, as an order-preserving subsequence |
| Manager.ExcludesIdsStartingWithG | app/components/GameManager.tsx:16-40 | no implemented tag begins with "g", so no catalogue id is included |
| Manager.FilterDropsIdsStartingWithG | app/components/GameManager.tsx:38-40 | the filter drops every entry whose id begins with "g" |
| Manager.ActiveGamesIsEmpty | app/components/GameManager.tsx:16-40 | the active list built from the catalogue is empty |
| Manager.CurrentGame | app/components/GameManager.tsx:79 | the current game exists iff the index lies inside the sequence, and is the entry at the index |
| Manager.Progress | app/components/GameManager.tsx:81 | progress is min(index + 1, total), so it never exceeds the total |
| Manager.ConsentArticleAt | app/components/GameManager.tsx:42-73 | an article exists exactly for indices 0 to 2, and is the article at that index; otherwise none |
| Manager.StartGame | app/components/GameManager.tsx:83-85 | status becomes playing; every other field is kept |
| Manager.ResumeGame | app/components/GameManager.tsx:87-89 | status becomes playing; every other field is kept |
| Manager.ResetGame | app/components/GameManager.tsx:91-93 | reset yields the initial record: idle, index 0, full lives, nothing cleared, no failures |
| Manager.ResetIgnoresArguments | app/components/GameManager.tsx:91-93 | the two arguments passed to the initializer make no difference |
| Manager.LowerAscii | app/components/GameManager.tsx:123 | lower-casing keeps the length and lowers exactly the upper-case ASCII letters |
| Manager.FindIndex | app/components/GameManager.tsx:129-131 | the first position whose id matches, or -1 iff there is none |
| Manager.JumpTo | app/components/GameManager.tsx:127-158 | a target in the sequence jumps to its first position; one only in the active list is appended and becomes the last index; otherwise nothing changes; a jump sets playing with the failure counter cleared and keeps lives and cleared games |
| Manager.DebugKeyDown | app/components/GameManager.tsx:96-126 | outside development, or for an unmapped key, nothing changes; a mapped key runs the jump |
| Manager.JumpOutsideSequenceIsNoOp | app/components/GameManager.tsx:141-157 | with the empty active list, a jump to a kind missing from the sequence changes nothing |
| Manager.HandleSuccess | app/components/GameManager.tsx:174-181 | without a current game nothing changes; otherwise record the current id, then advance over the sequence |
| Manager.HandleFailure | app/components/GameManager.tsx:183-185 | exactly the logic's failure transition; the sequence is kept |
| Manager.SuccessOnLastGameClears | app/components/GameManager.tsx:174-181 | success on the last game clears the session and records its id |
| Manager.SuccessStep | app/components/GameManager.tsx:174-181 | success before the last game records the current id and moves one game on, still playing |
| Manager.SuccessesAdvance | app/components/GameManager.tsx:174-181 | successes move one game on each time while playing, until the last game, which clears the session; the sequence and the lives are kept |
| Manager.SuccessesRecord | app/components/GameManager.tsx:174-181 | k successes from the current game record the ids of those k games, in sequence order, after the ones already cleared |
| Manager.PlayThroughClears | app/components/GameManager.tsx:174-181 | one success per game from the first clears the session with every id recorded in sequence order, and the all-cleared check then holds |
| Manager.AllClearedOnlyAtEnd | app/lib/gameLogic.ts:191-193 | from a fresh record, the all-cleared check holds after k successes iff k is the length of the sequence |
| Manager.ResumeAfterFailureRetriesSameGame | app/components/GameManager.tsx:87-89 | a failure with lives left goes idle; resuming replays the same game with the failure counted |
| Container.Lookup | app/components/minigames/MiniGameContainer.tsx:31-59 | a key resolves to a widget iff it is one of the registry's keys |
| Container.RegistryCoversSixteenKinds | app/components/minigames/MiniGameContainer.tsx:31-48 | sixteen distinct keys; a kind resolves to nothing iff it is rhythm, dodge, chess or the final challenge |
| Container.Render | app/components/minigames/MiniGameContainer.tsx:56-108 | widget vs placeholder by registration; the widget gets only onSuccess, onFailure and timeLimit; consent or "Mini Game" header; badge iff timeLimit is truthy; consent block iff consent exists |
| Container.RenderPlaceholderIffUnregistered | app/components/minigames/MiniGameContainer.tsx:56-59 | the "not implemented" placeholder appears iff the kind is rhythm, dodge, chess or the final challenge; which widget mounts does not depend on the consent article |
| LifeDisplay.Hearts | app/components/LifeDisplay.tsx:7 | exactly max hearts (none for a negative max), heart i filled iff i < current |
| LifeDisplay.FilledHeartsArePrefix | app/components/LifeDisplay.tsx:7 | no filled heart follows an empty one |
| LifeDisplay.FilledCountIsClampedLives | app/components/LifeDisplay.tsx:7 | the filled count is min(max, max(0, current)) |
| SlidePuzzleWidget.InitialTiles | app/components/minigames/SlidePuzzle.tsx:30-34 | sixteen tiles, tile i numbered i + 1 at its home cell, and the blank last |
| SlidePuzzleWidget.ValidMoves | app/components/minigames/SlidePuzzle.tsx:106-117 | for a cell in [0, 16), exactly its in-grid orthogonal neighbours |
| SlidePuzzleWidget.ValidMovesSymmetric | app/components/minigames/SlidePuzzle.tsx:106-117 | m is a move of e iff e is a move of m |
| SlidePuzzleWidget.NeighbourCount | app/components/minigames/SlidePuzzle.tsx:106-117 | 2 moves at corners, 3 on edges, 4 inside |
| SlidePuzzleWidget.Without | app/components/minigames/SlidePuzzle.tsx:43 | the filter removes exactly the previous cell and keeps the order of the rest |
| SlidePuzzleWidget.NoBacktrackLeavesAMove | app/components/minigames/SlidePuzzle.tsx:41-45 | after the no-backtrack filter at least one move remains |
| SlidePuzzleWidget.SolvedIffInitial | app/components/minigames/SlidePuzzle.tsx:142-147 | on a board, solved (cells 0 to 14 numbered 1 to 15, blank last) holds iff the board is the initial arrangement |
| SlidePuzzleWidget.FindBlank | app/components/minigames/SlidePuzzle.tsx:122 | the first cell holding the blank, or -1 if none |
| SlidePuzzleWidget.BoardHasOneBlank | app/components/minigames/SlidePuzzle.tsx:30-34 | every board has exactly one blank |
| SlidePuzzleWidget.SwapKeepsBoard | app/components/minigames/SlidePuzzle.tsx:126-130 | exchanging two cells keeps the tiles a permutation of the initial sixteen |
| SlidePuzzleWidget.WalkStep | app/components/minigames/SlidePuzzle.tsx:40-52 | one shuffle step moves the blank to a neighbour other than the previous cell and keeps a board |
| SlidePuzzleWidget.WalkNeverBacktracks | app/components/minigames/SlidePuzzle.tsx:40-52 | along the whole walk each step goes to a neighbour and never straight back |
| SlidePuzzleWidget.Shuffle | app/components/minigames/SlidePuzzle.tsx:30-52 | fifty swaps from the solved board leave a rearrangement of the sixteen initial tiles |
| SlidePuzzleWidget.InitPuzzle | app/components/minigames/SlidePuzzle.tsx:24-104 | the accepted board is a board and is never solved |
| SlidePuzzleWidget.ClickTile | app/components/minigames/SlidePuzzle.tsx:119-140 | once solved, clicks are ignored; a neighbour of the blank swaps exactly those two cells and counts a move; other clicks change nothing; success exactly when the move solves the board |
| SlidePuzzleWidget.Step | app/components/minigames/SlidePuzzle.tsx:119-140 | clicks and the reset button keep the board invariant, and a solved puzzle stays solved and silent |
| SlidePuzzleWidget.AtMostOneSuccess | app/components/minigames/SlidePuzzle.tsx:119-140 | over any events success is reported at most once |
| MazeWidget.GridShape | app/components/minigames/Maze.tsx:11-25 | the grid is 10 × 10, and the start (0,0) and the goal (9,9) are open |
| MazeWidget.Delta | app/components/minigames/Maze.tsx:29-33 | each arrow changes one coordinate by one; any other key asks for no change |
| MazeWidget.Move | app/components/minigames/Maze.tsx:37-49 | a candidate out of bounds or on a wall is refused and the position kept; otherwise it is taken |
| MazeWidget.Step | app/components/minigames/Maze.tsx:27-65 | the position stays open, moves by at most one cell, stays put for non-arrow keys; success iff an accepted record lands on the goal |
| MazeWidget.BlockedMoveKeepsPosition | app/components/minigames/Maze.tsx:37-47 | a move into a wall or off the grid leaves the position unchanged |
| MazeWidget.AlwaysOnOpenCell | app/components/minigames/Maze.tsx:37-47 | over any keys the player stays on an open cell |
| MazeWidget.SolutionReachesGoal | app/components/minigames/Maze.tsx:14-25 | the fixed grid has a path of open cells from the start to the goal, and following it reports success |
| MazeWidget.RepeatedSuccessAtGoal | app/components/minigames/Maze.tsx:58-65 | on the goal, each non-arrow key reports success again |
| WordSearchWidget.CandidateStarts | app/components/minigames/WordSearch.tsx:32-38 | every candidate start i has i < 64 − len and i mod 8 + len ≤ 8, and every such i is a candidate |
| WordSearchWidget.CandidateStaysInRow | app/components/minigames/WordSearch.tsx:32-38 | a candidate start keeps the whole word on one row |
| WordSearchWidget.Fill | app/components/minigames/WordSearch.tsx:24-29 | sixty-four cells, each a filler character |
| WordSearchWidget.Place | app/components/minigames/WordSearch.tsx:42-45 | the word is written from the start and every other cell is unchanged |
| WordSearchWidget.JsSlice | app/components/minigames/WordSearch.tsx:74 | the slice agrees with JavaScript's clamped slice |
| WordSearchWidget.Generate | app/components/minigames/WordSearch.tsx:21-48 | the target is a keyword, the grid has 64 cells, the answer start is a candidate and spells the word |
| WordSearchWidget.DrawWord | app/components/minigames/WordSearch.tsx:22 | the drawn word is one of the keywords and is two characters long |
| WordSearchWidget.DrawStart | app/components/minigames/WordSearch.tsx:32-40 | the drawn start is a candidate start, leaves room for two characters, and keeps both on one row |
| WordSearchWidget.ClickCell | app/components/minigames/WordSearch.tsx:70-80 | ignored once found; success iff the slice from the index equals the word |
| WordSearchWidget.TickSecond | app/components/minigames/WordSearch.tsx:50-68 | the countdown drops by one; at one or less it becomes 0 and fails once; it stops once found |
| WordSearchWidget.AnswerPositionSucceeds | app/components/minigames/WordSearch.tsx:74-79 | clicking the answer start always succeeds |
| WordSearchWidget.CountdownRuns | app/components/minigames/WordSearch.tsx:50-68 | before the last second the countdown only counts down |
| WordSearchWidget.CountdownExpires | app/components/minigames/WordSearch.tsx:16-17 | left alone, the fifteen-second countdown ends with exactly one failure and stops |
| WordSearchWidget.SuccessAfterTimeout | app/components/minigames/WordSearch.tsx:70-80 | the click handler has no expiry guard: after the failure, the answer still reports success |
| ChessBoardWidget.DrawFreeSquare | app/components/minigames/ChessBoard.tsx:34-37 | rejection sampling returns a square in [0, 64) not yet used; it returns none iff every draw lands on a used square |
| ChessBoardWidget.DrawFreeSquareTakesFirstFree | app/components/minigames/ChessBoard.tsx:34-37 | the square returned is the one drawn by the first draw on a free square; every earlier draw hit a used square, and the draws after it are left |
| ChessBoardWidget.PlaceFromConsumes | app/components/minigames/ChessBoard.tsx:32-61 | a placement succeeds only with at least one draw per piece plus one kind draw per non-target, so fewer draws always give none |
| ChessBoardWidget.PlaceFromExtends | app/components/minigames/ChessBoard.tsx:32-61 | a successful placement is fixed by the draws it read: appending draws gives the same pieces, so none means the draws ran out, never a rejection |
| ChessBoardWidget.PlaceFrom | app/components/minigames/ChessBoard.tsx:32-61 | pieces on distinct squares in [0, 64): four target knights, then ten non-knights |
| ChessBoardWidget.SortByPosition | app/components/minigames/ChessBoard.tsx:63 | the result is sorted by square and a permutation of the input |
| ChessBoardWidget.SortDistinct | app/components/minigames/ChessBoard.tsx:63 | sorting keeps the squares distinct |
| ChessBoardWidget.CountTargetsSort | app/components/minigames/ChessBoard.tsx:63 | sorting keeps the number of targets |
| ChessBoardWidget.Generate | app/components/minigames/ChessBoard.tsx:28-64 | fourteen pieces on distinct squares, sorted ascending, exactly four targets, all targets knights, no dummy a knight |
| ChessBoardWidget.PieceAt | app/components/minigames/ChessBoard.tsx:83-85 | a piece found on a square is a listed piece at that square; none iff no listed piece is there |
| ChessBoardWidget.ClickSquare | app/components/minigames/ChessBoard.tsx:69-81 | after done, on a non-target or on a found piece nothing changes; otherwise the id is appended and success comes exactly at the fourth |
| ChessBoardWidget.ClickKeepsInv | app/components/minigames/ChessBoard.tsx:69-75 | found holds distinct target ids only, so at most four |
| ChessBoardWidget.SuccessOnceWithAllKnights | app/components/minigames/ChessBoard.tsx:77-80 | over any clicks success comes at most once, and only with all four knights found |
| MemoryGameWidget.GenerateSequence | app/components/minigames/MemoryGame.tsx:25-29 | four entries, each the id of one of the four tiles |
| MemoryGameWidget.Mount | app/components/minigames/MemoryGame.tsx:21-30 | step 0, revealing, before the first flash, not done |
| MemoryGameWidget.PlayNext | app/components/minigames/MemoryGame.tsx:36-49 | flashes entry `index` while one is left, otherwise ends the reveal with nothing lit |
| MemoryGameWidget.FireTimer | app/components/minigames/MemoryGame.tsx:44-51 | a reveal timer keeps the sequence, the step and the done flag, and does nothing once the reveal has finished |
| MemoryGameWidget.HandlePick | app/components/minigames/MemoryGame.tsx:58-75 | ignored while revealing or done; the expected tile advances the step or succeeds on the last; any other fails at once |
| MemoryGameWidget.AtMostOneOutcomeOverall | app/components/minigames/MemoryGame.tsx:30 | at most one outcome, and the step stays below the sequence length |
| MemoryGameWidget.RevealOrder | app/components/minigames/MemoryGame.tsx:36-48 | the reveal lights the entries in sequence order, with nothing reported meanwhile |
| MemoryGameWidget.RevealEnds | app/components/minigames/MemoryGame.tsx:37-40 | after the last gap the reveal ends and picks are accepted |
| RhythmGameWidget.MaxTime | app/components/minigames/RhythmGame.tsx:31 | the maximum is at least every note's time and is some note's time |
| RhythmGameWidget.GameDurationFollowsLastNote | app/components/minigames/RhythmGame.tsx:15-32 | the game lasts until 1000 ms after the latest note |
| RhythmGameWidget.FindNote | app/components/minigames/RhythmGame.tsx:74 | the note found has the id; none iff no note has it |
| RhythmGameWidget.FindKnownNote | app/components/minigames/RhythmGame.tsx:15-28 | a note exists iff 0 ≤ id < 12, and note k sounds at 1000·(k + 1) |
| RhythmGameWidget.Judge | app/components/minigames/RhythmGame.tsx:37-41 | within 250 perfect (+20), within 400 good (+10), otherwise bad (+0) |
| RhythmGameWidget.JudgeMonotone | app/components/minigames/RhythmGame.tsx:87-99 | a closer click never scores less |
| RhythmGameWidget.ClickNote | app/components/minigames/RhythmGame.tsx:64-118 | clicks while inactive, done, on a hit note or on an id outside 0..11 change nothing; otherwise the note is hit once, the score rises by the points for the click's distance from that note's time of 1000·(id+1) ms, and success iff the score reaches 30 |
| RhythmGameWidget.LoopFrame | app/components/minigames/RhythmGame.tsx:121-145 | the display shows the remaining whole seconds; at 13000 ms the game ends, success iff the score is at least 30, else failure |
| RhythmGameWidget.StepKeepsInv | app/components/minigames/RhythmGame.tsx:102-103 | the hit set only grows, the score never decreases, and at most 20 per hit note |
| RhythmGameWidget.AtMostOneOutcomeOverall | app/components/minigames/RhythmGame.tsx:49 | at most one outcome, and the score stays at most 12 · 20 |
| RhythmGameWidget.LoopEndsOnlyInFailure | app/components/minigames/RhythmGame.tsx:132-141 | while the invariant holds, the time-up branch can only fail (a score of 30 has already succeeded) |
| RhythmGameWidget.TwoPerfectHitsSucceed | app/components/minigames/RhythmGame.tsx:87-117 | two hits within the perfect window reach 40 points and succeed |
| DodgeGameWidget.Clamp | app/components/minigames/DodgeGame.tsx:61-62 | the clamped value lies in [0, hi] and equals the input when it already does |
| DodgeGameWidget.Spawn | app/components/minigames/DodgeGame.tsx:107-124 | the new obstacle starts just above the board (y = −height), with width in [30, 130) and lying wholly within the board's width |
| DodgeGameWidget.FallAll | app/components/minigames/DodgeGame.tsx:127-130 | every obstacle moves down by 6 and nothing else changes |
| DodgeGameWidget.KeepOnBoard | app/components/minigames/DodgeGame.tsx:131-133 | exactly the obstacles whose top is still above the bottom edge are kept |
| DodgeGameWidget.AdvanceKeepsOrder | app/components/minigames/DodgeGame.tsx:127-133 | moving and filtering keeps the ids strictly increasing |
| DodgeGameWidget.AnyCollision | app/components/minigames/DodgeGame.tsx:137-152 | a collision iff some obstacle strictly overlaps the player's box |
| DodgeGameWidget.Mount | app/components/minigames/DodgeGame.tsx:34-47 | the player at the centred start position, no obstacles, active, not done |
| DodgeGameWidget.MoveMouse | app/components/minigames/DodgeGame.tsx:52-71 | while playing, the player stays on the board and is centred on the pointer whenever that fits; otherwise the move is ignored |
| DodgeGameWidget.MaybeSpawn | app/components/minigames/DodgeGame.tsx:107-124 | a spawn happens iff more than the spawn rate (1000 ms) passed since the last; it appends one obstacle with the next id |
| DodgeGameWidget.FrameStep | app/components/minigames/DodgeGame.tsx:85-160 | inert once done or lost; at 25000 ms done and success; otherwise spawn, fall, and on a collision empty the list and set the failure flag |
| DodgeGameWidget.FrameLeavesNoOverlap | app/components/minigames/DodgeGame.tsx:137-152 | after a frame no obstacle on the board overlaps the player |
| DodgeGameWidget.ConsumeFlag | app/components/minigames/DodgeGame.tsx:74-82 | a set flag makes the game done and lost, reports failure and clears the flag |
| DodgeGameWidget.PromptStep | app/components/minigames/DodgeGame.tsx:74-82 | the flag effect runs right after the frame that set the flag |
| DodgeGameWidget.AdvanceKeepsWellFormed | app/components/minigames/DodgeGame.tsx:47 | ids stay increasing and below the counter, so they are unique |
| DodgeGameWidget.AtMostOneOutcomeOverall | app/components/minigames/DodgeGame.tsx:86-104 | with the effect right after each frame, at most one outcome, and the player stays on the board |
| DodgeGameWidget.CollisionLoses | app/components/minigames/DodgeGame.tsx:137-152 | a collision empties the board, loses and reports failure |
| DodgeGameWidget.SurvivalSucceeds | app/components/minigames/DodgeGame.tsx:99-104 | a frame 25 s after mount, with no collision before, reports success |
| DodgeGameWidget.LateEffectReportsTwice | app/components/minigames/DodgeGame.tsx:74-82 | the effect has no done check: a time-up frame before it gives success then failure |
| TimingGameWidget.Mount | app/components/minigames/TimingGame.tsx:13-17 | the reading pause is on iff failedAttempts (default 0) is 0; the timeout is timeLimit (default 8) seconds |
| TimingGameWidget.Advance | app/components/minigames/TimingGame.tsx:49-62 | the gauge stays in [0, 100] (tenths), steps by 2.4, and turns at 100 and at 0 |
| TimingGameWidget.Finish | app/components/minigames/TimingGame.tsx:24-35 | the first call decides, later calls do nothing |
| TimingGameWidget.Step | app/components/minigames/TimingGame.tsx:39-76 | no tick or timeout acts while reading; a click succeeds iff 45 ≤ position ≤ 55; the timeout fails |
| TimingGameWidget.AtMostOneOutcomeOverall | app/components/minigames/TimingGame.tsx:24-35 | at most one outcome, and the marker stays on the gauge |
| TimingGameWidget.Rising | app/components/minigames/TimingGame.tsx:49-62 | from 0, k ticks put the marker at 2.4·k while below the top |
| TimingGameWidget.WindowIsReachable | app/components/minigames/TimingGame.tsx:74-76 | after the pause, nineteen ticks and a click succeed |
| RapidClickWidget.Mount | app/components/minigames/RapidClick.tsx:11-14 | the countdown starts at timeLimit (default 6) with no clicks |
| RapidClickWidget.Finish | app/components/minigames/RapidClick.tsx:18-23 | the first call decides, later calls do nothing |
| RapidClickWidget.ClickButton | app/components/minigames/RapidClick.tsx:40-50 | ignored once done; each accepted click adds one, and the twelfth succeeds |
| RapidClickWidget.TickSecond | app/components/minigames/RapidClick.tsx:25-38 | the countdown drops by one; at one or less it becomes 0 and finishes with count ≥ 12 |
| RapidClickWidget.AtMostOneOutcomeOverall | app/components/minigames/RapidClick.tsx:18-23 | at most one outcome, and at most twelve clicks count |
| RapidClickWidget.CountdownEndsOnlyInFailure | app/components/minigames/RapidClick.tsx:26-34 | the countdown can only end in failure |
| RapidClickWidget.TwelveClicksSucceed | app/components/minigames/RapidClick.tsx:45-47 | twelve clicks succeed, on the twelfth |
| RapidClickWidget.CountdownExpires | app/components/minigames/RapidClick.tsx:25-38 | left without enough clicks, the countdown fails once |
| EscapeButtonWidget.Jump | app/components/minigames/EscapeButton.tsx:15-26 | the new offset keeps the button inside the container |
| EscapeButtonWidget.HandleHover | app/components/minigames/EscapeButton.tsx:28-37 | only while not done and under five attempts: one more attempt, and a jump except on the fifth |
| EscapeButtonWidget.HandleChase | app/components/minigames/EscapeButton.tsx:39-45 | inert after done or at five attempts; otherwise a jump at most once per 120 ms |
| EscapeButtonWidget.HandleClick | app/components/minigames/EscapeButton.tsx:47-55 | one-shot: success iff at least five attempts, else failure |
| EscapeButtonWidget.AtMostOneOutcomeOverall | app/components/minigames/EscapeButton.tsx:47-55 | at most one outcome, and attempts never exceed five |
| EscapeButtonWidget.Hint | app/components/minigames/EscapeButton.tsx:57-61 | one text for 0 attempts, another for 1, a third otherwise |
| EscapeButtonWidget.ChaseIsThrottled | app/components/minigames/EscapeButton.tsx:39-45 | a second chase within 120 ms of a jump does nothing |
| EscapeButtonWidget.HoversCount | app/components/minigames/EscapeButton.tsx:28-37 | each near miss before the fifth adds one attempt and reports nothing |
| EscapeButtonWidget.FiveMissesThenClickSucceeds | app/components/minigames/EscapeButton.tsx:47-55 | five near misses and a click succeed |
| ReflexTestWidget.SignalDelay | app/components/minigames/ReflexTest.tsx:6-7 | the delay lies in [700, 1799] ms |
| ReflexTestWidget.FireTimer | app/components/minigames/ReflexTest.tsx:17-25 | the signal shows ready and arms the limit; the limit fails unless done |
| ReflexTestWidget.HandleClick | app/components/minigames/ReflexTest.tsx:32-44 | ignored once done; while waiting, fail status and failure; while ready, success |
| ReflexTestWidget.Label | app/components/minigames/ReflexTest.tsx:46-51 | one label per status |
| ReflexTestWidget.AtMostOneOutcomeOverall | app/components/minigames/ReflexTest.tsx:13-44 | both paths pass the done guard, so at most one outcome |
| ReflexTestWidget.ClickAfterSignalSucceeds | app/components/minigames/ReflexTest.tsx:40-43 | signal then click succeeds |
| ReflexTestWidget.ClickBeforeSignalFails | app/components/minigames/ReflexTest.tsx:34-38 | a click before the signal fails and shows "fail" |
| ReflexTestWidget.NoClickFails | app/components/minigames/ReflexTest.tsx:19-24 | with no click, the limit fails the game after the signal |
| ReflexTestWidget.SignalAfterEarlyClickShowsReady | app/components/minigames/ReflexTest.tsx:17-18 | an early click does not cancel the signal, which later shows ready with no second outcome |
| LongPressWidget.Finish | app/components/minigames/LongPress.tsx:13-23 | one-shot; it clears the press and the timer |
| LongPressWidget.HandlePressStart | app/components/minigames/LongPress.tsx:25-32 | unless done, pressed, with a single timer armed |
| LongPressWidget.HandlePressEnd | app/components/minigames/LongPress.tsx:34-39 | a release while pressed and not done fails; otherwise it is ignored |
| LongPressWidget.FireHoldTimer | app/components/minigames/LongPress.tsx:29-31 | the armed timer firing succeeds |
| LongPressWidget.AtMostOneOutcomeOverall | app/components/minigames/LongPress.tsx:13-23 | at most one outcome, and no timer is left after the end |
| LongPressWidget.HoldSucceeds | app/components/minigames/LongPress.tsx:25-31 | press then timer succeeds |
| LongPressWidget.EarlyReleaseFails | app/components/minigames/LongPress.tsx:34-39 | press then release fails, and the cleared timer adds nothing |
| LongPressWidget.ReleaseWithoutPressIgnored | app/components/minigames/LongPress.tsx:35 | a release with no press is ignored |
| LongPressWidget.RepressKeepsOneTimer | app/components/minigames/LongPress.tsx:25-32 | pressing again while held keeps one timer |
| MathQuizWidget.MakeQuiz | app/components/minigames/MathQuiz.tsx:12-18 | left, right in [10, 99], op is + or −, result = left op right, hence in [−89, 198] |
| MathQuizWidget.ResultRangeIsTight | app/components/minigames/MathQuiz.tsx:12-18 | both ends of [−89, 198] are reached |
| MathQuizWidget.Mount | app/components/minigames/MathQuiz.tsx:8 | the timeout is timeLimit (default 12) seconds and armed |
| MathQuizWidget.HandleSubmit | app/components/minigames/MathQuiz.tsx:35-44 | one-shot; cancels the timeout; success iff the parsed answer equals the result, else failure |
| MathQuizWidget.FireTimeout | app/components/minigames/MathQuiz.tsx:22-28 | the timeout fails the quiz if not done |
| MathQuizWidget.AtMostOneOutcomeOverall | app/components/minigames/MathQuiz.tsx:24-38 | one outcome at most across submissions and the timeout |
| MathQuizWidget.QuizIsFixed | app/components/minigames/MathQuiz.tsx:12-18 | the quiz drawn at mount never changes |
| MathQuizWidget.SubmitCancelsTimeout | app/components/minigames/MathQuiz.tsx:36-38 | after a submission, the timeout adds nothing |
| MathQuizWidget.AnswerDecides | app/components/minigames/MathQuiz.tsx:39-43 | the correct answer succeeds and anything else fails |
| MathQuizWidget.TimeoutThenSubmitIgnored | app/components/minigames/MathQuiz.tsx:22-28 | the timeout fails, and a later submission is ignored |
| ColorMatchWidget.ColorsAreDistinct | app/components/minigames/ColorMatch.tsx:11-16 | four colours with distinct values |
| ColorMatchWidget.ChooseTarget | app/components/minigames/ColorMatch.tsx:20-23 | the target is one of the four colours |
| ColorMatchWidget.HandlePick | app/components/minigames/ColorMatch.tsx:25-33 | the first pick succeeds iff its value is the target's, else fails |
| ColorMatchWidget.AtMostOneOutcomeOverall | app/components/minigames/ColorMatch.tsx:26-27 | only the first pick is judged |
| ColorMatchWidget.ExactlyOneOptionSucceeds | app/components/minigames/ColorMatch.tsx:11-16 | exactly one of the four options succeeds |
| TwoChoiceQuizWidget.ChooseQuestion | app/components/minigames/TwoChoiceQuiz.tsx:36 | the quiz is one of the three questions |
| TwoChoiceQuizWidget.HandleSelect | app/components/minigames/TwoChoiceQuiz.tsx:38-46 | the first choice succeeds iff it is the correct side, else fails |
| TwoChoiceQuizWidget.AtMostOneOutcomeOverall | app/components/minigames/TwoChoiceQuiz.tsx:38-40 | later selections are ignored |
| TwoChoiceQuizWidget.ExactlyOneSideSucceeds | app/components/minigames/TwoChoiceQuiz.tsx:10 | for every question exactly one of left and right succeeds |
| TwoChoiceQuizWidget.CorrectSides | app/components/minigames/TwoChoiceQuiz.tsx:13-32 | three questions, correct sides left, right, left, each reachable by the draw |
| SlotMachineWidget.RandomSymbol | app/components/minigames/SlotMachine.tsx:91-93 | a drawn symbol is one of the five |
| SlotMachineWidget.Mount | app/components/minigames/SlotMachine.tsx:11-12 | the initial three symbols are distinct, all reels spinning |
| SlotMachineWidget.Judge | app/components/minigames/SlotMachine.tsx:81-87 | win and success iff all three are equal, else lose and failure |
| SlotMachineWidget.SpinningChanged | app/components/minigames/SlotMachine.tsx:79-80 | the effect judges only when all three reels are stopped |
| SlotMachineWidget.StopSlot | app/components/minigames/SlotMachine.tsx:17-23 | only a spinning reel i stops and the symbols are kept; the result is judged iff that stops the last reel |
| SlotMachineWidget.SpinSlots | app/components/minigames/SlotMachine.tsx:25-56 | all three reels spin again, and a stop timer is scheduled |
| SlotMachineWidget.TurnReel | app/components/minigames/SlotMachine.tsx:58-77 | an interval changes only its own reel, to one of the five symbols |
| SlotMachineWidget.FireSpinTimer | app/components/minigames/SlotMachine.tsx:41-55 | the timer stops all reels and the result is judged |
| SlotMachineWidget.Step | app/components/minigames/SlotMachine.tsx:79-89 | an outcome only with all reels stopped; success iff all three are equal |
| SlotMachineWidget.SymbolsStayInSet | app/components/minigames/SlotMachine.tsx:15 | the reels show only the five symbols, whatever happens |
| SlotMachineWidget.SymbolsAreDistinct | app/components/minigames/SlotMachine.tsx:15 | five distinct symbols |
| SlotMachineWidget.StoppingAtMountLoses | app/components/minigames/SlotMachine.tsx:11 | stopping the fresh machine loses |
| SlotMachineWidget.EqualReelsWin | app/components/minigames/SlotMachine.tsx:17-23 | on spinning reels that show one symbol, the three stop buttons report exactly one success |
| SlotMachineWidget.TurnsToCherries | app/components/minigames/SlotMachine.tsx:58-67 | from the mounted machine, turning reels two and three to the first symbol shows three cherries and reports nothing |
| SlotMachineWidget.CherriesWin | app/components/minigames/SlotMachine.tsx:79-84 | from the mounted machine, two turns to cherry and then the three stop buttons report exactly one success |
| SlotMachineWidget.SpinAgainReportsAgain | app/components/minigames/SlotMachine.tsx:25-56 | there is no done guard: spinning again reports a second outcome |

## Left out

- JSX, CSS, animations, the game-over particles, Web Audio (app/lib/audioUtils.ts), the pages and the NFC bridge are presentation or input/output.
- The BasicAgree, Clicker, DragDrop and final-challenge widgets are left out. Each is a button or DOM drag plumbing around one comparison, and the final challenge has no widget.
- Real time is not modelled. `Date.now`, `setTimeout`, `setInterval` and React effect scheduling become events processed one at a time, in the order the model receives them.
- A callback deferred by `setTimeout` is reported at the event that schedules it. This covers the 0 ms deferrals and the slide puzzle's 500 ms deferral of success (app/components/minigames/SlidePuzzle.tsx:137), which `SlidePuzzleWidget.ClickTile` reports at the winning click.
- Stale-closure races are not modelled: a closure that reads an older render's state uses the current state in the model. For example, the manager's `handleSuccess` takes `currentGame` from the render.
- `Math.random()` outputs are parameters in [0, 1). The game geometry is kept as reals or whole tenths, and floating-point rounding is not modelled.
- MathQuizWidget.HandleSubmit: the answer arrives already converted by `Number(...)`. The conversion of the typed text (including an empty text reading as 0) is not modelled.
- SlotMachineWidget.FireSpinTimer: the stop timer's own judgement over the symbols captured when spin was pressed is not modelled. Only the effect's judgement over the current symbols is, so one stop reports once where the code may report twice.
- TimingGameWidget.Mount: the container never passes `failedAttempts`, so in the running app the reading pause is always on. The model keeps the parameter.
- DodgeGameWidget.AtMostOneOutcomeOverall holds under the schedule in which the flag effect runs right after the frame that set the flag. Under an arbitrary order the effect can report failure after success (`DodgeGameWidget.LateEffectReportsTwice`).
- RhythmGameWidget: note ids "note-k" are the integers k, and the note positions and ARRIVAL_TIME of the drawing are not modelled.
- SlidePuzzleWidget.InitPuzzle takes a finite list of shuffle attempts. When every attempt lands on the solved board it yields none, where the code would keep drawing.
- ChessBoardWidget.Generate takes a finite list of draws and yields none when rejection sampling runs out of them.
- ChessBoardWidget.PlaceFrom: its contract describes a successful placement only. When none is returned is stated apart, by ChessBoardWidget.PlaceFromConsumes and ChessBoardWidget.PlaceFromExtends, not as an exact condition on the draws.
- Manager.Session: the manager reads `gameSequence` and `totalGames` from the session, which the logic's initializer never sets. They are fields of the manager's record here. As written, `state.gameSequence[state.currentGameIndex]` (app/components/GameManager.tsx:79) throws on the first render. The debug jump's `prevState.gameSequence.findIndex` (app/components/GameManager.tsx:129) would throw too, and `Math.min(…, state.totalGames)` (app/components/GameManager.tsx:81) is NaN. Manager.CurrentGame, Manager.Progress, Manager.JumpTo, Manager.HandleSuccess, Manager.SuccessesAdvance, Manager.SuccessesRecord and Manager.PlayThroughClears therefore describe the manager's logic over a supplied sequence, not the component as it runs.
- GameLogic.CreateInitialGameState: the configuration object it reads (`GAME_CONFIG`) does not exist in the source, so the initializer as written throws. The model takes the intended initial lives and portfolio URL as a `Config` parameter.
- Manager.ResetGame: it calls the initializer, which throws as written because `GAME_CONFIG` does not exist. The model returns the fresh record built from a supplied `Config`.
- LifeDisplay.Hearts: the manager passes `currentLife`/`maxLife`, which the logic record does not have. The heart row is modelled on its own inputs.
