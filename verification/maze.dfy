/**
 * The maze widget (app/components/minigames/Maze.tsx): a player walks a fixed
 * 10×10 grid of open cells (0) and walls (1) with the arrow keys, from the
 * top-left corner to the bottom-right goal. Moves into a wall or off the grid
 * are refused. Every accepted key press yields a fresh position record, and the
 * goal check runs on every fresh record, so success is reported each time an
 * accepted key leaves the player on the goal.
 */
module MazeWidget {
  import opened Common

  /** The grid, row by row (`Grid[y][x]`); 1 is a wall. */
  const Grid: seq<seq<int>> := [
    [0, 1, 1, 0, 0, 0, 1, 0, 0, 0],
    [0, 0, 1, 0, 1, 0, 1, 0, 1, 0],
    [1, 0, 0, 0, 1, 0, 0, 0, 1, 0],
    [0, 1, 1, 1, 1, 1, 1, 0, 1, 0],
    [0, 0, 0, 0, 0, 0, 1, 0, 0, 0],
    [0, 1, 1, 1, 1, 0, 1, 1, 1, 0],
    [0, 0, 0, 0, 1, 0, 0, 0, 0, 0],
    [1, 1, 1, 0, 1, 1, 1, 1, 1, 0],
    [0, 0, 0, 0, 0, 0, 0, 0, 1, 0],
    [0, 1, 1, 1, 1, 1, 1, 0, 0, 0]
  ]

  const Width: int := 10
  const Height: int := 10

  datatype Position = Position(x: int, y: int)

  const Start: Position := Position(0, 0)
  const Goal: Position := Position(9, 9)

  /** `p` lies on the grid and on an open cell. */
  predicate IsOpen(p: Position) {
    0 <= p.x < Width && 0 <= p.y < Height && Grid[p.y][p.x] != 1
  }

  /** The grid is rectangular, and both the start and the goal are open. */
  lemma GridShape()
    ensures |Grid| == Height
    ensures forall y :: 0 <= y < Height ==> |Grid[y]| == Width
    ensures IsOpen(Start) && IsOpen(Goal)
  {
  }

  /** The coordinate change a key asks for: one of the four arrows, or none. */
  function Delta(key: string): (d: (int, int))
    ensures key == "ArrowUp" ==> d == (0, -1)
    ensures key == "ArrowDown" ==> d == (0, 1)
    ensures key == "ArrowLeft" ==> d == (-1, 0)
    ensures key == "ArrowRight" ==> d == (1, 0)
    ensures key !in {"ArrowUp", "ArrowDown", "ArrowLeft", "ArrowRight"} ==> d == (0, 0)
  {
    var dy := (if key == "ArrowUp" then -1 else 0) + (if key == "ArrowDown" then 1 else 0);
    var dx := (if key == "ArrowLeft" then -1 else 0) + (if key == "ArrowRight" then 1 else 0);
    (dx, dy)
  }

  /**
   * `handleKeyDown`: the candidate position, and whether it is accepted. A refused
   * move keeps the previous record; an accepted one (any key that leaves the player
   * on an open cell, arrow or not) replaces it with a fresh record.
   */
  function Move(prev: Position, key: string): (r: (Position, bool))
    ensures r.1 <==> IsOpen(Position(prev.x + Delta(key).0, prev.y + Delta(key).1))
    ensures r.1 ==> r.0 == Position(prev.x + Delta(key).0, prev.y + Delta(key).1)
    ensures !r.1 ==> r.0 == prev
  {
    var candidate := Position(prev.x + Delta(key).0, prev.y + Delta(key).1);
    if candidate.x < 0 || candidate.y < 0 || candidate.x >= |Grid[0]| || candidate.y >= |Grid|
      || Grid[candidate.y][candidate.x] == 1
    then (prev, false)
    else (candidate, true)
  }

  /** One key press: the new position and, when a fresh record lands on the goal, a success. */
  function Step(p: Position, key: string): (r: Reaction<Position>)
    ensures IsOpen(p) ==> IsOpen(r.next)
    ensures r.next == p || (r.next.x == p.x && (r.next.y - p.y == 1 || p.y - r.next.y == 1))
                        || (r.next.y == p.y && (r.next.x - p.x == 1 || p.x - r.next.x == 1))
    ensures key !in {"ArrowUp", "ArrowDown", "ArrowLeft", "ArrowRight"} ==> r.next == p
    ensures r.outcome.Some? <==> Move(p, key).1 && r.next == Goal
    ensures r.outcome.Some? ==> r.outcome == Some(Success)
  {
    var m := Move(p, key);
    if m.1 && m.0 == Goal then Reaction(m.0, Some(Success)) else Reaction(m.0, None)
  }

  /** A wall or the grid's edge stops the player where they are. */
  lemma BlockedMoveKeepsPosition(p: Position, key: string)
    requires !IsOpen(Position(p.x + Delta(key).0, p.y + Delta(key).1))
    ensures Step(p, key) == Reaction(p, None)
  {
  }

  /** The player never leaves the open cells, whatever keys are pressed. */
  lemma {:induction false} AlwaysOnOpenCell(p: Position, keys: seq<string>)
    requires IsOpen(p)
    ensures IsOpen(Run(Step, p, keys).0)
    decreases |keys|
  {
    if |keys| > 0 {
      AlwaysOnOpenCell(Step(p, keys[0]).next, keys[1..]);
    }
  }

  /** A key sequence that walks from the start to the goal. */
  const Solution: seq<string> := [
    "ArrowDown", "ArrowRight", "ArrowDown", "ArrowRight", "ArrowRight", "ArrowUp",
    "ArrowUp", "ArrowRight", "ArrowRight", "ArrowDown", "ArrowDown", "ArrowRight",
    "ArrowRight", "ArrowDown", "ArrowDown", "ArrowRight", "ArrowRight", "ArrowDown",
    "ArrowDown", "ArrowDown", "ArrowDown", "ArrowDown"
  ]

  /** The cells the solution visits, the start included. */
  const SolutionCells: seq<Position> := [
    Position(0, 0), Position(0, 1), Position(1, 1), Position(1, 2), Position(2, 2), Position(3, 2),
    Position(3, 1), Position(3, 0), Position(4, 0), Position(5, 0), Position(5, 1), Position(5, 2),
    Position(6, 2), Position(7, 2), Position(7, 3), Position(7, 4), Position(8, 4), Position(9, 4),
    Position(9, 5), Position(9, 6), Position(9, 7), Position(9, 8), Position(9, 9)
  ]

  /** Each key of the solution moves the player one cell along the listed path. */
  lemma SolutionStep(k: int)
    requires 0 <= k < |Solution|
    ensures |SolutionCells| == |Solution| + 1
    ensures Move(SolutionCells[k], Solution[k]) == (SolutionCells[k + 1], true)
  {
    if k < 2 {
      StepsFrom0(k);
    } else if k < 4 {
      StepsFrom2(k);
    } else if k < 6 {
      StepsFrom4(k);
    } else if k < 8 {
      StepsFrom6(k);
    } else if k < 10 {
      StepsFrom8(k);
    } else if k < 12 {
      StepsFrom10(k);
    } else if k < 14 {
      StepsFrom12(k);
    } else if k < 16 {
      StepsFrom14(k);
    } else if k < 18 {
      StepsFrom16(k);
    } else if k < 20 {
      StepsFrom18(k);
    } else {
      StepsFrom20(k);
    }
  }

  /** The solution's steps, two at a time. */
  lemma StepsFrom0(k: int)
    requires 0 <= k < 2
    ensures Move(SolutionCells[k], Solution[k]) == (SolutionCells[k + 1], true)
  {
    if k == 0 {} else {}
  }

  lemma StepsFrom2(k: int)
    requires 2 <= k < 4
    ensures Move(SolutionCells[k], Solution[k]) == (SolutionCells[k + 1], true)
  {
    if k == 2 {} else {}
  }

  lemma StepsFrom4(k: int)
    requires 4 <= k < 6
    ensures Move(SolutionCells[k], Solution[k]) == (SolutionCells[k + 1], true)
  {
    if k == 4 {} else {}
  }

  lemma StepsFrom6(k: int)
    requires 6 <= k < 8
    ensures Move(SolutionCells[k], Solution[k]) == (SolutionCells[k + 1], true)
  {
    if k == 6 {} else {}
  }

  lemma StepsFrom8(k: int)
    requires 8 <= k < 10
    ensures Move(SolutionCells[k], Solution[k]) == (SolutionCells[k + 1], true)
  {
    if k == 8 {} else {}
  }

  lemma StepsFrom10(k: int)
    requires 10 <= k < 12
    ensures Move(SolutionCells[k], Solution[k]) == (SolutionCells[k + 1], true)
  {
    if k == 10 {} else {}
  }

  lemma StepsFrom12(k: int)
    requires 12 <= k < 14
    ensures Move(SolutionCells[k], Solution[k]) == (SolutionCells[k + 1], true)
  {
    if k == 12 {} else {}
  }

  lemma StepsFrom14(k: int)
    requires 14 <= k < 16
    ensures Move(SolutionCells[k], Solution[k]) == (SolutionCells[k + 1], true)
  {
    if k == 14 {} else {}
  }

  lemma StepsFrom16(k: int)
    requires 16 <= k < 18
    ensures Move(SolutionCells[k], Solution[k]) == (SolutionCells[k + 1], true)
  {
    if k == 16 {} else {}
  }

  lemma StepsFrom18(k: int)
    requires 18 <= k < 20
    ensures Move(SolutionCells[k], Solution[k]) == (SolutionCells[k + 1], true)
  {
    if k == 18 {} else {}
  }

  lemma StepsFrom20(k: int)
    requires 20 <= k < |Solution|
    ensures Move(SolutionCells[k], Solution[k]) == (SolutionCells[k + 1], true)
  {
    if k == 20 {} else {}
  }

  /** Only the last cell of the path is the goal. */
  lemma GoalOnlyAtEnd(k: int)
    requires 0 <= k <= |Solution|
    ensures SolutionCells[k] == Goal <==> k == |Solution|
  {
    assert SolutionCells[k].y < 9 || k >= 22;
  }

  /** Following `Solution[k..]` from the `k`-th cell reaches the goal, reporting success once, on the last key. */
  lemma {:induction false} SolutionFrom(k: nat)
    requires k <= |Solution|
    ensures Run(Step, SolutionCells[k], Solution[k..]).0 == Goal
    ensures Run(Step, SolutionCells[k], Solution[k..]).1 == if k < |Solution| then [Success] else []
    decreases |Solution| - k
  {
    if k < |Solution| {
      SolutionStep(k);
      SolutionFrom(k + 1);
      assert Solution[k..][1..] == Solution[k + 1..];
      GoalOnlyAtEnd(k + 1);
      StepThenRun(SolutionCells[k], Solution[k..], SolutionCells[k + 1]);
    } else {
      GoalOnlyAtEnd(k);
    }
  }

  /**
   * An accepted key to `q`, followed by keys that reach the goal from `q` and report
   * success once unless `q` is the goal itself, reaches the goal and reports success once.
   */
  lemma StepThenRun(p: Position, keys: seq<string>, q: Position)
    requires |keys| > 0 && Move(p, keys[0]) == (q, true)
    requires Run(Step, q, keys[1..]).0 == Goal
    requires Run(Step, q, keys[1..]).1 == if q == Goal then [] else [Success]
    ensures Run(Step, p, keys).0 == Goal
    ensures Run(Step, p, keys).1 == [Success]
  {
    var here := Step(p, keys[0]);
    assert here.next == q;
    assert Run(Step, p, keys) == (Run(Step, q, keys[1..]).0, Emitted(here) + Run(Step, q, keys[1..]).1);
    if q == Goal {
      assert Emitted(here) == [Success];
      assert [Success] + [] == [Success];
    } else {
      assert Emitted(here) == [];
      assert [] + [Success] == [Success];
    }
  }

  /** The fixed grid is solvable: the solution keys lead from the start to the goal and report success. */
  lemma SolutionReachesGoal()
    ensures Run(Step, Start, Solution).0 == Goal
    ensures Run(Step, Start, Solution).1 == [Success]
  {
    SolutionFrom(0);
  }

  /**
   * On the goal, any key that is not an arrow still yields a fresh record, so the
   * goal check reports success again: two such keys report two successes.
   */
  lemma RepeatedSuccessAtGoal(key: string)
    requires key !in {"ArrowUp", "ArrowDown", "ArrowLeft", "ArrowRight"}
    ensures Run(Step, Goal, [key, key]) == (Goal, [Success, Success])
  {
    assert Step(Goal, key) == Reaction(Goal, Some(Success));
    assert [key, key][1..] == [key];
    assert [key][1..] == [];
    assert Emitted(Step(Goal, key)) == [Success];
    assert Run(Step, Goal, []) == (Goal, []);
    assert Run(Step, Goal, [key]) == (Goal, [Success] + []);
    assert [Success] + [] == [Success];
    assert Run(Step, Goal, [key, key]) == (Goal, [Success] + [Success]);
    assert [Success] + [Success] == [Success, Success];
  }
}
