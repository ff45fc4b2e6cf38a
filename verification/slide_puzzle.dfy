/**
 * The slide puzzle widget (app/components/minigames/SlidePuzzle.tsx): a 4×4
 * board of fifteen numbered tiles and one blank. A click on a tile next to
 * the blank swaps the two; arranging 1 … 15 in order with the blank last
 * reports success. The starting board comes from a fifty-step random walk
 * of the blank that never steps straight back, retried until the board it
 * reaches is not already solved.
 */
module SlidePuzzleWidget {
  import opened Common

  const GridSize: int := 4
  const CellCount: int := 16
  /** Number of blank moves in one shuffle walk. */
  const WalkLength: int := 50

  /** A tile: its identity, its number (`None` for the blank) and its home cell, which never changes. */
  datatype Tile = Tile(id: int, value: Option<int>, position: int)

  /** The solved board: tile `i` carries number `i + 1`, and the last cell holds the blank. */
  function InitialTiles(): (t: seq<Tile>)
    ensures |t| == CellCount
    ensures forall i :: 0 <= i < CellCount ==> t[i].id == i && t[i].position == i
    ensures forall i :: 0 <= i < CellCount ==> t[i].value == if i == CellCount - 1 then None else Some(i + 1)
  {
    seq(CellCount, i requires 0 <= i < CellCount =>
      Tile(i, if i == CellCount - 1 then None else Some(i + 1), i))
  }

  /** A board is a rearrangement of the sixteen initial tiles. */
  predicate IsBoard(t: seq<Tile>) {
    multiset(t) == multiset(InitialTiles())
  }

  /** Row and column of an in-grid cell. */
  function Row(c: int): int { c / GridSize }
  function Col(c: int): int { c % GridSize }

  /** Reference adjacency: two in-grid cells sharing a row or column, one step apart. */
  predicate Adjacent(a: int, b: int) {
    && 0 <= a < CellCount && 0 <= b < CellCount
    && ((Row(a) == Row(b) && (Col(a) - Col(b) == 1 || Col(b) - Col(a) == 1))
     || (Col(a) == Col(b) && (Row(a) - Row(b) == 1 || Row(b) - Row(a) == 1)))
  }

  /** JavaScript's `%` for a positive divisor: the remainder takes the sign of the dividend. */
  function JsRem(a: int, b: int): (r: int)
    requires b > 0
    ensures a >= 0 ==> r == a % b
    ensures a < 0 ==> -b < r <= 0
  {
    if a >= 0 then a % b else -((-a) % b)
  }

  /**
   * `getValidMoves`: the cells above, below, left and right of `e`, in that order,
   * when they lie inside the grid. The row is `Math.floor(e / 4)` and the column the
   * JavaScript remainder, so the rule is total over all integers.
   */
  function ValidMoves(e: int): (m: seq<int>)
    ensures 0 <= e < CellCount ==> forall x :: x in m <==> Adjacent(e, x)
    ensures forall i, j :: 0 <= i < j < |m| ==> m[i] != m[j]
  {
    var row := e / GridSize;
    var col := JsRem(e, GridSize);
    (if row > 0 then [e - GridSize] else [])
    + (if row < GridSize - 1 then [e + GridSize] else [])
    + (if col > 0 then [e - 1] else [])
    + (if col < GridSize - 1 then [e + 1] else [])
  }

  /** Adjacency is symmetric, so every move can be undone by the reverse move. */
  lemma ValidMovesSymmetric(e: int, m: int)
    requires 0 <= e < CellCount && 0 <= m < CellCount
    ensures m in ValidMoves(e) <==> e in ValidMoves(m)
  {
  }

  /** A corner has two neighbours, an edge cell three and an inner cell four. */
  lemma NeighbourCount(e: int)
    requires 0 <= e < CellCount
    ensures |ValidMoves(e)| ==
      4 - (if Row(e) == 0 || Row(e) == GridSize - 1 then 1 else 0)
        - (if Col(e) == 0 || Col(e) == GridSize - 1 then 1 else 0)
    ensures |ValidMoves(e)| >= 2
  {
  }

  /** `moves.filter(m => m !== previous)`. */
  function Without(moves: seq<int>, previous: int): (r: seq<int>)
    ensures forall x :: x in r <==> x in moves && x != previous
    ensures |r| <= |moves|
    ensures previous !in moves ==> r == moves
    ensures (forall i, j :: 0 <= i < j < |moves| ==> moves[i] != moves[j]) ==>
      |r| >= |moves| - 1 && forall i, j :: 0 <= i < j < |r| ==> r[i] != r[j]
  {
    if |moves| == 0 then []
    else
      var rest := Without(moves[1..], previous);
      if moves[0] == previous then
        assert (forall i, j :: 0 <= i < j < |moves| ==> moves[i] != moves[j]) ==> previous !in moves[1..];
        rest
      else
        assert (forall i, j :: 0 <= i < j < |moves| ==> moves[i] != moves[j]) ==> moves[0] !in moves[1..];
        [moves[0]] + rest
  }

  /** The no-backtrack filter always leaves a move, since every cell has at least two neighbours. */
  lemma NoBacktrackLeavesAMove(e: int, previous: int)
    requires 0 <= e < CellCount
    ensures |Without(ValidMoves(e), previous)| >= 1
  {
    NeighbourCount(e);
  }

  /** `isSolved`: cells 0 … n-2 hold numbers 1 … n-1 and the last cell holds the blank. */
  predicate IsSolved(t: seq<Tile>)
    requires |t| > 0
  {
    && (forall i :: 0 <= i < |t| - 1 ==> t[i].value == Some(i + 1))
    && t[|t| - 1].value.None?
  }

  /** A tile of a board is one of the initial tiles, identified by its number. */
  lemma BoardTileIsInitial(t: seq<Tile>, i: int)
    requires IsBoard(t) && 0 <= i < |t|
    ensures exists k :: 0 <= k < CellCount && t[i] == InitialTiles()[k]
  {
    assert t[i] in multiset(t);
    assert t[i] in multiset(InitialTiles());
    assert t[i] in InitialTiles();
  }

  /** On a board, being solved is being exactly the initial arrangement. */
  lemma SolvedIffInitial(t: seq<Tile>)
    requires IsBoard(t)
    ensures |t| == CellCount
    ensures IsSolved(t) <==> t == InitialTiles()
  {
    var init := InitialTiles();
    assert |t| == |multiset(t)| == |multiset(init)| == CellCount;
    if IsSolved(t) {
      forall i | 0 <= i < CellCount ensures t[i] == init[i] {
        BoardTileIsInitial(t, i);
        var k :| 0 <= k < CellCount && t[i] == init[k];
        assert init[k].value == t[i].value;
      }
    }
  }

  /** `tiles.findIndex(t => t.value === null)`: the blank's cell, or -1. */
  function FindBlank(t: seq<Tile>): (i: int)
    ensures -1 <= i < |t|
    ensures i >= 0 ==> t[i].value.None? && forall j :: 0 <= j < i ==> t[j].value.Some?
    ensures i == -1 ==> forall j :: 0 <= j < |t| ==> t[j].value.Some?
  {
    if |t| == 0 then -1
    else if t[0].value.None? then 0
    else
      var rest := FindBlank(t[1..]);
      if rest == -1 then -1 else rest + 1
  }

  /** A board has exactly one blank. */
  lemma BoardHasOneBlank(t: seq<Tile>)
    requires IsBoard(t)
    ensures 0 <= FindBlank(t) < |t|
    ensures forall j :: 0 <= j < |t| && t[j].value.None? ==> j == FindBlank(t)
  {
    var init := InitialTiles();
    var blank := init[CellCount - 1];
    assert blank in multiset(init);
    assert blank in t;
    InitialTilesDistinct();
    var f := FindBlank(t);
    BoardTileIsInitial(t, f);
    forall j | 0 <= j < |t| && t[j].value.None? ensures j == f {
      BoardTileIsInitial(t, j);
      MultisetHasTwo(t, f, j);
    }
  }

  lemma InitialTilesDistinct()
    ensures forall i, j :: 0 <= i < j < CellCount ==> InitialTiles()[i] != InitialTiles()[j]
    ensures multiset(InitialTiles())[InitialTiles()[CellCount - 1]] == 1
  {
    var init := InitialTiles();
    var blank := init[CellCount - 1];
    assert init == init[..CellCount - 1] + [blank];
    assert blank !in init[..CellCount - 1];
    assert multiset(init[..CellCount - 1])[blank] == 0;
  }

  /** Two distinct positions holding the same element make its multiplicity at least two. */
  lemma MultisetHasTwo<T>(s: seq<T>, i: int, j: int)
    requires 0 <= i < |s| && 0 <= j < |s| && s[i] == s[j]
    ensures i != j ==> multiset(s)[s[i]] >= 2
  {
    var lo, hi := if i < j then i else j, if i < j then j else i;
    if lo < hi {
      assert s == s[..lo] + [s[lo]] + s[lo + 1 .. hi] + [s[hi]] + s[hi + 1..];
    }
  }

  /** A board has sixteen cells. */
  lemma BoardSize(t: seq<Tile>)
    requires IsBoard(t)
    ensures |t| == CellCount
  {
    assert |multiset(t)| == |t|;
    assert |multiset(InitialTiles())| == |InitialTiles()|;
  }

  /** Exchanging two cells of a board gives a board. */
  lemma SwapKeepsBoard(t: seq<Tile>, i: int, j: int)
    requires IsBoard(t) && 0 <= i < |t| && 0 <= j < |t|
    ensures IsBoard(Swap(t, i, j))
  {
  }

  // ---------------------------------------------------------------- shuffle walk

  /** One position of the shuffle walk: the board, the blank's cell and the cell it came from. */
  datatype Walker = Walker(tiles: seq<Tile>, empty: int, previous: int)

  ghost predicate WalkerOk(w: Walker) {
    |w.tiles| == CellCount && IsBoard(w.tiles) && 0 <= w.empty < CellCount && w.tiles[w.empty].value.None?
  }

  /** The walk's start: the solved board, blank in the last cell, no previous cell. */
  function StartWalker(): (w: Walker)
    ensures WalkerOk(w)
  {
    Walker(InitialTiles(), CellCount - 1, -1)
  }

  /**
   * One step of the walk: drop the previous cell from the blank's moves, pick one
   * with `Math.floor(r * n)` and swap the blank into it.
   */
  function WalkStep(w: Walker, r: Unit): (next: Walker)
    requires WalkerOk(w)
    ensures WalkerOk(next)
    ensures Adjacent(w.empty, next.empty)
    ensures next.empty != w.previous
    ensures next.previous == w.empty
  {
    NoBacktrackLeavesAMove(w.empty, w.previous);
    var moves := Without(ValidMoves(w.empty), w.previous);
    var move := moves[Pick(r, |moves|)];
    assert move in ValidMoves(w.empty);
    SwapKeepsBoard(w.tiles, w.empty, move);
    Walker(Swap(w.tiles, w.empty, move), move, w.empty)
  }

  /** The walk driven by the draws `rs`, one step per draw. */
  function Walk(w: Walker, rs: seq<Unit>): (last: Walker)
    requires WalkerOk(w)
    ensures WalkerOk(last)
    decreases |rs|
  {
    if |rs| == 0 then w else Walk(WalkStep(w, rs[0]), rs[1..])
  }

  /** The cells the blank visits during the walk, starting where it stands. */
  function Path(w: Walker, rs: seq<Unit>): (p: seq<int>)
    requires WalkerOk(w)
    ensures |p| == |rs| + 1 && p[0] == w.empty
    decreases |rs|
  {
    if |rs| == 0 then [w.empty] else [w.empty] + Path(WalkStep(w, rs[0]), rs[1..])
  }

  /** Consecutive cells of `p` are neighbours, and no cell is followed by a return to the one before it. */
  predicate NoBacktrackPath(p: seq<int>) {
    && (forall k :: 1 <= k < |p| ==> Adjacent(p[k - 1], p[k]))
    && (forall k :: 2 <= k < |p| ==> p[k] != p[k - 2])
  }

  /** Every step of the walk moves the blank to a neighbour, and no step undoes the one before it. */
  lemma {:induction false} WalkNeverBacktracks(w: Walker, rs: seq<Unit>)
    requires WalkerOk(w)
    ensures NoBacktrackPath(Path(w, rs))
    ensures |rs| > 0 ==> Path(w, rs)[1] != w.previous
    ensures Path(w, rs)[|rs|] == Walk(w, rs).empty
    decreases |rs|
  {
    if |rs| > 0 {
      var next := WalkStep(w, rs[0]);
      WalkNeverBacktracks(next, rs[1..]);
      var q := Path(next, rs[1..]);
      assert Path(w, rs) == [w.empty] + q;
      ConsPath(w.empty, q);
    }
  }

  /** Prepending a neighbour that the path does not return to keeps a path without backtracking. */
  lemma ConsPath(a: int, q: seq<int>)
    requires |q| > 0 && NoBacktrackPath(q) && Adjacent(a, q[0])
    requires |q| > 1 ==> q[1] != a
    ensures NoBacktrackPath([a] + q)
  {
    var p := [a] + q;
    forall k | 1 <= k < |p| ensures Adjacent(p[k - 1], p[k]) {
      if k > 1 { assert p[k - 1] == q[k - 2] && p[k] == q[k - 1]; }
    }
    forall k | 2 <= k < |p| ensures p[k] != p[k - 2] {
      if k > 2 { assert p[k] == q[k - 1] && p[k - 2] == q[k - 3]; }
    }
  }

  /** Fifty draws: the randomness consumed by one shuffle attempt. */
  type Draws = rs: seq<Unit> | |rs| == WalkLength witness seq(WalkLength, _ => 0.0)

  /** One shuffle attempt: the walk from the solved board with the given draws, which yields a board. */
  function Shuffle(draws: Draws): (t: seq<Tile>)
    ensures IsBoard(t) && |t| == CellCount
  {
    Walk(StartWalker(), draws).tiles
  }

  /** The shuffle attempt with `draws` does not land on the solved board. */
  predicate LandsUnsolved(draws: Draws) {
    !IsSolved(Shuffle(draws))
  }

  /**
   * `initPuzzle` / `initializePuzzle`: shuffle attempts are made with the given draws
   * until one reaches an unsolved board. `None` when every given attempt reached the
   * solved board (the source would keep drawing).
   */
  function InitPuzzle(attempts: seq<Draws>): (board: Option<seq<Tile>>)
    ensures board.Some? ==> IsBoard(board.value) && |board.value| == CellCount && !IsSolved(board.value)
    ensures board.Some? <==> exists a :: 0 <= a < |attempts| && LandsUnsolved(attempts[a])
  {
    if |attempts| == 0 then None
    else
      var tiles := Shuffle(attempts[0]);
      if LandsUnsolved(attempts[0]) then Some(tiles)
      else
        LaterAttempts(attempts);
        InitPuzzle(attempts[1..])
  }

  /** When the first attempt lands on the solved board, an unsolved attempt is one of the later ones. */
  lemma LaterAttempts(attempts: seq<Draws>)
    requires |attempts| > 0 && !LandsUnsolved(attempts[0])
    ensures (exists a :: 0 <= a < |attempts| && LandsUnsolved(attempts[a])) <==>
      (exists a :: 0 <= a < |attempts[1..]| && LandsUnsolved(attempts[1..][a]))
  {
    if a :| 0 <= a < |attempts| && LandsUnsolved(attempts[a]) {
      assert attempts[1..][a - 1] == attempts[a];
    }
    if a :| 0 <= a < |attempts[1..]| && LandsUnsolved(attempts[1..][a]) {
      assert attempts[a + 1] == attempts[1..][a];
    }
  }

  // ---------------------------------------------------------------- the widget

  /** The widget state: the board, the move counter and the solved flag. */
  datatype Puzzle = Puzzle(tiles: seq<Tile>, moves: nat, solved: bool)

  /** A tile click at a cell, or the reset button with the randomness for its shuffle. */
  datatype Event = Click(index: int) | Reset(attempts: seq<Draws>)

  ghost predicate Inv(p: Puzzle) {
    IsBoard(p.tiles)
  }

  predicate Done(p: Puzzle) {
    p.solved
  }

  /** The mounted widget, when the first shuffle yields a board. */
  function Mount(attempts: seq<Draws>): (p: Option<Puzzle>)
    ensures p.Some? ==> Inv(p.value) && !p.value.solved && p.value.moves == 0
    ensures p.Some? ==> |p.value.tiles| == CellCount && !IsSolved(p.value.tiles)
  {
    match InitPuzzle(attempts)
    case None => None
    case Some(tiles) => Some(Puzzle(tiles, 0, false))
  }

  /**
   * `handleTileClick`: ignored once solved; a click on a neighbour of the blank
   * swaps the two and counts a move, and reports success when the board is then
   * solved; any other click changes nothing.
   */
  function ClickTile(p: Puzzle, clicked: int): (r: Reaction<Puzzle>)
    requires Inv(p)
    ensures Inv(r.next)
    ensures p.solved ==> r == Reaction(p, None)
    ensures !p.solved && !Adjacent(FindBlank(p.tiles), clicked) ==> r == Reaction(p, None)
    ensures !p.solved && Adjacent(FindBlank(p.tiles), clicked) ==>
      && r.next.tiles == Swap(p.tiles, FindBlank(p.tiles), clicked)
      && r.next.moves == p.moves + 1
      && (r.outcome == Some(Success) <==> r.next.tiles == InitialTiles())
      && r.next.solved == r.outcome.Some?
    ensures r.outcome.Some? ==> r.outcome == Some(Success) && r.next.solved && !p.solved
  {
    if p.solved then Reaction(p, None)
    else
      BoardHasOneBlank(p.tiles);
      BoardSize(p.tiles);
      var empty := FindBlank(p.tiles);
      if clicked in ValidMoves(empty) then
        assert Adjacent(empty, clicked);
        var tiles := Swap(p.tiles, empty, clicked);
        SwapKeepsBoard(p.tiles, empty, clicked);
        SolvedIffInitial(tiles);
        if IsSolved(tiles) then Reaction(Puzzle(tiles, p.moves + 1, true), Some(Success))
        else Reaction(Puzzle(tiles, p.moves + 1, false), None)
      else Reaction(p, None)
  }

  /**
   * One event. The reset button is disabled once solved; otherwise it reshuffles,
   * and a reset whose attempts all land on the solved board leaves the widget as it is.
   * States that are not boards cannot be reached; they are left as they are.
   */
  function Step(p: Puzzle, e: Event): (r: Reaction<Puzzle>)
    ensures Inv(p) ==> Inv(r.next)
    ensures Done(p) ==> r == Reaction(p, None)
    ensures r.outcome.Some? ==> r.outcome == Some(Success) && Done(r.next)
  {
    if !IsBoard(p.tiles) then Reaction(p, None)
    else
      match e
      case Click(i) => ClickTile(p, i)
      case Reset(attempts) =>
        if p.solved then Reaction(p, None)
        else match Mount(attempts)
          case None => Reaction(p, None)
          case Some(q) => Reaction(q, None)
  }

  /** Over any event sequence the puzzle reports success at most once, and a solved puzzle stays solved. */
  lemma AtMostOneSuccess(p: Puzzle, events: seq<Event>)
    requires Inv(p)
    ensures |Run(Step, p, events).1| <= 1
    ensures Done(p) ==> Run(Step, p, events).1 == [] && Done(Run(Step, p, events).0)
    ensures |Run(Step, p, events).1| == 1 ==> Done(Run(Step, p, events).0)
  {
    assert Guarded(Step, Done, Inv);
    AtMostOneOutcome(Step, Done, Inv, p, events);
  }
}
