/**
 * The chess-board widget (app/components/minigames/ChessBoard.tsx): four
 * target knights and ten other pieces are scattered over distinct squares of
 * an 8×8 board; clicking all four knights reports success. Squares are drawn
 * by rejection sampling until a free one comes up.
 */
module ChessBoardWidget {
  import opened Common

  const Squares: int := 64
  const TargetCount: int := 4
  const DummyCount: int := 10
  const PieceCount: int := 14

  datatype PieceKind = Knight | Bishop | Rook | Queen | King

  /** `PIECE_TYPES`, in order; index 0 is the knight. */
  const PieceTypes: seq<PieceKind> := [Knight, Bishop, Rook, Queen, King]

  /** Piece ids: `knight-i` for the targets, `piece-i` for the others. */
  datatype PieceId = KnightId(n: int) | DummyId(n: int)

  datatype Piece = Piece(id: PieceId, kind: PieceKind, position: int, isTarget: bool)

  // ---------------------------------------------------------------- placement

  /** Every draw lands on a square already used. */
  predicate AllTaken(draws: seq<Unit>, used: set<int>) {
    forall k :: 0 <= k < |draws| ==> Pick(draws[k], Squares) in used
  }

  /** `square` is drawn by the first draw not landing on a used square, and `rest` follows that draw. */
  predicate FirstFreeDraw(draws: seq<Unit>, used: set<int>, square: int, rest: seq<Unit>) {
    var j := |draws| - |rest| - 1;
    && 0 <= j < |draws|
    && square == Pick(draws[j], Squares)
    && rest == draws[j + 1..]
    && AllTaken(draws[..j], used)
  }

  /** Rejection sampling: the square of the first draw not yet used, and the draws left after it. */
  function DrawFreeSquare(draws: seq<Unit>, used: set<int>): (r: Option<(int, seq<Unit>)>)
    ensures r.None? <==> AllTaken(draws, used)
    ensures r.Some? ==> 0 <= r.value.0 < Squares && r.value.0 !in used && |r.value.1| < |draws|
    decreases |draws|
  {
    if |draws| == 0 then None
    else
      var square := Pick(draws[0], Squares);
      if square in used then DrawFreeSquare(draws[1..], used) else Some((square, draws[1..]))
  }

  /** The square found is the one drawn by the first draw that lands on a free square. */
  lemma {:induction false} DrawFreeSquareTakesFirstFree(draws: seq<Unit>, used: set<int>)
    requires DrawFreeSquare(draws, used).Some?
    ensures FirstFreeDraw(draws, used, DrawFreeSquare(draws, used).value.0, DrawFreeSquare(draws, used).value.1)
    decreases |draws|
  {
    var r := DrawFreeSquare(draws, used).value;
    if Pick(draws[0], Squares) in used {
      DrawFreeSquareTakesFirstFree(draws[1..], used);
      var j := |draws| - |r.1| - 1;
      assert draws[1..][j - 1] == draws[j];
      assert draws[1..][j..] == draws[j + 1..];
      forall k | 0 <= k < j
        ensures Pick(draws[..j][k], Squares) in used
      {
        if k > 0 {
          assert draws[..j][k] == draws[1..][..j - 1][k - 1];
        }
      }
    } else {
      assert draws[..0] == [];
    }
  }

  /** The id of the `n`-th piece placed: the four targets first, then the ten others. */
  function IdOf(n: int): PieceId {
    if n < TargetCount then KnightId(n) else DummyId(n - TargetCount)
  }

  /** The `n`-th piece as placed: a target knight for n < 4, otherwise a non-knight. */
  predicate IsNthPiece(p: Piece, n: int) {
    && p.id == IdOf(n)
    && p.isTarget == (n < TargetCount)
    && (p.kind == Knight <==> n < TargetCount)
  }

  /** Draws pieces `i` … 13 consume at least: one square each, plus a kind for each non-target. */
  function DrawsNeeded(i: nat): int {
    (PieceCount - i) + (PieceCount - (if i < TargetCount then TargetCount else i))
  }

  /**
   * Pieces `i` … 13, each on a fresh square drawn from `draws`; a non-target also
   * draws its kind from indices 1 … 4 of `PIECE_TYPES`. `None` when the draws run out.
   */
  function PlaceFrom(i: nat, draws: seq<Unit>, used: set<int>): (r: Option<seq<Piece>>)
    requires i <= PieceCount
    ensures r.Some? ==> |r.value| == PieceCount - i
    ensures r.Some? ==> forall k :: 0 <= k < |r.value| ==> IsNthPiece(r.value[k], i + k)
    ensures r.Some? ==> forall k :: 0 <= k < |r.value| ==> 0 <= r.value[k].position < Squares && r.value[k].position !in used
    ensures r.Some? ==> forall a, b :: 0 <= a < b < |r.value| ==> r.value[a].position != r.value[b].position
    decreases |draws|
  {
    if i == PieceCount then Some([])
    else match DrawFreeSquare(draws, used)
      case None => None
      case Some(found) =>
        var square := found.0;
        var rest := found.1;
        if i < TargetCount then
          match PlaceFrom(i + 1, rest, used + {square})
          case None => None
          case Some(ps) => Some([Piece(KnightId(i), Knight, square, true)] + ps)
        else if |rest| == 0 then None
        else
          var kind := PieceTypes[Pick(rest[0], 4) + 1];
          match PlaceFrom(i + 1, rest[1..], used + {square})
          case None => None
          case Some(ps) => Some([Piece(DummyId(i - TargetCount), kind, square, false)] + ps)
  }

  /** A successful placement used at least the draws its pieces need: `None` whenever fewer are supplied. */
  lemma {:induction false} PlaceFromConsumes(i: nat, draws: seq<Unit>, used: set<int>)
    requires i <= PieceCount
    ensures PlaceFrom(i, draws, used).Some? ==> |draws| >= DrawsNeeded(i)
    decreases |draws|
  {
    if i < PieceCount {
      var found := DrawFreeSquare(draws, used);
      if found.Some? {
        var square := found.value.0;
        var rest := found.value.1;
        if i < TargetCount {
          PlaceFromConsumes(i + 1, rest, used + {square});
        } else if |rest| > 0 {
          PlaceFromConsumes(i + 1, rest[1..], used + {square});
        }
      }
    }
  }

  /** Appending keeps the first draw and appends to the tail. */
  lemma HeadOfAppend(a: seq<Unit>, b: seq<Unit>)
    requires |a| > 0
    ensures (a + b)[0] == a[0] && (a + b)[1..] == a[1..] + b
  {
  }

  /** A square found by rejection sampling is found the same way when more draws follow. */
  lemma {:induction false} DrawFreeSquareExtends(draws: seq<Unit>, more: seq<Unit>, used: set<int>)
    requires DrawFreeSquare(draws, used).Some?
    ensures DrawFreeSquare(draws + more, used)
      == Some((DrawFreeSquare(draws, used).value.0, DrawFreeSquare(draws, used).value.1 + more))
    decreases |draws|
  {
    HeadOfAppend(draws, more);
    if Pick(draws[0], Squares) in used {
      DrawFreeSquareExtends(draws[1..], more, used);
    }
  }

  /**
   * A placement that succeeds is decided by the draws it read: appending more
   * draws gives the same pieces. So `None` on some draws means every prefix of
   * them also runs out; failure is never caused by a draw after a success.
   */
  lemma {:induction false} PlaceFromExtends(i: nat, draws: seq<Unit>, more: seq<Unit>, used: set<int>)
    requires i <= PieceCount
    requires PlaceFrom(i, draws, used).Some?
    ensures PlaceFrom(i + 0, draws + more, used) == PlaceFrom(i, draws, used)
    decreases |draws|, 1
  {
    if i < PieceCount {
      DrawFreeSquareExtends(draws, more, used);
      if i < TargetCount {
        TargetExtends(i, draws, more, used);
      } else {
        OtherExtends(i, draws, more, used);
      }
    }
  }

  /** `PlaceFromExtends` for a target knight: the square draw, then the rest. */
  lemma {:induction false} TargetExtends(i: nat, draws: seq<Unit>, more: seq<Unit>, used: set<int>)
    requires i < TargetCount
    requires PlaceFrom(i, draws, used).Some?
    requires DrawFreeSquare(draws, used).Some?
    requires DrawFreeSquare(draws + more, used)
      == Some((DrawFreeSquare(draws, used).value.0, DrawFreeSquare(draws, used).value.1 + more))
    ensures PlaceFrom(i, draws + more, used) == PlaceFrom(i, draws, used)
    decreases |draws|, 0
  {
    var found := DrawFreeSquare(draws, used).value;
    PlaceFromExtends(i + 1, found.1, more, used + {found.0});
  }

  /** One step of `PlaceFrom` for a non-target piece, with the square and kind already drawn. */
  lemma OtherStep(i: nat, draws: seq<Unit>, used: set<int>, square: int, rest: seq<Unit>, kind: PieceKind)
    requires TargetCount <= i < PieceCount
    requires DrawFreeSquare(draws, used) == Some((square, rest))
    requires |rest| > 0 && kind == PieceTypes[Pick(rest[0], 4) + 1]
    ensures PlaceFrom(i, draws, used) ==
      match PlaceFrom(i + 1, rest[1..], used + {square})
      case None => None
      case Some(ps) => Some([Piece(DummyId(i - TargetCount), kind, square, false)] + ps)
  {
  }

  /** `PlaceFromExtends` for a non-target piece: the square draw, the kind draw, then the rest. */
  lemma {:induction false} OtherExtends(i: nat, draws: seq<Unit>, more: seq<Unit>, used: set<int>)
    requires TargetCount <= i < PieceCount
    requires PlaceFrom(i, draws, used).Some?
    requires DrawFreeSquare(draws, used).Some?
    requires DrawFreeSquare(draws + more, used)
      == Some((DrawFreeSquare(draws, used).value.0, DrawFreeSquare(draws, used).value.1 + more))
    ensures PlaceFrom(i, draws + more, used) == PlaceFrom(i, draws, used)
    decreases |draws|, 0
  {
    var square := DrawFreeSquare(draws, used).value.0;
    var rest := DrawFreeSquare(draws, used).value.1;
    assert |rest| > 0;
    var kind := PieceTypes[Pick(rest[0], 4) + 1];
    HeadOfAppend(rest, more);
    OtherStep(i, draws, used, square, rest, kind);
    OtherStep(i, draws + more, used, square, rest + more, kind);
    PlaceFromExtends(i + 1, rest[1..], more, used + {square});
  }

  predicate SortedByPosition(ps: seq<Piece>) {
    forall a, b :: 0 <= a < b < |ps| ==> ps[a].position <= ps[b].position
  }

  /** No two pieces share a square. */
  predicate DistinctSquares(ps: seq<Piece>) {
    forall a, b :: 0 <= a < b < |ps| ==> ps[a].position != ps[b].position
  }

  /** `p` inserted before the first piece at a later square. */
  function Insert(p: Piece, sorted: seq<Piece>): (r: seq<Piece>)
    requires SortedByPosition(sorted)
    ensures SortedByPosition(r)
    ensures multiset(r) == multiset(sorted) + multiset{p}
    ensures forall q :: q in r ==> q == p || q in sorted
  {
    if |sorted| == 0 then [p]
    else if p.position <= sorted[0].position then [p] + sorted
    else
      var tail := sorted[1..];
      var rest := Insert(p, tail);
      assert sorted == [sorted[0]] + tail;
      HeadStaysFirst(sorted, p, rest);
      [sorted[0]] + rest
  }

  /** The first piece of a sorted list stays first in front of the rest with a later piece inserted. */
  lemma HeadStaysFirst(sorted: seq<Piece>, p: Piece, rest: seq<Piece>)
    requires SortedByPosition(sorted) && |sorted| > 0 && sorted[0].position < p.position
    requires SortedByPosition(rest)
    requires forall q :: q in rest ==> q == p || q in sorted[1..]
    ensures SortedByPosition([sorted[0]] + rest)
  {
    var r := [sorted[0]] + rest;
    forall k | 0 <= k < |rest| ensures sorted[0].position <= rest[k].position {
      assert rest[k] in rest;
      if rest[k] != p {
        var j :| 0 <= j < |sorted[1..]| && sorted[1..][j] == rest[k];
        assert sorted[1..][j] == sorted[j + 1];
      }
    }
    forall a, b | 0 <= a < b < |r| ensures r[a].position <= r[b].position {
      assert r[b] == rest[b - 1];
      if a > 0 {
        assert r[a] == rest[a - 1];
      }
    }
  }

  /** Inserting a piece on a square no other piece holds keeps the squares distinct. */
  lemma {:induction false} InsertDistinct(p: Piece, sorted: seq<Piece>)
    requires SortedByPosition(sorted) && DistinctSquares(sorted)
    requires forall q :: q in sorted ==> q.position != p.position
    ensures DistinctSquares(Insert(p, sorted))
    decreases |sorted|
  {
    if |sorted| > 0 && p.position > sorted[0].position {
      var rest := Insert(p, sorted[1..]);
      InsertDistinct(p, sorted[1..]);
      var r := [sorted[0]] + rest;
      assert Insert(p, sorted) == r;
      forall k | 0 <= k < |rest| ensures rest[k].position != sorted[0].position {
        assert rest[k] in rest;
        if rest[k] != p {
          var j :| 0 <= j < |sorted[1..]| && sorted[1..][j] == rest[k];
          assert sorted[j + 1] == rest[k];
        }
      }
      forall a, b | 0 <= a < b < |r| ensures r[a].position != r[b].position {
        if a > 0 { assert r[a] == rest[a - 1] && r[b] == rest[b - 1]; }
        else { assert r[b] == rest[b - 1]; }
      }
    }
  }

  /** `pieces.sort((a, b) => a.position - b.position)`, as an insertion sort. */
  function SortByPosition(ps: seq<Piece>): (r: seq<Piece>)
    ensures SortedByPosition(r)
    ensures multiset(r) == multiset(ps)
    ensures |r| == |ps|
    ensures forall q :: q in r ==> q in ps
  {
    if |ps| == 0 then []
    else
      var rest := SortByPosition(ps[1..]);
      assert ps == [ps[0]] + ps[1..];
      Insert(ps[0], rest)
  }

  /** Sorting pieces on distinct squares keeps them on distinct squares. */
  lemma {:induction false} SortDistinct(ps: seq<Piece>)
    requires DistinctSquares(ps)
    ensures DistinctSquares(SortByPosition(ps))
    decreases |ps|
  {
    if |ps| > 0 {
      var tail := ps[1..];
      assert DistinctSquares(tail) by {
        forall a, b | 0 <= a < b < |tail| ensures tail[a].position != tail[b].position {
          assert tail[a] == ps[a + 1] && tail[b] == ps[b + 1];
        }
      }
      SortDistinct(tail);
      forall q | q in SortByPosition(tail) ensures q.position != ps[0].position {
        assert q in tail;
        var j :| 0 <= j < |tail| && tail[j] == q;
        assert ps[j + 1] == q;
      }
      InsertDistinct(ps[0], SortByPosition(tail));
    }
  }

  /** The number of target pieces. */
  function CountTargets(ps: seq<Piece>): (n: nat)
    ensures n <= |ps|
  {
    if |ps| == 0 then 0 else (if ps[0].isTarget then 1 else 0) + CountTargets(ps[1..])
  }

  lemma {:induction false} CountTargetsInsert(p: Piece, sorted: seq<Piece>)
    requires SortedByPosition(sorted)
    ensures CountTargets(Insert(p, sorted)) == CountTargets(sorted) + (if p.isTarget then 1 else 0)
    decreases |sorted|
  {
    if |sorted| > 0 && p.position > sorted[0].position {
      CountTargetsInsert(p, sorted[1..]);
      assert ([sorted[0]] + Insert(p, sorted[1..]))[1..] == Insert(p, sorted[1..]);
    }
  }

  /** Sorting keeps the number of targets. */
  lemma {:induction false} CountTargetsSort(ps: seq<Piece>)
    ensures CountTargets(SortByPosition(ps)) == CountTargets(ps)
    decreases |ps|
  {
    if |ps| > 0 {
      CountTargetsSort(ps[1..]);
      CountTargetsInsert(ps[0], SortByPosition(ps[1..]));
    }
  }

  /** Pieces numbered `i` onwards include exactly the targets among them. */
  lemma {:induction false} CountTargetsPlaced(ps: seq<Piece>, i: nat)
    requires forall k :: 0 <= k < |ps| ==> IsNthPiece(ps[k], i + k)
    ensures CountTargets(ps) == if i >= TargetCount then 0 else if i + |ps| <= TargetCount then |ps| else TargetCount - i
    decreases |ps|
  {
    if |ps| > 0 {
      CountTargetsPlaced(ps[1..], i + 1);
    }
  }

  /**
   * What the initializer produces: fourteen pieces on distinct squares, sorted by
   * square, exactly four of them targets; the targets are the knights, with knight ids.
   */
  ghost predicate IsLayout(ps: seq<Piece>) {
    && |ps| == PieceCount
    && (forall k :: 0 <= k < |ps| ==> 0 <= ps[k].position < Squares)
    && DistinctSquares(ps)
    && SortedByPosition(ps)
    && CountTargets(ps) == TargetCount
    && (forall k :: 0 <= k < |ps| ==> (ps[k].isTarget <==> ps[k].kind == Knight))
    && (forall k :: 0 <= k < |ps| ==> (ps[k].isTarget <==> ps[k].id.KnightId?))
  }

  /** Every piece of the sorted list is a placed piece, so it keeps the placed pieces' properties. */
  lemma SortedLayout(placed: seq<Piece>)
    requires forall k :: 0 <= k < |placed| ==> IsNthPiece(placed[k], k) && 0 <= placed[k].position < Squares
    ensures forall k :: 0 <= k < |placed| ==> 0 <= SortByPosition(placed)[k].position < Squares
    ensures forall k :: 0 <= k < |placed| ==>
      && (SortByPosition(placed)[k].isTarget <==> SortByPosition(placed)[k].kind == Knight)
      && (SortByPosition(placed)[k].isTarget <==> SortByPosition(placed)[k].id.KnightId?)
  {
    var sorted := SortByPosition(placed);
    forall k | 0 <= k < |placed|
      ensures 0 <= sorted[k].position < Squares
      ensures sorted[k].isTarget <==> sorted[k].kind == Knight
      ensures sorted[k].isTarget <==> sorted[k].id.KnightId?
    {
      assert sorted[k] in sorted;
      var j :| 0 <= j < |placed| && placed[j] == sorted[k];
    }
  }

  /** The `useState` initializer: place the pieces, then sort them by square. */
  function Generate(draws: seq<Unit>): (r: Option<seq<Piece>>)
    ensures r.Some? ==> IsLayout(r.value)
  {
    match PlaceFrom(0, draws, {})
    case None => None
    case Some(placed) =>
      PlacedLayout(draws, placed);
      Some(SortByPosition(placed))
  }

  /** Sorting a successful placement of all fourteen pieces gives a layout. */
  lemma PlacedLayout(draws: seq<Unit>, placed: seq<Piece>)
    requires PlaceFrom(0, draws, {}) == Some(placed)
    ensures IsLayout(SortByPosition(placed))
  {
    CountTargetsPlaced(placed, 0);
    CountTargetsSort(placed);
    SortedLayout(placed);
    SortDistinct(placed);
  }

  // ---------------------------------------------------------------- clicks

  /** The widget state: the layout, the ids found so far and the `doneRef` flag. */
  datatype Chess = Chess(pieces: seq<Piece>, found: seq<PieceId>, done: bool)

  /** `board[square]`: the piece drawn on a square (the last one written there). */
  function PieceAt(ps: seq<Piece>, square: int): (r: Option<Piece>)
    ensures r.Some? ==> r.value in ps && r.value.position == square
    ensures r.None? ==> forall k :: 0 <= k < |ps| ==> ps[k].position != square
  {
    if |ps| == 0 then None
    else if ps[|ps| - 1].position == square then Some(ps[|ps| - 1])
    else
      var r := PieceAt(ps[..|ps| - 1], square);
      assert forall k :: 0 <= k < |ps| - 1 ==> ps[..|ps| - 1][k] == ps[k];
      r
  }

  /**
   * A click on a square. Empty squares and found pieces are not clickable; then
   * `handlePieceClick` ignores clicks once done and on non-targets, records the
   * target's id, and reports success when the fourth target is found.
   */
  function ClickSquare(s: Chess, square: int): (r: Reaction<Chess>)
    ensures r.next.pieces == s.pieces
    ensures s.done ==> r == Reaction(s, None)
    ensures PieceAt(s.pieces, square).None? ==> r == Reaction(s, None)
    ensures PieceAt(s.pieces, square).Some? && !PieceAt(s.pieces, square).value.isTarget ==> r == Reaction(s, None)
    ensures PieceAt(s.pieces, square).Some? && PieceAt(s.pieces, square).value.id in s.found ==> r == Reaction(s, None)
    ensures r.next != s ==>
      && PieceAt(s.pieces, square).Some?
      && PieceAt(s.pieces, square).value.isTarget
      && PieceAt(s.pieces, square).value.id !in s.found
      && r.next.found == s.found + [PieceAt(s.pieces, square).value.id]
    ensures r.outcome.Some? <==> r.next != s && |r.next.found| == TargetCount
    ensures r.outcome.Some? ==> r.outcome == Some(Success) && r.next.done
  {
    match PieceAt(s.pieces, square)
    case None => Reaction(s, None)
    case Some(piece) =>
      if piece.id in s.found then Reaction(s, None)
      else if s.done then Reaction(s, None)
      else if !piece.isTarget then Reaction(s, None)
      else
        var newFound := s.found + [piece.id];
        if |newFound| == TargetCount then Reaction(Chess(s.pieces, newFound, true), Some(Success))
        else Reaction(Chess(s.pieces, newFound, false), None)
  }

  /**
   * The click invariant: `found` lists distinct knight ids of target pieces, at most
   * four of them, and the widget is done exactly when all four are found.
   */
  ghost predicate Inv(s: Chess) {
    && IsLayout(s.pieces)
    && (forall a, b :: 0 <= a < b < |s.found| ==> s.found[a] != s.found[b])
    && (forall k :: 0 <= k < |s.found| ==> s.found[k].KnightId?)
    && |s.found| <= TargetCount
    && (s.done <==> |s.found| == TargetCount)
  }

  predicate Done(s: Chess) {
    s.done
  }

  /** The mounted widget: a fresh layout, nothing found. */
  function Mount(draws: seq<Unit>): (s: Option<Chess>)
    ensures s.Some? ==> Inv(s.value) && s.value.found == [] && !s.value.done
  {
    match Generate(draws)
    case None => None
    case Some(pieces) => Some(Chess(pieces, [], false))
  }

  /** Each click keeps the invariant: no id is recorded twice, and never more than four. */
  lemma ClickKeepsInv(s: Chess, square: int)
    requires Inv(s)
    ensures Inv(ClickSquare(s, square).next)
  {
    var r := ClickSquare(s, square);
    if r.next != s {
      var piece := PieceAt(s.pieces, square).value;
      var k :| 0 <= k < |s.pieces| && s.pieces[k] == piece;
    }
  }

  lemma ClickGuarded()
    ensures Guarded(ClickSquare, Done, Inv)
  {
    forall s, square | Inv(s) ensures Inv(ClickSquare(s, square).next) {
      ClickKeepsInv(s, square);
    }
  }

  /** Over any clicks the board reports success at most once, and only with all four knights found. */
  lemma SuccessOnceWithAllKnights(s: Chess, squares: seq<int>)
    requires Inv(s)
    ensures |Run(ClickSquare, s, squares).1| <= 1
    ensures |Run(ClickSquare, s, squares).1| == 1 ==> |Run(ClickSquare, s, squares).0.found| == TargetCount
    ensures |Run(ClickSquare, s, squares).0.found| <= TargetCount
  {
    ClickGuarded();
    AtMostOneOutcome(ClickSquare, Done, Inv, s, squares);
  }
}
