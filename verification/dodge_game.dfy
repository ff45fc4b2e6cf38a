/**
 * The dodge widget (app/components/minigames/DodgeGame.tsx): obstacles fall
 * down a 400×500 board while the player's square follows the mouse. Surviving
 * twenty-five seconds reports success; touching an obstacle clears the board
 * and reports failure. The clock and `Math.random()` are parameters: a frame
 * carries the current time and the two random draws a spawn would use.
 */
module DodgeGameWidget {
  import opened Common

  const BoardWidth: real := 400.0
  const BoardHeight: real := 500.0
  const PlayerSize: real := 25.0
  const ObstacleHeight: real := 25.0
  const ObstacleSpeed: real := 6.0
  /** Milliseconds between spawns, and the length of the game. */
  const SpawnRate: int := 1000
  const GameDuration: int := 25000

  datatype Position = Position(x: real, y: real)

  /** An obstacle; the id `obs-N` is written as the number `N`. */
  datatype Obstacle = Obstacle(id: nat, x: real, y: real, width: real, height: real)

  /** The player starts centred, ten pixels above the bottom edge. */
  const StartPosition: Position := Position(BoardWidth / 2.0 - PlayerSize / 2.0, BoardHeight - PlayerSize - 10.0)

  /** `Math.max(0, Math.min(v, hi))`. */
  function Clamp(v: real, hi: real): (c: real)
    requires 0.0 <= hi
    ensures 0.0 <= c <= hi
    ensures 0.0 <= v <= hi ==> c == v
    ensures v < 0.0 ==> c == 0.0
    ensures hi < v ==> c == hi
  {
    var m := if v < hi then v else hi;
    if 0.0 < m then m else 0.0
  }

  /** The player's square lies on the board. */
  predicate OnBoard(p: Position) {
    0.0 <= p.x <= BoardWidth - PlayerSize && 0.0 <= p.y <= BoardHeight - PlayerSize
  }

  /** The strict overlap test of the player's square with an obstacle. */
  predicate Collides(p: Position, o: Obstacle) {
    && p.x < o.x + o.width
    && p.x + PlayerSize > o.x
    && p.y < o.y + o.height
    && p.y + PlayerSize > o.y
  }

  /** The obstacle spawned with draws `r1` (its width) and `r2` (its column), numbered `id`. */
  function Spawn(id: nat, r1: Unit, r2: Unit): (o: Obstacle)
    ensures o.id == id && o.y == -ObstacleHeight && o.height == ObstacleHeight
    ensures 30.0 <= o.width < 130.0
    ensures 0.0 <= o.x && o.x + o.width <= BoardWidth
  {
    var width := r1 * 100.0 + 30.0;
    Obstacle(id, Scale(r2, BoardWidth - width), -ObstacleHeight, width, ObstacleHeight)
  }

  /** An obstacle one step further down. */
  function Fall(o: Obstacle): (f: Obstacle)
    ensures f.y == o.y + ObstacleSpeed
    ensures f.id == o.id && f.x == o.x && f.width == o.width && f.height == o.height
  {
    o.(y := o.y + ObstacleSpeed)
  }

  /** Every obstacle falls one step (`map`). */
  function FallAll(obstacles: seq<Obstacle>): (r: seq<Obstacle>)
    ensures |r| == |obstacles| && forall k :: 0 <= k < |r| ==> r[k] == Fall(obstacles[k])
  {
    seq(|obstacles|, k requires 0 <= k < |obstacles| => Fall(obstacles[k]))
  }

  /** The obstacles still above the bottom edge, in their order (`filter`). */
  function KeepOnBoard(obstacles: seq<Obstacle>): (r: seq<Obstacle>)
    ensures |r| <= |obstacles|
    ensures forall j :: 0 <= j < |r| ==> r[j] in obstacles && r[j].y < BoardHeight
    ensures forall k :: 0 <= k < |obstacles| && obstacles[k].y < BoardHeight ==> obstacles[k] in r
  {
    if |obstacles| == 0 then []
    else
      var rest := KeepOnBoard(obstacles[1..]);
      assert forall k :: 1 <= k < |obstacles| ==> obstacles[k] == obstacles[1..][k - 1];
      if obstacles[0].y < BoardHeight then [obstacles[0]] + rest else rest
  }

  /** One step of the loop's obstacle update: fall, then drop those past the bottom edge. */
  function Advance(obstacles: seq<Obstacle>): (r: seq<Obstacle>)
    ensures |r| <= |obstacles|
    ensures forall j :: 0 <= j < |r| ==> r[j].y < BoardHeight
  {
    KeepOnBoard(FallAll(obstacles))
  }

  /** The ids increase strictly from the first obstacle to the last. */
  predicate IdsIncreasing(obstacles: seq<Obstacle>) {
    forall i, j :: 0 <= i < j < |obstacles| ==> obstacles[i].id < obstacles[j].id
  }

  /** Filtering keeps every id above a bound that all ids were above. */
  lemma {:induction false} KeepIdsAbove(obstacles: seq<Obstacle>, bound: int)
    requires forall k :: 0 <= k < |obstacles| ==> obstacles[k].id > bound
    ensures forall j :: 0 <= j < |KeepOnBoard(obstacles)| ==> KeepOnBoard(obstacles)[j].id > bound
  {
    var r := KeepOnBoard(obstacles);
    forall j | 0 <= j < |r| ensures r[j].id > bound {
      assert r[j] in obstacles;
    }
  }

  /** Filtering keeps the order. */
  lemma {:induction false} KeepKeepsOrder(obstacles: seq<Obstacle>)
    requires IdsIncreasing(obstacles)
    ensures IdsIncreasing(KeepOnBoard(obstacles))
    decreases |obstacles|
  {
    if |obstacles| > 0 {
      var o := obstacles[0];
      var tail := obstacles[1..];
      forall i, j | 0 <= i < j < |tail| ensures tail[i].id < tail[j].id {
        assert tail[i] == obstacles[i + 1] && tail[j] == obstacles[j + 1];
      }
      KeepKeepsOrder(tail);
      forall k | 0 <= k < |tail| ensures tail[k].id > o.id {
        assert tail[k] == obstacles[k + 1];
      }
      KeepIdsAbove(tail, o.id);
      if o.y < BoardHeight {
        ConsIncreasing(o, KeepOnBoard(tail));
      }
    }
  }

  /** An obstacle put in front of increasing ids that are all above its own keeps them increasing. */
  lemma ConsIncreasing(o: Obstacle, rest: seq<Obstacle>)
    requires IdsIncreasing(rest)
    requires forall j :: 0 <= j < |rest| ==> rest[j].id > o.id
    ensures IdsIncreasing([o] + rest)
  {
    var r := [o] + rest;
    forall i, j | 0 <= i < j < |r| ensures r[i].id < r[j].id {
      assert r[j] == rest[j - 1];
      if i > 0 {
        assert r[i] == rest[i - 1];
      }
    }
  }

  /** Falling keeps the spawn order. */
  lemma AdvanceKeepsOrder(obstacles: seq<Obstacle>)
    requires IdsIncreasing(obstacles)
    ensures IdsIncreasing(Advance(obstacles))
  {
    KeepKeepsOrder(FallAll(obstacles));
  }

  /** Some obstacle of `obstacles` touches the player. */
  function AnyCollision(p: Position, obstacles: seq<Obstacle>): (hit: bool)
    ensures hit <==> exists k :: 0 <= k < |obstacles| && Collides(p, obstacles[k])
  {
    if |obstacles| == 0 then false
    else if Collides(p, obstacles[0]) then true
    else
      assert forall k :: 1 <= k < |obstacles| ==> obstacles[k] == obstacles[1..][k - 1];
      AnyCollision(p, obstacles[1..])
  }

  /**
   * The widget state. `start` and `lastSpawn` are the clock readings of the mount and
   * of the last spawn; `failedFlag` is the collision flag the frame sets and the
   * obstacle effect consumes.
   */
  datatype Dodge = Dodge(
    player: Position,
    obstacles: seq<Obstacle>,
    timeLeft: int,
    active: bool,
    lost: bool,
    done: bool,
    failedFlag: bool,
    nextId: nat,
    start: int,
    lastSpawn: int,
    hasOnFailure: bool)

  /**
   * A mouse move to `(x, y)` relative to the board; one frame of the game loop at time
   * `now`; the effect that runs after the obstacles were replaced.
   */
  datatype Event = MouseMove(x: real, y: real) | Frame(now: int, r1: Unit, r2: Unit) | ObstaclesEffect

  /** The mounted widget at clock reading `now`. */
  function Mount(now: int, hasOnFailure: bool): (d: Dodge)
    ensures Inv(d) && d.active && !d.done && d.obstacles == [] && d.player == StartPosition
  {
    Dodge(StartPosition, [], GameDuration / 1000, true, false, false, false, 0, now, now, hasOnFailure)
  }

  /** The mouse handler: while the game runs the square is centred on the pointer, kept on the board. */
  function MoveMouse(d: Dodge, x: real, y: real): (n: Dodge)
    ensures !d.active || d.lost ==> n == d
    ensures d.active && !d.lost ==> OnBoard(n.player) && n == d.(player := n.player)
    ensures d.active && !d.lost && OnBoard(Position(x - PlayerSize / 2.0, y - PlayerSize / 2.0)) ==>
      n.player == Position(x - PlayerSize / 2.0, y - PlayerSize / 2.0)
  {
    if !d.active || d.lost then d
    else
      d.(player := Position(Clamp(x - PlayerSize / 2.0, BoardWidth - PlayerSize),
                            Clamp(y - PlayerSize / 2.0, BoardHeight - PlayerSize)))
  }

  /** The obstacles after the spawn check at `now`: one more at the end when more than a second has passed. */
  function MaybeSpawn(d: Dodge, now: int, r1: Unit, r2: Unit): (n: Dodge)
    ensures now - d.lastSpawn > SpawnRate ==>
      n == d.(obstacles := d.obstacles + [Spawn(d.nextId, r1, r2)], nextId := d.nextId + 1, lastSpawn := now)
    ensures now - d.lastSpawn <= SpawnRate ==> n == d
  {
    if now - d.lastSpawn > SpawnRate then
      d.(obstacles := d.obstacles + [Spawn(d.nextId, r1, r2)], nextId := d.nextId + 1, lastSpawn := now)
    else d
  }

  /** The loop runs: the game is active, not lost and not done. */
  predicate Running(d: Dodge) {
    d.active && !d.lost && !d.done
  }

  /**
   * One frame at `now`, while the loop runs. Once twenty-five seconds have passed the
   * game ends with success; otherwise an obstacle may spawn and all fall, and a touch
   * clears the board and raises the collision flag.
   */
  function FrameStep(d: Dodge, now: int, r1: Unit, r2: Unit): (r: Reaction<Dodge>)
    ensures !Running(d) ==> r == Reaction(d, None)
    ensures Running(d) && now - d.start >= GameDuration ==>
      r == Reaction(d.(timeLeft := 0, done := true, active := false), Some(Success))
    ensures Running(d) && now - d.start < GameDuration ==>
      var spawned := MaybeSpawn(d, now, r1, r2);
      var fallen := Advance(spawned.obstacles);
      && r.outcome.None?
      && r.next.timeLeft == CeilSeconds(GameDuration - (now - d.start))
      && (AnyCollision(d.player, fallen) ==>
            r.next == spawned.(obstacles := [], failedFlag := true, timeLeft := r.next.timeLeft))
      && (!AnyCollision(d.player, fallen) ==>
            r.next == spawned.(obstacles := fallen, timeLeft := r.next.timeLeft))
  {
    if !Running(d) then Reaction(d, None)
    else
      var elapsed := now - d.start;
      var remaining: nat := if GameDuration - elapsed > 0 then GameDuration - elapsed else 0;
      if remaining <= 0 then Reaction(d.(timeLeft := CeilSeconds(remaining), done := true, active := false), Some(Success))
      else
        var spawned := MaybeSpawn(d, now, r1, r2);
        var fallen := Advance(spawned.obstacles);
        if AnyCollision(d.player, fallen) then
          Reaction(spawned.(obstacles := [], failedFlag := true, timeLeft := CeilSeconds(remaining)), None)
        else Reaction(spawned.(obstacles := fallen, timeLeft := CeilSeconds(remaining)), None)
  }

  /** After a frame that did not end the game by time, no obstacle on the board touches the player. */
  lemma FrameLeavesNoOverlap(d: Dodge, now: int, r1: Unit, r2: Unit)
    requires Running(d) && now - d.start < GameDuration
    ensures forall k :: 0 <= k < |FrameStep(d, now, r1, r2).next.obstacles| ==>
      !Collides(FrameStep(d, now, r1, r2).next.player, FrameStep(d, now, r1, r2).next.obstacles[k])
  {
  }

  /**
   * The effect on the obstacle list: a raised collision flag ends the game as lost,
   * reports failure (when a failure callback was given) and is cleared. It does not
   * look at the done guard.
   */
  function ConsumeFlag(d: Dodge): (r: Reaction<Dodge>)
    ensures !d.failedFlag ==> r == Reaction(d, None)
    ensures d.failedFlag ==>
      && r.next == d.(done := true, active := false, lost := true, failedFlag := false)
      && (r.outcome.Some? <==> d.hasOnFailure)
      && (r.outcome.Some? ==> r.outcome == Some(Failure))
  {
    if d.failedFlag then
      Reaction(d.(done := true, active := false, lost := true, failedFlag := false),
        if d.hasOnFailure then Some(Failure) else None)
    else Reaction(d, None)
  }

  function Step(d: Dodge, e: Event): Reaction<Dodge> {
    match e
    case MouseMove(x, y) => Reaction(MoveMouse(d, x, y), None)
    case Frame(now, r1, r2) => FrameStep(d, now, r1, r2)
    case ObstaclesEffect => ConsumeFlag(d)
  }

  /**
   * The schedule React gives the widget: the effect on the obstacle list runs right
   * after the frame that replaced the list, before anything else happens.
   */
  function PromptStep(d: Dodge, e: Event): (r: Reaction<Dodge>)
    ensures !Step(d, e).next.failedFlag ==> r == Step(d, e)
    ensures Step(d, e).next.failedFlag && Step(d, e).outcome.None? ==> r == ConsumeFlag(Step(d, e).next)
  {
    var first := Step(d, e);
    if first.next.failedFlag && first.outcome.None? then ConsumeFlag(first.next) else first
  }

  /** Every obstacle on the board was spawned within it and is numbered below the next id. */
  predicate ObstaclesWellFormed(obstacles: seq<Obstacle>, nextId: nat) {
    && IdsIncreasing(obstacles)
    && forall k :: 0 <= k < |obstacles| ==>
         && obstacles[k].id < nextId
         && 30.0 <= obstacles[k].width < 130.0
         && 0.0 <= obstacles[k].x && obstacles[k].x + obstacles[k].width <= BoardWidth
         && obstacles[k].height == ObstacleHeight
  }

  /**
   * The player stays on the board, obstacles are well formed, the flags agree with each
   * other, and no collision flag is left pending.
   */
  ghost predicate Inv(d: Dodge) {
    && OnBoard(d.player)
    && ObstaclesWellFormed(d.obstacles, d.nextId)
    && (d.active <==> !d.done)
    && (d.lost ==> d.done)
    && !d.failedFlag
  }

  predicate Done(d: Dodge) {
    d.done
  }

  /** A spawn appends a well-formed obstacle with the next id. */
  lemma SpawnKeepsWellFormed(obstacles: seq<Obstacle>, nextId: nat, r1: Unit, r2: Unit)
    requires ObstaclesWellFormed(obstacles, nextId)
    ensures ObstaclesWellFormed(obstacles + [Spawn(nextId, r1, r2)], nextId + 1)
  {
  }

  /** Falling keeps the obstacles well formed. */
  lemma AdvanceKeepsWellFormed(obstacles: seq<Obstacle>, nextId: nat)
    requires ObstaclesWellFormed(obstacles, nextId)
    ensures ObstaclesWellFormed(Advance(obstacles), nextId)
  {
    AdvanceKeepsOrder(obstacles);
    var r := Advance(obstacles);
    var fallen := FallAll(obstacles);
    forall j | 0 <= j < |r|
      ensures r[j].id < nextId && 30.0 <= r[j].width < 130.0
      ensures 0.0 <= r[j].x && r[j].x + r[j].width <= BoardWidth && r[j].height == ObstacleHeight
    {
      assert r[j] in fallen;
      var k :| 0 <= k < |fallen| && fallen[k] == r[j];
    }
  }

  /** Under the prompt schedule every event keeps the invariant, and the game is one-shot. */
  lemma PromptStepKeepsInv(d: Dodge, e: Event)
    requires Inv(d)
    ensures Inv(PromptStep(d, e).next)
    ensures Done(d) ==> Done(PromptStep(d, e).next) && PromptStep(d, e).outcome.None?
    ensures PromptStep(d, e).outcome.Some? ==> Done(PromptStep(d, e).next)
  {
    match e
    case MouseMove(_, _) =>
    case ObstaclesEffect =>
    case Frame(now, r1, r2) =>
      if Running(d) && now - d.start < GameDuration {
        FrameKeepsInv(d, now, r1, r2);
      }
  }

  /** A frame before the time is up keeps the invariant: the collision flag it may raise is consumed at once. */
  lemma FrameKeepsInv(d: Dodge, now: int, r1: Unit, r2: Unit)
    requires Inv(d) && Running(d) && now - d.start < GameDuration
    ensures Inv(PromptStep(d, Frame(now, r1, r2)).next)
    ensures PromptStep(d, Frame(now, r1, r2)).outcome.Some? ==> Done(PromptStep(d, Frame(now, r1, r2)).next)
  {
    var spawned := MaybeSpawn(d, now, r1, r2);
    if now - d.lastSpawn > SpawnRate {
      SpawnKeepsWellFormed(d.obstacles, d.nextId, r1, r2);
    }
    assert ObstaclesWellFormed(spawned.obstacles, spawned.nextId);
    AdvanceKeepsWellFormed(spawned.obstacles, spawned.nextId);
    var first := FrameStep(d, now, r1, r2);
    assert Step(d, Frame(now, r1, r2)) == first;
    if AnyCollision(d.player, Advance(spawned.obstacles)) {
      assert first.next.failedFlag && first.outcome.None?;
      assert PromptStep(d, Frame(now, r1, r2)) == ConsumeFlag(first.next);
    } else {
      assert !first.next.failedFlag;
      assert PromptStep(d, Frame(now, r1, r2)) == first;
    }
  }

  lemma PromptStepGuarded()
    ensures Guarded(PromptStep, Done, Inv)
  {
    forall d, e | Inv(d)
      ensures Inv(PromptStep(d, e).next)
      ensures Done(d) ==> Done(PromptStep(d, e).next) && PromptStep(d, e).outcome.None?
      ensures PromptStep(d, e).outcome.Some? ==> Done(PromptStep(d, e).next)
    {
      PromptStepKeepsInv(d, e);
    }
  }

  /**
   * Under the prompt schedule, however the mouse moves and whenever the frames come, at
   * most one outcome is reported and the player stays on the board.
   */
  lemma AtMostOneOutcomeOverall(d: Dodge, events: seq<Event>)
    requires Inv(d)
    ensures |Run(PromptStep, d, events).1| <= 1
    ensures OnBoard(Run(PromptStep, d, events).0.player)
  {
    PromptStepGuarded();
    AtMostOneOutcome(PromptStep, Done, Inv, d, events);
  }

  /** A touch ends the game as lost, with a failure report when a failure callback was given. */
  lemma CollisionLoses(d: Dodge, now: int, r1: Unit, r2: Unit)
    requires Running(d) && !d.failedFlag && now - d.start < GameDuration
    requires AnyCollision(d.player, Advance(MaybeSpawn(d, now, r1, r2).obstacles))
    ensures PromptStep(d, Frame(now, r1, r2)).next.lost
    ensures PromptStep(d, Frame(now, r1, r2)).next.obstacles == []
    ensures PromptStep(d, Frame(now, r1, r2)).outcome == (if d.hasOnFailure then Some(Failure) else None)
  {
  }

  /** A frame twenty-five seconds after the mount, with no touch before it, reports success. */
  lemma SurvivalSucceeds(d: Dodge, now: int, r1: Unit, r2: Unit)
    requires Inv(d) && !d.done && now - d.start >= GameDuration
    ensures PromptStep(d, Frame(now, r1, r2)).outcome == Some(Success)
  {
  }

  /**
   * The effect does not check the done guard: if a frame that ends the game by time
   * comes between a touch and the effect, both success and failure are reported.
   */
  lemma LateEffectReportsTwice(d: Dodge, now: int, r1: Unit, r2: Unit)
    requires Running(d) && d.failedFlag && d.hasOnFailure && now - d.start >= GameDuration
    ensures Run(Step, d, [Frame(now, r1, r2), ObstaclesEffect]).1 == [Success, Failure]
  {
    var ended := d.(timeLeft := 0, done := true, active := false);
    assert Step(d, Frame(now, r1, r2)) == Reaction(ended, Some(Success));
    assert Step(ended, ObstaclesEffect).outcome == Some(Failure);
    assert [Frame(now, r1, r2), ObstaclesEffect][1..] == [ObstaclesEffect];
    RunSingle(Step, ended, ObstaclesEffect);
  }
}
