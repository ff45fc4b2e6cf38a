/**
 * The rhythm widget (app/components/minigames/RhythmGame.tsx): twelve notes
 * fall towards a judge line, one per second. Clicking a note scores 20 points
 * within 250 ms of its time, 10 within 400 ms and nothing otherwise; reaching
 * 30 points reports success. When the thirteen seconds of the game run out the
 * game ends, reporting success on 30 points or more and failure otherwise.
 * The clock is a parameter: every event carries the milliseconds elapsed since
 * the game started.
 */
module RhythmGameWidget {
  import opened Common

  /**
   * A note: its id and the elapsed time at which it reaches the judge line. The id
   * `note-k` is written as the number `k`.
   */
  datatype Note = Note(id: int, time: int)

  /** `NOTES_SEQUENCE`: note `k` is due at `1000 * (k + 1)` ms. */
  const Notes: seq<Note> := [
    Note(0, 1000), Note(1, 2000), Note(2, 3000), Note(3, 4000), Note(4, 5000), Note(5, 6000),
    Note(6, 7000), Note(7, 8000), Note(8, 9000), Note(9, 10000), Note(10, 11000), Note(11, 12000)
  ]

  const PerfectRange: int := 250
  const GoodRange: int := 400
  const ScorePerfect: int := 20
  const ScoreGood: int := 10
  const ScoreBad: int := 0
  const TargetScore: int := 30

  /** The latest due time among `notes` (`Math.max` over the times). */
  function MaxTime(notes: seq<Note>): (t: int)
    requires |notes| > 0
    ensures forall k :: 0 <= k < |notes| ==> notes[k].time <= t
    ensures exists k :: 0 <= k < |notes| && notes[k].time == t
  {
    if |notes| == 1 then notes[0].time
    else
      var rest := MaxTime(notes[1..]);
      assert forall k :: 1 <= k < |notes| ==> notes[k] == notes[1..][k - 1];
      if notes[0].time >= rest then notes[0].time else rest
  }

  /** `GAME_DURATION`: thirteen seconds. */
  const GameDuration: int := 13000

  /** Note `k` has id `k` and is due at `1000 * (k + 1)` ms. */
  lemma NoteShape(k: int)
    requires 0 <= k < |Notes|
    ensures Notes[k] == Note(k, 1000 * (k + 1))
  {
    assert Notes == seq(12, j => Note(j, 1000 * (j + 1)));
  }

  /** The game lasts one second past the latest note (`MAX_NOTE_TIME + 1000`). */
  lemma GameDurationFollowsLastNote()
    ensures GameDuration == MaxTime(Notes) + 1000
  {
    var t := MaxTime(Notes);
    NoteShape(11);
    var k :| 0 <= k < |Notes| && Notes[k].time == t;
    NoteShape(k);
  }

  /** The note with id `id` (`Array.prototype.find`), if any. */
  function FindNote(notes: seq<Note>, id: int): (r: Option<Note>)
    ensures r.Some? ==> r.value in notes && r.value.id == id
    ensures r.None? <==> forall k :: 0 <= k < |notes| ==> notes[k].id != id
  {
    if |notes| == 0 then None
    else if notes[0].id == id then Some(notes[0])
    else
      var r := FindNote(notes[1..], id);
      assert forall k :: 1 <= k < |notes| ==> notes[k] == notes[1..][k - 1];
      r
  }

  /** The known ids are exactly the note numbers, and each finds its own note. */
  lemma FindKnownNote(id: int)
    ensures FindNote(Notes, id).Some? <==> 0 <= id < |Notes|
    ensures FindNote(Notes, id).Some? ==> FindNote(Notes, id) == Some(Note(id, 1000 * (id + 1)))
  {
    forall k | 0 <= k < |Notes| ensures Notes[k].id == 0 + k {
      NoteShape(k);
    }
    FindNoteNumbered(Notes, id, 0);
    if 0 <= id < |Notes| {
      NoteShape(id);
    }
  }

  /** In a list numbered consecutively from `base`, the note with id `id` is the one at `id - base`. */
  lemma {:induction false} FindNoteNumbered(notes: seq<Note>, id: int, base: int)
    requires forall k :: 0 <= k < |notes| ==> notes[k].id == base + k
    ensures FindNote(notes, id) == if base <= id < base + |notes| then Some(notes[id - base]) else None
    decreases |notes|
  {
    if |notes| > 0 && notes[0].id != id {
      var rest := notes[1..];
      assert forall k :: 0 <= k < |rest| ==> rest[k] == notes[k + 1];
      FindNoteNumbered(rest, id, base + 1);
    }
  }

  /** `|d|`. */
  function Abs(d: int): (a: nat)
    ensures a == d || a == -d
  {
    if d < 0 then -d else d
  }

  /** The points a click `diff` milliseconds off the note's time earns. */
  function Judge(diff: int): (points: int)
    ensures points == ScorePerfect <==> Abs(diff) <= PerfectRange
    ensures points == ScoreGood <==> PerfectRange < Abs(diff) <= GoodRange
    ensures points == ScoreBad <==> GoodRange < Abs(diff)
  {
    if Abs(diff) <= PerfectRange then ScorePerfect
    else if Abs(diff) <= GoodRange then ScoreGood
    else ScoreBad
  }

  /** A click closer to the note's time never earns fewer points. */
  lemma JudgeMonotone(closer: int, farther: int)
    requires Abs(closer) <= Abs(farther)
    ensures Judge(closer) >= Judge(farther)
  {
  }

  /** The widget state: the notes hit, the score, the seconds shown, and the two guards. */
  datatype Rhythm = Rhythm(
    hitNotes: set<int>,
    score: int,
    timeLeft: int,
    active: bool,
    done: bool,
    hasOnFailure: bool)

  /** A click on note `noteId`, or one frame of the game loop, each at `elapsed` ms. */
  datatype Event = Click(noteId: int, elapsed: int) | Frame(elapsed: int)

  /** The mounted widget: nothing hit, no score, thirteen seconds shown. */
  function Mount(hasOnFailure: bool): (s: Rhythm)
    ensures Inv(s) && s.active && !s.done && s.score == 0 && s.hitNotes == {}
  {
    Rhythm({}, 0, GameDuration / 1000, true, false, hasOnFailure)
  }

  /**
   * `handleNoteClick`: ignored while inactive or done, on a note already hit and
   * on an unknown id. Otherwise the note is judged, marked hit and its points
   * added; reaching the target score ends the game with success.
   */
  function ClickNote(s: Rhythm, noteId: int, elapsed: int): (r: Reaction<Rhythm>)
    ensures !s.active || s.done || noteId in s.hitNotes || !(0 <= noteId < |Notes|) ==> r == Reaction(s, None)
    ensures s.active && !s.done && noteId !in s.hitNotes && 0 <= noteId < |Notes| ==>
      && r.next.hitNotes == s.hitNotes + {noteId}
      && r.next.score == s.score + Judge(elapsed - 1000 * (noteId + 1))
      && r.next.timeLeft == s.timeLeft && r.next.hasOnFailure == s.hasOnFailure
      && (r.outcome.Some? <==> r.next.score >= TargetScore)
      && (r.next.score >= TargetScore ==> r.next.done && !r.next.active && r.outcome == Some(Success))
      && (r.next.score < TargetScore ==> r.next.done == s.done && r.next.active == s.active)
  {
    FindKnownNote(noteId);
    if !s.active || s.done || noteId in s.hitNotes then Reaction(s, None)
    else match FindNote(Notes, noteId)
      case None => Reaction(s, None)
      case Some(note) => HitNote(s, noteId, note, elapsed)
  }

  /** A click on a note not yet hit: its points are added and the note is marked hit. */
  function HitNote(s: Rhythm, noteId: int, note: Note, elapsed: int): (r: Reaction<Rhythm>)
    ensures r.next.hitNotes == s.hitNotes + {noteId}
    ensures r.next.score == s.score + Judge(elapsed - note.time)
    ensures r.next.timeLeft == s.timeLeft && r.next.hasOnFailure == s.hasOnFailure
    ensures r.outcome.Some? <==> r.next.score >= TargetScore
    ensures r.next.score >= TargetScore ==> r.next.done && !r.next.active && r.outcome == Some(Success)
    ensures r.next.score < TargetScore ==> r.next.done == s.done && r.next.active == s.active
  {
    var next := s.(score := s.score + Judge(elapsed - note.time), hitNotes := s.hitNotes + {noteId});
    if next.score >= TargetScore then Reaction(next.(done := true, active := false), Some(Success))
    else Reaction(next, None)
  }

  /**
   * One frame of the game loop (the interval runs only while active and not done):
   * the seconds shown are refreshed, and once no time remains the game ends with
   * success on the target score, otherwise with failure when a failure callback was given.
   */
  function LoopFrame(s: Rhythm, elapsed: int): (r: Reaction<Rhythm>)
    ensures !s.active || s.done ==> r == Reaction(s, None)
    ensures s.active && !s.done && elapsed < GameDuration ==>
      r == Reaction(s.(timeLeft := CeilSeconds(GameDuration - elapsed)), None)
    ensures s.active && !s.done && elapsed >= GameDuration ==>
      && r.next == s.(timeLeft := 0, done := true, active := false)
      && (s.score >= TargetScore ==> r.outcome == Some(Success))
      && (s.score < TargetScore ==> r.outcome == if s.hasOnFailure then Some(Failure) else None)
  {
    if !s.active || s.done then Reaction(s, None)
    else
      var remaining: nat := if GameDuration - elapsed > 0 then GameDuration - elapsed else 0;
      var shown := s.(timeLeft := CeilSeconds(remaining));
      if remaining <= 0 then
        Reaction(shown.(done := true, active := false),
          if s.score >= TargetScore then Some(Success) else if s.hasOnFailure then Some(Failure) else None)
      else Reaction(shown, None)
  }

  function Step(s: Rhythm, e: Event): Reaction<Rhythm> {
    match e
    case Click(id, elapsed) => ClickNote(s, id, elapsed)
    case Frame(elapsed) => LoopFrame(s, elapsed)
  }

  /** The ids of the notes. */
  function NoteIds(): (ids: set<int>)
    ensures forall id :: id in ids <==> FindNote(Notes, id).Some?
  {
    set k | 0 <= k < |Notes| :: Notes[k].id
  }

  /**
   * Only real notes are hit, each scores at most 20 points, the target score
   * has ended the game, and the game is active exactly until it is done.
   */
  ghost predicate Inv(s: Rhythm) {
    && (forall id :: id in s.hitNotes ==> FindNote(Notes, id).Some?)
    && 0 <= s.score <= ScorePerfect * |s.hitNotes|
    && (s.score >= TargetScore ==> s.done)
    && (s.active <==> !s.done)
  }

  predicate Done(s: Rhythm) {
    s.done
  }

  /** Every event keeps the invariant, never lowers the score and never forgets a hit note. */
  lemma StepKeepsInv(s: Rhythm, e: Event)
    requires Inv(s)
    ensures Inv(Step(s, e).next)
    ensures Step(s, e).next.score >= s.score
    ensures s.hitNotes <= Step(s, e).next.hitNotes
    ensures Done(s) ==> Done(Step(s, e).next) && Step(s, e).outcome.None?
    ensures Step(s, e).outcome.Some? ==> Done(Step(s, e).next)
  {
    match e
    case Click(id, elapsed) =>
      if s.active && !s.done && id !in s.hitNotes && FindNote(Notes, id).Some? {
        assert |s.hitNotes + {id}| == |s.hitNotes| + 1;
      }
    case Frame(_) =>
  }

  /** A finished game ignores everything, and an outcome finishes the game. */
  lemma StepGuarded()
    ensures Guarded(Step, Done, Inv)
  {
    forall s, e | Inv(s)
      ensures Inv(Step(s, e).next)
      ensures Done(s) ==> Done(Step(s, e).next) && Step(s, e).outcome.None?
      ensures Step(s, e).outcome.Some? ==> Done(Step(s, e).next)
    {
      StepKeepsInv(s, e);
    }
  }

  /** However the player clicks and whenever the frames come, at most one outcome is reported. */
  lemma AtMostOneOutcomeOverall(s: Rhythm, events: seq<Event>)
    requires Inv(s)
    ensures |Run(Step, s, events).1| <= 1
    ensures Run(Step, s, events).0.score <= ScorePerfect * |Notes|
  {
    StepGuarded();
    AtMostOneOutcome(Step, Done, Inv, s, events);
    var last := Run(Step, s, events).0;
    assert Inv(last);
    assert last.hitNotes <= NoteIds() by {
      forall id | id in last.hitNotes ensures id in NoteIds() {
        assert FindNote(Notes, id).Some?;
      }
    }
    NoteIdsCount();
    assert |last.hitNotes| <= |Notes|;
  }

  /** There are at most twelve note ids. */
  lemma NoteIdsCount()
    ensures forall h :: h <= NoteIds() ==> |h| <= |Notes|
  {
    forall h | h <= NoteIds()
      ensures |h| <= |Notes|
    {
      SubsetSize(h, NoteIds());
      ImageSize(Notes);
    }
  }

  lemma SubsetSize<T>(a: set<T>, b: set<T>)
    requires a <= b
    ensures |a| <= |b|
  {
    assert b == a + (b - a);
  }

  /** The set of ids of `notes` has at most `|notes|` elements. */
  lemma {:induction false} ImageSize(notes: seq<Note>)
    ensures |set k | 0 <= k < |notes| :: notes[k].id| <= |notes|
    decreases |notes|
  {
    if |notes| > 0 {
      var init := notes[..|notes| - 1];
      ImageSize(init);
      var whole := set k | 0 <= k < |notes| :: notes[k].id;
      var part := set k | 0 <= k < |init| :: init[k].id;
      assert whole == part + {notes[|notes| - 1].id} by {
        forall id | id in whole ensures id in part + {notes[|notes| - 1].id} {
          var k :| 0 <= k < |notes| && notes[k].id == id;
          if k < |notes| - 1 { assert init[k].id == id; }
        }
        forall id | id in part ensures id in whole {
          var k :| 0 <= k < |init| && init[k].id == id;
          assert notes[k].id == id;
        }
      }
    }
  }

  /** The game loop can only end in failure: the target score would already have ended the game. */
  lemma LoopEndsOnlyInFailure(s: Rhythm, elapsed: int)
    requires Inv(s)
    ensures LoopFrame(s, elapsed).outcome != Some(Success)
  {
  }

  /** Two perfectly timed clicks reach the target score and report success. */
  lemma TwoPerfectHitsSucceed(hasOnFailure: bool)
    ensures Run(Step, Mount(hasOnFailure), [Click(0, 1000), Click(1, 2100)]).1 == [Success]
  {
    var s0 := Mount(hasOnFailure);
    var s1 := s0.(score := 20, hitNotes := {0});
    assert Step(s0, Click(0, 1000)) == Reaction(s1, None);
    assert FindNote(Notes, 1) == Some(Notes[1]);
    assert Step(s1, Click(1, 2100)).outcome == Some(Success);
    var e := [Click(0, 1000), Click(1, 2100)];
    assert e[1..] == [Click(1, 2100)];
    RunSingle(Step, s1, Click(1, 2100));
  }
}
