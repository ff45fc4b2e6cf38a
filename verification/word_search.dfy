/**
 * The word-search widget (app/components/minigames/WordSearch.tsx): a keyword
 * is hidden left to right, inside one row, in an 8×8 grid of look-alike
 * characters. Clicking the cell where the keyword starts reports success; a
 * fifteen-second countdown reports failure when it runs out.
 */
module WordSearchWidget {
  import opened Common

  /** The keywords one of which is hidden. */
  const Keywords: seq<string> := ["同意", "承諾", "確認", "了解", "合意"]

  /** The filler characters. */
  const DummyChars: seq<char> := [
    '意', '同', '承', '諾', '確', '認', '了', '解', '合', '約',
    '明', '理', '納', '得', '賛', '成', '許', '可', '応', '答'
  ]

  const GridCells: int := 64
  const RowLength: int := 8
  const TimeLimit: int := 15

  /** Every keyword is two characters long. */
  lemma KeywordLengths()
    ensures forall w :: w in Keywords ==> |w| == 2
  {
  }

  /** The starts a word of length `len` may take: below `64 - len` and not running past the end of its row. */
  function CandidateStarts(len: nat): (starts: seq<int>)
    ensures forall i :: i in starts <==> 0 <= i < GridCells - len && i % RowLength + len <= RowLength
    ensures forall a, b :: 0 <= a < b < |starts| ==> starts[a] < starts[b]
  {
    CandidatesFrom(0, len)
  }

  /** The candidate starts at or after `i`, in increasing order. */
  function CandidatesFrom(i: int, len: nat): (starts: seq<int>)
    requires 0 <= i
    ensures forall j :: j in starts ==> j >= i
    ensures forall j :: j in starts <==> i <= j < GridCells - len && j % RowLength + len <= RowLength
    ensures forall a, b :: 0 <= a < b < |starts| ==> starts[a] < starts[b]
    decreases GridCells - i
  {
    if i >= GridCells - len then []
    else
      var rest := CandidatesFrom(i + 1, len);
      if i % RowLength + len <= RowLength then
        assert forall k :: 0 <= k < |rest| ==> rest[k] in rest;
        [i] + rest
      else rest
  }

  /** A start that passes the row test keeps the whole word on the start's row. */
  lemma CandidateStaysInRow(i: int, len: nat)
    requires 0 <= i && 1 <= len && i % RowLength + len <= RowLength
    ensures i / RowLength == (i + len - 1) / RowLength
  {
  }

  /** Sixty-four filler characters, each drawn from the filler set. */
  function Fill(fillDraws: seq<Unit>): (grid: seq<char>)
    ensures |grid| == |fillDraws|
    ensures forall j :: 0 <= j < |fillDraws| ==> grid[j] == DummyChars[Pick(fillDraws[j], |DummyChars|)]
    ensures forall j :: 0 <= j < |fillDraws| ==> grid[j] in DummyChars
  {
    seq(|fillDraws|, j requires 0 <= j < |fillDraws| => DummyChars[Pick(fillDraws[j], |DummyChars|)])
  }

  /** The grid with `word` written from `start` onwards. */
  function Place(grid: seq<char>, word: string, start: int): (placed: seq<char>)
    requires 0 <= start && start + |word| <= |grid|
    ensures |placed| == |grid|
    ensures forall k :: 0 <= k < |word| ==> placed[start + k] == word[k]
    ensures forall j :: 0 <= j < |grid| && !(start <= j < start + |word|) ==> placed[j] == grid[j]
    ensures placed[start .. start + |word|] == word
  {
    grid[..start] + word + grid[start + |word|..]
  }

  /** JavaScript's `Array.prototype.slice(begin, end)`: negative bounds count from the end, and both are clamped. */
  function JsSlice<T>(s: seq<T>, begin: int, end: int): (r: seq<T>)
    ensures 0 <= begin <= end <= |s| ==> r == s[begin..end]
    ensures 0 <= begin <= |s| <= end ==> r == s[begin..]
    ensures |r| <= |s|
  {
    var lo := if begin < 0 then (if |s| + begin < 0 then 0 else |s| + begin) else (if begin > |s| then |s| else begin);
    var hi := if end < 0 then (if |s| + end < 0 then 0 else |s| + end) else (if end > |s| then |s| else end);
    if hi <= lo then [] else s[lo..hi]
  }

  /** The widget state: the puzzle, the countdown and whether the word was found. */
  datatype Search = Search(
    targetWord: string,
    grid: seq<char>,
    answerPos: int,
    timeLeft: int,
    found: bool,
    ticking: bool,
    hasOnFailure: bool)

  /** What the generator produces: a keyword, a full grid of filler and the hidden word on one row. */
  ghost predicate WellFormed(s: Search) {
    && s.targetWord in Keywords
    && |s.grid| == GridCells
    && s.answerPos in CandidateStarts(|s.targetWord|)
    && s.grid[s.answerPos .. s.answerPos + |s.targetWord|] == s.targetWord
  }

  /**
   * `gameData`: the keyword drawn with `wordDraw`, sixty-four filler characters drawn
   * with `fillDraws`, and the start drawn with `startDraw` among the candidate starts.
   */
  function Generate(wordDraw: Unit, fillDraws: seq<Unit>, startDraw: Unit, hasOnFailure: bool): (s: Search)
    requires |fillDraws| == GridCells
    ensures WellFormed(s)
    ensures s.timeLeft == TimeLimit && !s.found && s.ticking && s.hasOnFailure == hasOnFailure
    ensures s.answerPos / RowLength == (s.answerPos + |s.targetWord| - 1) / RowLength
    ensures forall j :: 0 <= j < GridCells && !(s.answerPos <= j < s.answerPos + |s.targetWord|) ==>
      s.grid[j] == DummyChars[Pick(fillDraws[j], |DummyChars|)]
  {
    var word := DrawWord(wordDraw);
    var start := DrawStart(startDraw);
    var fill := Fill(fillDraws);
    Search(word, Place(fill, word, start), start, TimeLimit, false, true, hasOnFailure)
  }

  /** The keyword drawn with `draw`. */
  function DrawWord(draw: Unit): (word: string)
    ensures word in Keywords && |word| == 2
  {
    KeywordLengths();
    Keywords[Pick(draw, |Keywords|)]
  }

  /** The start of a two-character word drawn with `draw` among the candidate starts. */
  function DrawStart(draw: Unit): (start: int)
    ensures start in CandidateStarts(2)
    ensures 0 <= start && start + 2 <= GridCells
    ensures start / RowLength == (start + 1) / RowLength
  {
    var starts := CandidateStarts(2);
    assert 0 in starts;
    var start := starts[Pick(draw, |starts|)];
    assert start in starts;
    CandidateStaysInRow(start, 2);
    start
  }

  /** The events: a click on a cell, or one second of the countdown. */
  datatype Event = Click(index: int) | Tick

  /** `handleCharClick`: ignored once found; success exactly when the slice from `index` spells the keyword. */
  function ClickCell(s: Search, index: int): (r: Reaction<Search>)
    ensures s.found ==> r == Reaction(s, None)
    ensures !s.found ==> (r.outcome == Some(Success) <==> JsSlice(s.grid, index, index + |s.targetWord|) == s.targetWord)
    ensures !s.found && r.outcome.None? ==> r.next == s
    ensures r.outcome.Some? ==> r.outcome == Some(Success) && r.next == s.(found := true)
  {
    if s.found then Reaction(s, None)
    else if JsSlice(s.grid, index, index + |s.targetWord|) == s.targetWord then Reaction(s.(found := true), Some(Success))
    else Reaction(s, None)
  }

  /**
   * One countdown second. The interval runs while the word is not found and has not
   * expired; at one second or less it stops at zero and reports failure when a
   * failure callback was given.
   */
  function TickSecond(s: Search): (r: Reaction<Search>)
    ensures s.found || !s.ticking ==> r == Reaction(s, None)
    ensures !s.found && s.ticking && s.timeLeft > 1 ==> r == Reaction(s.(timeLeft := s.timeLeft - 1), None)
    ensures !s.found && s.ticking && s.timeLeft <= 1 ==>
      r.next == s.(timeLeft := 0, ticking := false) && (r.outcome.Some? <==> s.hasOnFailure)
    ensures r.outcome.Some? ==> r.outcome == Some(Failure)
  {
    if s.found || !s.ticking then Reaction(s, None)
    else if s.timeLeft <= 1 then
      Reaction(s.(timeLeft := 0, ticking := false), if s.hasOnFailure then Some(Failure) else None)
    else Reaction(s.(timeLeft := s.timeLeft - 1), None)
  }

  function Step(s: Search, e: Event): Reaction<Search> {
    match e
    case Click(i) => ClickCell(s, i)
    case Tick => TickSecond(s)
  }

  /** Clicking where the keyword starts always finds it. */
  lemma AnswerPositionSucceeds(s: Search)
    requires WellFormed(s) && !s.found
    ensures Step(s, Click(s.answerPos)) == Reaction(s.(found := true), Some(Success))
  {
    KeywordLengths();
  }

  /** Before the last second the countdown only counts down. */
  lemma {:induction false} CountdownRuns(s: Search, k: nat)
    requires !s.found && s.ticking && k < s.timeLeft
    ensures Run(Step, s, Repeat(Tick, k)) == (s.(timeLeft := s.timeLeft - k), [])
    decreases k
  {
    if k > 0 {
      var next := s.(timeLeft := s.timeLeft - 1);
      assert Step(s, Tick) == Reaction(next, None);
      assert Repeat(Tick, k)[1..] == Repeat(Tick, k - 1);
      CountdownRuns(next, k - 1);
    }
  }

  /** Left alone, a fresh puzzle counts down fifteen seconds and then reports failure once. */
  lemma CountdownExpires(s: Search)
    requires !s.found && s.ticking && s.timeLeft == TimeLimit && s.hasOnFailure
    ensures Run(Step, s, Repeat(Tick, TimeLimit)) == (s.(timeLeft := 0, ticking := false), [Failure])
  {
    CountdownRuns(s, TimeLimit - 1);
    assert Repeat(Tick, TimeLimit) == Repeat(Tick, TimeLimit - 1) + [Tick];
    RunAppend(Step, s, Repeat(Tick, TimeLimit - 1), [Tick]);
    var last := s.(timeLeft := 1);
    assert Run(Step, s, Repeat(Tick, TimeLimit - 1)).0 == last;
    RunSingle(Step, last, Tick);
    assert Step(last, Tick) == Reaction(s.(timeLeft := 0, ticking := false), Some(Failure));
    assert [] + [Failure] == [Failure];
  }

  /**
   * The click handler has no guard against an expired countdown: after the failure
   * has been reported, clicking the answer still reports success.
   */
  lemma SuccessAfterTimeout(s: Search)
    requires WellFormed(s) && !s.found && s.ticking && s.timeLeft == TimeLimit && s.hasOnFailure
    ensures Run(Step, s, Repeat(Tick, TimeLimit) + [Click(s.answerPos)]).1 == [Failure, Success]
  {
    CountdownExpires(s);
    RunAppend(Step, s, Repeat(Tick, TimeLimit), [Click(s.answerPos)]);
    var expired := s.(timeLeft := 0, ticking := false);
    AnswerPositionSucceeds(expired);
    RunSingle(Step, expired, Click(s.answerPos));
  }
}
