/**
 * app/components/LifeDisplay.tsx: the row of hearts, one per maximum life,
 * filled for each life still held.
 */
module LifeDisplay {

  /** `Array.from({ length: max }, (_, i) => i < current)`; a negative length counts as zero. */
  function Hearts(current: int, max: int): (h: seq<bool>)
    ensures |h| == if max < 0 then 0 else max
    ensures forall i :: 0 <= i < |h| ==> (h[i] <==> i < current)
  {
    var n := if max < 0 then 0 else max;
    seq(n, i => i < current)
  }

  /** Number of filled hearts. */
  function Filled(h: seq<bool>): nat {
    if |h| == 0 then 0 else (if h[|h| - 1] then 1 else 0) + Filled(h[..|h| - 1])
  }

  /** Filled hearts form a prefix: no filled heart follows an empty one. */
  lemma FilledHeartsArePrefix(current: int, max: int)
    ensures forall i, j :: 0 <= i < j < |Hearts(current, max)| && Hearts(current, max)[j] ==> Hearts(current, max)[i]
  {
  }

  /** The filled count is `current` clamped to `[0, max]`. */
  lemma {:induction false} FilledCountIsClampedLives(current: int, max: int)
    requires max >= 0
    ensures Filled(Hearts(current, max)) == if current < 0 then 0 else if current > max then max else current
    decreases max
  {
    if max > 0 {
      var h := Hearts(current, max);
      assert h[..max - 1] == Hearts(current, max - 1);
      FilledCountIsClampedLives(current, max - 1);
    }
  }
}
