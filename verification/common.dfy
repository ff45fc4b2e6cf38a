/**
 * Shared vocabulary of the model: an optional value, the two outcomes a
 * mini-game widget can report, and a generic runner that feeds a sequence
 * of events (clicks, timer firings, key presses) through a widget's
 * transition function and records every outcome it reports.
 */
module Common {

  /** A value that may be absent (JavaScript `undefined` / `null`). */
  datatype Option<+T> = None | Some(value: T) {
    /** The value, or `default` when absent (JavaScript's `??`). */
    function GetOr(default: T): T {
      match this
      case Some(v) => v
      case None => default
    }
  }

  /** The array with positions `i` and `j` exchanged. */
  function Swap<T>(s: seq<T>, i: int, j: int): (r: seq<T>)
    requires 0 <= i < |s| && 0 <= j < |s|
    ensures |r| == |s|
    ensures r[i] == s[j] && r[j] == s[i]
    ensures forall k :: 0 <= k < |s| && k != i && k != j ==> r[k] == s[k]
    ensures multiset(r) == multiset(s)
  {
    s[i := s[j]][j := s[i]]
  }

  /** An output of `Math.random()`: a real in [0, 1). */
  type Unit = r: real | 0.0 <= r < 1.0

  /** `Math.floor(r * n)`: a uniform index into a list of `n` items. */
  function Pick(r: Unit, n: nat): (k: int)
    requires n > 0
    ensures 0 <= k < n
  {
    assert r * (n as real) < n as real;
    (r * (n as real)).Floor
  }

  lemma ProductNonNegative(a: real, b: real)
    requires 0.0 <= a && 0.0 <= b
    ensures 0.0 <= a * b
  {
  }

  /** `r * room`: a draw in [0, 1) scaled to a position between zero and `room`. */
  function Scale(r: Unit, room: real): (x: real)
    requires 0.0 <= room
    ensures 0.0 <= x <= room
  {
    ProductNonNegative(r, room);
    ProductNonNegative(1.0 - r, room);
    assert (1.0 - r) * room == room - r * room;
    r * room
  }

  /** `Math.ceil(ms / 1000)` for a non-negative `ms`: the whole seconds a countdown shows. */
  function CeilSeconds(ms: nat): (secs: nat)
    ensures secs * 1000 >= ms && (secs == 0 || (secs - 1) * 1000 < ms)
  {
    (ms + 999) / 1000
  }

  /** The two callbacks a widget may invoke: `onSuccess` or `onFailure`. */
  datatype Outcome = Success | Failure

  /** The result of one event: the widget's next state and the callback it invoked, if any. */
  datatype Reaction<S> = Reaction(next: S, outcome: Option<Outcome>)

  /** The outcomes of `r` as a trace of length 0 or 1. */
  function Emitted<S>(r: Reaction<S>): (t: seq<Outcome>)
    ensures |t| <= 1
    ensures |t| == 1 <==> r.outcome.Some?
    ensures |t| == 1 ==> t[0] == r.outcome.value
  {
    if r.outcome.Some? then [r.outcome.value] else []
  }

  /** Feeds `events` one by one through `step`, starting in `s`. */
  function Run<S, E>(step: (S, E) -> Reaction<S>, s: S, events: seq<E>): (r: (S, seq<Outcome>))
    ensures |r.1| <= |events|
    ensures events == [] ==> r == (s, [])
    decreases |events|
  {
    if |events| == 0 then (s, [])
    else
      var here := step(s, events[0]);
      var rest := Run(step, here.next, events[1..]);
      (rest.0, Emitted(here) + rest.1)
  }

  /** `k` copies of the event `e`: the same event happening `k` times in a row. */
  function Repeat<E>(e: E, k: nat): (events: seq<E>)
    ensures |events| == k && forall i :: 0 <= i < k ==> events[i] == e
  {
    seq(k, _ => e)
  }

  /** Running a single event is taking one step. */
  lemma RunSingle<S, E>(step: (S, E) -> Reaction<S>, s: S, e: E)
    ensures Run(step, s, [e]) == (step(s, e).next, Emitted(step(s, e)))
  {
    assert [e][1..] == [];
    assert Emitted(step(s, e)) + [] == Emitted(step(s, e));
  }

  /** Running two event lists one after the other is running their concatenation. */
  lemma {:induction false} RunAppend<S, E>(step: (S, E) -> Reaction<S>, s: S, a: seq<E>, b: seq<E>)
    ensures Run(step, s, a + b).0 == Run(step, Run(step, s, a).0, b).0
    ensures Run(step, s, a + b).1 == Run(step, s, a).1 + Run(step, Run(step, s, a).0, b).1
    decreases |a|
  {
    if |a| == 0 {
      assert a + b == b;
    } else {
      assert (a + b)[0] == a[0];
      assert (a + b)[1..] == a[1..] + b;
      RunAppend(step, step(s, a[0]).next, a[1..], b);
    }
  }

  /**
   * The one-shot discipline of a widget guarded by a `doneRef`: the invariant
   * `inv` is preserved, a finished widget stays finished and reports nothing,
   * and reporting an outcome finishes the widget.
   */
  ghost predicate Guarded<S(!new), E(!new)>(step: (S, E) -> Reaction<S>, done: S -> bool, inv: S -> bool) {
    forall s, e {:trigger step(s, e)} :: inv(s) ==>
      && inv(step(s, e).next)
      && (done(s) ==> done(step(s, e).next) && step(s, e).outcome.None?)
      && (step(s, e).outcome.Some? ==> done(step(s, e).next))
  }

  /** A guarded widget reports at most one outcome over any sequence of events. */
  lemma {:induction false} AtMostOneOutcome<S(!new), E(!new)>(
    step: (S, E) -> Reaction<S>, done: S -> bool, inv: S -> bool, s: S, events: seq<E>)
    requires Guarded(step, done, inv)
    requires inv(s)
    ensures |Run(step, s, events).1| <= 1
    ensures inv(Run(step, s, events).0)
    ensures done(s) ==> Run(step, s, events).1 == [] && done(Run(step, s, events).0)
    ensures |Run(step, s, events).1| == 1 ==> done(Run(step, s, events).0)
    decreases |events|
  {
    if |events| > 0 {
      var here := step(s, events[0]);
      AtMostOneOutcome(step, done, inv, here.next, events[1..]);
    }
  }
}
