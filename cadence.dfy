/** The arithmetic of a training session's schedule: how many signals make one
    arrow cycle, how many arrows have been shown once a given number of signals
    has been emitted, and at which signal the session completes.

    Intervals are positive integer milliseconds. Signals are numbered from 1:
    signal 1 is the one emitted immediately at start, signal n + 1 the n-th
    periodic tick. An arrow is shown on periodic signal c exactly when
    `c % k == 0` for the session's signals-per-arrow k; when k is 0 the
    JavaScript remainder is NaN, the comparison is false and no arrow is ever
    shown. */
module Cadence {

  /** `Math.round(a / b)` for positive a and b: the nearest integer to a / b,
      halves rounded up. */
  function Round(a: int, b: int): (r: nat)
    requires a > 0 && b > 0
    ensures 2 * r * b <= 2 * a + b < 2 * (r + 1) * b
  {
    var r := (2 * a + b) / (2 * b);
    DivBounds(2 * a + b, 2 * b);
    r
  }

  /** The signals-per-arrow count is 0 exactly when the arrow interval is less
      than half the signal interval. */
  lemma RoundIsZeroIff(a: int, b: int)
    requires a > 0 && b > 0
    ensures Round(a, b) == 0 <==> 2 * a < b
  {
  }

  /** Number of arrows shown by the time the signal count has reached c, with k
      signals per arrow. The immediate first signal (c == 1) never shows one. */
  function ArrowsFired(c: int, k: int): (n: nat)
    ensures n <= (if c <= 1 then 0 else c - 1)
    ensures k <= 0 ==> n == 0
    decreases c
  {
    if c <= 1 then 0
    else ArrowsFired(c - 1, k) + (if k > 0 && c % k == 0 then 1 else 0)
  }

  /** Arrows fall on the multiples of k; with k == 1 every periodic signal
      shows one, but the immediate first signal still does not. */
  lemma {:induction false} ArrowsFiredClosedForm(c: int, k: int)
    requires c >= 1 && k >= 1
    ensures ArrowsFired(c, k) == if k == 1 then c - 1 else c / k
  {
    if c == 1 {
      if k > 1 {
        DivUnique(1, k, 0, 1);
      }
    } else {
      ArrowsFiredClosedForm(c - 1, k);
      if k > 1 {
        DivStep(c - 1, k);
      }
    }
  }

  /** Signal number at which a session with k signals per arrow shows its
      reps-th arrow and completes. It is never the immediate first signal. */
  function CompletionCount(k: int, reps: int): (c: int)
    requires k >= 1 && reps >= 1
    ensures c >= 2
  {
    if k == 1 then reps + 1
    else MulMonotone(reps, 1, k); k * reps
  }

  /** The target number of arrows has been reached exactly from signal
      CompletionCount(k, reps) on. */
  lemma CompletesAt(k: int, reps: int, c: int)
    requires k >= 1 && reps >= 1 && c >= 1
    ensures ArrowsFired(c, k) >= reps <==> c >= CompletionCount(k, reps)
  {
    ArrowsFiredClosedForm(c, k);
    if k > 1 {
      DivThreshold(c, k, reps);
    }
  }

  /** Before that signal the target has not been reached; at it, it has. */
  lemma ArrowsBeforeCompletion(k: int, reps: int, c: int)
    requires k >= 1 && reps >= 1 && 1 <= c <= CompletionCount(k, reps)
    ensures c < CompletionCount(k, reps) ==> ArrowsFired(c, k) < reps
    ensures c == CompletionCount(k, reps) ==> ArrowsFired(c, k) == reps
  {
    CompletesAt(k, reps, c);
    if c == CompletionCount(k, reps) {
      CompletesAt(k, reps, c - 1);
    }
  }

  // ---- arithmetic helpers ----

  lemma DivBounds(x: int, y: int)
    requires y > 0
    ensures x == (x / y) * y + x % y && 0 <= x % y < y
  {
  }

  lemma MulMonotone(a: int, b: int, y: int)
    requires a >= b && y > 0
    ensures a * y >= b * y
  {
  }

  lemma DivUnique(x: int, y: int, q: int, m: int)
    requires y > 0 && 0 <= m < y && x == q * y + m
    ensures x / y == q && x % y == m
  {
    DivBounds(x, y);
    var q', m' := x / y, x % y;
    if q' > q {
      MulMonotone(q', q + 1, y);
    } else if q' < q {
      MulMonotone(q, q' + 1, y);
    }
  }

  lemma DivThreshold(c: int, k: int, reps: int)
    requires k > 0
    ensures c / k >= reps <==> c >= k * reps
  {
    var q := c / k;
    DivBounds(c, k);
    if q >= reps {
      MulMonotone(q, reps, k);
      assert c >= q * k;
    } else {
      MulMonotone(reps, q + 1, k);
      assert c < (q + 1) * k;
    }
  }

  lemma DivStep(c: int, k: int)
    requires c >= 0 && k > 0
    ensures (c + 1) / k == c / k + (if (c + 1) % k == 0 then 1 else 0)
  {
    var q, m := c / k, c % k;
    DivBounds(c, k);
    if m == k - 1 {
      DivUnique(c + 1, k, q + 1, 0);
    } else {
      DivUnique(c + 1, k, q, m + 1);
    }
  }
}
