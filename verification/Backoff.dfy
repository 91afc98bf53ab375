/** The exponential backoff shared by the delivery worker and the outbox sweeper. */
module Backoff {

  function Pow2(n: nat): nat {
    if n == 0 then 1 else 2 * Pow2(n - 1)
  }

  /** min(60, 2 ** max(0, attempt_count - 1)) */
  function BackoffMinutes(attemptCount: int): nat {
    var exponent := if attemptCount - 1 < 0 then 0 else attemptCount - 1;
    if 60 < Pow2(exponent) then 60 else Pow2(exponent)
  }

  /** Minutes waited in all after attempts 1, 2, ..., n have each failed. */
  function TotalBackoff(n: nat): nat {
    if n == 0 then 0 else TotalBackoff(n - 1) + BackoffMinutes(n)
  }

  lemma {:induction false} Pow2AtLeast64(n: nat)
    requires n >= 6
    ensures Pow2(n) >= 64
  {
    if n == 6 {
      assert Pow2(3) == 8;
      assert Pow2(6) == 64;
    } else {
      Pow2AtLeast64(n - 1);
    }
  }

  lemma {:induction false} Pow2Grows(n: nat)
    ensures Pow2(n) >= n + 1
  {
    if n > 0 { Pow2Grows(n - 1); }
  }

  /** The delays double up to 32 minutes and are 60 minutes from the seventh failure on. */
  lemma {:induction false} TotalBackoffClosedForm(n: nat)
    ensures n <= 6 ==> TotalBackoff(n) == Pow2(n) - 1
    ensures n >= 6 ==> TotalBackoff(n) == 63 + 60 * (n - 6)
  {
    if n > 0 {
      TotalBackoffClosedForm(n - 1);
      assert Pow2(3) == 8 && Pow2(5) == 32 && Pow2(6) == 64;
      if n > 6 {
        Pow2AtLeast64(n - 1);
      } else {
        Pow2Small(n - 1);
      }
    }
  }

  lemma {:induction false} Pow2Small(n: nat)
    requires n <= 5
    ensures Pow2(n) <= 32
  {
    assert Pow2(3) == 8;
    assert Pow2(5) == 32;
    if n == 4 { assert Pow2(4) == 16; }
  }

  /** A later attempt never waits less than an earlier one, and the wait stays between 1 and 60 minutes. */
  lemma {:induction false} BackoffMonotone(a: int, b: int)
    requires a <= b
    ensures 1 <= BackoffMinutes(a) <= BackoffMinutes(b) <= 60
  {
    var x := if a - 1 < 0 then 0 else a - 1;
    var y := if b - 1 < 0 then 0 else b - 1;
    Pow2Monotone(x, y);
    Pow2Grows(x);
  }

  lemma {:induction false} Pow2Monotone(x: nat, y: nat)
    requires x <= y
    ensures Pow2(x) <= Pow2(y)
  {
    if x < y { Pow2Monotone(x, y - 1); }
  }
}
