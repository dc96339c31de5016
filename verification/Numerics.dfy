/** Swift integer arithmetic that differs from Dafny's. */
module Numerics {

  /** Swift's `abs` on `Int` (the model's integers are unbounded, so `abs(Int.min)` cannot trap). */
  function Abs(x: int): (r: nat)
    ensures r == x || r == -x
  {
    if x < 0 then -x else x
  }

  /**
   * Swift's `/` on `Int`, and `Int(x / k)` on a whole-valued `Double`: the quotient is
   * truncated toward zero, whereas Dafny's `/` rounds toward negative infinity for a
   * negative dividend. The quotient is zero exactly below one divisor and has the dividend's sign.
   */
  function TruncDiv(a: int, k: int): (q: int)
    requires k > 0
    ensures q == 0 <==> Abs(a) < k
    ensures q > 0 ==> a > 0
    ensures q < 0 ==> a < 0
  {
    var n := Abs(a);
    DivBounds(n, k);
    if a < 0 then -(n / k) else n / k
  }

  /** The quotient counts the whole divisors the dividend holds. */
  lemma TruncDivBounds(a: int, k: int)
    requires k > 0
    ensures Abs(TruncDiv(a, k)) * k <= Abs(a) < Abs(TruncDiv(a, k)) * k + k
  {
    DivBounds(Abs(a), k);
  }

  /** Euclidean division of a natural number brackets it between two multiples of `k`. */
  lemma DivBounds(n: nat, k: int)
    requires k > 0
    ensures 0 <= n / k && (n / k) * k <= n < (n / k) * k + k
  {
    var q, r := n / k, n % k;
    assert n == q * k + r && 0 <= r < k;
  }

  /** Sixty-five seconds in the past is minus one minute, not minus two. */
  lemma TruncDivNegative()
    ensures TruncDiv(-65, 60) == -1
    ensures -65 / 60 == -2
  {
  }
}
