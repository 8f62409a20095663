/** Rounding an exact quotient to the nearest integer, ties to even.

    `%.1f` formats the binary value it is given exactly and rounds half to even.
    `size / 1024` and `size / 1048576` are exact binary values (for sizes below
    2^53), so the tenths it prints are `size * 10 / 1024` (or `/ 1048576`)
    rounded half to even. */
module Rounding {

  /** `q` is an integer nearest to `num / den`; on a tie (`num / den` exactly
      halfway between two integers) `q` is the even one. */
  ghost predicate IsNearestTiesEven(num: int, den: int, q: int) {
    var err := num - q * den;
    && -den <= 2 * err <= den
    && (2 * err == den || 2 * err == -den ==> q % 2 == 0)
  }

  function RoundHalfEven(num: nat, den: nat): (q: nat)
    requires 0 < den
    ensures IsNearestTiesEven(num, den, q)
  {
    var whole, rest := num / den, num % den;
    assert num - whole * den == rest;
    assert num - (whole + 1) * den == rest - den;
    if 2 * rest < den then whole
    else if 2 * rest > den then whole + 1
    else if whole % 2 == 0 then whole
    else whole + 1
  }

  /** At most one integer is the nearest one with ties to even. */
  lemma NearestTiesEvenUnique(num: int, den: int, p: int, q: int)
    requires 0 < den
    requires IsNearestTiesEven(num, den, p) && IsNearestTiesEven(num, den, q)
    ensures p == q
  {
    var ep, eq := num - p * den, num - q * den;
    assert (p - q) * den == eq - ep;
    AtMostOne(p - q, den);
    AtMostOne(q - p, den);
  }

  /** A multiple of `den` no larger than `den` has a factor of at most one. */
  lemma AtMostOne(k: int, den: int)
    requires 0 < den && k * den <= den
    ensures k <= 1
  {
  }
}
