/** `getDigit`: the tens and units digit of a counter, computed with C's
    integer `%` and `/`, which truncate toward zero. */
module DigitSplit {

  /** C's `a % b` for b > 0: the remainder takes the sign of `a`. */
  function CRem(a: int, b: int): int
    requires b > 0
  {
    if a >= 0 then a % b else -((-a) % b)
  }

  /** C's `a / b` for b > 0: the quotient is truncated toward zero. */
  function CDiv(a: int, b: int): int
    requires b > 0
  {
    if a >= 0 then a / b else -((-a) / b)
  }

  /** `getDigit(number, position)`: position 1 is `number % 10`, position 0
      is `(number - number % 10) / 10`; any other position would index past
      the two-element local array. */
  function GetDigit(number: int, position: int): int
    requires 0 <= position < 2
  {
    var units := CRem(number, 10);
    var tens := CDiv(number - units, 10);
    if position == 1 then units else tens
  }

  /** For every number, negative ones included, the two digits put the number back together. */
  lemma GetDigitRecombines(number: int)
    ensures GetDigit(number, 0) * 10 + GetDigit(number, 1) == number
    ensures -10 < GetDigit(number, 1) < 10
  {
  }

  /** On a non-negative number the digits are Euclidean quotient and
      remainder; below 100 both are decimal digits (34 gives 3 and 4). */
  lemma GetDigitOfNat(number: int)
    requires number >= 0
    ensures GetDigit(number, 0) == number / 10
    ensures GetDigit(number, 1) == number % 10
    ensures number < 100 ==> 0 <= GetDigit(number, 0) <= 9 && 0 <= GetDigit(number, 1) <= 9
  {
  }

  /** The example of the firmware's comment. */
  lemma GetDigitExample()
    ensures GetDigit(34, 0) == 3 && GetDigit(34, 1) == 4
  {
  }
}
