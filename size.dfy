/**
 * `round(file_size/1024/1024, 1)`: the quotient is an exact binary
 * fraction, and Python rounds its exact value to one decimal with ties
 * to even. In tenths of a megabyte that is the integer nearest to
 * `file_size * 10 / 2^20`, ties to the even neighbour.
 */
module Size {

  const Mebibyte: int := 1048576

  function Abs(x: int): nat { if x < 0 then -x else x }

  /** The integer nearest to num / den, the even one on a tie. */
  function RoundHalfEven(num: int, den: int): (q: int)
    requires den > 0
    ensures 2 * Abs(num - q * den) <= den
    ensures 2 * Abs(num - q * den) == den ==> q % 2 == 0
  {
    var f, r := num / den, num % den;
    assert num - f * den == r;
    assert num - (f + 1) * den == r - den;
    if 2 * r < den then f
    else if 2 * r > den then f + 1
    else if f % 2 == 0 then f
    else f + 1
  }

  /** Multiplying by a positive denominator keeps a gap of at least one
      step apart. */
  lemma StepGap(d: int, den: int)
    requires den > 0 && d >= 1
    ensures d * den >= den
    ensures d >= 2 ==> d * den >= 2 * den
  {
    assert d * den == (d - 1) * den + den;
    if d >= 2 { assert d * den == (d - 2) * den + 2 * den; }
  }

  /** The two properties of RoundHalfEven determine its result. */
  lemma RoundHalfEvenUnique(num: int, den: int, q: int)
    requires den > 0
    requires 2 * Abs(num - q * den) <= den
    requires 2 * Abs(num - q * den) == den ==> q % 2 == 0
    ensures q == RoundHalfEven(num, den)
  {
    var p := RoundHalfEven(num, den);
    var a, b := num - q * den, num - p * den;
    if p > q {
      assert a - b == (p - q) * den;
      StepGap(p - q, den);
    } else if q > p {
      assert b - a == (q - p) * den;
      StepGap(q - p, den);
    }
  }

  /** The `size` field of a record, in tenths of a megabyte. */
  function SizeTenths(fileSize: int): (t: int)
    ensures 2 * Abs(fileSize * 10 - t * Mebibyte) <= Mebibyte
    ensures 2 * Abs(fileSize * 10 - t * Mebibyte) == Mebibyte ==> t % 2 == 0
  {
    RoundHalfEven(fileSize * 10, Mebibyte)
  }

  /** Boundary values: 1.0 MB, 1.5 MB, a tie at 0.25 MB that rounds down
      to the even 0.2 MB, and 1610612 bytes, just under 1.55 MB. */
  lemma SizeExamples()
    ensures SizeTenths(1048576) == 10
    ensures SizeTenths(1572864) == 15
    ensures SizeTenths(262144) == 2
    ensures SizeTenths(786432) == 8
    ensures SizeTenths(1610612) == 15
    ensures SizeTenths(2097152) == 20
  {
  }

  /** A larger file never gets a smaller rounded size. */
  lemma SizeTenthsMonotone(a: int, b: int)
    requires a <= b
    ensures SizeTenths(a) <= SizeTenths(b)
  {
  }
}
