/** Conversions between real numbers and integers. */
module Numbers {

  /** A floating-point number cast to an integer type: truncation toward zero. */
  function Truncate(x: real): (n: int)
    ensures x >= 0.0 ==> 0.0 <= x - n as real < 1.0
    ensures x <= 0.0 ==> -1.0 < x - n as real <= 0.0
  {
    if x >= 0.0 then x.Floor else -((-x).Floor)
  }

  /** Clamped to the unit interval. */
  function Unit(x: real): (r: real)
    ensures 0.0 <= r <= 1.0 && (0.0 <= x <= 1.0 ==> r == x) && (x < 0.0 ==> r == 0.0) && (x > 1.0 ==> r == 1.0)
  {
    if x > 1.0 then 1.0 else if x < 0.0 then 0.0 else x
  }

  lemma TruncateMonotone(x: real, y: real)
    requires x <= y
    ensures Truncate(x) <= Truncate(y)
  {}

  lemma ScaleMono(i: real, p: real, q: real)
    requires 0.0 <= i && 0.0 <= p <= q
    ensures 0.0 <= i * p <= i * q
  {
    assert i * q == i * p + i * (q - p);
  }
}
