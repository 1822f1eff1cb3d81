/** Java's integer arithmetic where it differs from Dafny's: `/` on int rounds toward
    zero, and the `(int)` cast of a double drops the fraction toward zero. */
module JavaNum {

  /** Java's `a / b` on int for a positive divisor (the camera only divides by the
      tile size): the quotient is rounded toward zero, so the remainder takes the sign
      of `a`. */
  function Quot(a: int, b: int): (q: int)
    requires b > 0
    ensures a >= 0 ==> 0 <= a - q * b < b
    ensures a < 0 ==> -b < a - q * b <= 0
  {
    if a >= 0 then a / b
    else
      var m := (-a) / b;
      assert -a == m * b + (-a) % b;
      assert (-m) * b == -(m * b);
      -m
  }

  /** Java's `(int) x` on a double in int range: the fraction is dropped toward zero. */
  function Trunc(x: real): (r: int)
    ensures x >= 0.0 ==> r as real <= x < r as real + 1.0
    ensures x < 0.0 ==> r as real - 1.0 < x <= r as real
  {
    if x >= 0.0 then x.Floor else -((-x).Floor)
  }
}
