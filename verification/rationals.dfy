/** Exact rational arithmetic. The repository's bigint fraction class is
    modelled by Dafny's `real`, which is exact; only the operations that
    the step normaliser uses beyond the field operations live here. */
module Rationals {

  /** `Rational.ceil()` as an integer: the least integer not below `x`. */
  function CeilInt(x: real): (n: int)
    ensures x <= n as real < x + 1.0
  {
    var f := (-x).Floor;
    assert f as real <= -x < f as real + 1.0;
    -f
  }

  /** `Rational.ceil()`: the least whole value not below `x`. */
  function Ceil(x: real): (r: real)
    ensures r.Floor as real == r
    ensures x <= r < x + 1.0
  {
    CeilInt(x) as real
  }

  /** `Rational.reciprocal()`. */
  function Reciprocal(x: real): (r: real)
    requires x != 0.0
    ensures r * x == 1.0
  {
    1.0 / x
  }

  /** The ceiling of a whole value is that value. */
  lemma CeilOfWhole(n: int)
    ensures Ceil(n as real) == n as real
  {
    var d := CeilInt(n as real) - n;
    assert d as real == CeilInt(n as real) as real - n as real;
    assert 0 <= d < 1;
  }

  /** The ceiling is monotone. */
  lemma CeilMonotone(x: real, y: real)
    requires x <= y
    ensures Ceil(x) <= Ceil(y)
  {
    var d := CeilInt(x) - CeilInt(y);
    assert d as real == CeilInt(x) as real - CeilInt(y) as real;
    assert d as real < 1.0;
  }
}
