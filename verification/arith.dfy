/** Facts about Euclidean division that the grid arithmetic needs. Dafny's
    `/` and `%` agree with Python's floor division and modulo whenever the
    divisor is positive, which is the only case the model divides by. */
module Arith {

  lemma {:induction false} MulAtLeast(d: int, step: int)
    requires d >= 1 && step > 0
    ensures d * step >= step
    decreases d
  {
    if d > 1 {
      MulAtLeast(d - 1, step);
      assert d * step == (d - 1) * step + step;
    }
  }

  /** Quotient and remainder are the unique pair with `a == q * step + r`
      and `0 <= r < step`. */
  lemma DivModUnique(a: int, step: int, q: int, r: int)
    requires step > 0 && 0 <= r < step && a == q * step + r
    ensures a / step == q && a % step == r
  {
    var d := q - a / step;
    assert a == (a / step) * step + a % step;
    assert d * step == a % step - r by {
      assert q * step == (a / step) * step + d * step;
    }
    if d >= 1 {
      MulAtLeast(d, step);
    } else if d <= -1 {
      MulAtLeast(-d, step);
    }
  }

  lemma MultipleMod(q: int, step: int)
    requires step > 0
    ensures (q * step) % step == 0 && (q * step) / step == q
  {
    DivModUnique(q * step, step, q, 0);
  }

  /** Adding whole steps does not change the remainder. */
  lemma ModShift(a: int, k: int, step: int)
    requires step > 0
    ensures (a + k * step) % step == a % step
    ensures (a + k * step) / step == a / step + k
  {
    assert a == (a / step) * step + a % step;
    assert a + k * step == (a / step + k) * step + a % step;
    DivModUnique(a + k * step, step, a / step + k, a % step);
  }

  /** Two distinct multiples of `step` are at least one step apart. */
  lemma GridGap(x: int, y: int, step: int)
    requires step > 0 && x % step == 0 && y % step == 0 && x < y
    ensures x + step <= y
  {
    var qx, qy := x / step, y / step;
    assert x == qx * step && y == qy * step;
    assert y - x == (qy - qx) * step;
    MulPositive(qy - qx, step);
    MulAtLeast(qy - qx, step);
  }

  lemma MulPositive(d: int, step: int)
    requires step > 0 && d * step > 0
    ensures d >= 1
  {
  }
}
