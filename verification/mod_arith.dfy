/** Facts about the non-negative remainder, used by the wrap-around counters. */
module ModArith {

  lemma MulAtLeast(d: int, m: nat)
    requires d >= 1
    ensures d * m >= m
    decreases d
  {
    if d > 1 {
      MulAtLeast(d - 1, m);
      assert d * m == (d - 1) * m + m;
    }
  }

  /** The remainder is the unique `r` in `[0, m)` with `x == q * m + r`. */
  lemma ModOf(x: nat, q: int, m: nat, r: int)
    requires 0 <= r < m && x == q * m + r
    ensures x % m == r
  {
    var q', r' := x / m, x % m;
    assert x == q' * m + r';
    var d := q - q';
    assert d * m == q * m - q' * m;
    assert d * m == r' - r;
    if d >= 1 {
      MulAtLeast(d, m);
    } else if d <= -1 {
      MulAtLeast(-d, m);
    }
  }

  /** Counting on by one after a wrap is the same as wrapping after counting on. */
  lemma ModSucc(x: nat, m: nat)
    requires m > 0
    ensures (x % m + 1) % m == (x + 1) % m
  {
    var q, r := x / m, x % m;
    assert x == q * m + r;
    if r + 1 < m {
      ModOf(x + 1, q, m, r + 1);
      ModOf(r + 1, 0, m, r + 1);
    } else {
      assert x + 1 == (q + 1) * m + 0;
      ModOf(x + 1, q + 1, m, 0);
      ModOf(r + 1, 1, m, 0);
    }
  }

  /** Wrapping before adding does not change the wrapped sum. */
  lemma ModAdd(x: nat, n: nat, m: nat)
    requires m > 0
    ensures (x % m + n) % m == (x + n) % m
  {
    var q, r := x / m, x % m;
    assert x == q * m + r;
    var q2, r2 := (r + n) / m, (r + n) % m;
    assert r + n == q2 * m + r2;
    assert x + n == (q + q2) * m + r2;
    ModOf(x + n, q + q2, m, r2);
  }

  lemma ModBelow(x: nat, m: nat)
    requires 0 < m && x <= m
    ensures x % m == if x == m then 0 else x
  {
  }
}
