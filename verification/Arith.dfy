/** Quotients, remainders and multiples. */
module Arith {

  /** One more than the largest `usize`. */
  const WORD: nat := 0x1_0000_0000_0000_0000

  lemma MulSign(d: int, s: nat)
    ensures d >= 1 ==> d * s >= s
    ensures d <= -1 ==> d * s <= 0 - s
    ensures d <= 0 ==> d * s <= 0
  {
    if d >= 1 {
      assert (d - 1) * s >= 0;
    } else if d <= -1 {
      assert (0 - d - 1) * s >= 0;
    }
  }

  lemma Distribute(a: int, b: int, s: int)
    ensures (a + b) * s == a * s + b * s
    ensures (a - b) * s == a * s - b * s
  {
  }

  /** Quotient and remainder are unique. */
  lemma DivUnique(x: int, s: nat, k: int, m: int)
    requires s > 0 && 0 <= m < s && x == k * s + m
    ensures x / s == k && x % s == m
  {
    assert x == (x / s) * s + x % s;
    Distribute(x / s, k, s);
    MulSign(x / s - k, s);
  }

  lemma ModOfMultiple(q: int, p: nat)
    requires p > 0
    ensures (q * p) % p == 0
  {
    DivUnique(q * p, p, q, 0);
  }

  lemma Trivial(s: nat)
    requires s > 0
    ensures 0 % s == 0 && s % s == 0
  {
    DivUnique(0, s, 0, 0);
    DivUnique(s, s, 1, 0);
  }

  /** Rounding down to a multiple. */
  lemma Floor(x: int, s: nat)
    requires s > 0
    ensures (x - x % s) % s == 0 && 0 <= x % s < s
    ensures x - x % s == (x / s) * s
    ensures x >= 0 ==> x - x % s >= 0
  {
    DivUnique(x - x % s, s, x / s, 0);
    MulSign(x / s, s);
  }

  /** Adding a multiple does not change a remainder. */
  lemma ModAdd(x: int, y: int, s: nat)
    requires s > 0 && y % s == 0
    ensures (x + y) % s == x % s
  {
    var q, m := x / s, y / s;
    assert x == q * s + x % s && y == m * s;
    assert x + y == (q + m) * s + x % s by {
      assert (q + m) * s == q * s + m * s;
    }
    DivUnique(x + y, s, q + m, x % s);
  }

  /** Truncating first to a multiple of the modulus changes nothing. */
  lemma ModMod(x: int, s: nat, k: nat)
    requires s > 0 && k > 0
    ensures (x % (s * k)) % s == x % s
  {
    var y := x % (s * k);
    var q := x / (s * k);
    assert x == q * (s * k) + y;
    assert q * (s * k) == (q * k) * s;
    ModOfMultiple(q * k, s);
    ModAdd(y, q * k * s, s);
  }

  lemma DiffMultiple(x: int, y: int, s: nat)
    requires s > 0 && x % s == 0 && y % s == 0
    ensures (x - y) % s == 0
  {
    NegMultiple(y, s);
    ModAdd(x, 0 - y, s);
  }

  lemma NegMultiple(y: int, s: nat)
    requires s > 0 && y % s == 0
    ensures (0 - y) % s == 0
  {
    var q := y / s;
    assert y == q * s;
    assert 0 - y == (0 - q) * s;
    ModOfMultiple(0 - q, s);
  }

  /** A multiple of `s` below a multiple of `s` leaves room for one more `s`. */
  lemma RoundUp(x: nat, y: nat, s: nat)
    requires s > 0 && x % s == 0 && y % s == 0 && x < y
    ensures x + s <= y
  {
    var a, b := x / s, y / s;
    assert x == a * s && y == b * s;
    Distribute(b, a, s);
    MulSign(b - a, s);
  }

  lemma MultipleOfMultiple(x: int, s: nat, k: nat)
    requires k > 0 && s > 0 && s % k == 0 && x % s == 0
    ensures x % k == 0
  {
    var q, n := x / s, s / k;
    assert x == q * s && s == n * k;
    assert x == (q * n) * k;
    ModOfMultiple(q * n, k);
  }
}
