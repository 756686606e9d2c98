/** Modular arithmetic with a variable modulus, and bit masks. */
module Arith {

  /** Quotient and remainder are unique. */
  lemma DivModUnique(x: int, c: int, q: int, r: int)
    requires c > 0 && 0 <= r < c && x == q * c + r
    ensures x / c == q && x % c == r
  {
    var q' := x / c;
    var r' := x % c;
    assert x == q' * c + r';
    if q < q' {
      MulLe(q + 1, q', c);
      assert false;
    } else if q' < q {
      MulLe(q' + 1, q, c);
      assert false;
    }
  }

  lemma MulLe(a: int, b: int, c: int)
    requires a <= b && c >= 0
    ensures a * c <= b * c
  {
  }

  lemma ModSmall(x: int, c: int)
    requires 0 <= x < c
    ensures x % c == x
  {
    DivModUnique(x, c, 0, x);
  }

  /** Stepping by one either adds one to the remainder or wraps it to zero. */
  lemma ModSucc(x: int, c: int)
    requires c > 0
    ensures (x + 1) % c == if x % c + 1 == c then 0 else x % c + 1
  {
    var q, r := x / c, x % c;
    if r + 1 == c {
      assert x + 1 == (q + 1) * c + 0;
      DivModUnique(x + 1, c, q + 1, 0);
    } else {
      DivModUnique(x + 1, c, q, r + 1);
    }
  }

  lemma ModPeriod(x: int, k: int, c: int)
    requires c > 0
    ensures (x + k * c) % c == x % c
  {
    var q, r := x / c, x % c;
    assert x + k * c == (q + k) * c + r;
    DivModUnique(x + k * c, c, q + k, r);
  }

  /** Remainders may be reduced before they are subtracted. */
  lemma ModSub(x: int, y: int, c: int)
    requires c > 0
    ensures (x % c - y) % c == (x - y) % c
    ensures (x - y % c) % c == (x - y) % c
  {
    assert x == (x / c) * c + x % c;
    ModPeriod(x % c - y, x / c, c);
    assert y == (y / c) * c + y % c;
    ModPeriod(x - y, y / c, c);
    assert x - y + (y / c) * c == x - y % c;
  }

  lemma ModAddK(x: int, y: int, c: int)
    requires c > 0
    ensures (x % c + y) % c == (x + y) % c
  {
    ModSub(x, -y, c);
  }

  lemma ModBack(i: int, a: int, c: int)
    requires c > 0
    ensures (i - (i - a) % c) % c == a % c
  {
    var q := (i - a) / c;
    assert i - (i - a) % c == a + q * c;
    ModPeriod(a, q, c);
  }

  /** Reducing by a multiple of the modulus first changes nothing. */
  lemma ModMod(x: int, c: int, d: int)
    requires c > 0 && d > 0
    ensures 0 < c * d && (x % (c * d)) % c == x % c
  {
    MulLe(1, c, d);
    var m := c * d;
    assert x == (x / m) * m + x % m;
    var k := d * (x / m);
    assert (x / m) * m == k * c;
    ModPeriod(x % m, k, c);
  }

  function Pow2(n: nat): (p: nat)
    ensures p > 0
  {
    if n == 0 then 1 else 2 * Pow2(n - 1)
  }

  lemma {:induction false} Pow2Add(a: nat, b: nat)
    ensures Pow2(a + b) == Pow2(a) * Pow2(b)
  {
    if a > 0 {
      Pow2Add(a - 1, b);
      assert Pow2(a + b) == 2 * Pow2(a - 1 + b);
    }
  }

  /** Bitwise `&` on machine words, bit by bit. */
  function BitAnd(x: nat, y: nat): (r: nat)
    decreases x
  {
    if x == 0 || y == 0 then 0 else 2 * BitAnd(x / 2, y / 2) + (x % 2) * (y % 2)
  }

  /** Masking with 2^k - 1 is the remainder modulo 2^k. */
  lemma {:induction false} MaskIsMod(x: nat, k: nat)
    ensures BitAnd(x, Pow2(k) - 1) == x % Pow2(k)
  {
    if k == 0 {
    } else if x == 0 {
      ModSmall(0, Pow2(k));
    } else {
      MaskIsMod(x / 2, k - 1);
      MaskStep(x, Pow2(k - 1));
      HalfMod(x, Pow2(k - 1));
    }
  }

  lemma MaskStep(x: nat, h: nat)
    requires x > 0 && h > 0
    ensures BitAnd(x, 2 * h - 1) == 2 * BitAnd(x / 2, h - 1) + x % 2
  {
    assert (2 * h - 1) / 2 == h - 1 && (2 * h - 1) % 2 == 1;
  }

  lemma HalfMod(x: nat, h: nat)
    requires h > 0
    ensures x % (2 * h) == 2 * ((x / 2) % h) + x % 2
  {
    var q, r := (x / 2) / h, (x / 2) % h;
    assert x / 2 == q * h + r;
    assert x == q * (2 * h) + (2 * r + x % 2);
    DivModUnique(x, 2 * h, q, 2 * r + x % 2);
  }
}
