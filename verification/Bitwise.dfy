/** Bitwise and, or and shifts on natural numbers, as the C expressions of the driver use them. */
module Bitwise {

  function Pow2(k: nat): (p: nat)
    ensures p > 0
  {
    if k == 0 then 1 else 2 * Pow2(k - 1)
  }

  function And(x: nat, y: nat): nat {
    if x == 0 || y == 0 then 0 else (x % 2) * (y % 2) + 2 * And(x / 2, y / 2)
  }

  function Or(x: nat, y: nat): nat
    decreases x + y
  {
    if x == 0 then y else if y == 0 then x
    else (if x % 2 == 1 || y % 2 == 1 then 1 else 0) + 2 * Or(x / 2, y / 2)
  }

  function Shl(x: nat, k: nat): nat { x * Pow2(k) }

  function Shr(x: nat, k: nat): nat { Quotient(x, Pow2(k)) }

  function Quotient(x: nat, d: nat): nat
    requires d > 0
  {
    x / d
  }

  /** An `unsigned int` expression whose exact value is `x`. */
  function U32(x: int): nat { x % 0x1_0000_0000 }

  lemma {:induction false} HalfMod(x: nat, m: nat)
    requires m > 0
    ensures x % (2 * m) == x % 2 + 2 * ((x / 2) % m)
  {
    var q, r := (x / 2) / m, (x / 2) % m;
    assert x / 2 == m * q + r;
    assert x == (2 * m) * q + (x % 2 + 2 * r);
    DivModUnique(x, 2 * m, q, x % 2 + 2 * r);
  }

  lemma DivModUnique(x: int, d: int, q: int, r: int)
    requires d > 0 && x == d * q + r && 0 <= r < d
    ensures x / d == q && x % d == r
  {
    var q', r' := x / d, x % d;
    assert d * (q - q') == r' - r;
    assert q - q' >= 1 ==> d * (q - q') >= d;
    assert q - q' <= -1 ==> d * (q - q') <= -d;
  }

  lemma AndStep(x: nat, m: nat)
    requires x > 0 && m > 0
    ensures And(x, 2 * m - 1) == x % 2 + 2 * And(x / 2, m - 1)
  {
    var y := 2 * m - 1;
    assert y % 2 == 1 && y / 2 == m - 1;
  }

  /** Masking with `2^k - 1` is the remainder modulo `2^k`. */
  lemma {:induction false} AndMask(x: nat, k: nat)
    ensures And(x, Pow2(k) - 1) == x % Pow2(k)
  {
    if k > 0 && x > 0 {
      var m := Pow2(k - 1);
      AndMask(x / 2, k - 1);
      HalfMod(x, m);
      AndStep(x, m);
      assert Pow2(k) == 2 * m;
    } else if x == 0 {
      DivModUnique(0, Pow2(k), 0, 0);
    }
  }

  lemma {:induction false} PowDivides(k: nat, m: nat)
    requires k <= m
    ensures Pow2(m) == Pow2(k) * Pow2(m - k)
    decreases m
  {
    if k < m { PowDivides(k, m - 1); }
  }

  lemma ModOfMultiple(x: int, d: int, m: int, w: int)
    requires d > 0 && m > 0 && w == d * m
    ensures (x % w) % d == x % d
  {
    var q, y := x / w, x % w;
    assert x == w * q + y;
    assert w * q == d * (m * q);
    assert y == d * (y / d) + y % d;
    assert x == d * (m * q + y / d) + y % d;
    DivModUnique(x, d, m * q + y / d, y % d);
  }

  /** Wrapping at 32 bits does not change a remainder modulo a smaller power of two. */
  lemma WrapMod(x: int, k: nat)
    requires k <= 32
    ensures U32(x) % Pow2(k) == x % Pow2(k)
  {
    PowDivides(k, 32);
    PowSum();
    ModOfMultiple(x, Pow2(k), Pow2(32 - k), 0x1_0000_0000);
  }

  lemma PowSum()
    ensures Pow2(32) == 0x1_0000_0000
  {
    assert Pow2(8) == 256;
    PowDivides(8, 16);
    assert Pow2(16) == 65536;
    PowDivides(16, 32);
  }
}
