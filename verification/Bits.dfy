/** Bit operations on unsigned integers, and what they mean for numbers. */
module Bits {

  type Byte = x: int | 0 <= x < 256

  function Pow2(k: nat): (p: nat)
    ensures p > 0
  {
    if k == 0 then 1 else 2 * Pow2(k - 1)
  }

  function Shl(a: nat, k: nat): nat {
    a * Pow2(k)
  }

  function Div(a: nat, p: nat): nat
    requires p > 0
  {
    a / p
  }

  function Mod(a: nat, p: nat): nat
    requires p > 0
  {
    a % p
  }

  function Shr(a: nat, k: nat): nat {
    Div(a, Pow2(k))
  }

  /** The lowest `k` bits. */
  function Low(a: nat, k: nat): nat {
    Mod(a, Pow2(k))
  }

  function BitOr(a: nat, b: nat): nat
    decreases a + b
  {
    if a == 0 && b == 0 then 0
    else (if a % 2 == 1 || b % 2 == 1 then 1 else 0) + 2 * BitOr(a / 2, b / 2)
  }

  function BitAnd(a: nat, b: nat): nat {
    if a == 0 then 0
    else (if a % 2 == 1 && b % 2 == 1 then 1 else 0) + 2 * BitAnd(a / 2, b / 2)
  }

  lemma {:induction false} Pow2Adds(a: nat, b: nat)
    ensures Pow2(a + b) == Pow2(a) * Pow2(b)
  {
    if a > 0 {
      Pow2Adds(a - 1, b);
    }
  }

  lemma {:induction false} OrZero(b: nat)
    ensures BitOr(0, b) == b
  {
    if b > 0 {
      OrZero(b / 2);
    }
  }

  lemma HalfOfProduct(b: nat, p: nat)
    ensures (b * (2 * p)) / 2 == b * p && (b * (2 * p)) % 2 == 0
  {
    assert b * (2 * p) == 2 * (b * p);
  }

  /** Bits put above those of `a` are added to it. */
  lemma {:induction false} OrAbove(a: nat, b: nat, k: nat)
    requires a < Pow2(k)
    ensures BitOr(a, Shl(b, k)) == a + Shl(b, k)
  {
    if k == 0 {
      OrZero(b);
    } else {
      HalfOfProduct(b, Pow2(k - 1));
      OrAbove(a / 2, b, k - 1);
    }
  }

  lemma ModOfHalf(a: nat, p: nat)
    requires p > 0
    ensures Mod(a, 2 * p) == 2 * Mod(a / 2, p) + a % 2
  {
    var h := a / 2;
    assert h == p * (h / p) + h % p;
    assert a == (2 * p) * (h / p) + (2 * (h % p) + a % 2) by {
      assert 2 * (p * (h / p)) == (2 * p) * (h / p);
    }
    ModIsUnique(a, 2 * p, h / p, 2 * (h % p) + a % 2);
  }

  lemma MulGrows(d: nat, x: nat, y: nat)
    requires x < y
    ensures d * x + d <= d * y
  {
    assert d * y == d * x + d * (y - x);
    assert d * (y - x) == d + d * (y - x - 1);
  }

  lemma ModIsUnique(a: nat, d: nat, q: nat, r: nat)
    requires d > 0 && r < d && a == d * q + r
    ensures a / d == q && a % d == r
  {
    var q', r' := a / d, a % d;
    assert a == d * q' + r';
    if q > q' {
      MulGrows(d, q', q);
    } else if q < q' {
      MulGrows(d, q, q');
    }
  }

  lemma MaskStep(a: nat, p: nat)
    requires a > 0 && p > 0
    ensures BitAnd(a, 2 * p - 1) == a % 2 + 2 * BitAnd(a / 2, p - 1)
  {
    assert (2 * p - 1) % 2 == 1 && (2 * p - 1) / 2 == p - 1;
  }

  lemma {:induction false} MaskIsRemainder(a: nat, k: nat)
    ensures BitAnd(a, Pow2(k) - 1) == Mod(a, Pow2(k))
  {
    if a == 0 {
    } else if k == 0 {
      AndZero(a);
    } else {
      var p := Pow2(k - 1);
      assert Pow2(k) == 2 * p;
      hide BitAnd, Pow2, Mod;
      MaskIsRemainder(a / 2, k - 1);
      ModOfHalf(a, p);
      MaskStep(a, p);
    }
  }

  /** Masking with the low `k` bits. */
  lemma MaskIsLow(a: nat, k: nat)
    ensures BitAnd(a, Pow2(k) - 1) == Low(a, k)
  {
    MaskIsRemainder(a, k);
    hide BitAnd, Pow2, Mod;
  }

  lemma {:induction false} AndZero(a: nat)
    ensures BitAnd(a, 0) == 0
  {
    if a > 0 {
      AndZero(a / 2);
    }
  }

  lemma SmallPowers()
    ensures Pow2(7) == 128 && Pow2(8) == 256 && Pow2(13) == 8192 && Pow2(14) == 16384
  {
    assert Pow2(4) == 16;
    Pow2Adds(4, 4);
    assert Pow2(5) == 32;
    Pow2Adds(5, 8);
    assert Pow2(14) == 2 * Pow2(13) && Pow2(8) == 2 * Pow2(7);
  }

  lemma {:induction false} Pow2Grows(a: nat, b: nat)
    requires a <= b
    ensures Pow2(a) <= Pow2(b)
  {
    if a < b {
      Pow2Grows(a, b - 1);
    }
  }

  lemma DivBelow(a: nat, h: nat, p: nat)
    requires p > 0 && a < h * p
    ensures a / p < h
  {
    var q := a / p;
    assert a == p * q + a % p && p * h == h * p;
    if q > h {
      MulGrows(p, h, q);
    }
  }

  /** A value of `width` bits above `k` bits makes `k + width` bits. */
  lemma AboveFits(acc: nat, k: nat, value: nat, width: nat)
    requires acc < Pow2(k) && value < Pow2(width)
    ensures acc + Shl(value, k) < Pow2(k + width)
  {
    Pow2Adds(k, width);
    var p := Pow2(k);
    if value + 1 < Pow2(width) {
      MulGrows(p, value + 1, Pow2(width));
    }
    assert p * (value + 1) == value * p + p;
  }

  lemma ShrFits(acc: nat, k: nat, width: nat)
    requires acc < Pow2(k) && width <= k
    ensures Shr(acc, width) < Pow2(k - width)
  {
    Pow2Adds(k - width, width);
    DivBelow(acc, Pow2(k - width), Pow2(width));
  }

  lemma ShlAdds(a: nat, b: nat, k: nat)
    ensures Shl(a + b, k) == Shl(a, k) + Shl(b, k)
  {
    hide Pow2;
  }

  lemma ShlTwice(a: nat, j: nat, k: nat)
    ensures Shl(Shl(a, j), k) == Shl(a, j + k)
  {
    Pow2Adds(j, k);
    hide Pow2;
    assert a * Pow2(j) * Pow2(k) == a * (Pow2(j) * Pow2(k));
  }

  /** A number is its lowest `k` bits and the rest. */
  lemma SplitAt(a: nat, k: nat)
    ensures a == Low(a, k) + Shl(Shr(a, k), k) && Low(a, k) < Pow2(k)
  {
    hide Pow2;
    var p := Pow2(k);
    assert a == p * (a / p) + a % p;
  }

  /** There is only one way to split it. */
  lemma SplitIsUnique(a: nat, k: nat, low: nat, high: nat)
    requires a == low + Shl(high, k) && low < Pow2(k)
    ensures Low(a, k) == low && Shr(a, k) == high
  {
    hide Pow2;
    var p := Pow2(k);
    assert high * p == p * high;
    ModIsUnique(a, p, high, low);
  }
}
