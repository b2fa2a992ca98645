/** Bitwise operations on natural numbers, and how they act on numbers whose bits do
    not overlap. */
module Words {

  type Byte = x: int | 0 <= x < 256 witness 0

  function Pow2(k: nat): (r: nat)
    ensures r >= 1
  {
    if k == 0 then 1 else 2 * Pow2(k - 1)
  }

  function And(x: nat, y: nat): nat
    decreases x
  {
    if x == 0 then 0 else (x % 2) * (y % 2) + 2 * And(x / 2, y / 2)
  }

  function Or(x: nat, y: nat): nat
    decreases x + y
  {
    if x == 0 && y == 0 then 0
    else (if x % 2 == 1 || y % 2 == 1 then 1 else 0) + 2 * Or(x / 2, y / 2)
  }

  lemma QuotientNat(v: nat, p: nat)
    requires p > 0
    ensures v / p >= 0
  {
    var d := v / p;
    assert v == p * d + v % p;
    if d < 0 {
      MulAtLeast(p, 0 - d);
    }
  }

  function Quotient(v: nat, p: nat): nat
    requires p > 0
  {
    QuotientNat(v, p);
    v / p
  }

  lemma {:induction false} AndZero(x: nat)
    ensures And(x, 0) == 0
    decreases x
  {
    if x != 0 { AndZero(x / 2); }
  }

  lemma {:induction false} OrZero(y: nat)
    ensures Or(0, y) == y
    decreases y
  {
    if y != 0 { OrZero(y / 2); }
  }

  /** x & (2^k - 1) keeps the k low bits. */
  lemma {:induction false} AndLow(x: nat, k: nat)
    ensures And(x, Pow2(k) - 1) == x % Pow2(k)
    decreases k
  {
    if k == 0 {
      AndZero(x);
    } else {
      var p := Pow2(k - 1);
      AndStep(x, 2 * p - 1);
      hide And;
      AndLow(x / 2, k - 1);
      assert (2 * p - 1) / 2 == p - 1 && (2 * p - 1) % 2 == 1;
      HalfMod(x, p);
    }
  }

  lemma {:induction false} HalfMod(x: nat, p: nat)
    requires p >= 1
    ensures x % (2 * p) == x % 2 + 2 * (x / 2 % p)
  {
    var q, m := x / 2 / p, x / 2 % p;
    assert x / 2 == p * q + m;
    assert x == 2 * (p * q + m) + x % 2;
    assert x == (2 * p) * q + (x % 2 + 2 * m);
    ModIs(x, 2 * p, q, x % 2 + 2 * m);
  }

  lemma {:induction false} ModIs(x: int, d: int, q: int, r: int)
    requires 0 <= r < d && x == d * q + r
    ensures x % d == r && x / d == q
  {
    var q', r' := x / d, x % d;
    assert x == d * q' + r';
    assert d * (q - q') == r' - r;
    if q > q' {
      assert d * (q - q') >= d by { MulAtLeast(d, q - q'); }
    } else if q < q' {
      assert d * (q' - q) >= d by { MulAtLeast(d, q' - q); }
    }
  }

  lemma MulAtLeast(d: int, k: int)
    requires d >= 0 && k >= 1
    ensures d * k >= d
  {
  }

  /** Masking works separately on the k low bits and on the rest. */
  lemma {:induction false} AndSplit(x: nat, m: nat, hi: nat, lo: nat, k: nat)
    requires m < Pow2(k) && lo < Pow2(k)
    ensures And(x * Pow2(k) + m, hi * Pow2(k) + lo) == And(x, hi) * Pow2(k) + And(m, lo)
    decreases k
  {
    AndNothing();
    hide And;
    if k == 0 {
      assert x * 1 + m == x && hi * 1 + lo == hi;
    } else {
      var p := Pow2(k - 1);
      AndSplit(x, m / 2, hi, lo / 2, k - 1);
      Halves(x, m, p);
      Halves(hi, lo, p);
      AndStep(x * (2 * p) + m, hi * (2 * p) + lo);
      AndStep(m, lo);
      Doubled(And(x, hi), p);
    }
  }

  lemma AndNothing()
    ensures And(0, 0) == 0
  {
  }

  lemma Doubled(a: nat, p: nat)
    ensures 2 * (a * p) == a * (2 * p)
  {
  }

  lemma {:induction false} Halves(x: nat, m: nat, p: nat)
    ensures (x * (2 * p) + m) % 2 == m % 2 && (x * (2 * p) + m) / 2 == x * p + m / 2
  {
    Doubled(x, p);
  }

  lemma {:induction false} AndStep(x: nat, y: nat)
    ensures And(x, y) == (x % 2) * (y % 2) + 2 * And(x / 2, y / 2)
  {
  }

  /** Or of numbers without a common bit is their sum. */
  lemma {:induction false} OrSum(x: nat, y: nat, k: nat)
    requires x < Pow2(k)
    ensures Or(x, y * Pow2(k)) == x + y * Pow2(k)
    decreases k
  {
    if k == 0 {
      OrZero(y);
    } else {
      var p := Pow2(k - 1);
      var z := y * (2 * p);
      assert z == 2 * (y * p);
      OrSum(x / 2, y, k - 1);
      if x == 0 && z == 0 {
      } else {
        assert z / 2 == y * p && z % 2 == 0;
      }
    }
  }
}
