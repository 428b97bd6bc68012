/** C's operators on unsigned integers, as arithmetic. */
module Bits {

  function Power(n: nat): (p: nat)
    ensures p > 0
  {
    if n == 0 then 1 else 2 * Power(n - 1)
  }

  lemma {:induction false} PowerSum(a: nat, b: nat)
    ensures Power(a + b) == Power(a) * Power(b)
  {
    if a > 0 {
      PowerSum(a - 1, b);
    }
  }

  lemma Power16()
    ensures Power(8) == 0x100 && Power(16) == 0x1_0000
  {
    PowerSum(8, 8);
    assert Power(4) == 16;
    PowerSum(4, 4);
  }

  lemma Power48()
    ensures Power(32) == 0x1_0000_0000 && Power(48) == 0x1_0000_0000_0000
  {
    hide Power;
    Power16();
    PowerSum(16, 16);
    PowerSum(32, 16);
  }

  lemma Power57()
    ensures Power(57) == 0x200_0000_0000_0000
  {
    Power16();
    Power48();
    assert Power(1) == 2;
    hide Power;
    PowerSum(48, 8);
    PowerSum(56, 1);
  }

  lemma ProductSign(p: int, d: int)
    requires p > 0
    ensures d >= 1 ==> p * d >= p
    ensures d <= -1 ==> p * d <= -p
  {
    if d >= 1 {
      assert p * d == p * (d - 1) + p && p * (d - 1) >= 0;
    } else if d <= -1 {
      assert p * d == -(p * (-d - 1)) - p && p * (-d - 1) >= 0;
    }
  }

  lemma DivModUnique(x: int, p: int, q: int, r: int)
    requires 0 <= r < p && x == p * q + r
    ensures x / p == q && x % p == r
  {
    ProductSign(p, x / p - q);
    assert p * (x / p - q) == p * (x / p) - p * q;
  }

  lemma Quotients(w: nat, p: nat, q: nat)
    requires p > 0 && q > 0
    ensures p * q > 0 && w / p / q == w / (p * q)
  {
    ProductSign(p, q);
    var a := w / p;
    assert w == p * (q * (a / q) + a % q) + w % p;
    ProductSign(p, q - 1 - a % q);
    DivModUnique(w, p * q, a / q, p * (a % q) + w % p);
  }

  lemma {:induction false} SplitLow(low: nat, high: nat, p: nat)
    requires low < p
    ensures (low + p * high) % p == low && (low + p * high) / p == high
  {
    DivModUnique(low + p * high, p, high, low);
  }

  /** The operators `&` and `|`, bit by bit from the lowest. */
  function And(a: nat, b: nat): nat
    decreases a + b
  {
    if a == 0 && b == 0 then 0 else (if a % 2 == 1 && b % 2 == 1 then 1 else 0) + 2 * And(a / 2, b / 2)
  }

  function Or(a: nat, b: nat): nat
    decreases a + b
  {
    if a == 0 && b == 0 then 0 else (if a % 2 == 1 || b % 2 == 1 then 1 else 0) + 2 * Or(a / 2, b / 2)
  }

  /** `>>` on an unsigned integer. */
  function ShiftRight(a: nat, n: nat): nat {
    Above(a, Power(n))
  }

  /** `<<`, where no bit is lost. */
  function ShiftLeft(a: nat, n: nat): nat {
    Power(n) * a
  }

  function Above(w: nat, p: nat): nat
    requires p > 0
  {
    ProductSign(p, w / p);
    w / p
  }

  lemma {:induction false} AndZero(a: nat)
    ensures And(a, 0) == 0
  {
    if a > 0 {
      AndZero(a / 2);
    }
  }

  lemma {:induction false} OrZero(b: nat)
    ensures Or(0, b) == b
  {
    if b > 0 {
      OrZero(b / 2);
    }
  }

  lemma HalfMod(w: nat, p: nat)
    requires p > 0
    ensures w % (2 * p) == w % 2 + 2 * (w / 2 % p)
  {
    var q, r := w / 2 / p, w / 2 % p;
    assert w / 2 == p * q + r;
    DivModUnique(w, 2 * p, q, w % 2 + 2 * r);
  }

  /** Masking the low bits is the remainder. */
  lemma {:induction false} MaskLow(w: nat, n: nat)
    ensures And(w, Power(n) - 1) == w % Power(n)
  {
    if n == 0 {
      AndZero(w);
    } else {
      MaskLow(w / 2, n - 1);
      HalfMod(w, Power(n - 1));
      assert (Power(n) - 1) % 2 == 1 && (Power(n) - 1) / 2 == Power(n - 1) - 1;
    }
  }

  lemma HalfDiv(w: nat, p: nat)
    requires p > 0
    ensures w / (2 * p) == w / 2 / p
  {
    var q, r := w / 2 / p, w / 2 % p;
    assert w / 2 == p * q + r;
    DivModUnique(w, 2 * p, q, w % 2 + 2 * r);
  }

  lemma AndEven(w: nat, m: nat)
    ensures And(w, 2 * m) == 2 * And(w / 2, m)
  {
    assert (2 * m) / 2 == m && (2 * m) % 2 == 0;
  }

  lemma ShiftTwice(m: nat, n: nat)
    requires n > 0
    ensures ShiftLeft(m, n) == 2 * ShiftLeft(m, n - 1) && ShiftRight(m, n) == ShiftRight(m / 2, n - 1)
  {
    var p := Power(n - 1);
    assert Power(n) == 2 * p;
    assert 2 * p * m == 2 * (p * m);
    HalfDiv(m, p);
  }

  /** Masking with a shifted mask masks the upper part. */
  lemma {:induction false} MaskHigh(w: nat, m: nat, n: nat)
    ensures ShiftRight(And(w, ShiftLeft(m, n)), n) == And(ShiftRight(w, n), m)
    decreases n
  {
    if n > 0 {
      hide And, ShiftLeft, ShiftRight;
      var mask := ShiftLeft(m, n - 1);
      ShiftTwice(m, n);
      AndEven(w, mask);
      ShiftTwice(w, n);
      ShiftTwice(And(w, 2 * mask), n);
      MaskHigh(w / 2, m, n - 1);
    } else {
      assert ShiftLeft(m, 0) == m && ShiftRight(w, 0) == w && ShiftRight(And(w, m), 0) == And(w, m);
    }
  }

  /** Joining parts that share no bit is their sum. */
  lemma {:induction false} OrDisjoint(low: nat, high: nat, n: nat)
    requires low < Power(n)
    ensures Or(low, ShiftLeft(high, n)) == low + ShiftLeft(high, n)
    decreases n
  {
    if n == 0 {
      OrZero(high);
    } else {
      var rest := ShiftLeft(high, n - 1);
      assert ShiftLeft(high, n) == 2 * rest by {
        assert Power(n) == 2 * Power(n - 1);
      }
      OrDisjoint(low / 2, high, n - 1);
    }
  }
}
