/** Signed 64-bit arithmetic as the interpreter uses it (src/util/math.c).

    Values are unbounded integers; `Fits` says which of them an `int64_t` holds and `Wrap` is the
    two's complement truncation that the C multiplication performs. */
module IntMath {
  import opened Words

  const INT64_MIN: int := -0x8000_0000_0000_0000
  const INT64_MAX: int := 0x7fff_ffff_ffff_ffff

  predicate Fits(x: int) {
    INT64_MIN <= x <= INT64_MAX
  }

  type Int64 = x: int | INT64_MIN <= x <= INT64_MAX

  /** The int64 congruent to `x` modulo 2^64. */
  function Wrap(x: int): (r: Int64)
    ensures (r - x) % TWO_64 == 0
    ensures Fits(x) ==> r == x
  {
    var m := x % TWO_64;
    if m <= INT64_MAX then m else m - TWO_64
  }

  /** C's division truncates toward zero, Dafny's does not. */
  function TruncDiv(a: int, b: int): int
    requires b != 0
  {
    if (a >= 0) == (b > 0) then Abs(a) / Abs(b) else -(Abs(a) / Abs(b))
  }

  function Abs(x: int): nat {
    if x < 0 then -x else x
  }

  function Pow(b: int, e: nat): int {
    if e == 0 then 1 else b * Pow(b, e - 1)
  }

  // ---- The three overflow tests ----

  function WouldAddOverflow(a: Int64, b: Int64): (r: bool)
    ensures r <==> !Fits(a + b)
  {
    if a >= 0 then b > INT64_MAX - a else b < INT64_MIN - a
  }

  function WouldSubOverflow(a: Int64, b: Int64): (r: bool)
    ensures r <==> !Fits(a - b)
  {
    (b > 0 && a < INT64_MIN + b) || (b < 0 && a > INT64_MAX + b)
  }

  /** The quotients are unbounded here; see `ReachesUndefinedQuotient` for the one that C does not define. */
  function WouldMulOverflow(a: Int64, b: Int64): bool {
    if a == INT64_MIN && b == -1 then true
    else if a == -1 && b == INT64_MIN then true
    else if b > 0 then a > TruncDiv(INT64_MAX, b) || a < TruncDiv(INT64_MIN, b)
    else if b < 0 then a < TruncDiv(INT64_MAX, b) || a > TruncDiv(INT64_MIN, b)
    else false
  }

  /** Does evaluating the multiplication test reach the division INT64_MIN / -1? */
  predicate ReachesUndefinedQuotient(a: Int64, b: Int64) {
    && !(a == INT64_MIN && b == -1)
    && !(a == -1 && b == INT64_MIN)
    && b < 0
    && !(a < TruncDiv(INT64_MAX, b))
    && b == -1
  }

  lemma QuotientBounds(n: nat, d: int)
    requires d > 0
    ensures n / d * d <= n < (n / d + 1) * d
  {
  }

  lemma MulMonotone(x: int, y: int, d: int)
    requires x <= y && d >= 0
    ensures x * d <= y * d
  {
  }

  /** For a positive divisor, comparing with the quotient is comparing with the product. */
  lemma QuotientCompare(s: int, d: int, n: int)
    requires d > 0 && n >= 0
    ensures s <= n / d <==> s * d <= n
    ensures -(n / d) <= s <==> -n <= s * d
  {
    var q := n / d;
    QuotientBounds(n, d);
    if s <= q { MulMonotone(s, q, d); } else { MulMonotone(q + 1, s, d); }
    if -q <= s {
      MulMonotone(-q, s, d);
      assert (-q) * d == -(q * d);
    } else {
      MulMonotone(s, -q - 1, d);
      assert (-q - 1) * d == -((q + 1) * d);
    }
  }

  /** The multiplication test answers exactly the question its name asks. */
  lemma WouldMulOverflowExact(a: Int64, b: Int64)
    ensures WouldMulOverflow(a, b) <==> !Fits(a * b)
  {
    if b > 0 {
      QuotientCompare(a, b, INT64_MAX);
      QuotientCompare(a, b, -INT64_MIN);
    } else if b < 0 {
      var s: int, d: int := 0 - a, 0 - b;
      QuotientCompare(s, d, INT64_MAX);
      QuotientCompare(s, d, -INT64_MIN);
      assert s * d == a * b;
    } else {
      assert a * b == 0;
    }
  }

  lemma UndefinedQuotientExact(a: Int64, b: Int64)
    ensures ReachesUndefinedQuotient(a, b) <==> b == -1 && a != INT64_MIN
  {
    if b == -1 {
      assert TruncDiv(INT64_MAX, b) == -INT64_MAX;
    }
  }

  // ---- Integer power ----

  lemma WrapUnique(x: int, y: int, k: int)
    requires x == y + k * TWO_64
    ensures Wrap(x) == Wrap(y)
  {
  }

  lemma WrapMul(x: int, y: int)
    ensures Wrap(Wrap(x) * Wrap(y)) == Wrap(x * y)
  {
    var x', y' := Wrap(x), Wrap(y);
    var j, k := (x' - x) / TWO_64, (y' - y) / TWO_64;
    assert x' == x + j * TWO_64 && y' == y + k * TWO_64;
    calc {
      x' * y';
      (x + j * TWO_64) * y';
      x * y' + j * TWO_64 * y';
      x * (y + k * TWO_64) + j * y' * TWO_64;
      x * y + (x * k + j * y') * TWO_64;
    }
    WrapUnique(x' * y', x * y, x * k + j * y');
  }

  lemma {:induction false} PowSquare(b: int, k: nat)
    ensures Pow(b, 2 * k) == Pow(b * b, k)
  {
    if k > 0 {
      PowSquare(b, k - 1);
      assert Pow(b, 2 * k) == b * Pow(b, 2 * k - 1) == b * (b * Pow(b, 2 * k - 2));
      assert b * (b * Pow(b, 2 * k - 2)) == (b * b) * Pow(b * b, k - 1);
    }
  }

  lemma AbsMul(x: int, y: int)
    ensures Abs(x * y) == Abs(x) * Abs(y)
  {
  }

  lemma MulAtLeast(x: nat, y: nat, n: nat)
    requires x >= n && y >= 1
    ensures x * y >= n && y * x >= n
  {
  }

  lemma {:induction false} PowGrows(b: int, k: nat)
    requires Abs(b) >= 1
    ensures Abs(Pow(b, k)) >= 1
    ensures k >= 1 ==> Abs(Pow(b, k)) >= Abs(b)
  {
    if k > 0 {
      PowGrows(b, k - 1);
      AbsMul(b, Pow(b, k - 1));
      MulAtLeast(Abs(b), Abs(Pow(b, k - 1)), Abs(b));
    }
  }

  /** 2^63 is not a square, so a square that overflows is already past every value of int64's magnitude. */
  lemma SquareOverflow(b: int)
    requires !Fits(b * b)
    ensures b * b > -INT64_MIN
  {
    var n := Abs(b);
    assert b * b == n * n;
    if n <= 3037000499 { MulMonotone(n, 3037000499, n); MulMonotone(n, 3037000499, 3037000499); }
    else { MulMonotone(3037000500, n, 3037000500); MulMonotone(3037000500, n, n); }
  }

  /** Once a partial product has left int64, the remaining factors cannot bring it back. */
  lemma ProductOverflowIsFinal(p: int, b: int, k: nat)
    requires !Fits(p) && Abs(b) >= 2 && k >= 1
    ensures !Fits(p * Pow(b, k))
  {
    PowGrows(b, k);
    AbsMul(p, Pow(b, k));
    var n := Abs(Pow(b, k));
    assert n >= 2;
    assert Abs(p) * n == Abs(p) * (n - 1) + Abs(p);
    MulAtLeast(Abs(p), n - 1, Abs(p));
  }

  /** What the loop carries: the exact, unwrapped accumulator `acc` and base `bse`. */
  ghost predicate PowState(base: int, exp: nat, acc: int, bse: int, e: nat) {
    && acc * Pow(bse, e) == Pow(base, exp)
    && (Abs(base) <= 1 ==> Abs(acc) <= 1 && Abs(bse) <= 1)
    && (Abs(base) >= 2 ==> Abs(acc) >= 1 && Abs(bse) >= 2)
  }

  lemma PowStateOdd(base: int, exp: nat, acc: int, bse: int, e: nat)
    requires PowState(base, exp, acc, bse, e) && e % 2 == 1
    ensures PowState(base, exp, acc * bse, bse, e - 1)
    ensures Fits(acc) && Fits(bse) && !Fits(acc * bse) ==> Abs(base) >= 2
  {
    AbsMul(acc, bse);
    assert acc * (bse * Pow(bse, e - 1)) == (acc * bse) * Pow(bse, e - 1);
    if Abs(base) >= 2 { MulAtLeast(Abs(acc), Abs(bse), 1); }
    else { assert Abs(acc) * Abs(bse) <= 1; }
  }

  lemma PowStateEven(base: int, exp: nat, acc: int, bse: int, e: nat)
    requires PowState(base, exp, acc, bse, e) && e % 2 == 0
    ensures PowState(base, exp, acc, bse * bse, e / 2)
    ensures !Fits(bse * bse) ==> Abs(base) >= 2
  {
    PowSquare(bse, e / 2);
    AbsMul(bse, bse);
    if Abs(base) >= 2 { MulAtLeast(Abs(bse), Abs(bse), 2); }
    else { assert Abs(bse) * Abs(bse) <= 1; }
  }

  lemma Multiple4(k: int, m: int)
    ensures (4 * k + m) % 4 == m % 4
  {
  }

  lemma QuotientAndRemainder(x: int, n: int)
    requires n > 0
    ensures x == n * (x / n) + x % n
  {
  }

  lemma WrapMod4(x: int)
    ensures Wrap(x) % 4 == x % 4
  {
    var q, m := x / TWO_64, x % TWO_64;
    QuotientAndRemainder(x, TWO_64);
    Multiple4(0x4000_0000_0000_0000 * q, m);
    Multiple4(-0x4000_0000_0000_0000, m);
    assert Wrap(x) == m || Wrap(x) == m - TWO_64;
  }

  lemma SquareMod4(b: int)
    ensures b * b % 4 <= 1
  {
    var h := b / 2;
    var t := h * h;
    if b % 2 == 0 {
      assert b * b == 4 * t;
    } else {
      assert b * b == (2 * h + 1) * (2 * h + 1) == 4 * (t + h) + 1;
    }
  }

  lemma WrappedSquareIsNotMinusOne(b: Int64)
    ensures Wrap(b * b) != -1
  {
    hide Wrap;
    var square := b * b;
    SquareMod4(b);
    WrapMod4(square);
  }

  /** The loop's variables against the exact values they stand for. */
  ghost predicate LoopState(base: Int64, exp: nat, accumulate: Int64, baseLoop: Int64, e: nat, over: bool,
                            acc: int, bse: int) {
    && PowState(base, exp, acc, bse, e)
    && accumulate == Wrap(acc) && baseLoop == Wrap(bse)
    && (if over then !Fits(Pow(base, exp)) else Fits(acc) && Fits(bse))
  }

  /** One multiplication into the accumulator; `e` counts the factors of `baseLoop` still to come. */
  lemma AccumulateStep(base: Int64, exp: nat, accumulate: Int64, baseLoop: Int64, e: nat, over: bool, acc: int,
                       bse: int)
    requires LoopState(base, exp, accumulate, baseLoop, e, over, acc, bse)
    requires e > 1 && e % 2 == 1
    ensures LoopState(base, exp, Wrap(accumulate * baseLoop), baseLoop, e - 1,
                      over || WouldMulOverflow(accumulate, baseLoop), acc * bse, bse)
  {
    WouldMulOverflowExact(accumulate, baseLoop);
    PowStateOdd(base, exp, acc, bse, e);
    WrapMul(acc, bse);
    if !over && !Fits(acc * bse) {
      ProductOverflowIsFinal(acc * bse, bse, e - 1);
    }
  }

  /** One squaring. The square is always used later, so its overflow is the power's overflow. */
  lemma SquareStep(base: Int64, exp: nat, accumulate: Int64, baseLoop: Int64, e: nat, over: bool, acc: int, bse: int)
    requires LoopState(base, exp, accumulate, baseLoop, e, over, acc, bse)
    requires e > 1 && e % 2 == 0
    ensures LoopState(base, exp, accumulate, Wrap(baseLoop * baseLoop), e / 2,
                      over || WouldMulOverflow(baseLoop, baseLoop), acc, bse * bse)
  {
    WouldMulOverflowExact(baseLoop, baseLoop);
    PowStateEven(base, exp, acc, bse, e);
    WrapMul(bse, bse);
    if !over && !Fits(bse * bse) {
      SquareOverflow(bse);
      var p := Pow(bse * bse, e / 2);
      PowGrows(bse * bse, e / 2);
      AbsMul(acc, p);
      MulAtLeast(Abs(p), Abs(acc), Abs(bse * bse));
    }
  }

  lemma LastStep(base: Int64, exp: nat, accumulate: Int64, baseLoop: Int64, over: bool, acc: int, bse: int)
    requires LoopState(base, exp, accumulate, baseLoop, 1, over, acc, bse)
    ensures Wrap(accumulate * baseLoop) == Wrap(Pow(base, exp))
    ensures over || WouldMulOverflow(accumulate, baseLoop) <==> !Fits(Pow(base, exp))
  {
    WouldMulOverflowExact(accumulate, baseLoop);
    WrapMul(acc, bse);
    assert Pow(bse, 1) == bse;
  }

  lemma LoopStart(base: Int64, exp: nat)
    ensures LoopState(base, exp, 1, base, exp, false, 1, base)
    ensures exp == 0 ==> Pow(base, exp) == 1
  {
    hide Pow, Wrap;
    assert Pow(base, 0) == 1 by {
      PowZero(base);
    }
    WrapFits(1);
    WrapFits(base);
  }

  lemma PowZero(b: int)
    ensures Pow(b, 0) == 1
  {
  }

  lemma WrapFits(x: Int64)
    ensures Wrap(x) == x
  {
  }

  /** Exponentiation by squaring with an overflow flag. `undefined` reports that some test evaluated
      INT64_MIN / -1, which C leaves undefined; the products are taken to wrap. */
  method IPowOverflow(base: Int64, exp: Int64) returns (out: Int64, didOverflow: bool, ghost undefined: bool)
    ensures exp >= 0 ==> out == Wrap(Pow(base, exp))
    ensures exp >= 0 ==> (didOverflow <==> !Fits(Pow(base, exp)))
    ensures exp < 0 ==> out == 1 && !didOverflow
    ensures undefined <==> base == -1 && exp >= 1
  {
    hide WouldMulOverflow, ReachesUndefinedQuotient, Pow, LoopState, Wrap;
    didOverflow, undefined := false, false;
    var baseLoop: Int64, expLoop: Int64, accumulate: Int64 := base, exp, 1;
    ghost var acc: int, bse: int, n: nat := 1, base, if exp < 0 then 0 else exp;
    LoopStart(base, n);
    WrapFits(1);
    while expLoop > 1
      invariant exp <= 1 ==> expLoop == exp && accumulate == 1 && baseLoop == base
      invariant exp >= 1 ==> 1 <= expLoop
      invariant exp <= 0 ==> !didOverflow
      invariant exp >= 0 ==> LoopState(base, n, accumulate, baseLoop, expLoop, didOverflow, acc, bse)
      invariant base == -1 ==> undefined || (expLoop == exp && baseLoop == -1 && accumulate == 1)
      invariant base != -1 ==> !undefined && baseLoop != -1
      invariant undefined ==> exp >= 1
    {
      UndefinedQuotientExact(accumulate, baseLoop);
      UndefinedQuotientExact(baseLoop, baseLoop);
      WrappedSquareIsNotMinusOne(baseLoop);
      if expLoop % 2 == 1 {
        AccumulateStep(base, n, accumulate, baseLoop, expLoop, didOverflow, acc, bse);
        undefined := undefined || ReachesUndefinedQuotient(accumulate, baseLoop);
        if WouldMulOverflow(accumulate, baseLoop) {
          didOverflow := true;
        }
        accumulate := Wrap(accumulate * baseLoop);
        acc := acc * bse;
      }
      SquareStep(base, n, accumulate, baseLoop, expLoop - expLoop % 2, didOverflow, acc, bse);
      expLoop := expLoop / 2;
      undefined := undefined || ReachesUndefinedQuotient(baseLoop, baseLoop);
      if WouldMulOverflow(baseLoop, baseLoop) {
        didOverflow := true;
      }
      baseLoop := Wrap(baseLoop * baseLoop);
      bse := bse * bse;
    }
    if expLoop == 1 {
      LastStep(base, n, accumulate, baseLoop, didOverflow, acc, bse);
      UndefinedQuotientExact(accumulate, baseLoop);
      undefined := undefined || ReachesUndefinedQuotient(accumulate, baseLoop);
      if WouldMulOverflow(accumulate, baseLoop) {
        didOverflow := true;
      }
      accumulate := Wrap(accumulate * baseLoop);
    }
    out := accumulate;
  }
}
