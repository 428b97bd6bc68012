/** Number literals (src/compiler/tokenizer.c:129-250): digits are accumulated in an int64 until one does not
    fit; from then on the literal is a float. The text starts at the token and ends with the source, behind
    which the code reads a NUL. */
module NumLiteral {
  import opened IntMath

  predicate IsSpace(c: char) {
    c == ' ' || c == '\t' || c == '\n' || c == '\U{0B}' || c == '\U{0C}' || c == '\r'
  }

  predicate IsDigit(c: char) {
    '0' <= c <= '9'
  }

  /** The character at `i`, or the NUL behind the source. */
  function CharAt(s: string, i: nat): char
    requires i <= |s|
  {
    if i < |s| then s[i] else '\0'
  }

  predicate EndsNumber(c: char) {
    IsSpace(c) || c == '\0' || c == ';' || c == ','
  }

  function Digit(c: char): (d: int)
    requires IsDigit(c)
    ensures 0 <= d <= 9
  {
    c as int - '0' as int
  }

  /** The whole part so far; a float holds a whole number too. */
  datatype Whole = Int(value: Int64) | Float(number: int)

  const MAX_TENTH: int := 922337203685477580

  /** One more digit. The smallest int64 is let through as the digits of 2^63. A digit that makes the
      multiplication overflow is added to the float and then met again. */
  function AddDigit(w: Whole, d: int): Whole
    requires 0 <= d <= 9
  {
    match w
    case Float(f) => Float(10 * f + d)
    case Int(v) =>
      if v == MAX_TENTH && d == 8 then Int(INT64_MIN)
      else if WouldMulOverflow(v, 10) then Float(10 * (v + d) + d)
      else
        WouldMulOverflowExact(v, 10);
        if WouldAddOverflow(v * 10, d) then Float(v * 10 + d) else Int(v * 10 + d)
  }

  /** The digits from `i` on, and the index of the first character that is none. */
  function ScanWhole(s: string, i: nat, w: Whole): (r: (nat, Whole))
    requires i <= |s|
    ensures i <= r.0 <= |s| && !IsDigit(CharAt(s, r.0))
    decreases |s| - i
  {
    if IsDigit(CharAt(s, i)) then ScanWhole(s, i + 1, AddDigit(w, Digit(s[i]))) else (i, w)
  }

  /** The digits behind the point as a number, and the power of ten they are divided by. */
  datatype Decimals = Decimals(end: nat, part: nat, denominator: int)

  function ScanDecimals(s: string, i: nat, part: nat, denominator: int): (r: Decimals)
    requires i <= |s| && denominator > 0
    ensures i <= r.end <= |s| && !IsDigit(CharAt(s, r.end)) && r.denominator > 0
    decreases |s| - i
  {
    if IsDigit(CharAt(s, i)) then ScanDecimals(s, i + 1, 10 * part + Digit(s[i]), 10 * denominator)
    else Decimals(i, part, denominator)
  }

  datatype ErrorKind = NumLiteralInvalidChar | NumLiteralTooManyDecimal | TerminatedStringLiteral

  /** Number tokens have a value and a length, errors the index of the character they are reported for. */
  datatype NumToken =
    | NoNumber(error: ErrorKind, at: nat)
    | IntToken(value: Int64, length: nat)
    | FloatToken(number: real, length: nat)

  function Sign(negative: bool, v: Int64): Int64 {
    if negative && v != INT64_MIN then -v else v
  }

  function Fraction(part: nat, denominator: int): (f: real)
    requires denominator > 0
    ensures f >= 0.0
  {
    part as real / denominator as real
  }

  /** The value of a float with a point, from its whole part, which has its sign already if it was an int. */
  function WithFraction(negative: bool, whole: int, fraction: real): real {
    var f := whole as real;
    var number := if f >= 0.0 then f + fraction else f - fraction;
    if negative && number > 0.0 then -number else number
  }

  function WholeNumber(negative: bool, w: Whole): int {
    match w case Int(v) => Sign(negative, v) case Float(f) => f
  }

  function FloatWithoutPoint(negative: bool, f: int): real {
    if negative then -(f as real) else f as real
  }

  /** What `try_parse_num_literal` finds. */
  function Parse(s: string): NumToken
    requires s != ""
  {
    var negative := s[0] == '-';
    var whole := ScanWhole(s, if negative then 1 else 0, Int(0));
    var c := CharAt(s, whole.0);
    if c == '.' then
      var d := ScanDecimals(s, whole.0 + 1, 0, 1);
      if CharAt(s, d.end) == '.' then NoNumber(NumLiteralTooManyDecimal, d.end)
      else if !EndsNumber(CharAt(s, d.end)) then NoNumber(NumLiteralInvalidChar, d.end)
      else FloatToken(WithFraction(negative, WholeNumber(negative, whole.1), Fraction(d.part, d.denominator)), d.end)
    else if !EndsNumber(c) then NoNumber(NumLiteralInvalidChar, whole.0)
    else if whole.1.Int? then IntToken(Sign(negative, whole.1.value), whole.0)
    else FloatToken(FloatWithoutPoint(negative, whole.1.number), whole.0)
  }

  /** The loop over the digits behind the point. */
  method ParseDecimals(s: string, start: nat) returns (d: Decimals)
    requires start <= |s|
    ensures d == ScanDecimals(s, start, 0, 1)
  {
    var i, decimalPart: nat, denominator := start, 0, 1;
    while IsDigit(CharAt(s, i))
      invariant i <= |s| && denominator > 0
      invariant ScanDecimals(s, i, decimalPart, denominator) == ScanDecimals(s, start, 0, 1)
      decreases |s| - i
    {
      decimalPart := decimalPart * 10 + Digit(CharAt(s, i));
      denominator := denominator * 10;
      i := i + 1;
    }
    d := Decimals(i, decimalPart, denominator);
  }

  /** The loop over the whole part. */
  method ParseWhole(s: string, start: nat) returns (i: nat, isFloat: bool, wholePartInt: Int64, wholePartFloat: int)
    requires start <= |s|
    ensures ScanWhole(s, start, Int(0)) == (i, if isFloat then Float(wholePartFloat) else Int(wholePartInt))
  {
    i, isFloat, wholePartInt, wholePartFloat := start, false, 0, 0;
    while true
      invariant i <= |s|
      invariant ScanWhole(s, i, if isFloat then Float(wholePartFloat) else Int(wholePartInt))
        == ScanWhole(s, start, Int(0))
      decreases |s| - i, !isFloat
    {
      var c := CharAt(s, i);
      if !IsDigit(c) {
        break;
      }
      var num := Digit(c);
      if isFloat {
        wholePartFloat := wholePartFloat * 10;
        wholePartFloat := wholePartFloat + num;
      } else if wholePartInt == MAX_TENTH && c == '8' {
        wholePartInt := INT64_MIN;
      } else {
        if WouldMulOverflow(wholePartInt, 10) {
          isFloat := true;
          wholePartFloat := wholePartInt;
          wholePartFloat := wholePartFloat + num;
          continue;
        }
        WouldMulOverflowExact(wholePartInt, 10);
        wholePartInt := wholePartInt * 10;
        if WouldAddOverflow(wholePartInt, num) {
          isFloat := true;
          wholePartFloat := wholePartInt;
          wholePartFloat := wholePartFloat + num;
        } else {
          wholePartInt := wholePartInt + num;
        }
      }
      i := i + 1;
    }
  }

  /** `try_parse_num_literal`, with floats as exact numbers. */
  method TryParse(s: string) returns (r: NumToken)
    requires s != "" && '\0' !in s
    ensures r == Parse(s)
  {
    hide ScanWhole, ScanDecimals;
    var isNegative := s[0] == '-';
    var i, isFloat, wholePartInt, wholePartFloat := ParseWhole(s, if isNegative then 1 else 0);
    var c := CharAt(s, i);
    if c != '.' && !EndsNumber(c) {
      return NoNumber(NumLiteralInvalidChar, i);
    }
    if isNegative && !isFloat && wholePartInt != INT64_MIN {
      wholePartInt := -wholePartInt;
    }
    if c != '.' {
      if isFloat {
        return FloatToken(FloatWithoutPoint(isNegative, wholePartFloat), i);
      }
      return IntToken(wholePartInt, i);
    }
    if !isFloat {
      wholePartFloat := wholePartInt;
    }
    var d := ParseDecimals(s, i + 1);
    if CharAt(s, d.end) == '.' {
      return NoNumber(NumLiteralTooManyDecimal, d.end);
    }
    if !EndsNumber(CharAt(s, d.end)) {
      return NoNumber(NumLiteralInvalidChar, d.end);
    }
    r := FloatToken(WithFraction(isNegative, wholePartFloat, Fraction(d.part, d.denominator)), d.end);
  }

  // ---- The value of a literal ----

  predicate AllDigits(digits: string) {
    forall i :: 0 <= i < |digits| ==> IsDigit(digits[i])
  }

  function NumberOf(digits: string): nat
    requires AllDigits(digits)
  {
    if digits == "" then 0 else 10 * NumberOf(digits[..|digits| - 1]) + Digit(digits[|digits| - 1])
  }

  function WholeOf(digits: string): Whole
    requires AllDigits(digits)
  {
    if digits == "" then Int(0) else AddDigit(WholeOf(digits[..|digits| - 1]), Digit(digits[|digits| - 1]))
  }

  lemma {:induction false} ScanIs(s: string, start: nat, digits: string, i: nat)
    requires AllDigits(digits) && start + |digits| <= |s| && s[start..start + |digits|] == digits && i <= |digits|
    requires !IsDigit(CharAt(s, start + |digits|))
    ensures ScanWhole(s, start + i, WholeOf(digits[..i])) == (start + |digits|, WholeOf(digits))
    decreases |digits| - i
  {
    hide AddDigit;
    if i < |digits| {
      assert s[start + i] == s[start..start + |digits|][i];
      assert digits[..i + 1][..i] == digits[..i];
      ScanIs(s, start, digits, i + 1);
    } else {
      assert digits[..i] == digits;
    }
  }

  /** A run of digits above 2^63 whose float is its number: at the digit with which it passes 2^63 the int
      before is so large that only the addition overflows, or the digit is 0. */
  predicate FloatsExactly(digits: string)
    requires AllDigits(digits)
  {
    digits != "" &&
    var front, last := digits[..|digits| - 1], Digit(digits[|digits| - 1]);
    if NumberOf(front) > INT64_MAX + 1 then FloatsExactly(front)
    else NumberOf(front) == MAX_TENTH || (NumberOf(front) <= INT64_MAX && last == 0)
  }

  /** The digits of 2^63 and zeroes behind them. Their float has the opposite sign. */
  predicate ZeroesAfterLimit(digits: string)
    requires AllDigits(digits)
  {
    digits != "" && digits[|digits| - 1] == '0' &&
    var front := digits[..|digits| - 1];
    NumberOf(front) == INT64_MAX + 1 || ZeroesAfterLimit(front)
  }

  lemma MulOverflows(v: Int64)
    requires v >= 0 || v == INT64_MIN
    ensures WouldMulOverflow(v, 10) <==> v > MAX_TENTH || v == INT64_MIN
  {
    WouldMulOverflowExact(v, 10);
  }

  /** What a run of digits with number `n` has become. */
  ghost predicate Became(w: Whole, n: nat, exactly: bool, opposite: bool) {
    if n <= INT64_MAX then w == Int(n)
    else if n == INT64_MAX + 1 then w == Int(INT64_MIN)
    else
      && w.Float? && w.number != 0 && w.number + n >= 0
      && (w.number == n <==> exactly) && (w.number + n == 0 <==> opposite)
  }

  /** Exact below 2^63, the smallest int64 at 2^63, a float above; and when that float is the number. */
  lemma {:induction false} WholeBecame(digits: string)
    requires AllDigits(digits)
    ensures Became(WholeOf(digits), NumberOf(digits), FloatsExactly(digits), ZeroesAfterLimit(digits))
  {
    if digits != "" {
      var front, last := digits[..|digits| - 1], Digit(digits[|digits| - 1]);
      WholeBecame(front);
      var n := NumberOf(front);
      if n <= INT64_MAX + 1 {
        MulOverflows(if n <= INT64_MAX then n else INT64_MIN);
        NotYetAbove(front);
        hide NumberOf, WouldMulOverflow;
        PassesLimit(n, last);
      }
    }
  }

  lemma {:induction false} NotYetAbove(digits: string)
    requires AllDigits(digits) && NumberOf(digits) <= INT64_MAX + 1
    ensures !ZeroesAfterLimit(digits)
  {
    if digits != "" {
      NotYetAbove(digits[..|digits| - 1]);
    }
  }

  lemma PassesLimit(n: nat, d: nat)
    requires n <= INT64_MAX + 1 && d <= 9
    ensures 10 * n + d > INT64_MAX + 1 <==> n > MAX_TENTH || (n == MAX_TENTH && d == 9)
    ensures 10 * n + d == INT64_MAX + 1 <==> n == MAX_TENTH && d == 8
  {
  }

  /** The number a literal spells. */
  function Signed(negative: bool, v: int): int {
    if negative then -v else v
  }

  /** The scan of the whole part, whatever ends it. */
  lemma {:induction false} WholeScanned(s: string, negative: bool, digits: string, tail: string)
    requires AllDigits(digits) && (!negative ==> digits != "") && !IsDigit(CharAt(tail, 0))
    requires s == (if negative then "-" else "") + digits + tail
    ensures s != "" && (s[0] == '-' <==> negative)
    ensures var start := if negative then 1 else 0;
      && ScanWhole(s, start, Int(0)) == (start + |digits|, WholeOf(digits))
      && start + |digits| + |tail| == |s| && CharAt(s, start + |digits|) == CharAt(tail, 0)
  {
    hide AddDigit;
    var start := if negative then 1 else 0;
    assert s[start..start + |digits|] == digits && digits[..0] == "";
    ScanIs(s, start, digits, 0);
    assert !negative ==> s[0] == digits[0];
  }

  /** The scan of the decimals. */
  lemma {:induction false} DecimalsScanned(s: string, behind: nat, decimals: string, tail: string)
    requires AllDigits(decimals) && !IsDigit(CharAt(tail, 0))
    requires behind + |decimals| + |tail| == |s| && s[behind..] == decimals + tail
    ensures ScanDecimals(s, behind, 0, 1) == Decimals(|s| - |tail|, NumberOf(decimals), Tens(|decimals|))
    ensures CharAt(s, |s| - |tail|) == CharAt(tail, 0)
  {
    hide AllDigits;
    NoDigits();
    assert s[behind..behind + |decimals|] == s[behind..][..|decimals|] == decimals && decimals[..0] == "";
    assert tail != "" ==> s[behind + |decimals|] == s[behind..][|decimals|];
    DecimalsAre(s, behind, decimals, 0);
  }

  /** A run of digits with an optional minus sign is an int literal if and only if its number is at most
      2^63, and then the literal has exactly that value, except that 2^63 itself without a minus sign gives
      the smallest int64 instead. Above, it is a float literal, which has that value if and only if
      `FloatsExactly` says so. */
  lemma {:induction false} LiteralValue(s: string, negative: bool, digits: string, tail: string)
    requires AllDigits(digits) && (!negative ==> digits != "")
    requires s == (if negative then "-" else "") + digits + tail && EndsNumber(CharAt(tail, 0))
    ensures s != ""
    ensures Parse(s).IntToken? <==> NumberOf(digits) <= INT64_MAX + 1
    ensures Parse(s).IntToken? ==>
      && Parse(s).length == |s| - |tail|
      && (Parse(s).value == Signed(negative, NumberOf(digits)) <==> negative || NumberOf(digits) <= INT64_MAX)
    ensures NumberOf(digits) == INT64_MAX + 1 ==> Parse(s).value == INT64_MIN
    ensures NumberOf(digits) > INT64_MAX + 1 ==>
      && Parse(s).FloatToken? && Parse(s).length == |s| - |tail|
      && (Parse(s).number == Signed(negative, NumberOf(digits)) as real <==> FloatsExactly(digits))
  {
    hide ScanWhole, ScanDecimals, WithFraction, FloatsExactly, ZeroesAfterLimit, WholeOf, NumberOf;
    WholeScanned(s, negative, digits, tail);
    WholeBecame(digits);
  }

  // ---- Literals with a point ----

  function Tens(n: nat): (p: int)
    ensures p > 0
  {
    if n == 0 then 1 else 10 * Tens(n - 1)
  }

  lemma {:induction false} DecimalsAre(s: string, start: nat, digits: string, i: nat)
    requires AllDigits(digits) && start + |digits| <= |s| && s[start..start + |digits|] == digits && i <= |digits|
    requires !IsDigit(CharAt(s, start + |digits|))
    ensures ScanDecimals(s, start + i, NumberOf(digits[..i]), Tens(i))
         == Decimals(start + |digits|, NumberOf(digits), Tens(|digits|))
    decreases |digits| - i
  {
    if i < |digits| {
      assert s[start + i] == s[start..start + |digits|][i];
      assert digits[..i + 1][..i] == digits[..i];
      DecimalsAre(s, start, digits, i + 1);
    } else {
      assert digits[..i] == digits;
    }
  }

  /** The number a literal with a point spells. */
  function SignedReal(negative: bool, whole: int, fraction: real): real {
    if negative then -(whole as real + fraction) else whole as real + fraction
  }

  lemma ExactNumber(negative: bool, n: nat, part: nat, denominator: int)
    requires denominator > 0
    ensures var exact := n as real + part as real / denominator as real;
      SignedReal(negative, n, Fraction(part, denominator)) == if negative then -exact else exact
  {
  }

  /** When the sign, the float of the whole part and the fraction are put together rightly. */
  lemma WithFractionExact(negative: bool, w: Whole, n: nat, exactly: bool, opposite: bool, fraction: real)
    requires Became(w, n, exactly, opposite) && fraction >= 0.0
    ensures WithFraction(negative, WholeNumber(negative, w), fraction) == SignedReal(negative, n, fraction)
       <==> if n <= INT64_MAX then true
            else if n == INT64_MAX + 1 then negative
            else exactly || (negative && opposite)
  {
  }

  /** A literal with a point is a float whose value, rounding aside, is the number it spells if and only if
      its whole part is below 2^63, is 2^63 behind a minus sign, or has a float that is right: the number, or
      behind a minus sign also the opposite number, because a negative float is not turned again. */
  lemma {:induction false} PointLiteralValue(s: string, negative: bool, digits: string, decimals: string, tail: string)
    requires AllDigits(digits) && AllDigits(decimals) && (!negative ==> digits != "")
    requires s == (if negative then "-" else "") + digits + "." + decimals + tail && EndsNumber(CharAt(tail, 0))
    ensures s != "" && Parse(s).FloatToken? && Parse(s).length == |s| - |tail|
    ensures
      var n := NumberOf(digits);
      var exact := n as real + NumberOf(decimals) as real / Tens(|decimals|) as real;
      Parse(s).number == (if negative then -exact else exact)
      <==> if n <= INT64_MAX then true
           else if n == INT64_MAX + 1 then negative
           else FloatsExactly(digits) || (negative && ZeroesAfterLimit(digits))
  {
    hide ScanWhole, ScanDecimals, WithFraction, FloatsExactly, ZeroesAfterLimit, Fraction, Tens, NumberOf, WholeOf,
      WholeNumber, SignedReal;
    ExactNumber(negative, NumberOf(digits), NumberOf(decimals), Tens(|decimals|));
    var start := if negative then 1 else 0;
    WholeScanned(s, negative, digits, "." + decimals + tail);
    WholeBecame(digits);
    assert s[start + |digits| + 1..] == decimals + tail;
    DecimalsScanned(s, start + |digits| + 1, decimals, tail);
    WithFractionExact(negative, WholeOf(digits), NumberOf(digits), FloatsExactly(digits), ZeroesAfterLimit(digits),
                      Fraction(NumberOf(decimals), Tens(|decimals|)));
  }

  lemma NoDigits()
    ensures NumberOf("") == 0 && WholeOf("") == Int(0) && Tens(0) == 1
  {
  }

  // ---- What may stand behind a number ----

  /** The six blanks of the source. */
  const BLANKS: string := " \t\n\U{0B}\U{0C}\r"

  lemma BlankOrEnd(c: char)
    ensures IsSpace(c) <==> c in BLANKS
    ensures EndsNumber(c) <==> c in BLANKS || c == ';' || c == ',' || c == '\0'
  {
    assert BLANKS == [' ', '\t', '\n', '\U{0B}', '\U{0C}', '\r'];
  }

  /** What is found depends on the character behind the digits. */
  lemma {:induction false} NumberUpTo(s: string, negative: bool, digits: string, c: char, rest: string)
    requires AllDigits(digits) && (!negative ==> digits != "") && !IsDigit(c) && c != '.'
    requires s == (if negative then "-" else "") + digits + ([c] + rest)
    ensures s != ""
    ensures EndsNumber(c) ==> (Parse(s).IntToken? || Parse(s).FloatToken?) && Parse(s).length == |s| - |rest| - 1
    ensures !EndsNumber(c) ==> Parse(s) == NoNumber(NumLiteralInvalidChar, |s| - |rest| - 1)
  {
    hide ScanWhole, ScanDecimals, EndsNumber, WholeOf, AllDigits, IsDigit;
    WholeScanned(s, negative, digits, [c] + rest);
    assert s != "";
  }

  /** Digits in front of a character that is neither a digit nor a point are a number if and only if that is a
      blank, a semicolon, a comma or NUL; otherwise it is reported as an invalid character. */
  lemma {:induction false} NumberEndsExactly(s: string, negative: bool, digits: string, c: char, rest: string)
    requires (forall i :: 0 <= i < |digits| ==> '0' <= digits[i] <= '9') && (!negative ==> digits != "")
    requires !('0' <= c <= '9') && c != '.'
    requires s == (if negative then "-" else "") + digits + ([c] + rest)
    ensures s != ""
    ensures c in BLANKS || c == ';' || c == ',' || c == '\0' ==>
      (Parse(s).IntToken? || Parse(s).FloatToken?) && Parse(s).length == |s| - |rest| - 1
    ensures !(c in BLANKS || c == ';' || c == ',' || c == '\0') ==>
      Parse(s) == NoNumber(NumLiteralInvalidChar, |s| - |rest| - 1)
  {
    hide Parse, EndsNumber;
    BlankOrEnd(c);
    NumberUpTo(s, negative, digits, c, rest);
  }

  lemma {:induction false} DecimalsUpTo(s: string, negative: bool, digits: string, decimals: string, c: char,
                                        rest: string)
    requires AllDigits(digits) && AllDigits(decimals) && (!negative ==> digits != "") && !IsDigit(c)
    requires s == (if negative then "-" else "") + digits + "." + decimals + ([c] + rest)
    ensures s != ""
    ensures c == '.' ==> Parse(s) == NoNumber(NumLiteralTooManyDecimal, |s| - |rest| - 1)
    ensures c != '.' && EndsNumber(c) ==> Parse(s).FloatToken? && Parse(s).length == |s| - |rest| - 1
    ensures c != '.' && !EndsNumber(c) ==> Parse(s) == NoNumber(NumLiteralInvalidChar, |s| - |rest| - 1)
  {
    hide ScanWhole, ScanDecimals, EndsNumber, WithFraction, WholeNumber, Fraction, WholeOf, NumberOf, Tens, AllDigits;
    var start := if negative then 1 else 0;
    WholeScanned(s, negative, digits, "." + decimals + ([c] + rest));
    assert s[start + |digits| + 1..] == decimals + ([c] + rest);
    DecimalsScanned(s, start + |digits| + 1, decimals, [c] + rest);
  }

  /** The same for the decimals; a second point is an error of its own. */
  lemma {:induction false} DecimalsEndExactly(s: string, negative: bool, digits: string, decimals: string, c: char,
                                              rest: string)
    requires (forall i :: 0 <= i < |digits| ==> '0' <= digits[i] <= '9') && (!negative ==> digits != "")
    requires forall i :: 0 <= i < |decimals| ==> '0' <= decimals[i] <= '9'
    requires !('0' <= c <= '9')
    requires s == (if negative then "-" else "") + digits + "." + decimals + ([c] + rest)
    ensures s != ""
    ensures c in BLANKS || c == ';' || c == ',' || c == '\0' ==>
      Parse(s).FloatToken? && Parse(s).length == |s| - |rest| - 1
    ensures c == '.' ==> Parse(s) == NoNumber(NumLiteralTooManyDecimal, |s| - |rest| - 1)
    ensures c != '.' && !(c in BLANKS || c == ';' || c == ',' || c == '\0') ==>
      Parse(s) == NoNumber(NumLiteralInvalidChar, |s| - |rest| - 1)
  {
    hide Parse, EndsNumber;
    BlankOrEnd(c);
    PointIsNone();
    DecimalsUpTo(s, negative, digits, decimals, c, rest);
  }

  lemma PointIsNone()
    ensures '.' !in BLANKS
  {
  }

  // ---- Floats that are not their number ----

  /** The float a run of digits becomes at the digit with which it passes 2^63. */
  lemma {:induction false} FloatBegins(digits: string)
    requires AllDigits(digits) && digits != "" && NumberOf(digits) > INT64_MAX + 1
    requires NumberOf(digits[..|digits| - 1]) <= INT64_MAX + 1
    ensures var n, last := NumberOf(digits[..|digits| - 1]), Digit(digits[|digits| - 1]);
            WholeOf(digits) == Float(if n == INT64_MAX + 1 then 11 * last - 10 * n
                                     else if n == MAX_TENTH then NumberOf(digits)
                                     else NumberOf(digits) + 10 * last)
  {
    var front, last := digits[..|digits| - 1], Digit(digits[|digits| - 1]);
    WholeBecame(front);
    var n := NumberOf(front);
    MulOverflows(if n <= INT64_MAX then n else INT64_MIN);
    PassesLimit(n, last);
  }

  /** The digits of 2^63 with a 1 behind them come out negative, and of nineteen nines the last counts twice. */
  lemma {:induction false} WrongFloats(limit: string, nines: string)
    requires AllDigits(limit) && NumberOf(limit) == INT64_MAX + 1
    requires AllDigits(nines) && NumberOf(nines) == 999_999_999_999_999_999
    ensures Parse(limit + "1") == FloatToken(-92_233_720_368_547_758_069.0, |limit| + 1)
    ensures Parse(nines + "9") == FloatToken(10_000_000_000_000_000_089.0, |nines| + 1)
  {
    hide WholeOf;
    NoDigits();
    WrongFloat(limit, '1');
    WrongFloat(nines, '9');
  }

  lemma {:induction false} WrongFloat(front: string, last: char)
    requires AllDigits(front) && front != "" && IsDigit(last) && MAX_TENTH < NumberOf(front) <= INT64_MAX + 1
    ensures var d := Digit(last);
            Parse(front + [last]) == FloatToken((if NumberOf(front) == INT64_MAX + 1 then 11 * d - 10 * NumberOf(front)
                                                 else 10 * NumberOf(front) + 11 * d) as real, |front| + 1)
  {
    var digits := front + [last];
    assert digits[..|front|] == front && digits[..0] == "" && digits[0..|digits|] == digits;
    NumberStep(front, last);
    FloatBegins(digits);
    hide AddDigit, WholeOf, NumberOf;
    NoDigits();
    ScanIs(digits, 0, digits, 0);
    assert digits[0] == front[0];
  }

  lemma NumberStep(front: string, last: char)
    requires AllDigits(front) && IsDigit(last)
    ensures AllDigits(front + [last]) && NumberOf(front + [last]) == 10 * NumberOf(front) + Digit(last)
  {
    assert (front + [last])[..|front|] == front;
  }
}
