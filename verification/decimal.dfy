/**
 * Decimal text of finite numbers: `Number.prototype.toFixed`, the regular-expression
 * clean-ups the recipe code applies to its output, and a decimal reader that recovers
 * the number a rendering denotes (the partner every rendering is checked against).
 *
 * `toFixed` switches to exponent notation for magnitudes of 1e21 and above; the
 * model always writes plain digits.
 */
module Decimal {
  import opened Wrappers
  import opened Text
  import opened JsNumbers

  function Pow10(k: nat): (r: nat)
    ensures r >= 1
  {
    if k == 0 then 1 else 10 * Pow10(k - 1)
  }

  lemma PowAdd(a: nat, b: nat)
    ensures Pow10(a + b) == Pow10(a) * Pow10(b)
  {
    if b > 0 {
      PowAdd(a, b - 1);
    }
  }

  predicate AllZeros(s: string) {
    forall i :: 0 <= i < |s| ==> s[i] == '0'
  }

  function Zeros(k: nat): (r: string)
    ensures |r| == k && AllDigits(r) && AllZeros(r)
  {
    seq(k, i => '0')
  }

  /** A decimal number as text writes it: `units / 10^scale`, negated when `negative`. */
  datatype Dec = Dec(negative: bool, units: nat, scale: nat) {

    function Value(): real {
      var m := units as real / Pow10(scale) as real;
      if negative then -m else m
    }
  }

  /*
   * Reading decimal text back.
   */

  /** Unsigned decimal text `digits` or `digits.digits` (the fraction may be empty). */
  function ParseUnsigned(s: string): (r: Option<Dec>)
    ensures r.Some? ==> !r.value.negative
  {
    match IndexOfChar(s, '.')
    case None =>
      if |s| > 0 && AllDigits(s) then Some(Dec(false, DigitsValue(s), 0)) else None
    case Some(p) =>
      var whole := s[..p];
      var frac := s[p + 1..];
      if |whole| > 0 && AllDigits(whole) && AllDigits(frac)
      then Some(Dec(false, DigitsValue(whole + frac), |frac|))
      else None
  }

  /** Decimal text with an optional leading minus sign. */
  function ParseDecimal(s: string): Option<Dec> {
    if |s| > 0 && s[0] == '-' then
      match ParseUnsigned(s[1..])
      case Some(d) => Some(d.(negative := true))
      case None => None
    else ParseUnsigned(s)
  }

  /** Both texts read back, as the same number. */
  predicate SameNumber(a: Option<Dec>, b: Option<Dec>) {
    a.Some? && b.Some? && a.value.Value() == b.value.Value()
  }

  /** Text of the shape `sign digits . digits`, which every `toFixed` with decimals produces. */
  predicate PointForm(s: string, sign: string, whole: string, frac: string) {
    && (sign == "" || sign == "-")
    && |whole| > 0 && AllDigits(whole) && AllDigits(frac)
    && s == sign + whole + "." + frac
  }

  /** Appending a digit `d` to `x` followed by a `p`-scaled tail `y`. */
  lemma ShiftDigit(x: int, p: int, y: int, d: int)
    ensures (x * p + y) * 10 + d == x * (10 * p) + (y * 10 + d)
  {
  }

  lemma DigitsValueConcat(a: string, b: string)
    requires AllDigits(a) && AllDigits(b)
    ensures AllDigits(a + b)
    ensures DigitsValue(a + b) == DigitsValue(a) * Pow10(|b|) + DigitsValue(b)
    decreases |b|
  {
    if |b| > 0 {
      var b' := b[..|b| - 1];
      assert (a + b)[..|a + b| - 1] == a + b';
      DigitsValueConcat(a, b');
      ShiftDigit(DigitsValue(a), Pow10(|b'|), DigitsValue(b'), DigitValue(b[|b| - 1]));
    } else {
      assert a + b == a;
    }
  }

  lemma DigitsValueZeros(z: string)
    requires AllZeros(z)
    ensures AllDigits(z) && DigitsValue(z) == 0
    decreases |z|
  {
    if |z| > 0 {
      DigitsValueZeros(z[..|z| - 1]);
    }
  }

  /** Appending zeros multiplies the digits' value by a power of ten. */
  lemma ZeroTailValue(a: string, z: string)
    requires AllDigits(a) && AllZeros(z)
    ensures AllDigits(a + z)
    ensures DigitsValue(a + z) == DigitsValue(a) * Pow10(|z|)
  {
    DigitsValueZeros(z);
    DigitsValueConcat(a, z);
  }

  /** Scaling units and scale together by `10^k` denotes the same number. */
  lemma ScaleDec(negative: bool, u: nat, s: nat, k: nat)
    ensures Dec(negative, u * Pow10(k), s + k).Value() == Dec(negative, u, s).Value()
  {
    PowAdd(s, k);
    ScaleFraction(u, Pow10(s), Pow10(k));
  }

  lemma ScaleFraction(a: nat, p: nat, q: nat)
    requires p >= 1 && q >= 1
    ensures (a * q) as real / (p * q) as real == a as real / p as real
  {
    assert (a * q) as real == a as real * q as real;
    assert (p * q) as real == p as real * q as real;
  }

  lemma ParseWholeOnly(s: string)
    requires |s| > 0 && AllDigits(s)
    ensures ParseUnsigned(s) == Some(Dec(false, DigitsValue(s), 0))
  {
    assert forall k :: 0 <= k < |s| ==> s[k] != '.';
  }

  lemma ParsePointForm(whole: string, frac: string)
    requires |whole| > 0 && AllDigits(whole) && AllDigits(frac)
    ensures ParseUnsigned(whole + "." + frac) == Some(Dec(false, DigitsValue(whole + frac), |frac|))
  {
    var s := whole + "." + frac;
    assert s[|whole|] == '.';
    forall k | 0 <= k < |whole|
      ensures s[k] != '.'
    {
      assert s[k] == whole[k];
    }
    assert IndexOfChar(s, '.') == Some(|whole|);
    assert s[..|whole|] == whole;
    assert s[|whole| + 1..] == frac;
  }

  /** A sign in front of unsigned text that starts with a digit. */
  lemma ParseSigned(sign: string, body: string, d: Dec)
    requires sign == "" || sign == "-"
    requires |body| > 0 && IsDigit(body[0])
    requires ParseUnsigned(body) == Some(d)
    ensures ParseDecimal(sign + body) == Some(d.(negative := sign == "-"))
  {
    if sign == "-" {
      assert (sign + body)[1..] == body;
    } else {
      assert sign + body == body;
    }
  }

  /** The text `Number.prototype.toString` writes for an integer reads back as that integer. */
  lemma ParseIntToString(i: int)
    ensures ParseDecimal(IntToString(i)).Some?
    ensures ParseDecimal(IntToString(i)).value.Value() == i as real
  {
    var n := if i < 0 then -i else i;
    var digits := NatToString(n);
    ParseWholeOnly(digits);
    ParseSigned(if i < 0 then "-" else "", digits, Dec(false, n, 0));
    assert IntToString(i) == (if i < 0 then "-" else "") + digits;
    assert Pow10(0) == 1;
  }

  /*
   * Number.prototype.toFixed.
   */

  /** The digits of `n`, padded with leading zeros to more than `f` digits. */
  function Padded(n: nat, f: nat): (r: string)
    ensures |r| > f && AllDigits(r) && DigitsValue(r) == n
  {
    var m := NatToString(n);
    if |m| <= f then
      DigitsValueZeros(Zeros(f + 1 - |m|));
      DigitsValueConcat(Zeros(f + 1 - |m|), m);
      Zeros(f + 1 - |m|) + m
    else m
  }

  /** The digits before the point in the `toFixed(f)` text of `n / 10^f`. */
  function FixedWhole(n: nat, f: nat): string {
    var m := Padded(n, f);
    m[..|m| - f]
  }

  /** The `f` digits after the point in the `toFixed(f)` text of `n / 10^f`. */
  function FixedFrac(n: nat, f: nat): string {
    var m := Padded(n, f);
    m[|m| - f..]
  }

  /** The digits of `n` with a decimal point inserted before the last `f` of them. */
  function FixedPoint(n: nat, f: nat): string {
    if f == 0 then NatToString(n) else FixedWhole(n, f) + "." + FixedFrac(n, f)
  }

  /** The two digit runs around the point hold the digits of `n`, `f` of them after the point. */
  lemma FixedSplit(n: nat, f: nat)
    ensures |FixedWhole(n, f)| > 0 && AllDigits(FixedWhole(n, f))
    ensures |FixedFrac(n, f)| == f && AllDigits(FixedFrac(n, f))
    ensures DigitsValue(FixedWhole(n, f) + FixedFrac(n, f)) == n
  {
    assert FixedWhole(n, f) + FixedFrac(n, f) == Padded(n, f);
  }

  /** The integer `toFixed(f)` rounds `|x| * 10^f` to: the nearest one, the larger on a tie. */
  function FixedUnits(x: real, f: nat): nat {
    var n := Round(Abs(x) * Pow10(f) as real);
    if n < 0 then 0 else n
  }

  /** The sign `toFixed` writes in front of the digits. */
  function SignOf(x: real): string {
    if x < 0.0 then "-" else ""
  }

  /** `x.toFixed(f)`. */
  function ToFixed(x: real, f: nat): (r: string)
    ensures |r| > 0
  {
    SignOf(x) + FixedPoint(FixedUnits(x, f), f)
  }

  /** The number `x.toFixed(f)` writes. */
  function FixedDec(x: real, f: nat): Dec {
    Dec(x < 0.0, FixedUnits(x, f), f)
  }

  /** The value of `x.toFixed(f)`: `x` rounded to `f` decimals, halves away from zero. */
  function FixedValue(x: real, f: nat): real {
    FixedDec(x, f).Value()
  }

  /** `x.toFixed(2)` is off from `x` by at most half a hundredth. */
  lemma FixedValueClose2(x: real)
    ensures Abs(FixedValue(x, 2) - x) <= 0.005
  {
    assert Pow10(2) == 100;
    var n := FixedUnits(x, 2) as real;
    assert Abs(x) * 100.0 - 0.5 < n <= Abs(x) * 100.0 + 0.5;
    assert FixedValue(x, 2) == if x < 0.0 then -(n / 100.0) else n / 100.0;
  }

  /** The unsigned digits `toFixed` writes read back as `n / 10^f`. */
  lemma ParseFixedPoint(n: nat, f: nat)
    ensures |FixedPoint(n, f)| > 0 && IsDigit(FixedPoint(n, f)[0])
    ensures ParseUnsigned(FixedPoint(n, f)) == Some(Dec(false, n, f))
  {
    var body := FixedPoint(n, f);
    if f == 0 {
      ParseWholeOnly(body);
    } else {
      var whole, frac := FixedWhole(n, f), FixedFrac(n, f);
      FixedSplit(n, f);
      assert body[0] == whole[0];
      ParsePointForm(whole, frac);
    }
  }

  /** Reading `x.toFixed(f)` back gives `x` rounded to `f` decimals. */
  lemma ParseToFixed(x: real, f: nat)
    ensures ParseDecimal(ToFixed(x, f)) == Some(FixedDec(x, f))
    ensures ParseDecimal(ToFixed(x, f)).value.Value() == FixedValue(x, f)
  {
    var n := FixedUnits(x, f);
    ParseFixedPoint(n, f);
    ParseSigned(SignOf(x), FixedPoint(n, f), Dec(false, n, f));
  }

  /** A whole number is written exactly by `toFixed(0)`. */
  lemma FixedValueExact0(x: real)
    requires IsIntegral(x)
    ensures FixedValue(x, 0) == x
  {
    assert Pow10(0) == 1;
    RoundWhole(Abs(x), x.Floor);
  }

  /** A number with at most one decimal is written exactly by `toFixed(1)`. */
  lemma FixedValueExact1(x: real)
    requires IsIntegral(x * 10.0)
    ensures FixedValue(x, 1) == x
  {
    assert Pow10(1) == 10;
    RoundWhole(Abs(x) * 10.0, (x * 10.0).Floor);
  }

  /** A number with at most two decimals is written exactly by `toFixed(2)`. */
  lemma FixedValueExact2(x: real)
    requires IsIntegral(x * 100.0)
    ensures FixedValue(x, 2) == x
  {
    assert Pow10(2) == 100;
    RoundWhole(Abs(x) * 100.0, (x * 100.0).Floor);
  }

  /** `Math.round` keeps `a` when it is the magnitude of the integer `k`. */
  lemma RoundWhole(a: real, k: int)
    requires a == k as real || a == -k as real
    requires a >= 0.0
    ensures Round(a) as real == a
  {
    var n := if k < 0 then -k else k;
    assert a == n as real;
    RoundUnique(a, n);
  }

  /** With decimals, `toFixed` writes a sign, digits, a point and exactly `f` digits. */
  lemma ToFixedShape(x: real, f: nat)
    requires f > 0
    ensures var n := FixedUnits(x, f);
      PointForm(ToFixed(x, f), SignOf(x), FixedWhole(n, f), FixedFrac(n, f)) && |FixedFrac(n, f)| == f
  {
    var n := FixedUnits(x, f);
    FixedSplit(n, f);
    var sign, whole, frac := SignOf(x), FixedWhole(n, f), FixedFrac(n, f);
    assert FixedPoint(n, f) == whole + "." + frac;
    assert ToFixed(x, f) == sign + (whole + "." + frac);
    assert sign + (whole + "." + frac) == sign + whole + "." + frac;
  }

  /*
   * The regular-expression replacements applied to `toFixed` output.
   */

  /** Where the run of trailing '0' characters of `s` starts (`|s|` when there is none). */
  function TrailingZerosStart(s: string): (j: nat)
    ensures j <= |s|
    ensures forall k :: j <= k < |s| ==> s[k] == '0'
    ensures j > 0 ==> s[j - 1] != '0'
    decreases |s|
  {
    if |s| > 0 && s[|s| - 1] == '0' then TrailingZerosStart(s[..|s| - 1]) else |s|
  }

  lemma TrailingZerosStartUnique(s: string, j: nat)
    requires j <= |s|
    requires forall k :: j <= k < |s| ==> s[k] == '0'
    requires j > 0 ==> s[j - 1] != '0'
    ensures TrailingZerosStart(s) == j
    decreases |s|
  {
    if j < |s| {
      TrailingZerosStartUnique(s[..|s| - 1], j);
    }
  }

  /** `s.replace(/\.?0+$/, "")`: drop the trailing zeros, and the point before them if they follow it. */
  function StripZerosAndPoint(s: string): string {
    var j := TrailingZerosStart(s);
    if j == |s| then s
    else if j > 0 && s[j - 1] == '.' then s[..j - 1]
    else s[..j]
  }

  /** `s.replace(/0+$/, "")`. */
  function StripZeroRun(s: string): string {
    s[..TrailingZerosStart(s)]
  }

  /** `s.replace(/\.$/, "")`. */
  function StripFinalPoint(s: string): string {
    if |s| > 0 && s[|s| - 1] == '.' then s[..|s| - 1] else s
  }

  /** `s.replace(/\.0$/, "")`. */
  function StripPointZero(s: string): string {
    if |s| >= 2 && s[|s| - 2..] == ".0" then s[..|s| - 2] else s
  }

  /** No trailing zero after a decimal point, and no bare point at the end. */
  predicate NoTrailingFractionZeros(s: string) {
    '.' in s ==> s[|s| - 1] != '0' && s[|s| - 1] != '.'
  }

  /** On the point form with a non-empty fraction, `/\.?0+$/` keeps the fraction up to its last
      non-zero digit, dropping the point when none is left; the two-step `/0+$/` then `/\.$/`
      does the same. */
  lemma StripPointForm(s: string, sign: string, whole: string, frac: string)
    requires PointForm(s, sign, whole, frac) && |frac| > 0
    ensures var t := TrailingZerosStart(frac);
      StripZerosAndPoint(s) == (if t == 0 then sign + whole else sign + whole + "." + frac[..t])
    ensures StripFinalPoint(StripZeroRun(s)) == StripZerosAndPoint(s)
  {
    var prefix := sign + whole + ".";
    assert s == prefix + frac;
    TrailingZerosAfter(prefix, frac);
    if TrailingZerosStart(frac) == 0 {
      StripAtPoint(prefix, frac);
      assert prefix[..|prefix| - 1] == sign + whole;
    } else {
      StripInFraction(prefix, frac);
    }
  }

  /** The trailing zeros of `prefix + frac` all lie in `frac` when `prefix` does not end in '0'. */
  lemma {:induction false} TrailingZerosAfter(prefix: string, frac: string)
    requires |prefix| > 0 && prefix[|prefix| - 1] != '0'
    ensures TrailingZerosStart(prefix + frac) == |prefix| + TrailingZerosStart(frac)
    decreases |frac|
  {
    if |frac| > 0 && frac[|frac| - 1] == '0' {
      var s := prefix + frac;
      assert s[..|s| - 1] == prefix + frac[..|frac| - 1];
      TrailingZerosAfter(prefix, frac[..|frac| - 1]);
    }
  }

  /** Only zeros after the point: both clean-ups cut the point and the zeros. */
  lemma StripAtPoint(prefix: string, frac: string)
    requires |prefix| > 0 && prefix[|prefix| - 1] == '.' && |frac| > 0
    requires TrailingZerosStart(frac) == 0
    requires TrailingZerosStart(prefix + frac) == |prefix|
    ensures StripZerosAndPoint(prefix + frac) == prefix[..|prefix| - 1]
    ensures StripFinalPoint(StripZeroRun(prefix + frac)) == prefix[..|prefix| - 1]
  {
    var s := prefix + frac;
    assert s[|prefix| - 1] == '.';
    assert s[..|prefix|] == prefix;
    assert s[..|prefix| - 1] == prefix[..|prefix| - 1];
  }

  /** A non-zero digit after the point: both clean-ups keep the fraction up to the last one. */
  lemma StripInFraction(prefix: string, frac: string)
    requires |prefix| > 0 && AllDigits(frac)
    requires 0 < TrailingZerosStart(frac)
    requires TrailingZerosStart(prefix + frac) == |prefix| + TrailingZerosStart(frac)
    ensures var t := TrailingZerosStart(frac);
      StripZerosAndPoint(prefix + frac) == prefix + frac[..t]
      && StripFinalPoint(StripZeroRun(prefix + frac)) == prefix + frac[..t]
  {
    var s := prefix + frac;
    var t := TrailingZerosStart(frac);
    assert s[|prefix| + t - 1] == frac[t - 1];
    assert s[..|prefix| + t] == prefix + frac[..t];
    assert (prefix + frac[..t])[|prefix| + t - 1] == frac[t - 1];
    if t == |frac| {
      assert frac[..t] == frac;
    }
  }

  lemma NoPointIn(sign: string, whole: string)
    requires sign == "" || sign == "-"
    requires AllDigits(whole)
    ensures '.' !in sign + whole
  {
    forall k | 0 <= k < |sign + whole|
      ensures (sign + whole)[k] != '.'
    {
      if k >= |sign| {
        assert (sign + whole)[k] == whole[k - |sign|];
      }
    }
  }

  /** The `/\.?0+$/` clean-up of the point form keeps the number and leaves no trailing zero
      after the point. */
  lemma StripKeepsValue(s: string, sign: string, whole: string, frac: string)
    requires PointForm(s, sign, whole, frac) && |frac| > 0
    ensures SameNumber(ParseDecimal(StripZerosAndPoint(s)), ParseDecimal(s))
    ensures NoTrailingFractionZeros(StripZerosAndPoint(s))
    ensures |StripZerosAndPoint(s)| > 0
  {
    var t := TrailingZerosStart(frac);
    StripPointForm(s, sign, whole, frac);
    ParsePoint(s, sign, whole, frac);
    TrailingZerosValue(sign == "-", whole, frac);
    if t == 0 {
      StripToWhole(sign, whole);
      assert whole + frac[..t] == whole;
    } else {
      StripToShorterFraction(sign, whole, frac[..t]);
    }
  }

  /** The clean-up never adds digits after the point. */
  lemma StripKeepsScale(s: string, sign: string, whole: string, frac: string)
    requires PointForm(s, sign, whole, frac) && |frac| > 0
    ensures ParseDecimal(StripZerosAndPoint(s)).Some?
    ensures ParseDecimal(StripZerosAndPoint(s)).value.scale <= |frac|
  {
    var t := TrailingZerosStart(frac);
    StripPointForm(s, sign, whole, frac);
    if t == 0 {
      StripToWhole(sign, whole);
    } else {
      StripToShorterFraction(sign, whole, frac[..t]);
    }
  }

  /** Text of the point form reads back as its digits over `10^|frac|`. */
  lemma ParsePoint(s: string, sign: string, whole: string, frac: string)
    requires PointForm(s, sign, whole, frac)
    ensures ParseDecimal(s) == Some(Dec(sign == "-", DigitsValue(whole + frac), |frac|))
  {
    PointBody(s, sign, whole, frac);
    ParsePointForm(whole, frac);
    ParseSigned(sign, whole + "." + frac, Dec(false, DigitsValue(whole + frac), |frac|));
  }

  lemma PointBody(s: string, sign: string, whole: string, frac: string)
    requires PointForm(s, sign, whole, frac)
    ensures s == sign + (whole + "." + frac)
    ensures IsDigit((whole + "." + frac)[0])
  {
    assert (whole + "." + frac)[0] == whole[0];
  }

  /** Dropping the trailing zeros of the fraction denotes the same number. */
  lemma TrailingZerosValue(negative: bool, whole: string, frac: string)
    requires AllDigits(whole) && AllDigits(frac)
    ensures var t := TrailingZerosStart(frac);
      Dec(negative, DigitsValue(whole + frac), |frac|).Value()
      == Dec(negative, DigitsValue(whole + frac[..t]), t).Value()
  {
    var t := TrailingZerosStart(frac);
    var head, tail := whole + frac[..t], frac[t..];
    assert whole + frac == head + tail;
    ZeroTailValue(head, tail);
    ScaleDec(negative, DigitsValue(head), t, |tail|);
  }

  /** A fraction of zeros only: the clean-up leaves `sign whole`. */
  lemma StripToWhole(sign: string, whole: string)
    requires sign == "" || sign == "-"
    requires |whole| > 0 && AllDigits(whole)
    ensures ParseDecimal(sign + whole) == Some(Dec(sign == "-", DigitsValue(whole), 0))
    ensures NoTrailingFractionZeros(sign + whole) && |sign + whole| > 0
  {
    ParseWholeOnly(whole);
    ParseSigned(sign, whole, Dec(false, DigitsValue(whole), 0));
    NoPointIn(sign, whole);
  }

  /** Some non-zero fraction digit: the clean-up keeps the fraction up to it. */
  lemma StripToShorterFraction(sign: string, whole: string, head: string)
    requires sign == "" || sign == "-"
    requires |whole| > 0 && AllDigits(whole)
    requires |head| > 0 && AllDigits(head) && head[|head| - 1] != '0'
    ensures var r := sign + whole + "." + head;
      ParseDecimal(r) == Some(Dec(sign == "-", DigitsValue(whole + head), |head|))
      && NoTrailingFractionZeros(r) && |r| > 0
  {
    var r := sign + whole + "." + head;
    PointBody(r, sign, whole, head);
    ParsePointForm(whole, head);
    ParseSigned(sign, whole + "." + head, Dec(false, DigitsValue(whole + head), |head|));
    LastDigit(r, sign + whole + ".", head);
  }

  /** Text that ends with a fraction whose last digit is not 0 has no trailing fraction zeros. */
  lemma LastDigit(s: string, prefix: string, tail: string)
    requires s == prefix + tail
    requires |tail| > 0 && tail[|tail| - 1] != '0' && IsDigit(tail[|tail| - 1])
    ensures NoTrailingFractionZeros(s) && |s| > 0
  {
    assert s[|s| - 1] == tail[|tail| - 1];
  }

  /** `/\.0$/` on the point form with one decimal keeps the number. */
  lemma StripPointZeroKeepsValue(s: string, sign: string, whole: string, frac: string)
    requires PointForm(s, sign, whole, frac) && |frac| == 1
    ensures SameNumber(ParseDecimal(StripPointZero(s)), ParseDecimal(s))
  {
    ParsePoint(s, sign, whole, frac);
    if StripPointZero(s) != s {
      PointZeroTail(s, sign, whole, frac);
      ZeroTailValue(whole, frac);
      ScaleDec(sign == "-", DigitsValue(whole), 0, 1);
      StripToWhole(sign, whole);
    }
  }

  /** When `/\.0$/` applies to the point form, it cuts the point and a lone zero. */
  lemma PointZeroTail(s: string, sign: string, whole: string, frac: string)
    requires PointForm(s, sign, whole, frac) && |frac| == 1
    requires StripPointZero(s) != s
    ensures AllZeros(frac) && StripPointZero(s) == sign + whole
  {
    assert s[|s| - 1] == frac[0];
    assert s[..|s| - 2] == sign + whole;
  }
}
