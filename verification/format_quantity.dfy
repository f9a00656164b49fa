/**
 * `formatQuantity` (lib/format-quantity.ts): the text an ingredient amount is shown with
 * once it has been multiplied by the serving scale.  Whole numbers are written as integers,
 * amounts whose fractional part lies close to a common kitchen fraction as a mixed number,
 * and everything else as a decimal with at most two places.
 */
module QuantityFormat {
  import opened Wrappers
  import opened Text
  import opened JsNumbers
  import opened Decimal

  /** The common fractions, in the order the scan visits them: anchor value and display text. */
  const Fractions: seq<(real, string)> := [
    (0.125, "1/8"), (0.25, "1/4"), (0.333, "1/3"), (0.375, "3/8"), (0.5, "1/2"),
    (0.625, "5/8"), (0.666, "2/3"), (0.75, "3/4"), (0.875, "7/8")
  ]

  /** How far a fractional part lies from the anchor of fraction `i`. */
  function Diff(dec: real, i: nat): real
    requires i < |Fractions|
  {
    Abs(dec - Fractions[i].0)
  }

  /** Fraction `i` is a candidate: its anchor lies strictly within 0.05. */
  predicate Near(dec: real, i: nat)
    requires i < |Fractions|
  {
    Diff(dec, i) < 0.05
  }

  /** No fraction's anchor lies within 0.05 of `dec`. */
  predicate NoneNear(dec: real) {
    forall j: nat :: j < |Fractions| ==> !Near(dec, j)
  }

  /** The reference choice: fraction `i` is a candidate, no candidate is closer, and every
      earlier candidate is strictly farther (ties go to the earlier entry). */
  predicate IsClosest(dec: real, i: nat) {
    && i < |Fractions|
    && Near(dec, i)
    && (forall j: nat :: j < |Fractions| && Near(dec, j) ==> Diff(dec, i) <= Diff(dec, j))
    && (forall j: nat :: j < i && Near(dec, j) ==> Diff(dec, i) < Diff(dec, j))
  }

  /** The closest-fraction loop from entry `k` on, with the best entry so far (`None` while
      `closestFraction` is still the empty string) and its distance `closestDiff`. */
  function Scan(dec: real, k: nat, closest: Option<nat>, closestDiff: real): Option<nat>
    requires k <= |Fractions|
    decreases |Fractions| - k
  {
    if k == |Fractions| then closest
    else
      var diff := Diff(dec, k);
      if diff < closestDiff && diff < 0.05 then Scan(dec, k + 1, Some(k), diff)
      else Scan(dec, k + 1, closest, closestDiff)
  }

  /** What the loop knows after visiting the entries before `k`. */
  predicate ScanInvariant(dec: real, k: nat, closest: Option<nat>, closestDiff: real) {
    && k <= |Fractions|
    && (closest.None? ==> closestDiff == 1.0 && forall j: nat :: j < k ==> !Near(dec, j))
    && (closest.Some? ==>
      && closest.value < k
      && Near(dec, closest.value)
      && closestDiff == Diff(dec, closest.value)
      && (forall j: nat :: j < k && Near(dec, j) ==> closestDiff <= Diff(dec, j))
      && (forall j: nat :: j < closest.value && Near(dec, j) ==> closestDiff < Diff(dec, j)))
  }

  /** The loop finds the reference choice, and finds nothing exactly when no fraction is near. */
  lemma {:induction false} ScanFindsClosest(dec: real, k: nat, closest: Option<nat>, closestDiff: real)
    requires ScanInvariant(dec, k, closest, closestDiff)
    ensures var r := Scan(dec, k, closest, closestDiff);
      && (r.Some? ==> IsClosest(dec, r.value))
      && (r.None? <==> NoneNear(dec))
    decreases |Fractions| - k
  {
    if k < |Fractions| {
      var diff := Diff(dec, k);
      if diff < closestDiff && diff < 0.05 {
        TakeKeepsInvariant(dec, k, closest, closestDiff);
        ScanFindsClosest(dec, k + 1, Some(k), diff);
      } else {
        SkipKeepsInvariant(dec, k, closest, closestDiff);
        ScanFindsClosest(dec, k + 1, closest, closestDiff);
      }
    } else {
      ScanDone(dec, closest, closestDiff);
    }
  }

  /** Entry `k` beats the best so far: it becomes the best. */
  lemma TakeKeepsInvariant(dec: real, k: nat, closest: Option<nat>, closestDiff: real)
    requires ScanInvariant(dec, k, closest, closestDiff) && k < |Fractions|
    requires Diff(dec, k) < closestDiff && Diff(dec, k) < 0.05
    ensures ScanInvariant(dec, k + 1, Some(k), Diff(dec, k))
  {
  }

  /** Entry `k` does not beat the best so far: the best stays. */
  lemma SkipKeepsInvariant(dec: real, k: nat, closest: Option<nat>, closestDiff: real)
    requires ScanInvariant(dec, k, closest, closestDiff) && k < |Fractions|
    requires !(Diff(dec, k) < closestDiff && Diff(dec, k) < 0.05)
    ensures ScanInvariant(dec, k + 1, closest, closestDiff)
  {
  }

  /** After the last entry the invariant is the reference choice. */
  lemma ScanDone(dec: real, closest: Option<nat>, closestDiff: real)
    requires ScanInvariant(dec, |Fractions|, closest, closestDiff)
    ensures closest.Some? ==> IsClosest(dec, closest.value)
    ensures closest.None? <==> NoneNear(dec)
  {
  }

  /** The fraction `formatQuantity` settles on for a fractional part `dec`. */
  function ClosestFraction(dec: real): (r: Option<nat>)
    ensures r.Some? ==> IsClosest(dec, r.value)
    ensures r.None? <==> NoneNear(dec)
  {
    ScanFindsClosest(dec, 0, None, 1.0);
    Scan(dec, 0, None, 1.0)
  }

  /** At most one fraction is the reference choice. */
  lemma ClosestUnique(dec: real, i: nat, j: nat)
    requires IsClosest(dec, i) && IsClosest(dec, j)
    ensures i == j
  {
    assert Diff(dec, i) <= Diff(dec, j) && Diff(dec, j) <= Diff(dec, i);
  }

  /** `formatQuantity` of a finite product `scaled`. */
  function FormatFinite(scaled: real): string {
    if scaled == 0.0 then ""
    else if IsIntegral(scaled) then IntToString(scaled.Floor)
    else
      var wholePart := scaled.Floor;
      var decimalPart := scaled - wholePart as real;
      match ClosestFraction(decimalPart)
      case Some(i) =>
        if wholePart == 0 then Fractions[i].1 else IntToString(wholePart) + " " + Fractions[i].1
      case None => StripZerosAndPoint(ToFixed(scaled, 2))
  }

  /** `formatQuantity(quantity, scale)`.  A non-finite product is neither an integer nor near a
      fraction (its fractional part is NaN), and `toFixed` writes it as its name. */
  function FormatQuantity(quantity: JsNumber, scale: JsNumber): (r: string)
    ensures r == "" <==> Mul(quantity, scale) == Finite(0.0)
  {
    var scaled := Mul(quantity, scale);
    match scaled
    case Finite(x) =>
      FormatNonEmpty(x);
      FormatFinite(x)
    case _ => NonFiniteText(scaled)
  }

  /** Only zero is shown as the empty string. */
  lemma FormatNonEmpty(x: real)
    ensures FormatFinite(x) == "" <==> x == 0.0
  {
    if x != 0.0 && !IsIntegral(x) {
      match ClosestFraction(x - x.Floor as real)
      case Some(i) =>
        FormatMixed(x, i);
        assert |Fractions[i].1| > 0;
      case None =>
        DecimalTextNonEmpty(x);
    }
  }

  /** The decimal fallback never strips `toFixed(2)` text down to nothing. */
  lemma DecimalTextNonEmpty(x: real)
    requires !IsIntegral(x)
    requires ClosestFraction(x - x.Floor as real).None?
    ensures |FormatFinite(x)| > 0
  {
    var n := FixedUnits(x, 2);
    var text := ToFixed(x, 2);
    ToFixedShape(x, 2);
    StripKeepsValue(text, SignOf(x), FixedWhole(n, 2), FixedFrac(n, 2));
    assert FormatFinite(x) == StripZerosAndPoint(text);
  }

  /** A non-zero whole amount is written as the integer, and reads back as exactly `x`. */
  lemma FormatWhole(x: real)
    requires x != 0.0 && IsIntegral(x)
    ensures FormatFinite(x) == IntToString(x.Floor)
    ensures ParseDecimal(FormatFinite(x)).Some?
    ensures ParseDecimal(FormatFinite(x)).value.Value() == x
  {
    ParseIntToString(x.Floor);
  }

  /** An amount whose fractional part is near a common fraction, `i` being the one the scan
      chooses, is written as the whole part (left out when it is 0) followed by fraction `i`,
      which is the reference choice, and the mixed number it names lies within 0.05 of `x`. */
  lemma FormatMixed(x: real, i: nat)
    requires !IsIntegral(x)
    requires ClosestFraction(x - x.Floor as real) == Some(i)
    ensures IsClosest(x - x.Floor as real, i)
    ensures FormatFinite(x) == (if x.Floor == 0 then "" else IntToString(x.Floor) + " ") + Fractions[i].1
    ensures Abs(x.Floor as real + Fractions[i].0 - x) < 0.05
  {
  }

  /** Otherwise the amount is written as decimal text that reads back as `x` rounded to two
      decimals (halves away from zero, as `toFixed(2)` rounds), so within 0.005 of `x`, with at
      most two digits after its point and no trailing zero there. */
  lemma FormatDecimal(x: real)
    requires !IsIntegral(x)
    requires ClosestFraction(x - x.Floor as real).None?
    ensures NoneNear(x - x.Floor as real)
    ensures ParseDecimal(FormatFinite(x)).Some?
    ensures ParseDecimal(FormatFinite(x)).value.Value() == FixedValue(x, 2)
    ensures ParseDecimal(FormatFinite(x)).value.scale <= 2
    ensures Abs(ParseDecimal(FormatFinite(x)).value.Value() - x) <= 0.005
    ensures NoTrailingFractionZeros(FormatFinite(x))
  {
    var n := FixedUnits(x, 2);
    ToFixedShape(x, 2);
    StripKeepsValue(ToFixed(x, 2), SignOf(x), FixedWhole(n, 2), FixedFrac(n, 2));
    StripKeepsScale(ToFixed(x, 2), SignOf(x), FixedWhole(n, 2), FixedFrac(n, 2));
    ParseToFixed(x, 2);
    FixedValueClose2(x);
  }

  /** A third written to three places is shown as "1/3". */
  lemma FormatOneThird()
    ensures FormatQuantity(Finite(0.333), Finite(1.0)) == "1/3"
  {
    assert (0.333).Floor == 0;
    assert IsClosest(0.333, 2);
    ClosestUniqueAt(0.333, 2);
  }

  /** One and a half is shown as a mixed number. */
  lemma FormatOneAndAHalf()
    ensures FormatQuantity(Finite(0.75), Finite(2.0)) == "1 1/2"
  {
    assert Mul(Finite(0.75), Finite(2.0)) == Finite(1.5);
    FormatOneAndAHalfFinite();
  }

  lemma FormatOneAndAHalfFinite()
    ensures FormatFinite(1.5) == "1 1/2"
  {
    assert (1.5).Floor == 1;
    assert !IsIntegral(1.5);
    assert 1.5 - 1 as real == 0.5;
    assert IsClosest(0.5, 4);
    ClosestUniqueAt(0.5, 4);
    assert IntToString(1) == "1";
  }

  /** Halfway between the 1/3 and 3/8 anchors, the earlier entry wins the tie. */
  lemma FormatTieGoesToEarlier()
    ensures FormatQuantity(Finite(0.354), Finite(1.0)) == "1/3"
  {
    assert Mul(Finite(0.354), Finite(1.0)) == Finite(0.354);
    FormatTieFinite();
  }

  lemma FormatTieFinite()
    ensures FormatFinite(0.354) == "1/3"
  {
    assert (0.354).Floor == 0;
    assert !IsIntegral(0.354);
    assert 0.354 - 0 as real == 0.354;
    TieIsClosest();
    ClosestUniqueAt(0.354, 2);
  }

  /** 0.354 lies 0.021 from both the 1/3 and the 3/8 anchors, nearer than to any other. */
  lemma TieIsClosest()
    ensures Diff(0.354, 2) == Diff(0.354, 3) == 0.021
    ensures IsClosest(0.354, 2)
  {
    assert Diff(0.354, 2) == 0.021 && Diff(0.354, 3) == 0.021;
    assert Diff(0.354, 0) >= 0.05 && Diff(0.354, 1) >= 0.05;
    assert forall j: nat :: 4 <= j < |Fractions| ==> Diff(0.354, j) >= 0.05;
  }

  /** The closest-fraction function returns the reference choice when there is one. */
  lemma ClosestUniqueAt(dec: real, i: nat)
    requires IsClosest(dec, i)
    ensures ClosestFraction(dec) == Some(i)
  {
    var r := ClosestFraction(dec);
    assert !NoneNear(dec);
    ClosestUnique(dec, r.value, i);
  }
}
