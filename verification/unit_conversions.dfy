/**
 * lib/unit-conversions.ts: recognising a unit from free text, the deterministic table of
 * alternative measurements (volume to volume and weight to weight, never across), and the
 * display rule for converted amounts.
 */
module UnitConversions {
  import opened Wrappers
  import opened Text
  import opened JsNumbers
  import opened Decimal
  import opened QuantityFormat

  /** The eight units the table knows. */
  datatype Unit = Tsp | Tbsp | Ml | L | G | Kg | Oz | Lb

  /** The canonical tag of a unit, as the source spells it. */
  function UnitName(u: Unit): string {
    match u
    case Tsp => "tsp"
    case Tbsp => "tbsp"
    case Ml => "ml"
    case L => "l"
    case G => "g"
    case Kg => "kg"
    case Oz => "oz"
    case Lb => "lb"
  }

  /** The lower-case spellings accepted for each unit. */
  function Synonyms(u: Unit): seq<string> {
    match u
    case Tsp => ["tsp", "teaspoon", "teaspoons"]
    case Tbsp => ["tbsp", "tablespoon", "tablespoons"]
    case Ml => ["ml", "milliliter", "milliliters"]
    case L => ["l", "lt", "liter", "liters"]
    case G => ["g", "gram", "grams"]
    case Kg => ["kg", "kilogram", "kilograms"]
    case Oz => ["oz", "ounce", "ounces"]
    case Lb => ["lb", "lbs", "pound", "pounds"]
  }

  predicate IsVolume(u: Unit) {
    u in {Tsp, Tbsp, Ml, L}
  }

  /** The size of one unit in the base unit of its family: millilitres or grams. */
  function BaseFactor(u: Unit): real {
    match u
    case Tsp => 5.0
    case Tbsp => 15.0
    case Ml => 1.0
    case L => 1000.0
    case G => 1.0
    case Kg => 1000.0
    case Oz => 28.349523125
    case Lb => 453.59237
  }

  /** `normalizeUnit`: trim, lower-case, then look the text up among the synonyms. */
  function NormalizeUnit(input: string): Option<Unit> {
    Lookup(ToLower(Trim(input)))
  }

  /** The units in the order `normalizeUnit` tests them. */
  const UnitOrder: seq<Unit> := [Tsp, Tbsp, Ml, L, G, Kg, Oz, Lb]

  /** The chain of comparisons `normalizeUnit` makes on the cleaned-up text `u`: blank gives
      nothing, otherwise the first unit (in the order of the checks) listing `u` as a synonym. */
  function Lookup(u: string): Option<Unit> {
    if u == "" then None else LookupFrom(u, 0)
  }

  function LookupFrom(u: string, k: nat): Option<Unit>
    decreases |UnitOrder| - k
  {
    if k >= |UnitOrder| then None
    else if u in Synonyms(UnitOrder[k]) then Some(UnitOrder[k])
    else LookupFrom(u, k + 1)
  }

  /** Where `u` stands in the order of the checks. */
  function OrderIndex(u: Unit): (k: nat)
    ensures k < |UnitOrder| && UnitOrder[k] == u
  {
    match u
    case Tsp => 0 case Tbsp => 1 case Ml => 2 case L => 3
    case G => 4 case Kg => 5 case Oz => 6 case Lb => 7
  }

  /** No text is a synonym of two units. */
  lemma SynonymsDisjoint(t: string, u: Unit, v: Unit)
    requires t in Synonyms(u) && t in Synonyms(v)
    ensures u == v
  {
    if IsVolume(u) != IsVolume(v) {
      SynonymFamilies(t, u, v);
    } else if IsVolume(u) {
      match u case Tsp => case Tbsp => case Ml => case L =>
    } else {
      match u case G => case Kg => case Oz => case Lb =>
    }
  }

  lemma SynonymFamilies(t: string, u: Unit, v: Unit)
    requires t in Synonyms(u) && t in Synonyms(v)
    ensures IsVolume(u) == IsVolume(v)
  {
    if IsVolume(u) {
      match u case Tsp => case Tbsp => case Ml => case L =>
    } else {
      match u case G => case Kg => case Oz => case Lb =>
    }
  }

  /** Each synonym is looked up as its own unit. */
  lemma LookupSynonym(u: Unit, t: string)
    requires t in Synonyms(u)
    ensures Lookup(t) == Some(u)
  {
    LookupFromSynonym(u, t, 0, OrderIndex(u));
  }

  lemma {:induction false} LookupFromSynonym(u: Unit, t: string, j: nat, k: nat)
    requires t in Synonyms(u) && j <= k < |UnitOrder| && UnitOrder[k] == u
    ensures LookupFrom(t, j) == Some(u)
    decreases k - j
  {
    if t in Synonyms(UnitOrder[j]) {
      SynonymsDisjoint(t, u, UnitOrder[j]);
    } else {
      LookupFromSynonym(u, t, j + 1, k);
    }
  }

  /** The lookup finds a unit only for one of that unit's synonyms. */
  lemma {:induction false} LookupFromOnlySynonyms(t: string, k: nat)
    ensures LookupFrom(t, k).Some? ==> t in Synonyms(LookupFrom(t, k).value)
    decreases |UnitOrder| - k
  {
    if k < |UnitOrder| && t !in Synonyms(UnitOrder[k]) {
      LookupFromOnlySynonyms(t, k + 1);
    }
  }

  /** A text names unit `u` exactly when its trimmed, lower-cased form is one of `u`'s
      synonyms; it names no unit exactly when that form is no synonym at all. */
  lemma NormalizeUnitSynonyms(input: string, u: Unit)
    ensures NormalizeUnit(input) == Some(u) <==> ToLower(Trim(input)) in Synonyms(u)
    ensures NormalizeUnit(input).None? <==>
      forall v: Unit :: ToLower(Trim(input)) !in Synonyms(v)
  {
    var t := ToLower(Trim(input));
    LookupFromOnlySynonyms(t, 0);
    forall v: Unit | t in Synonyms(v)
      ensures Lookup(t) == Some(v)
    {
      LookupSynonym(v, t);
    }
  }

  /** Every canonical tag is recognised as its own unit, so normalising is idempotent. */
  lemma NormalizeUnitName(u: Unit)
    ensures NormalizeUnit(UnitName(u)) == Some(u)
  {
    SynonymsClean(u, UnitName(u));
    LookupSynonym(u, UnitName(u));
  }

  /** Text of lower-case ASCII letters only. */
  predicate LowerLetters(t: string) {
    forall i :: 0 <= i < |t| ==> 'a' <= t[i] <= 'z'
  }

  /** Synonyms are written in lower-case letters, so trimming and lower-casing keep them. */
  lemma SynonymsClean(u: Unit, t: string)
    requires t in Synonyms(u)
    ensures ToLower(Trim(t)) == t
  {
    if IsVolume(u) {
      VolumeSynonymsLetters(u, t);
    } else {
      WeightSynonymsLetters(u, t);
    }
    CleanLetters(t);
  }

  lemma VolumeSynonymsLetters(u: Unit, t: string)
    requires IsVolume(u) && t in Synonyms(u)
    ensures LowerLetters(t)
  {
    match u
    case Tsp => SpoonSynonymsLetters(u, t);
    case Tbsp => SpoonSynonymsLetters(u, t);
    case Ml =>
    case L =>
  }

  lemma SpoonSynonymsLetters(u: Unit, t: string)
    requires u in {Tsp, Tbsp} && t in Synonyms(u)
    ensures LowerLetters(t)
  {
    match u case Tsp => case Tbsp =>
  }

  lemma WeightSynonymsLetters(u: Unit, t: string)
    requires !IsVolume(u) && t in Synonyms(u)
    ensures LowerLetters(t)
  {
    match u case G => case Kg => case Oz => case Lb =>
  }

  lemma CleanLetters(t: string)
    requires LowerLetters(t)
    ensures ToLower(Trim(t)) == t
  {
    TrimNoWhitespace(t);
    assert ToLower(t) == t;
  }

  /** Surrounding whitespace does not matter. */
  lemma NormalizeUnitTrim(input: string)
    ensures NormalizeUnit(Trim(input)) == NormalizeUnit(input)
  {
    TrimIdempotent(input);
  }

  /** One entry of the result list. `note` is never set by the conversions. */
  datatype Measurement = Measurement(value: real, unit: string, exact: bool)

  /** The de-duplication key of an entry: its unit, lower-cased. */
  function Key(m: Measurement): string {
    ToLower(m.unit)
  }

  function Keys(ms: seq<Measurement>): (r: seq<string>)
    ensures |r| == |ms| && forall i :: 0 <= i < |ms| ==> r[i] == Key(ms[i])
  {
    seq(|ms|, i requires 0 <= i < |ms| => Key(ms[i]))
  }

  /** The first entry of `ms` with key `key`. */
  function FirstWithKey(ms: seq<Measurement>, key: string): Option<Measurement>
    decreases |ms|
  {
    if |ms| == 0 then None
    else if Key(ms[0]) == key then Some(ms[0])
    else FirstWithKey(ms[1..], key)
  }

  /** The `filter` with a `seen` set: drop entries whose key is empty or already seen. */
  function Dedupe(ms: seq<Measurement>, seen: set<string>): (r: seq<Measurement>)
    ensures |r| <= |ms|
    ensures forall i, j :: 0 <= i < j < |r| ==> Key(r[i]) != Key(r[j])
    ensures forall i :: 0 <= i < |r| ==> Key(r[i]) != "" && Key(r[i]) !in seen
    ensures forall i :: 0 <= i < |r| ==> FirstWithKey(ms, Key(r[i])) == Some(r[i])
    ensures forall m :: m in ms && Key(m) != "" && Key(m) !in seen ==> Key(m) in Keys(r)
    decreases |ms|
  {
    if |ms| == 0 then []
    else
      var key := Key(ms[0]);
      if key == "" || key in seen then Dedupe(ms[1..], seen)
      else
        var rest := Dedupe(ms[1..], seen + {key});
        assert Keys([ms[0]] + rest) == [key] + Keys(rest);
        [ms[0]] + rest
  }

  /** A list whose keys are already non-empty, distinct and unseen passes unchanged. */
  lemma {:induction false} DedupeDistinct(ms: seq<Measurement>, seen: set<string>)
    requires forall i :: 0 <= i < |ms| ==> Key(ms[i]) != "" && Key(ms[i]) !in seen
    requires forall i, j :: 0 <= i < j < |ms| ==> Key(ms[i]) != Key(ms[j])
    ensures Dedupe(ms, seen) == ms
    decreases |ms|
  {
    if |ms| > 0 {
      var key := Key(ms[0]);
      var rest := ms[1..];
      forall i | 0 <= i < |rest|
        ensures Key(rest[i]) != "" && Key(rest[i]) !in seen + {key}
      {
        assert rest[i] == ms[i + 1];
      }
      forall i, j | 0 <= i < j < |rest|
        ensures Key(rest[i]) != Key(rest[j])
      {
        assert rest[i] == ms[i + 1] && rest[j] == ms[j + 1];
      }
      DedupeDistinct(rest, seen + {key});
      assert Dedupe(ms, seen) == [ms[0]] + Dedupe(rest, seen + {key});
      assert [ms[0]] + rest == ms;
    }
  }

  /** One conversion the table pushes: the target unit and the converted amount. */
  datatype Conversion = Conversion(target: Unit, value: real)

  /** The conversions pushed onto `out` for a positive finite `q` of unit `u`, in order. */
  function Table(q: real, u: Unit): seq<Conversion> {
    match u
    case Tsp => [Conversion(Ml, q * 5.0), Conversion(Tbsp, q / 3.0)]
    case Tbsp => [Conversion(Ml, q * 15.0), Conversion(Tsp, q * 3.0)]
    case Ml =>
      [Conversion(Tbsp, q / 15.0), Conversion(Tsp, q / 5.0)]
      + (if q >= 1000.0 then [Conversion(L, q / 1000.0)] else [])
    case L => [Conversion(Ml, q * 1000.0)]
    case G =>
      [Conversion(Oz, q / 28.349523125)]
      + (if q >= 1000.0 then [Conversion(Kg, q / 1000.0)] else [])
      + (if q >= 453.592 then [Conversion(Lb, q / 453.59237)] else [])
    case Kg =>
      [Conversion(G, q * 1000.0), Conversion(Oz, (q * 1000.0) / 28.349523125),
       Conversion(Lb, (q * 1000.0) / 453.59237)]
    case Oz => [Conversion(G, q * 28.349523125)]
    case Lb => [Conversion(G, q * 453.59237)]
  }

  /** Every row converts within the family of its unit, never to the unit itself, names each
      target once, lists at most three targets, and every entry measures the same amount: its
      value times its unit's size is the input amount times the input unit's size. */
  lemma TableFacts(q: real, u: Unit)
    ensures var t := Table(q, u);
      && |t| <= 3
      && (forall i :: 0 <= i < |t| ==> t[i].target != u && IsVolume(t[i].target) == IsVolume(u))
      && (forall i :: 0 <= i < |t| ==> t[i].value * BaseFactor(t[i].target) == q * BaseFactor(u))
      && (forall i, j :: 0 <= i < j < |t| ==> t[i].target != t[j].target)
  {
  }

  /** The `{ value, unit, exact: true }` record pushed for a conversion. */
  function Entry(c: Conversion): Measurement {
    Measurement(c.value, UnitName(c.target), true)
  }

  function Conversions(q: real, u: Unit): (r: seq<Measurement>)
    ensures |r| == |Table(q, u)| && forall i :: 0 <= i < |r| ==> r[i] == Entry(Table(q, u)[i])
  {
    var t := Table(q, u);
    seq(|t|, i requires 0 <= i < |t| => Entry(t[i]))
  }

  /** Unit tags are lower case and tell units apart. */
  lemma NamesDistinct(a: Unit, b: Unit)
    ensures Key(Measurement(0.0, UnitName(a), true)) == UnitName(a) != ""
    ensures UnitName(a) == UnitName(b) ==> a == b
  {
    ToLowerIdempotent(UnitName(a));
    assert ToLower(UnitName(a)) == UnitName(a);
  }

  /** Each table row lists distinct, non-empty keys, at most three of them, all exact. */
  lemma ConversionsDistinct(q: real, u: Unit)
    ensures var out := Conversions(q, u);
      && |out| <= 3
      && (forall i :: 0 <= i < |out| ==> Key(out[i]) != "" && out[i].exact)
      && (forall i, j :: 0 <= i < j < |out| ==> Key(out[i]) != Key(out[j]))
  {
    var out, t := Conversions(q, u), Table(q, u);
    TableFacts(q, u);
    forall i | 0 <= i < |out|
      ensures Key(out[i]) == UnitName(t[i].target) != ""
    {
      NamesDistinct(t[i].target, t[i].target);
    }
    forall i, j | 0 <= i < j < |out|
      ensures Key(out[i]) != Key(out[j])
    {
      NamesDistinct(t[i].target, t[j].target);
      NamesDistinct(t[j].target, t[j].target);
    }
  }

  /** `getAlternativeMeasurements(quantity, unitRaw)`. */
  function GetAlternativeMeasurements(quantity: JsNumber, unitRaw: string): seq<Measurement> {
    if !quantity.IsFinite() || quantity.value <= 0.0 then []
    else
      match NormalizeUnit(unitRaw)
      case None => []
      case Some(u) =>
        var out := Conversions(quantity.value, u);
        var deduped := Dedupe(out, {});
        deduped[..if |deduped| < 3 then |deduped| else 3]
  }

  /** Nothing is offered for a non-finite or non-positive amount or an unknown unit; otherwise
      the table row of the unit is offered whole: de-duplication and the cap of three never
      remove anything from it. */
  lemma AlternativesAreTableRow(quantity: JsNumber, unitRaw: string)
    ensures var r := GetAlternativeMeasurements(quantity, unitRaw);
      && (r == [] <==> !quantity.IsFinite() || quantity.value <= 0.0 || NormalizeUnit(unitRaw).None?)
      && (r != [] ==> r == Conversions(quantity.value, NormalizeUnit(unitRaw).value))
  {
    if quantity.IsFinite() && quantity.value > 0.0 && NormalizeUnit(unitRaw).Some? {
      RowPassesFilters(quantity.value, NormalizeUnit(unitRaw).value);
    }
  }

  /** De-duplication and the cap of three leave a (non-empty) table row as it is. */
  lemma RowPassesFilters(q: real, u: Unit)
    ensures var out := Conversions(q, u);
      var deduped := Dedupe(out, {});
      && out != []
      && deduped[..if |deduped| < 3 then |deduped| else 3] == out
  {
    var out := Conversions(q, u);
    ConversionsDistinct(q, u);
    DedupeDistinct(out, {});
    assert out[..|out|] == out;
    assert |Table(q, u)| > 0;
  }

  /** The list is short, its units are pairwise distinct ignoring case, and every entry is exact. */
  lemma AlternativesShortDistinctExact(quantity: JsNumber, unitRaw: string)
    ensures var r := GetAlternativeMeasurements(quantity, unitRaw);
      && |r| <= 3
      && (forall i, j :: 0 <= i < j < |r| ==> Key(r[i]) != Key(r[j]))
      && (forall i :: 0 <= i < |r| ==> r[i].exact)
  {
    AlternativesAreTableRow(quantity, unitRaw);
    var r := GetAlternativeMeasurements(quantity, unitRaw);
    if r != [] {
      ConversionsDistinct(quantity.value, NormalizeUnit(unitRaw).value);
    }
  }

  /** Every entry of a table row is tagged with a unit of the input's family other than the
      input's own, and measures the same amount. */
  lemma ConversionPreservesAmount(q: real, u: Unit, i: nat)
    requires i < |Conversions(q, u)|
    ensures var m := Conversions(q, u)[i];
      exists v: Unit :: && m.unit == UnitName(v)
        && v != u && IsVolume(v) == IsVolume(u)
        && m.value * BaseFactor(v) == q * BaseFactor(u)
  {
    var c := Table(q, u)[i];
    TableFacts(q, u);
    assert Conversions(q, u)[i] == Entry(c);
    assert c.target != u && IsVolume(c.target) == IsVolume(u);
    assert c.value * BaseFactor(c.target) == q * BaseFactor(u);
  }

  /** From a kilogram's worth of grams on, however the unit is spelled, the kilograms are
      listed. */
  lemma GramsIncludeKilograms(q: real, unit: string)
    requires q >= 1000.0 && NormalizeUnit(unit) == Some(G)
    ensures Measurement(q / 1000.0, "kg", true) in GetAlternativeMeasurements(Finite(q), unit)
  {
    AlternativesAreTableRow(Finite(q), unit);
    GramsRowHasKilograms(q);
  }

  lemma GramsRowHasKilograms(q: real)
    requires q >= 1000.0
    ensures Measurement(q / 1000.0, "kg", true) in Conversions(q, G)
  {
    assert Table(q, G)[1] == Conversion(Kg, q / 1000.0);
    assert Conversions(q, G)[1] == Measurement(q / 1000.0, "kg", true);
  }

  /** Some entry of `ms` is in `unit`. */
  predicate Offers(ms: seq<Measurement>, unit: string) {
    exists m :: m in ms && m.unit == unit
  }

  /** A table row offers unit `v` exactly when some conversion of the row targets `v`. */
  lemma OffersTarget(q: real, u: Unit, v: Unit)
    ensures Offers(Conversions(q, u), UnitName(v)) <==> exists c :: c in Table(q, u) && c.target == v
  {
    if Offers(Conversions(q, u), UnitName(v)) {
      OfferedIsTarget(q, u, v);
    }
    if exists c :: c in Table(q, u) && c.target == v {
      TargetIsOffered(q, u, v);
    }
  }

  lemma OfferedIsTarget(q: real, u: Unit, v: Unit)
    requires Offers(Conversions(q, u), UnitName(v))
    ensures exists c :: c in Table(q, u) && c.target == v
  {
    var out, t := Conversions(q, u), Table(q, u);
    var m :| m in out && m.unit == UnitName(v);
    var i :| 0 <= i < |out| && out[i] == m;
    assert out[i] == Entry(t[i]);
    NamesDistinct(t[i].target, v);
    assert t[i] in t;
  }

  lemma TargetIsOffered(q: real, u: Unit, v: Unit)
    requires exists c :: c in Table(q, u) && c.target == v
    ensures Offers(Conversions(q, u), UnitName(v))
  {
    var out, t := Conversions(q, u), Table(q, u);
    var c :| c in t && c.target == v;
    var i :| 0 <= i < |t| && t[i] == c;
    assert out[i] == Entry(c);
    assert out[i] in out;
  }

  /** The larger units that depend on the amount: grams offer kilograms exactly from 1000 g,
      however the unit is spelled. */
  lemma KilogramsThreshold(q: real, unit: string)
    requires q > 0.0 && NormalizeUnit(unit) == Some(G)
    ensures Offers(GetAlternativeMeasurements(Finite(q), unit), "kg") <==> q >= 1000.0
  {
    AlternativesAreTableRow(Finite(q), unit);
    OffersTarget(q, G, Kg);
    GramsTargets(q);
  }

  /** Grams offer pounds exactly from 453.592 g, however the unit is spelled. */
  lemma PoundsThreshold(q: real, unit: string)
    requires q > 0.0 && NormalizeUnit(unit) == Some(G)
    ensures Offers(GetAlternativeMeasurements(Finite(q), unit), "lb") <==> q >= 453.592
  {
    AlternativesAreTableRow(Finite(q), unit);
    OffersTarget(q, G, Lb);
    GramsTargets(q);
  }

  /** Millilitres offer litres exactly from 1000 ml, however the unit is spelled. */
  lemma LitresThreshold(q: real, unit: string)
    requires q > 0.0 && NormalizeUnit(unit) == Some(Ml)
    ensures Offers(GetAlternativeMeasurements(Finite(q), unit), "l") <==> q >= 1000.0
  {
    AlternativesAreTableRow(Finite(q), unit);
    OffersTarget(q, Ml, L);
    MillilitresTargets(q);
  }

  lemma MillilitresTargets(q: real)
    ensures (exists c :: c in Table(q, Ml) && c.target == L) <==> q >= 1000.0
  {
    var t := Table(q, Ml);
    var l := if q >= 1000.0 then [Conversion(L, q / 1000.0)] else [];
    assert t == [Conversion(Tbsp, q / 15.0), Conversion(Tsp, q / 5.0)] + l;
    assert forall c :: c in t <==> c == Conversion(Tbsp, q / 15.0) || c == Conversion(Tsp, q / 5.0) || c in l;
  }

  lemma GramsTargets(q: real)
    ensures (exists c :: c in Table(q, G) && c.target == Kg) <==> q >= 1000.0
    ensures (exists c :: c in Table(q, G) && c.target == Lb) <==> q >= 453.592
  {
    var t := Table(q, G);
    var kg := if q >= 1000.0 then [Conversion(Kg, q / 1000.0)] else [];
    var lb := if q >= 453.592 then [Conversion(Lb, q / 453.59237)] else [];
    assert t == [Conversion(Oz, q / 28.349523125)] + kg + lb;
    assert forall c :: c in t <==> c == Conversion(Oz, q / 28.349523125) || c in kg || c in lb;
  }

  /** A tablespoon, however spelled, is listed as 15 ml. */
  lemma TablespoonIsFifteenMl(unit: string)
    requires NormalizeUnit(unit) == Some(Tbsp)
    ensures Measurement(15.0, "ml", true) in GetAlternativeMeasurements(Finite(1.0), unit)
  {
    AlternativesAreTableRow(Finite(1.0), unit);
    var r := GetAlternativeMeasurements(Finite(1.0), unit);
    assert r[0] == Measurement(15.0, "ml", true);
  }

  /*
   * formatAltValue.
   */

  /** The rounding step for millilitres and grams: halves below 50, whole units from 50 on. */
  function MetricStep(value: real): real {
    if value >= 50.0 then 1.0 else 0.5
  }

  /** The millilitre and gram branch: round to the step, then write a whole result with
      `toFixed(0)` and any other with `toFixed(1)` minus a trailing ".0" (`rounded % 1 === 0`
      holds exactly for whole numbers). */
  function FormatSmallMetric(x: real): string {
    var rounded := RoundTo(x, MetricStep(x));
    if IsIntegral(rounded) then ToFixed(rounded, 0)
    else StripPointZero(ToFixed(rounded, 1))
  }

  /** The litre and kilogram branch: round to hundredths, write two decimals, then strip the
      trailing zeros and a bare point. */
  function FormatLargeMetric(x: real): string {
    var rounded := RoundTo(x, 0.01);
    StripFinalPoint(StripZeroRun(ToFixed(rounded, 2)))
  }

  /** `formatAltValue(value, unit)`. A non-finite value passes every branch as its name:
      rounding keeps it, it is not a whole number, and `toFixed` writes it out. */
  function FormatAltValue(value: JsNumber, unit: string): (r: string)
    ensures !value.IsFinite() ==> r == NonFiniteText(value)
  {
    var u := AltUnitText(unit);
    match value
    case Finite(x) =>
      if u == "ml" || u == "g" then FormatSmallMetric(x)
      else if u == "l" || u == "kg" then FormatLargeMetric(x)
      else FormatQuantity(value, Finite(1.0))
    case _ =>
      if u == "ml" || u == "g" || u == "l" || u == "kg" then NonFiniteText(value)
      else FormatQuantity(value, Finite(1.0))
  }

  /** `normalizeUnit(unit) ?? unit`. */
  function AltUnitText(unit: string): string {
    match NormalizeUnit(unit)
    case Some(n) => UnitName(n)
    case None => unit
  }

  /** The text compared against "ml", "g", "l" and "kg" names that unit exactly when the unit
      argument normalises to it: an unrecognised text is never one of those tags. */
  lemma AltUnitTextIs(unit: string, v: Unit)
    ensures AltUnitText(unit) == UnitName(v) <==> NormalizeUnit(unit) == Some(v)
  {
    NormalizeUnitName(v);
    if NormalizeUnit(unit).Some? {
      NamesDistinct(NormalizeUnit(unit).value, v);
    }
  }

  /** Any synonym formats like the canonical tag ("grams" like "g"). */
  lemma FormatAltValueSynonym(value: JsNumber, unit: string, u: Unit)
    requires NormalizeUnit(unit) == Some(u)
    ensures FormatAltValue(value, unit) == FormatAltValue(value, UnitName(u))
  {
    NormalizeUnitName(u);
    assert AltUnitText(unit) == AltUnitText(UnitName(u));
  }

  /** Millilitres and grams take the small-metric branch. */
  lemma SmallMetricBranch(x: real, unit: string)
    requires NormalizeUnit(unit) == Some(Ml) || NormalizeUnit(unit) == Some(G)
    ensures FormatAltValue(Finite(x), unit) == FormatSmallMetric(x)
  {
    var a := AltUnitText(unit);
    AltUnitTextIs(unit, Ml);
    AltUnitTextIs(unit, G);
    assert a == "ml" || a == "g";
  }

  /** Litres and kilograms take the large-metric branch. */
  lemma LargeMetricBranch(x: real, unit: string)
    requires NormalizeUnit(unit) == Some(L) || NormalizeUnit(unit) == Some(Kg)
    ensures FormatAltValue(Finite(x), unit) == FormatLargeMetric(x)
  {
    var a := AltUnitText(unit);
    AltUnitTextIs(unit, L);
    AltUnitTextIs(unit, Kg);
    assert a == "l" || a == "kg";
    assert a != "ml" && a != "g";
  }

  /** Millilitres and grams: the text reads back as the value rounded to the step, which is
      within half a step of the value. */
  lemma FormatAltValueSmallMetric(x: real, unit: string)
    requires NormalizeUnit(unit) == Some(Ml) || NormalizeUnit(unit) == Some(G)
    ensures var rounded := RoundTo(x, MetricStep(x));
      && ParseDecimal(FormatAltValue(Finite(x), unit)).Some?
      && ParseDecimal(FormatAltValue(Finite(x), unit)).value.Value() == rounded
      && Abs(rounded - x) <= MetricStep(x) / 2.0
  {
    SmallMetricBranch(x, unit);
    SmallMetricReadsBack(x);
  }

  lemma SmallMetricReadsBack(x: real)
    ensures ParseDecimal(FormatSmallMetric(x)).Some?
    ensures ParseDecimal(FormatSmallMetric(x)).value.Value() == RoundTo(x, MetricStep(x))
  {
    var rounded := RoundTo(x, MetricStep(x));
    if IsIntegral(rounded) {
      ParseToFixed(rounded, 0);
      FixedValueExact0(rounded);
    } else {
      HalfStepTenths(rounded, MetricStep(x));
      OneDecimalReadsBack(rounded);
    }
  }

  /** `toFixed(1)` minus a trailing ".0" reads back exactly as a number with one decimal. */
  lemma OneDecimalReadsBack(r: real)
    requires IsIntegral(r * 10.0)
    ensures ParseDecimal(StripPointZero(ToFixed(r, 1))).Some?
    ensures ParseDecimal(StripPointZero(ToFixed(r, 1))).value.Value() == r
  {
    ParseToFixed(r, 1);
    FixedValueExact1(r);
    var n := FixedUnits(r, 1);
    ToFixedShape(r, 1);
    StripPointZeroKeepsValue(ToFixed(r, 1), SignOf(r), FixedWhole(n, 1), FixedFrac(n, 1));
  }

  /** A multiple of a half or a whole has at most one decimal. */
  lemma HalfStepTenths(r: real, step: real)
    requires step == 0.5 || step == 1.0
    requires IsIntegral(r / step)
    ensures IsIntegral(r * 10.0)
  {
    var k := (r / step).Floor;
    assert r / step == k as real;
    if step == 0.5 {
      HalvesTenths(r, k);
    } else {
      assert r == k as real;
      assert r * 10.0 == (10 * k) as real;
    }
  }

  lemma HalvesTenths(r: real, k: int)
    requires r / 0.5 == k as real
    ensures IsIntegral(r * 10.0)
  {
    assert r * 10.0 == (5 * k) as real;
  }

  /** Litres and kilograms: the text reads back as the value rounded to hundredths (within
      0.005 of it) and has no trailing zero after its point. */
  lemma FormatAltValueLargeMetric(x: real, unit: string)
    requires NormalizeUnit(unit) == Some(L) || NormalizeUnit(unit) == Some(Kg)
    ensures var rounded := RoundTo(x, 0.01);
      && ParseDecimal(FormatAltValue(Finite(x), unit)).Some?
      && ParseDecimal(FormatAltValue(Finite(x), unit)).value.Value() == rounded
      && Abs(rounded - x) <= 0.005
      && NoTrailingFractionZeros(FormatAltValue(Finite(x), unit))
  {
    LargeMetricBranch(x, unit);
    LargeMetricReadsBack(x);
  }

  lemma LargeMetricReadsBack(x: real)
    ensures ParseDecimal(FormatLargeMetric(x)).Some?
    ensures ParseDecimal(FormatLargeMetric(x)).value.Value() == RoundTo(x, 0.01)
    ensures NoTrailingFractionZeros(FormatLargeMetric(x))
  {
    var rounded := RoundTo(x, 0.01);
    HundredthsExact(rounded);
    ParseToFixed(rounded, 2);
    FixedValueExact2(rounded);
    var n := FixedUnits(rounded, 2);
    ToFixedShape(rounded, 2);
    var s := ToFixed(rounded, 2);
    StripPointForm(s, SignOf(rounded), FixedWhole(n, 2), FixedFrac(n, 2));
    StripKeepsValue(s, SignOf(rounded), FixedWhole(n, 2), FixedFrac(n, 2));
  }

  /** A multiple of a hundredth has at most two decimals. */
  lemma HundredthsExact(r: real)
    requires IsIntegral(r / 0.01)
    ensures IsIntegral(r * 100.0)
  {
    var k := (r / 0.01).Floor;
    assert r * 100.0 == k as real;
  }

  /** Every other unit, recognised or not, is formatted like an ingredient amount. */
  lemma FormatAltValueOther(value: JsNumber, unit: string)
    requires NormalizeUnit(unit) !in {Some(Ml), Some(G), Some(L), Some(Kg)}
    ensures FormatAltValue(value, unit) == FormatQuantity(value, Finite(1.0))
  {
    var a := AltUnitText(unit);
    AltUnitTextIs(unit, Ml);
    AltUnitTextIs(unit, G);
    AltUnitTextIs(unit, L);
    AltUnitTextIs(unit, Kg);
    assert a != "ml" && a != "g" && a != "l" && a != "kg";
  }
}
