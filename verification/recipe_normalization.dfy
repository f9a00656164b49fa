/**
 * `normalizeRecipe` (lib/storage.ts:10-62): the total coercion every stored recipe goes through
 * when the history is read back.  Ingredient lists and step lists that are not arrays become
 * empty; each ingredient keeps its own fields but its `alternatives` are filtered, capped,
 * cleaned, and dropped altogether when none survive; steps get the same treatment as in the
 * LLM-output parser.
 */
module RecipeNormalization {
  import opened Wrappers
  import opened Text
  import opened JsonValues
  import opened StepNormalization

  const MaxAlternatives: nat := 6

  /** The filter an alternative has to pass: a (finite) positive number as `quantity` and a
      string `unit` that is not blank.  JSON numbers are always finite. */
  predicate KeepAlternative(a: Json) {
    var q := Get(Some(a), "quantity");
    var u := Get(Some(a), "unit");
    && q.Some? && q.value.JNum? && q.value.n > 0.0
    && IsString(u) && Trim(u.value.s) != ""
  }

  /** The elements of `items` that pass the filter, in order. */
  function Survivors(items: seq<Json>): (r: seq<Json>)
    ensures |r| <= |items|
    ensures forall x :: x in r <==> x in items && KeepAlternative(x)
    decreases |items|
  {
    if |items| == 0 then []
    else
      var rest := Survivors(items[1..]);
      assert forall x :: x in items <==> x == items[0] || x in items[1..];
      if KeepAlternative(items[0]) then [items[0]] + rest else rest
  }

  /** A kept alternative, cleaned: quantity as is, unit trimmed, `exact` made a boolean, and a
      note kept (trimmed) only when it is a non-blank string. */
  function NormalizeAlternative(a: Json): (r: Json)
    requires KeepAlternative(a)
    ensures r.JObj?
  {
    var v := Some(a);
    var note := Get(v, "note");
    var cleanNote := if IsString(note) && Trim(note.value.s) != "" then Some(JStr(Trim(note.value.s))) else None;
    JObj(Put(map[
      "quantity" := Get(v, "quantity").value,
      "unit" := JStr(Trim(Get(v, "unit").value.s)),
      "exact" := JBool(Truthy(Get(v, "exact")))], "note", cleanNote))
  }

  /** The shape every cleaned alternative has. */
  predicate IsCleanAlternative(a: Json) {
    var v := Some(a);
    var note := Get(v, "note");
    && a.JObj? && a.fields.Keys <= {"quantity", "unit", "exact", "note"}
    && KeepAlternative(a)
    && IsTrimmed(Get(v, "unit").value.s)
    && Get(v, "exact").Some? && Get(v, "exact").value.JBool?
    && (note.Some? ==> IsString(note) && note.value.s != "" && IsTrimmed(note.value.s))
  }

  /** The first `MaxAlternatives` survivors of `raw`, cleaned (no survivors when `raw` is not
      an array). */
  function NormalizeAlternatives(raw: Option<Json>): (r: seq<Json>)
    ensures |r| <= MaxAlternatives
  {
    var kept := Survivors(if IsArray(raw) then raw.value.items else []);
    var first := if |kept| <= MaxAlternatives then kept else kept[..MaxAlternatives];
    assert forall i :: 0 <= i < |first| ==> first[i] in kept;
    seq(|first|, i requires 0 <= i < |first| => NormalizeAlternative(first[i]))
  }

  /** `{...ing, alternatives: alternatives.length ? alternatives : undefined}`. */
  function NormalizeIngredient(ing: Json): (r: Json)
    ensures r.JObj?
  {
    var alternatives := NormalizeAlternatives(Get(Some(ing), "alternatives"));
    JObj(Put(SpreadFields(ing), "alternatives", if |alternatives| > 0 then Some(JArr(alternatives)) else None))
  }

  /** `normalizeRecipe(recipe)`. */
  function NormalizeRecipe(rt: Runtime, recipe: Json): (r: Json)
    ensures r.JObj? && "ingredients" in r.fields && "steps" in r.fields
  {
    var v := Some(recipe);
    var raw := Get(v, "ingredients");
    var ingredients :=
      if IsArray(raw) then seq(|raw.value.items|, i requires 0 <= i < |raw.value.items| => NormalizeIngredient(raw.value.items[i]))
      else [];
    JObj(SpreadFields(recipe)["ingredients" := JArr(ingredients)]["steps" := JArr(NormalizeSteps(rt, Get(v, "steps")))])
  }

  // ---------------------------------------------------------------- what normalisation promises

  /** Cleaning produces the clean shape and keeps the quantity; the unit is the trimmed unit,
      `exact` the truthiness of the input's, and the note the input's trimmed note when that is
      a non-blank string, and absent otherwise. */
  lemma NormalizeAlternativeClean(a: Json)
    requires KeepAlternative(a)
    ensures IsCleanAlternative(NormalizeAlternative(a))
    ensures var r := Some(NormalizeAlternative(a));
      var note := Get(Some(a), "note");
      && Get(r, "quantity") == Get(Some(a), "quantity")
      && Get(r, "unit") == Some(JStr(Trim(Get(Some(a), "unit").value.s)))
      && Get(r, "exact") == Some(JBool(Truthy(Get(Some(a), "exact"))))
      && Get(r, "note") == (if IsString(note) && Trim(note.value.s) != "" then Some(JStr(Trim(note.value.s))) else None)
  {
    var r := NormalizeAlternative(a);
    var u := Trim(Get(Some(a), "unit").value.s);
    TrimIdempotent(Get(Some(a), "unit").value.s);
    var note := Get(Some(a), "note");
    if IsString(note) && Trim(note.value.s) != "" {
      TrimIdempotent(note.value.s);
    }
    assert KeepAlternative(r);
  }

  /** A clean alternative is its own cleaning. */
  lemma CleanAlternativeFixed(a: Json)
    requires IsCleanAlternative(a)
    ensures NormalizeAlternative(a) == a
  {
    var v := Some(a);
    TrimOfTrimmed(Get(v, "unit").value.s);
    var note := Get(v, "note");
    if note.Some? { TrimOfTrimmed(note.value.s); }
    var r := NormalizeAlternative(a);
    assert r.fields.Keys == a.fields.Keys;
  }

  /** The survivors of a list whose elements all pass are the list itself. */
  lemma {:induction false} SurvivorsOfKept(items: seq<Json>)
    requires forall i :: 0 <= i < |items| ==> KeepAlternative(items[i])
    ensures Survivors(items) == items
    decreases |items|
  {
    if |items| > 0 {
      SurvivorsOfKept(items[1..]);
    }
  }

  /** The kept alternatives are the cleaned first six survivors. */
  lemma NormalizeAlternativesSpec(raw: Option<Json>)
    ensures var kept := Survivors(if IsArray(raw) then raw.value.items else []);
      var r := NormalizeAlternatives(raw);
      && |r| == (if |kept| <= MaxAlternatives then |kept| else MaxAlternatives)
      && (forall i :: 0 <= i < |r| ==> KeepAlternative(kept[i]) && r[i] == NormalizeAlternative(kept[i]))
      && (forall i :: 0 <= i < |r| ==> IsCleanAlternative(r[i]))
  {
    var kept := Survivors(if IsArray(raw) then raw.value.items else []);
    var r := NormalizeAlternatives(raw);
    forall i | 0 <= i < |r|
      ensures KeepAlternative(kept[i]) && IsCleanAlternative(r[i])
    {
      assert kept[i] in kept;
      NormalizeAlternativeClean(kept[i]);
    }
  }

  /** Filtering a concatenation filters each part and keeps them in order. */
  lemma {:induction false} SurvivorsConcat(a: seq<Json>, b: seq<Json>)
    ensures Survivors(a + b) == Survivors(a) + Survivors(b)
    decreases |a|
  {
    if |a| > 0 {
      assert (a + b)[1..] == a[1..] + b;
      SurvivorsConcat(a[1..], b);
    } else {
      assert a + b == b;
    }
  }

  /** One alternative survives exactly when it passes the filter.  With `SurvivorsConcat` this
      fixes the survivors element by element: the passing ones, in their order, each as often
      as before. */
  lemma SurvivorsSingle(x: Json)
    ensures Survivors([x]) == if KeepAlternative(x) then [x] else []
  {
    assert [x][1..] == [];
  }

  /** A short list of clean alternatives is its own normalisation. */
  lemma CleanListFixed(items: seq<Json>)
    requires |items| <= MaxAlternatives
    requires forall i :: 0 <= i < |items| ==> IsCleanAlternative(items[i])
    ensures NormalizeAlternatives(Some(JArr(items))) == items
  {
    SurvivorsOfKept(items);
    var r := NormalizeAlternatives(Some(JArr(items)));
    assert |r| == |items|;
    forall i | 0 <= i < |items|
      ensures r[i] == items[i]
    {
      CleanAlternativeFixed(items[i]);
    }
  }

  /** Cleaning an already cleaned list changes nothing. */
  lemma NormalizeAlternativesIdempotent(raw: Option<Json>)
    ensures var once := NormalizeAlternatives(raw);
      NormalizeAlternatives(Some(JArr(once))) == once
  {
    NormalizeAlternativesSpec(raw);
    CleanListFixed(NormalizeAlternatives(raw));
  }

  /** An ingredient keeps all its own fields other than `alternatives`; it has `alternatives`
      exactly when some alternative survives, and then they are the cleaned survivors. */
  lemma NormalizeIngredientFields(ing: Json, key: string)
    requires key != "alternatives"
    ensures Get(Some(NormalizeIngredient(ing)), key) == Get(Some(JObj(SpreadFields(ing))), key)
    ensures var alts := NormalizeAlternatives(Get(Some(ing), "alternatives"));
      && (Get(Some(NormalizeIngredient(ing)), "alternatives").Some? <==> |alts| > 0)
      && (|alts| > 0 ==> Get(Some(NormalizeIngredient(ing)), "alternatives") == Some(JArr(alts)))
  {
  }

  /** Normalising an ingredient twice is the same as once. */
  lemma NormalizeIngredientIdempotent(ing: Json)
    ensures NormalizeIngredient(NormalizeIngredient(ing)) == NormalizeIngredient(ing)
  {
    var once := NormalizeIngredient(ing);
    var alts := NormalizeAlternatives(Get(Some(ing), "alternatives"));
    NormalizeAlternativesIdempotent(Get(Some(ing), "alternatives"));
    if |alts| > 0 {
      assert Get(Some(once), "alternatives") == Some(JArr(alts));
    } else {
      assert Get(Some(once), "alternatives") == None;
      assert NormalizeAlternatives(None) == [];
    }
  }

  /** `normalizeRecipe` is idempotent: a recipe read back from the history, saved and read
      again does not change. */
  lemma NormalizeRecipeIdempotent(rt: Runtime, recipe: Json)
    ensures NormalizeRecipe(rt, NormalizeRecipe(rt, recipe)) == NormalizeRecipe(rt, recipe)
  {
    var once := NormalizeRecipe(rt, recipe);
    var v := Some(once);
    var ingredients := once.fields["ingredients"].items;
    forall i | 0 <= i < |ingredients|
      ensures NormalizeIngredient(ingredients[i]) == ingredients[i]
    {
      var raw := Get(Some(recipe), "ingredients");
      NormalizeIngredientIdempotent(raw.value.items[i]);
    }
    NormalizeStepsIdempotent(rt, Get(Some(recipe), "steps"));
    var twice := NormalizeRecipe(rt, once);
    assert twice.fields["ingredients"] == once.fields["ingredients"];
    assert twice.fields.Keys == once.fields.Keys;
  }

  /** Every top-level field other than `ingredients` and `steps` passes through. */
  lemma NormalizeRecipeKeepsFields(rt: Runtime, recipe: Json, key: string)
    requires key != "ingredients" && key != "steps"
    ensures Get(Some(NormalizeRecipe(rt, recipe)), key) == Get(Some(JObj(SpreadFields(recipe))), key)
  {
  }

  /** The lists of a normalised recipe: an array of ingredients becomes the array of the
      normalised ingredients, one for one and in order, and anything else the empty array; the
      steps are the step normalisation of the recipe's `steps`, the same rules the LLM-output
      parser applies. */
  lemma NormalizeRecipeLists(rt: Runtime, recipe: Json)
    ensures var r := NormalizeRecipe(rt, recipe);
      var raw := Get(Some(recipe), "ingredients");
      && (IsArray(raw) ==>
        && r.fields["ingredients"].JArr?
        && |r.fields["ingredients"].items| == |raw.value.items|
        && forall i :: 0 <= i < |raw.value.items| ==> r.fields["ingredients"].items[i] == NormalizeIngredient(raw.value.items[i]))
      && (!IsArray(raw) ==> r.fields["ingredients"] == JArr([]))
      && r.fields["steps"] == JArr(NormalizeSteps(rt, Get(Some(recipe), "steps")))
  {
  }

  /** Non-array ingredient and step lists become empty lists. */
  lemma NormalizeRecipeEmptyLists(rt: Runtime, recipe: Json)
    ensures !IsArray(Get(Some(recipe), "ingredients")) ==> NormalizeRecipe(rt, recipe).fields["ingredients"] == JArr([])
    ensures !IsArray(Get(Some(recipe), "steps")) ==> NormalizeRecipe(rt, recipe).fields["steps"] == JArr([])
  {
  }

  /** A field name that is not a decimal index is read from the spread copy exactly as from the
      value itself, whatever kind of value it is. */
  lemma SpreadKeepsNamedField(v: Json, key: string)
    requires exists i :: 0 <= i < |key| && !IsDigit(key[i])
    ensures Get(Some(JObj(SpreadFields(v))), key) == Get(Some(v), key)
  {
    if !v.JObj? {
      assert !AllDigits(key);
    }
  }
}
