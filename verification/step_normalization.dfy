/**
 * The step coercion that both the LLM-output parser (lib/extract-recipe.ts:248-261) and the
 * stored-recipe normalisation (lib/storage.ts:42-55) apply: every element of a `steps` array
 * becomes an object with a trimmed `title` and `instruction` (falling back to the legacy
 * `summary` field) and string `details` and `duration`.
 */
module StepNormalization {
  import opened Wrappers
  import opened Text
  import opened JsonValues

  const Empty: Json := JStr("")

  /** `(primary ?? summary ?? "").toString().trim()`: the first of the two that is neither
      `null` nor missing, converted to text (a string is its own text, a number is written as
      `String(n)` writes it) and trimmed; "" when both are nullish. */
  function StepText(rt: Runtime, primary: Option<Json>, summary: Option<Json>): (r: string)
    ensures IsTrimmed(r)
    ensures !Nullish(primary) ==> r == Trim(ToJsString(rt, primary.value))
    ensures Nullish(primary) && !Nullish(summary) ==> r == Trim(ToJsString(rt, summary.value))
    ensures IsString(primary) ==> r == Trim(primary.value.s)
    ensures Nullish(primary) && IsString(summary) ==> r == Trim(summary.value.s)
    ensures Nullish(primary) && Nullish(summary) ==> r == ""
  {
    var chosen := Coalesce(primary, Coalesce(summary, Some(Empty)));
    Trim(ToJsString(rt, chosen.value))
  }

  /** `typeof v === "string" ? v : ""`. */
  function TextOrEmpty(v: Option<Json>): (r: string)
    ensures IsString(v) ==> r == v.value.s
    ensures !IsString(v) ==> r == ""
  {
    if IsString(v) then v.value.s else ""
  }

  /** The normalised form of one element of `steps`. */
  function NormalizeStep(rt: Runtime, step: Json): (r: Json)
    ensures r.JObj? && r.fields.Keys == {"title", "instruction", "details", "duration"}
    ensures forall k :: k in r.fields ==> r.fields[k].JStr?
  {
    var s := Some(step);
    JObj(map[
      "title" := JStr(StepText(rt, Get(s, "title"), Get(s, "summary"))),
      "instruction" := JStr(StepText(rt, Get(s, "instruction"), Get(s, "summary"))),
      "details" := JStr(TextOrEmpty(Get(s, "details"))),
      "duration" := JStr(TextOrEmpty(Get(s, "duration")))])
  }

  /** `Array.isArray(steps) ? steps.map(normalize) : []`. */
  function NormalizeSteps(rt: Runtime, steps: Option<Json>): (r: seq<Json>)
    ensures IsArray(steps) ==>
      (|r| == |steps.value.items| && forall i :: 0 <= i < |r| ==> r[i] == NormalizeStep(rt, steps.value.items[i]))
    ensures !IsArray(steps) ==> r == []
  {
    if IsArray(steps) then
      var items := steps.value.items;
      seq(|items|, i requires 0 <= i < |items| => NormalizeStep(rt, items[i]))
    else []
  }

  /** A normalised step: exactly the four string fields, `title` and `instruction` trimmed. */
  predicate IsNormalStep(j: Json) {
    && j.JObj?
    && j.fields.Keys == {"title", "instruction", "details", "duration"}
    && (forall k :: k in j.fields ==> j.fields[k].JStr?)
    && IsTrimmed(j.fields["title"].s)
    && IsTrimmed(j.fields["instruction"].s)
  }

  /** Every normalised step has the normal shape, and the fields keep what the step said:
      its own title or instruction when it has one as a string, the summary when not, and its
      details and duration when they are strings. */
  lemma NormalizeStepFields(rt: Runtime, step: Json)
    ensures IsNormalStep(NormalizeStep(rt, step))
    ensures var s := Some(step); var f := NormalizeStep(rt, step).fields;
      && (IsString(Get(s, "title")) ==> f["title"] == JStr(Trim(Get(s, "title").value.s)))
      && (Nullish(Get(s, "title")) && IsString(Get(s, "summary")) ==> f["title"] == JStr(Trim(Get(s, "summary").value.s)))
      && (IsString(Get(s, "instruction")) ==> f["instruction"] == JStr(Trim(Get(s, "instruction").value.s)))
      && (Nullish(Get(s, "instruction")) && IsString(Get(s, "summary")) ==> f["instruction"] == JStr(Trim(Get(s, "summary").value.s)))
      && f["details"] == JStr(TextOrEmpty(Get(s, "details")))
      && f["duration"] == JStr(TextOrEmpty(Get(s, "duration")))
  {
  }

  /** A step already in normal form is left as it is. */
  lemma NormalizeNormalStep(rt: Runtime, step: Json)
    requires IsNormalStep(step)
    ensures NormalizeStep(rt, step) == step
  {
    var f := step.fields;
    TrimOfTrimmed(f["title"].s);
    TrimOfTrimmed(f["instruction"].s);
    var r := NormalizeStep(rt, step);
    assert r.fields.Keys == f.Keys;
    assert forall k :: k in f ==> r.fields[k] == f[k];
  }

  /** Normalising steps twice is the same as normalising them once. */
  lemma NormalizeStepsIdempotent(rt: Runtime, steps: Option<Json>)
    ensures NormalizeSteps(rt, Some(JArr(NormalizeSteps(rt, steps)))) == NormalizeSteps(rt, steps)
  {
    var once := NormalizeSteps(rt, steps);
    forall i | 0 <= i < |once|
      ensures NormalizeStep(rt, once[i]) == once[i]
    {
      NormalizeStepFields(rt, steps.value.items[i]);
      NormalizeNormalStep(rt, once[i]);
    }
  }
}
