/**
 * The step player of cooking mode (components/cooking-mode.tsx).  The component owns no step
 * state: it receives the step index and the completed set from its parent and reports
 * changes through two callbacks, so each of its actions is modelled as the callbacks it fires.
 */
module CookingMode {
  import opened Wrappers
  import opened Text

  /** A callback the player fires: `onToggleStepComplete(index)` or `onChangeStepIndex(index)`. */
  datatype Event = ToggleStep(index: int) | ChangeStepIndex(index: int)

  /** `clampedIndex`: the requested index pulled into the range of existing steps. */
  function ClampedIndex(stepIndex: int, n: nat): (r: nat)
    ensures n == 0 ==> r == 0
    ensures n > 0 ==> r < n
    ensures 0 <= stepIndex < n ==> r == stepIndex
    ensures n > 0 && stepIndex < 0 ==> r == 0
    ensures n > 0 && stepIndex >= n ==> r == n - 1
  {
    if n == 0 then 0
    else
      var atLeastZero := if stepIndex < 0 then 0 else stepIndex;
      if atLeastZero < n - 1 then atLeastZero else n - 1
  }

  /** Clamping an index that is already clamped changes nothing. */
  lemma ClampIdempotent(stepIndex: int, n: nat)
    ensures ClampedIndex(ClampedIndex(stepIndex, n), n) == ClampedIndex(stepIndex, n)
  {
  }

  /** The effect that reports the clamped index back when it differs from the requested one. */
  function ClampReport(stepIndex: int, n: nat): (r: Option<Event>)
    ensures r.Some? <==> ClampedIndex(stepIndex, n) != stepIndex
    ensures r.Some? ==> r.value == ChangeStepIndex(ClampedIndex(stepIndex, n))
  {
    var c := ClampedIndex(stepIndex, n);
    if c != stepIndex then Some(ChangeStepIndex(c)) else None
  }

  /** Once the parent has taken the reported index, the effect has nothing left to report. */
  lemma ClampReportSettles(stepIndex: int, n: nat)
    ensures var r := ClampReport(stepIndex, n);
      r.Some? ==> ClampReport(r.value.index, n).None?
  {
    ClampIdempotent(stepIndex, n);
  }

  /** `canPrev`. */
  predicate CanPrev(stepIndex: int, n: nat) {
    ClampedIndex(stepIndex, n) > 0
  }

  /** `canNext`. */
  predicate CanNext(stepIndex: int, n: nat) {
    ClampedIndex(stepIndex, n) < n - 1
  }

  /** The Back button: disabled unless `canPrev`, otherwise one step back from the clamped index. */
  function Back(stepIndex: int, n: nat): (r: Option<Event>)
    ensures r.Some? <==> n > 0 && ClampedIndex(stepIndex, n) > 0
    ensures r.Some? ==> r.value.ChangeStepIndex? && 0 <= r.value.index == ClampedIndex(stepIndex, n) - 1 < n
  {
    if CanPrev(stepIndex, n) then Some(ChangeStepIndex(ClampedIndex(stepIndex, n) - 1)) else None
  }

  /** The Next button: disabled unless `canNext`, otherwise one step on from the clamped index. */
  function Next(stepIndex: int, n: nat): (r: Option<Event>)
    ensures r.Some? <==> n > 0 && ClampedIndex(stepIndex, n) < n - 1
    ensures r.Some? ==> r.value.ChangeStepIndex? && 0 < r.value.index == ClampedIndex(stepIndex, n) + 1 < n
  {
    if CanNext(stepIndex, n) then Some(ChangeStepIndex(ClampedIndex(stepIndex, n) + 1)) else None
  }

  /** Next and Back undo each other: Back from where Next leads returns to the clamped index,
      and Next from where Back leads returns to it too. */
  lemma NextBackInverse(stepIndex: int, n: nat)
    ensures var nx := Next(stepIndex, n);
      nx.Some? ==> Back(nx.value.index, n) == Some(ChangeStepIndex(ClampedIndex(stepIndex, n)))
    ensures var bk := Back(stepIndex, n);
      bk.Some? ==> Next(bk.value.index, n) == Some(ChangeStepIndex(ClampedIndex(stepIndex, n)))
  {
  }

  /** The mark-done button, shown only when there are steps: it toggles the completion of the
      clamped step and, when that step was not yet done and there is a next step, moves on. */
  function MarkDone(completed: set<int>, stepIndex: int, n: nat): (r: seq<Event>)
    requires n > 0
    ensures 1 <= |r| <= 2 && r[0] == ToggleStep(ClampedIndex(stepIndex, n))
    ensures |r| == 2 <==> ClampedIndex(stepIndex, n) !in completed && ClampedIndex(stepIndex, n) < n - 1
    ensures |r| == 2 ==> r[1] == ChangeStepIndex(ClampedIndex(stepIndex, n) + 1)
  {
    var c := ClampedIndex(stepIndex, n);
    var isDone := c in completed;
    if CanNext(stepIndex, n) && !isDone then [ToggleStep(c), ChangeStepIndex(c + 1)] else [ToggleStep(c)]
  }

  /** Un-marking a done step never moves the player, and the step it moves to is always an
      existing step. */
  lemma MarkDoneMoves(completed: set<int>, stepIndex: int, n: nat)
    requires n > 0
    ensures ClampedIndex(stepIndex, n) in completed ==> MarkDone(completed, stepIndex, n) == [ToggleStep(ClampedIndex(stepIndex, n))]
    ensures forall e :: e in MarkDone(completed, stepIndex, n) ==> 0 <= e.index < n
    ensures |MarkDone(completed, stepIndex, n)| == 2 ==> Next(stepIndex, n) == Some(MarkDone(completed, stepIndex, n)[1])
  {
  }

  /** The progress line "Step k of n". */
  function ProgressLabel(stepIndex: int, n: nat): (r: string)
    ensures n == 0 ==> r == "Step 0 of 0"
    ensures n > 0 ==> exists k: nat :: 1 <= k <= n && r == "Step " + NatToString(k) + " of " + NatToString(n)
  {
    var shown: nat := if n == 0 then 0 else ClampedIndex(stepIndex, n) + 1;
    "Step " + NatToString(shown) + " of " + NatToString(n)
  }

  /** The label counts from one: an index within the steps is shown as the index plus one. */
  lemma ProgressLabelOfValidIndex(stepIndex: int, n: nat)
    requires 0 <= stepIndex < n
    ensures ProgressLabel(stepIndex, n) == "Step " + NatToString(stepIndex + 1) + " of " + NatToString(n)
  {
  }
}
