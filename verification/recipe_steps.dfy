/**
 * The step list of the recipe view (components/recipe-steps.tsx): which steps have their
 * "learn more" details open, which are marked done, and which can be expanded at all.
 */
module RecipeSteps {
  import opened Wrappers
  import opened Text
  import opened Types

  /** `toggleStep(index)` on the set of open steps: a copy with `index` added when it was
      absent and removed when it was present. */
  function Toggle(open: set<int>, index: int): (r: set<int>)
    ensures index in r <==> index !in open
    ensures forall j :: j != index ==> (j in r <==> j in open)
  {
    if index in open then open - {index} else open + {index}
  }

  /** Toggling the same step twice restores the set. */
  lemma ToggleTwice(open: set<int>, index: int)
    ensures Toggle(Toggle(open, index), index) == open
  {
    var once := Toggle(open, index);
    var twice := Toggle(once, index);
    assert forall j :: j in twice <==> j in open;
  }

  /** Toggles of different steps commute. */
  lemma ToggleCommutes(open: set<int>, i: int, j: int)
    ensures Toggle(Toggle(open, i), j) == Toggle(Toggle(open, j), i)
  {
    var a := Toggle(Toggle(open, i), j);
    var b := Toggle(Toggle(open, j), i);
    assert forall k :: k in a <==> k in b;
  }

  /** `hasDetails`: the step has details that are not blank. */
  predicate HasDetails(step: RecipeStep) {
    step.details.Some? && Trim(step.details.value) != ""
  }

  /** The collapsible's `onOpenChange` for step `index`: it toggles only a step with details. */
  function OpenChange(steps: seq<RecipeStep>, open: set<int>, index: nat): (r: set<int>)
    requires index < |steps|
    ensures HasDetails(steps[index]) ==> r == Toggle(open, index)
    ensures !HasDetails(steps[index]) ==> r == open
  {
    if HasDetails(steps[index]) then Toggle(open, index) else open
  }

  /** Whatever the sequence of open-change requests, only steps with details are ever open,
      provided none was open to begin with. */
  lemma {:induction false} OnlyDetailedStepsOpen(steps: seq<RecipeStep>, open: set<int>, requests: seq<nat>)
    requires forall i :: i in open ==> 0 <= i < |steps| && HasDetails(steps[i])
    requires forall k :: 0 <= k < |requests| ==> requests[k] < |steps|
    ensures var final := Replay(steps, open, requests);
      forall i :: i in final ==> 0 <= i < |steps| && HasDetails(steps[i])
    decreases |requests|
  {
    if |requests| > 0 {
      var next := OpenChange(steps, open, requests[0]);
      OnlyDetailedStepsOpen(steps, next, requests[1..]);
    }
  }

  /** The open set after a sequence of open-change requests, in order. */
  function Replay(steps: seq<RecipeStep>, open: set<int>, requests: seq<nat>): (r: set<int>)
    requires forall k :: 0 <= k < |requests| ==> requests[k] < |steps|
    ensures forall i :: i !in requests ==> (i in r <==> i in open)
    decreases |requests|
  {
    if |requests| == 0 then open
    else Replay(steps, OpenChange(steps, open, requests[0]), requests[1..])
  }

  /** `isCompleted`: `completedSteps?.has(index) ?? false`. */
  function IsCompleted(completed: Option<set<int>>, index: int): (r: bool)
    ensures r <==> completed.Some? && index in completed.value
  {
    match completed
    case None => false
    case Some(s) => index in s
  }
}
