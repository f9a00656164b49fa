/**
 * The servings stepper (components/servings-adjuster.tsx): minus and plus buttons that move
 * the serving count by one within 1..99, and a reset to the recipe's own count.
 */
module ServingsAdjuster {
  import opened JsNumbers

  const MinServings: real := 1.0
  const MaxServings: real := 99.0

  /** The minus button: one serving fewer when there are more than one, otherwise no change. */
  function Decrease(current: real): (r: real)
    ensures current > MinServings ==> r == current - 1.0
    ensures current <= MinServings ==> r == current
  {
    if current > MinServings then current - 1.0 else current
  }

  /** The plus button: one serving more when there are fewer than 99, otherwise no change. */
  function Increase(current: real): (r: real)
    ensures current < MaxServings ==> r == current + 1.0
    ensures current >= MaxServings ==> r == current
  {
    if current < MaxServings then current + 1.0 else current
  }

  /** A button is disabled exactly when pressing it would change nothing. */
  lemma DisabledIffNoChange(current: real)
    ensures (current <= MinServings) <==> Decrease(current) == current
    ensures (current >= MaxServings) <==> Increase(current) == current
  {
  }

  /** Within the range, plus undoes minus and minus undoes plus. */
  lemma IncreaseDecreaseInverse(current: real)
    ensures MinServings < current <= MaxServings ==> Increase(Decrease(current)) == current
    ensures MinServings <= current < MaxServings ==> Decrease(Increase(current)) == current
  {
  }

  /** `isScaled`: the shown count differs from the recipe's. */
  predicate IsScaled(current: real, base: real) {
    current != base
  }

  datatype Action = Minus | Plus | ResetToBase

  /** The serving count after one action; reset sets the recipe's own count. */
  function Step(current: real, base: real, a: Action): (r: real)
    ensures a == ResetToBase ==> !IsScaled(r, base)
    ensures a != ResetToBase ==> (r == current || r == current - 1.0 || r == current + 1.0)
  {
    match a
    case Minus => Decrease(current)
    case Plus => Increase(current)
    case ResetToBase => base
  }

  /** The serving count after a sequence of actions, in order. */
  function Run(current: real, base: real, actions: seq<Action>): real
    decreases |actions|
  {
    if |actions| == 0 then current else Run(Step(current, base, actions[0]), base, actions[1..])
  }

  /** A whole serving count in 1..99 stays a whole count in 1..99 whatever the buttons pressed,
      as long as the recipe's own count is one too. */
  lemma {:induction false} RunStaysInRange(current: real, base: real, actions: seq<Action>)
    requires IsIntegral(current) && MinServings <= current <= MaxServings
    requires IsIntegral(base) && MinServings <= base <= MaxServings
    ensures var r := Run(current, base, actions);
      IsIntegral(r) && MinServings <= r <= MaxServings
    decreases |actions|
  {
    if |actions| > 0 {
      var next := Step(current, base, actions[0]);
      assert IsIntegral(next) && MinServings <= next <= MaxServings by {
        if actions[0] == Minus && current > MinServings {
          assert current >= 2.0;
          assert (current - 1.0).Floor == current.Floor - 1;
        } else if actions[0] == Plus && current < MaxServings {
          assert current <= 98.0;
          assert (current + 1.0).Floor == current.Floor + 1;
        }
      }
      RunStaysInRange(next, base, actions[1..]);
    }
  }

  /** Without reset, a count of more than zero and less than 100 keeps that property, whole or
      not. */
  lemma {:induction false} RunStaysPositive(current: real, base: real, actions: seq<Action>)
    requires 0.0 < current < MaxServings + 1.0
    requires ResetToBase !in actions
    ensures 0.0 < Run(current, base, actions) < MaxServings + 1.0
    decreases |actions|
  {
    if |actions| > 0 {
      assert actions[0] in actions;
      assert forall a :: a in actions[1..] ==> a in actions;
      RunStaysPositive(Step(current, base, actions[0]), base, actions[1..]);
    }
  }
}
