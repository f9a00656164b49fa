/**
 * The ingredient list (components/ingredient-list.tsx): every quantity is scaled by the ratio
 * of the chosen serving count to the recipe's, formatted, and flagged when scaling changed it;
 * the checkbox shows whether the cook has ticked the ingredient off.
 */
module IngredientList {
  import opened Wrappers
  import opened Text
  import opened JsNumbers
  import opened Types
  import opened QuantityFormat

  /** `currentServings / baseServings`. */
  function Scale(currentServings: real, baseServings: real): (r: JsNumber)
    ensures baseServings != 0.0 ==> r.Finite? && r.value * baseServings == currentServings
    ensures baseServings == 0.0 ==> !r.Finite?
  {
    Div(currentServings, baseServings)
  }

  /** What one line of the list shows: the amount text (empty when the amount is hidden),
      whether it is highlighted as scaled, and whether the box is ticked. */
  datatype Line = Line(amount: string, scaled: bool, checked: bool)

  /** The line for `ingredient` at position `index`. */
  function LineOf(ingredient: Ingredient, index: int, scale: JsNumber, checkedIngredients: Option<set<int>>): (r: Line)
    ensures r.amount == FormatQuantity(Finite(ingredient.quantity), scale)
    ensures r.scaled <==> scale != Finite(1.0) && ingredient.quantity > 0.0
    ensures r.checked <==> checkedIngredients.Some? && index in checkedIngredients.value
  {
    Line(FormatQuantity(Finite(ingredient.quantity), scale),
         scale != Finite(1.0) && ingredient.quantity > 0.0,
         match checkedIngredients case Some(s) => index in s case None => false)
  }

  /** The whole list, line by line. */
  function Lines(ingredients: seq<Ingredient>, baseServings: real, currentServings: real,
                 checkedIngredients: Option<set<int>>): (r: seq<Line>)
    ensures |r| == |ingredients|
    ensures forall i :: 0 <= i < |r| ==>
      r[i] == LineOf(ingredients[i], i, Scale(currentServings, baseServings), checkedIngredients)
  {
    var scale := Scale(currentServings, baseServings);
    seq(|ingredients|, i requires 0 <= i < |ingredients| => LineOf(ingredients[i], i, scale, checkedIngredients))
  }

  /** With a positive recipe serving count, a line is highlighted exactly when the chosen count
      differs from the recipe's and the ingredient has a positive quantity. */
  lemma ScaledIffServingsDiffer(ingredients: seq<Ingredient>, baseServings: real, currentServings: real,
                                checkedIngredients: Option<set<int>>, i: nat)
    requires baseServings > 0.0 && i < |ingredients|
    ensures Lines(ingredients, baseServings, currentServings, checkedIngredients)[i].scaled
      <==> currentServings != baseServings && ingredients[i].quantity > 0.0
  {
    var scale := Scale(currentServings, baseServings);
    if currentServings != baseServings {
      assert scale.value != 1.0;
    }
  }

  /** With a non-zero recipe serving count, the amount and unit are left out exactly when the
      ingredient has no quantity or no servings are chosen. */
  lemma AmountHiddenIffZero(ingredients: seq<Ingredient>, baseServings: real, currentServings: real,
                            checkedIngredients: Option<set<int>>, i: nat)
    requires baseServings != 0.0 && i < |ingredients|
    ensures Lines(ingredients, baseServings, currentServings, checkedIngredients)[i].amount == ""
      <==> ingredients[i].quantity == 0.0 || currentServings == 0.0
  {
    var scale := Scale(currentServings, baseServings);
    ZeroScale(currentServings, baseServings);
    EmptyAmount(ingredients[i].quantity, scale.value);
  }

  /** A finite product is formatted as the empty text exactly when a factor is zero. */
  lemma EmptyAmount(q: real, scale: real)
    ensures FormatQuantity(Finite(q), Finite(scale)) == "" <==> q == 0.0 || scale == 0.0
  {
    var product := q * scale;
    assert Mul(Finite(q), Finite(scale)) == Finite(product);
    assert FormatQuantity(Finite(q), Finite(scale)) == "" <==> product == 0.0;
    ZeroProduct(q, scale);
  }

  /** A scale is zero exactly when no servings are chosen. */
  lemma ZeroScale(currentServings: real, baseServings: real)
    requires baseServings != 0.0
    ensures Scale(currentServings, baseServings).value == 0.0 <==> currentServings == 0.0
  {
  }

  /** A product of two amounts is zero only when one of them is (the helper the hidden-amount
      rule needs). */
  lemma ZeroProduct(a: real, b: real)
    ensures a * b == 0.0 <==> a == 0.0 || b == 0.0
  {
    if a != 0.0 && b != 0.0 {
      if a > 0.0 && b > 0.0 { assert a * b > 0.0; }
      else if a < 0.0 && b < 0.0 { assert a * b > 0.0; }
      else if a > 0.0 { assert a * b < 0.0; }
      else { assert a * b < 0.0; }
    }
  }

  /** At the recipe's own serving count, no line is highlighted and every amount is the
      ingredient's own quantity formatted unscaled. */
  lemma UnscaledAtBase(ingredients: seq<Ingredient>, baseServings: real, checkedIngredients: Option<set<int>>)
    requires baseServings != 0.0
    ensures var lines := Lines(ingredients, baseServings, baseServings, checkedIngredients);
      forall i :: 0 <= i < |lines| ==>
        !lines[i].scaled && lines[i].amount == FormatQuantity(Finite(ingredients[i].quantity), Finite(1.0))
  {
    assert Scale(baseServings, baseServings) == Finite(1.0);
  }

  /** Two of an ingredient for four servings, shown for six, reads "3". */
  lemma TwoForFourShownForSix(name: string, unit: string)
    ensures Lines([Ingredient(name, 2.0, unit, None)], 4.0, 6.0, None)[0] == Line("3", true, false)
  {
    assert Scale(6.0, 4.0) == Finite(1.5);
    assert Mul(Finite(2.0), Finite(1.5)) == Finite(3.0);
    FormatWhole(3.0);
    assert (3.0).Floor == 3;
    assert IntToString(3) == NatToString(3);
  }
}
