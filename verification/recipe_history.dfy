/**
 * The history picker (components/recipe-history.tsx): every saved recipe is listed under its
 * title, cut to 40 characters, and picking an entry hands the first recipe with that id to
 * the page.
 */
module RecipeHistory {
  import opened Wrappers
  import opened JsonValues
  import opened Storage

  const MaxTitleLength: nat := 40
  const Ellipsis: string := "..."

  /** `truncateTitle(title)` with its default length of 40. */
  function TruncateTitle(title: string): (r: string)
    ensures |title| <= MaxTitleLength ==> r == title
    ensures |title| > MaxTitleLength ==> |r| == MaxTitleLength + |Ellipsis| && r[MaxTitleLength..] == Ellipsis
    ensures |r| <= MaxTitleLength + |Ellipsis|
    ensures var kept := if |title| <= MaxTitleLength then |title| else MaxTitleLength;
      r[..kept] == title[..kept]
  {
    if |title| <= MaxTitleLength then title else title[..MaxTitleLength] + Ellipsis
  }

  /** A title short enough to be shown whole is shown the same way when shown again. */
  lemma TruncateShortFixed(title: string)
    requires |title| <= MaxTitleLength
    ensures TruncateTitle(TruncateTitle(title)) == TruncateTitle(title)
  {
  }

  /** Two long titles are shown alike exactly when their first 40 characters agree. */
  lemma TruncatedAlike(a: string, b: string)
    requires |a| > MaxTitleLength && |b| > MaxTitleLength
    ensures TruncateTitle(a) == TruncateTitle(b) <==> a[..MaxTitleLength] == b[..MaxTitleLength]
  {
    if TruncateTitle(a) == TruncateTitle(b) {
      assert TruncateTitle(a)[..MaxTitleLength] == TruncateTitle(b)[..MaxTitleLength];
    }
  }

  /** A recipe whose `id` is `id` (compared with `===`). */
  predicate HasId(recipe: Json, id: string) {
    StrictEquals(Get(Some(recipe), "id"), Some(JStr(id)))
  }

  /** `handleSelect(id)`: the first recipe with the id, if any; `onSelect` is called with it, and
      nothing happens when there is none. */
  function Select(recipes: seq<Json>, id: string): (r: Option<Json>)
    ensures r.Some? ==> r.value in recipes && HasId(r.value, id)
    ensures r.None? <==> forall x :: x in recipes ==> !HasId(x, id)
    decreases |recipes|
  {
    if |recipes| == 0 then None
    else if HasId(recipes[0], id) then Some(recipes[0])
    else
      assert forall x :: x in recipes <==> x == recipes[0] || x in recipes[1..];
      Select(recipes[1..], id)
  }

  /** The selected recipe is the first one with the id: every recipe before it has another. */
  lemma {:induction false} SelectIsFirst(recipes: seq<Json>, id: string)
    ensures var r := Select(recipes, id);
      r.Some? ==> exists k :: (0 <= k < |recipes| && recipes[k] == r.value &&
        forall j :: 0 <= j < k ==> !HasId(recipes[j], id))
    decreases |recipes|
  {
    if |recipes| > 0 && !HasId(recipes[0], id) {
      SelectIsFirst(recipes[1..], id);
      var rest := Select(recipes[1..], id);
      if rest.Some? {
        var k :| 0 <= k < |recipes[1..]| && recipes[1..][k] == rest.value
          && forall j :: 0 <= j < k ==> !HasId(recipes[1..][j], id);
        assert recipes[k + 1] == rest.value;
        assert forall j :: 0 <= j < k + 1 ==> !HasId(recipes[j], id) by {
          forall j | 0 <= j < k + 1 ensures !HasId(recipes[j], id) {
            if j > 0 { assert recipes[j] == recipes[1..][j - 1]; }
          }
        }
      }
    } else if |recipes| > 0 {
      assert recipes[0] == Select(recipes, id).value;
    }
  }

  /** After a recipe is deleted, picking its id from the history read back selects nothing. */
  lemma NothingSelectedAfterDelete(rt: Runtime, store: Store, id: string)
    ensures Select(GetRecipes(rt, DeleteRecipe(rt, store, id)), id).None?
  {
    DeleteRemovesOnlyId(rt, store, id);
    var after := GetRecipes(rt, DeleteRecipe(rt, store, id));
    forall x | x in after
      ensures !HasId(x, id)
    {
      StrictEqualsString(Get(Some(x), "id"), id);
    }
  }
}
