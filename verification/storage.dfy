/**
 * The browser-storage layer (lib/storage.ts): the recipe history, the per-recipe cooking
 * progress, the settings with their migration from the legacy key record, and the
 * current-session record.
 *
 * `localStorage` is a map from key to what is stored there: text that `JSON.parse` reads back
 * as a value (`Saved`), or text it rejects, including the empty string (`Unreadable`).  Every
 * write stores `JSON.stringify` of a value, which reads back as that same value.  The
 * server-side guards (`typeof window === "undefined"`) are not modelled: the model is the
 * browser.
 */
module Storage {
  import opened Wrappers
  import opened Text
  import opened JsonValues
  import opened Types
  import opened RecipeNormalization

  datatype Stored = Saved(value: Json) | Unreadable

  type Store = map<string, Stored>

  const ApiKeysKey: string := "recipe-extractor-api-keys"
  const SettingsKey: string := "recipe-extractor-settings-v2"
  const RecipesKey: string := "recipe-extractor-recipes"
  const ProgressKey: string := "recipe-extractor-progress-v1"
  const SessionKey: string := "recipe-extractor-current-session"

  /** `getItem` followed by `JSON.parse` inside a `try`: the value, or `None` when the key is
      absent or its text does not parse. */
  function Read(store: Store, key: string): (r: Option<Json>)
    ensures r.Some? <==> key in store && store[key].Saved?
  {
    if key in store && store[key].Saved? then Some(store[key].value) else None
  }

  // ---------------------------------------------------------------- recipe history

  const MaxRecipes: nat := 20

  /** `getRecipes`: the stored array, each element normalised; anything else reads as empty. */
  function GetRecipes(rt: Runtime, store: Store): (r: seq<Json>)
    ensures forall i :: 0 <= i < |r| ==> NormalizeRecipe(rt, r[i]) == r[i]
  {
    match Read(store, RecipesKey)
    case Some(JArr(items)) =>
      var r := seq(|items|, i requires 0 <= i < |items| => NormalizeRecipe(rt, items[i]));
      assert forall i :: 0 <= i < |r| ==> NormalizeRecipe(rt, r[i]) == r[i] by {
        forall i | 0 <= i < |r| ensures NormalizeRecipe(rt, r[i]) == r[i] {
          NormalizeRecipeIdempotent(rt, items[i]);
        }
      }
      r
    case _ => []
  }

  /** `recipes.findIndex(r => r.sourceUrl === url)`, searching from index `k`. */
  function FindBySourceUrl(recipes: seq<Json>, url: Option<Json>, k: nat): (r: Option<nat>)
    requires k <= |recipes|
    ensures r.Some? ==> k <= r.value < |recipes| && StrictEquals(Get(Some(recipes[r.value]), "sourceUrl"), url)
    ensures r.Some? ==> forall j :: k <= j < r.value ==> !StrictEquals(Get(Some(recipes[j]), "sourceUrl"), url)
    ensures r.None? ==> forall j :: k <= j < |recipes| ==> !StrictEquals(Get(Some(recipes[j]), "sourceUrl"), url)
    decreases |recipes| - k
  {
    if k == |recipes| then None
    else if StrictEquals(Get(Some(recipes[k]), "sourceUrl"), url) then Some(k)
    else FindBySourceUrl(recipes, url, k + 1)
  }

  /** The history after saving `recipe`: the first entry with the same source URL replaced in
      place, or the recipe put in front, then cut to `MaxRecipes` entries. */
  function Upsert(recipes: seq<Json>, recipe: Json): (r: seq<Json>)
    ensures |r| <= MaxRecipes
  {
    var updated := match FindBySourceUrl(recipes, Get(Some(recipe), "sourceUrl"), 0)
      case Some(i) => recipes[i := recipe]
      case None => [recipe] + recipes;
    if |updated| <= MaxRecipes then updated else updated[..MaxRecipes]
  }

  /** `saveRecipe(recipe)`. */
  function SaveRecipe(rt: Runtime, store: Store, recipe: Json): (r: Store)
    ensures r.Keys == store.Keys + {RecipesKey}
    ensures forall k :: k in store && k != RecipesKey ==> r[k] == store[k]
  {
    store[RecipesKey := Saved(JArr(Upsert(GetRecipes(rt, store), recipe)))]
  }

  /** When an entry has the recipe's source URL, the first such entry is replaced and nothing
      else moves. */
  lemma UpsertReplaces(recipes: seq<Json>, recipe: Json, i: nat)
    requires i < |recipes| && StrictEquals(Get(Some(recipes[i]), "sourceUrl"), Get(Some(recipe), "sourceUrl"))
    requires forall j :: 0 <= j < i ==> !StrictEquals(Get(Some(recipes[j]), "sourceUrl"), Get(Some(recipe), "sourceUrl"))
    ensures var r := Upsert(recipes, recipe);
      && |r| == (if |recipes| <= MaxRecipes then |recipes| else MaxRecipes)
      && (i < MaxRecipes ==> r[i] == recipe)
      && (forall j :: 0 <= j < |r| && j != i ==> r[j] == recipes[j])
  {
    var f := FindBySourceUrl(recipes, Get(Some(recipe), "sourceUrl"), 0);
    assert f == Some(i);
  }

  /** When no entry has the recipe's source URL, it goes in front of the (cut) history. */
  lemma UpsertPrepends(recipes: seq<Json>, recipe: Json)
    requires forall j :: 0 <= j < |recipes| ==> !StrictEquals(Get(Some(recipes[j]), "sourceUrl"), Get(Some(recipe), "sourceUrl"))
    ensures var r := Upsert(recipes, recipe);
      && |r| == (if |recipes| < MaxRecipes then |recipes| + 1 else MaxRecipes)
      && r[0] == recipe
      && (forall j :: 1 <= j < |r| ==> r[j] == recipes[j - 1])
  {
  }

  /** A saved recipe always makes it into a history the app itself wrote (at most
      `MaxRecipes` entries). */
  lemma UpsertKeepsRecipe(recipes: seq<Json>, recipe: Json)
    requires |recipes| <= MaxRecipes
    ensures recipe in Upsert(recipes, recipe)
  {
    match FindBySourceUrl(recipes, Get(Some(recipe), "sourceUrl"), 0)
    case Some(i) => assert Upsert(recipes, recipe)[i] == recipe;
    case None => assert Upsert(recipes, recipe)[0] == recipe;
  }

  /** Normalising keeps `sourceUrl`, so the lookup finds the same entry for a recipe and for its
      normal form. */
  lemma NormalizeKeepsSourceUrl(rt: Runtime, recipe: Json)
    ensures Get(Some(NormalizeRecipe(rt, recipe)), "sourceUrl") == Get(Some(recipe), "sourceUrl")
  {
    NormalizeRecipeKeepsFields(rt, recipe, "sourceUrl");
    assert !IsDigit("sourceUrl"[0]);
    SpreadKeepsNamedField(recipe, "sourceUrl");
  }

  /** Whatever list is written, reading it back gives its elements normalised. */
  lemma ReadBackWritten(rt: Runtime, store: Store, list: seq<Json>)
    ensures var r := GetRecipes(rt, store[RecipesKey := Saved(JArr(list))]);
      |r| == |list| && forall j :: 0 <= j < |list| ==> r[j] == NormalizeRecipe(rt, list[j])
  {
  }

  /** A list of recipes in normal form is read back exactly as it was written. */
  lemma ReadBackNormal(rt: Runtime, store: Store, list: seq<Json>)
    requires forall j :: 0 <= j < |list| ==> NormalizeRecipe(rt, list[j]) == list[j]
    ensures GetRecipes(rt, store[RecipesKey := Saved(JArr(list))]) == list
  {
    ReadBackWritten(rt, store, list);
  }

  /** Upserting a recipe into a normalised history and then normalising every entry is the same
      as upserting the recipe's normal form. */
  lemma UpsertThenNormalize(rt: Runtime, before: seq<Json>, recipe: Json)
    requires forall j :: 0 <= j < |before| ==> NormalizeRecipe(rt, before[j]) == before[j]
    ensures var saved := Upsert(before, recipe);
      var expected := Upsert(before, NormalizeRecipe(rt, recipe));
      |saved| == |expected| && forall j :: 0 <= j < |saved| ==> NormalizeRecipe(rt, saved[j]) == expected[j]
  {
    var normal := NormalizeRecipe(rt, recipe);
    NormalizeKeepsSourceUrl(rt, recipe);
    NormalizeRecipeIdempotent(rt, recipe);
    var url := Get(Some(recipe), "sourceUrl");
    match FindBySourceUrl(before, url, 0)
    case Some(i) =>
      UpsertReplaces(before, recipe, i);
      UpsertReplaces(before, normal, i);
    case None =>
      UpsertPrepends(before, recipe);
      UpsertPrepends(before, normal);
  }

  /** Reading the history back after a save gives the history as it was read before with the
      normal form of the recipe upserted into it. */
  lemma ReadBackAfterSave(rt: Runtime, store: Store, recipe: Json)
    ensures GetRecipes(rt, SaveRecipe(rt, store, recipe)) == Upsert(GetRecipes(rt, store), NormalizeRecipe(rt, recipe))
  {
    var before := GetRecipes(rt, store);
    UpsertThenNormalize(rt, before, recipe);
    ReadBackWritten(rt, store, Upsert(before, recipe));
  }

  /** The history without the recipes whose `id` is `id`, in order. */
  function WithoutId(recipes: seq<Json>, id: string): (r: seq<Json>)
    ensures |r| <= |recipes|
    ensures forall x :: x in r <==> x in recipes && Get(Some(x), "id") != Some(JStr(id))
    decreases |recipes|
  {
    if |recipes| == 0 then []
    else
      var rest := WithoutId(recipes[1..], id);
      assert forall x :: x in recipes <==> x == recipes[0] || x in recipes[1..];
      StrictEqualsString(Get(Some(recipes[0]), "id"), id);
      if !StrictEquals(Get(Some(recipes[0]), "id"), Some(JStr(id))) then [recipes[0]] + rest else rest
  }

  /** Filtering a concatenation filters each part and keeps them in order. */
  lemma {:induction false} WithoutIdConcat(a: seq<Json>, b: seq<Json>, id: string)
    ensures WithoutId(a + b, id) == WithoutId(a, id) + WithoutId(b, id)
    decreases |a|
  {
    if |a| > 0 {
      assert (a + b)[1..] == a[1..] + b;
      WithoutIdConcat(a[1..], b, id);
    } else {
      assert a + b == b;
    }
  }

  /** One recipe is dropped exactly when its `id` is `id`.  With `WithoutIdConcat` this fixes
      the result element by element: the kept recipes, in their order, each as often as before. */
  lemma WithoutIdSingle(x: Json, id: string)
    ensures WithoutId([x], id) == if Get(Some(x), "id") == Some(JStr(id)) then [] else [x]
  {
    StrictEqualsString(Get(Some(x), "id"), id);
    assert [x][1..] == [];
  }

  /** Deleting an id nobody has leaves the history as it is. */
  lemma {:induction false} WithoutAbsentId(recipes: seq<Json>, id: string)
    requires forall j :: 0 <= j < |recipes| ==> Get(Some(recipes[j]), "id") != Some(JStr(id))
    ensures WithoutId(recipes, id) == recipes
    decreases |recipes|
  {
    if |recipes| > 0 {
      WithoutAbsentId(recipes[1..], id);
      StrictEqualsString(Get(Some(recipes[0]), "id"), id);
    }
  }

  /** `deleteRecipe(id)`. */
  function DeleteRecipe(rt: Runtime, store: Store, id: string): (r: Store)
    ensures r.Keys == store.Keys + {RecipesKey}
    ensures forall k :: k in store && k != RecipesKey ==> r[k] == store[k]
  {
    store[RecipesKey := Saved(JArr(WithoutId(GetRecipes(rt, store), id)))]
  }

  /** After deleting, the history read back is the history read before without the recipes
      with the id, the others in their order; so no recipe read back has the id, and every
      other recipe is still there. */
  lemma DeleteRemovesOnlyId(rt: Runtime, store: Store, id: string)
    ensures GetRecipes(rt, DeleteRecipe(rt, store, id)) == WithoutId(GetRecipes(rt, store), id)
    ensures var after := GetRecipes(rt, DeleteRecipe(rt, store, id));
      && (forall x :: x in after ==> Get(Some(x), "id") != Some(JStr(id)))
      && (forall x :: x in GetRecipes(rt, store) && Get(Some(x), "id") != Some(JStr(id)) ==> x in after)
  {
    var before := GetRecipes(rt, store);
    var kept := WithoutId(before, id);
    assert forall j :: 0 <= j < |kept| ==> kept[j] in before;
    ReadBackNormal(rt, store, kept);
  }

  // ---------------------------------------------------------------- cooking progress

  datatype Mode = Overview | Cooking

  function ModeName(m: Mode): string {
    match m
    case Overview => "overview"
    case Cooking => "cooking"
  }

  /** `RecipeProgress` without its timestamp. */
  datatype Progress = Progress(servings: real, checkedIngredients: seq<int>, completedSteps: seq<int>,
                               cookingStepIndex: int, lastMode: Mode)

  function Numbers(xs: seq<int>): seq<Json> {
    seq(|xs|, i requires 0 <= i < |xs| => JNum(xs[i] as real))
  }

  /** `{...progress, updatedAt}` as stored. */
  function ProgressJson(p: Progress, updatedAt: string): (r: Json)
    ensures r.JObj? && Truthy(Some(r))
  {
    JObj(map[
      "servings" := JNum(p.servings),
      "checkedIngredients" := JArr(Numbers(p.checkedIngredients)),
      "completedSteps" := JArr(Numbers(p.completedSteps)),
      "cookingStepIndex" := JNum(p.cookingStepIndex as real),
      "lastMode" := JStr(ModeName(p.lastMode)),
      "updatedAt" := JStr(updatedAt)])
  }

  /** `readProgressMap`: the stored object, or no entries when there is none, it does not parse,
      or it is not an object. */
  function ProgressMap(store: Store): map<string, Json> {
    match Read(store, ProgressKey)
    case Some(JObj(m)) => m
    case _ => map[]
  }

  /** `getRecipeProgress(id)`: the entry, unless it is missing or falsy. */
  function GetProgress(store: Store, id: string): (r: Option<Json>)
    ensures r.Some? <==> id in ProgressMap(store) && Truthy(Some(ProgressMap(store)[id]))
    ensures r.Some? ==> r.value == ProgressMap(store)[id]
  {
    var m := ProgressMap(store);
    if id in m && Truthy(Some(m[id])) then Some(m[id]) else None
  }

  /** `saveRecipeProgress(id, progress)` at time `now`. When the stored progress is an array,
      the entry becomes a property of that array that `JSON.stringify` does not write, so the
      array is written back as it was. */
  function SaveProgress(store: Store, id: string, p: Progress, now: string): (r: Store)
    ensures forall k :: k in store && k != ProgressKey ==> k in r && r[k] == store[k]
  {
    match Read(store, ProgressKey)
    case Some(JArr(items)) => store[ProgressKey := Saved(JArr(items))]
    case _ => store[ProgressKey := Saved(JObj(ProgressMap(store)[id := ProgressJson(p, now)]))]
  }

  /** `clearRecipeProgress(id)`: the map is only written back when there was an entry. */
  function ClearProgress(store: Store, id: string): (r: Store)
    ensures GetProgress(store, id).None? ==> r == store
    ensures forall k :: k in store && k != ProgressKey ==> k in r && r[k] == store[k]
  {
    var m := ProgressMap(store);
    if id in m && Truthy(Some(m[id])) then store[ProgressKey := Saved(JObj(m - {id}))] else store
  }

  /** What was saved for a recipe is what is read back for it, with its timestamp, unless the
      stored progress is an array. */
  lemma GetAfterSave(store: Store, id: string, p: Progress, now: string)
    requires !IsArray(Read(store, ProgressKey))
    ensures GetProgress(SaveProgress(store, id, p, now), id) == Some(ProgressJson(p, now))
  {
  }

  /** A save into stored progress that is an array is lost: the stored value stays the same
      array, and no recipe has progress before or after. */
  lemma SaveIntoArrayIsLost(store: Store, id: string, p: Progress, now: string)
    requires IsArray(Read(store, ProgressKey))
    ensures Read(SaveProgress(store, id, p, now), ProgressKey) == Read(store, ProgressKey)
    ensures GetProgress(SaveProgress(store, id, p, now), id).None?
  {
  }

  /** Saving the progress of one recipe leaves that of every other recipe alone. */
  lemma SaveKeepsOthers(store: Store, id: string, other: string, p: Progress, now: string)
    requires other != id
    ensures GetProgress(SaveProgress(store, id, p, now), other) == GetProgress(store, other)
  {
  }

  /** After clearing, a recipe has no progress; the others keep theirs. */
  lemma ClearRemoves(store: Store, id: string, other: string)
    requires other != id
    ensures GetProgress(ClearProgress(store, id), id).None?
    ensures GetProgress(ClearProgress(store, id), other) == GetProgress(store, other)
  {
  }

  // ---------------------------------------------------------------- settings and keys

  /** The settings a legacy key record migrates to: the same scraping key and model, and
      `providerKeys` with the single entry `{[llmProvider]: llmKey}`. */
  function Migrated(rt: Runtime, legacy: Json): (r: Json)
    ensures r.JObj? && "providerKeys" in r.fields && r.fields["providerKeys"].JObj?
  {
    var v := Some(legacy);
    var keys := Put(map[], PropertyKey(rt, Get(v, "llmProvider")), Get(v, "llmKey"));
    JObj(Put(Put(map["providerKeys" := JObj(keys)], "firecrawl", Get(v, "firecrawl")), "selectedModel", Get(v, "llmModel")))
  }

  /** `getSettings`: the stored settings when they parse; otherwise the legacy record migrated
      (and saved) when there is a truthy one; otherwise `null`.  Returns the value and the store
      after any write. */
  function GetSettings(rt: Runtime, store: Store): (Json, Store) {
    match Read(store, SettingsKey)
    case Some(settings) => (settings, store)
    case None =>
      var legacy := Read(store, ApiKeysKey);
      if Truthy(legacy) then
        var migrated := Migrated(rt, legacy.value);
        (migrated, store[SettingsKey := Saved(migrated)])
      else (JNull, store)
  }

  /** Stored settings are returned as they are and nothing is written. */
  lemma StoredSettingsWin(rt: Runtime, store: Store)
    requires Read(store, SettingsKey).Some?
    ensures GetSettings(rt, store) == (Read(store, SettingsKey).value, store)
  {
  }

  /** Without readable settings, a legacy record is migrated: the result has exactly one
      provider key, under the legacy provider's name, and is written under the settings key;
      a second read returns it without writing again. */
  lemma LegacyMigration(rt: Runtime, store: Store)
    requires Read(store, SettingsKey).None? && Truthy(Read(store, ApiKeysKey))
    ensures var (settings, after) := GetSettings(rt, store);
      var legacy := Read(store, ApiKeysKey);
      var keys := settings.fields["providerKeys"].fields;
      && settings == Migrated(rt, legacy.value)
      && keys.Keys <= {PropertyKey(rt, Get(legacy, "llmProvider"))}
      && (Get(legacy, "llmKey").Some? ==> keys == map[PropertyKey(rt, Get(legacy, "llmProvider")) := Get(legacy, "llmKey").value])
      && Get(Some(settings), "selectedModel") == Get(legacy, "llmModel")
      && Get(Some(settings), "firecrawl") == Get(legacy, "firecrawl")
      && Read(after, SettingsKey) == Some(settings)
      && GetSettings(rt, after) == (settings, after)
  {
    var legacy := Read(store, ApiKeysKey);
    var m := Migrated(rt, legacy.value);
    var v := Some(legacy.value);
    var keys := Put(map[], PropertyKey(rt, Get(v, "llmProvider")), Get(v, "llmKey"));
    assert m.fields["providerKeys"] == JObj(keys);
  }

  /** With neither settings nor a truthy legacy record there are no settings. */
  lemma NoSettings(rt: Runtime, store: Store)
    requires Read(store, SettingsKey).None? && !Truthy(Read(store, ApiKeysKey))
    ensures GetSettings(rt, store) == (JNull, store)
  {
  }

  /** The settings `saveApiKeys(keys)` writes. */
  function KeysSettings(keys: ApiKeys): (r: Json)
    ensures r.JObj? && "providerKeys" in r.fields
    ensures r.fields["providerKeys"] == JObj(map[keys.llmProvider := JStr(keys.llmKey)])
  {
    JObj(map[
      "firecrawl" := JStr(keys.firecrawl),
      "providerKeys" := JObj(map[keys.llmProvider := JStr(keys.llmKey)]),
      "selectedModel" := JStr(keys.llmModel)])
  }

  /** `saveApiKeys(keys)`. */
  function SaveApiKeys(store: Store, keys: ApiKeys): (r: Store)
    ensures Read(r, SettingsKey) == Some(KeysSettings(keys))
    ensures forall k :: k in store && k != SettingsKey ==> k in r && r[k] == store[k]
  {
    store[SettingsKey := Saved(KeysSettings(keys))]
  }

  /** A provider's entry in stored `providerKeys`: its key when it has one. */
  function KeyEntry(keys: map<Provider, string>, p: Provider): (r: Option<Json>)
    ensures r.Some? <==> p in keys
  {
    if p in keys then Some(JStr(keys[p])) else None
  }

  /** Typed settings as `JSON.stringify` writes them and `JSON.parse` reads them back. */
  function SettingsJson(s: AppSettings): (r: Json)
    ensures r.JObj? && "providerKeys" in r.fields && r.fields["providerKeys"].JObj?
    ensures forall p: Provider :: Get(Get(Some(r), "providerKeys"), ProviderName(p)) == KeyEntry(s.providerKeys, p)
    ensures Get(Some(r), "firecrawl") == Some(JStr(s.firecrawl))
    ensures Get(Some(r), "selectedModel") == Some(JStr(s.selectedModel))
  {
    var keys := Put(Put(Put(map[],
      "openai", KeyEntry(s.providerKeys, OpenAI)),
      "google", KeyEntry(s.providerKeys, Google)),
      "anthropic", KeyEntry(s.providerKeys, Anthropic));
    JObj(map["firecrawl" := JStr(s.firecrawl), "providerKeys" := JObj(keys), "selectedModel" := JStr(s.selectedModel)])
  }

  /** `saveSettings(settings)`. */
  function SaveSettings(store: Store, s: AppSettings): (r: Store)
    ensures Read(r, SettingsKey) == Some(SettingsJson(s))
    ensures forall k :: k in store && k != SettingsKey ==> k in r && r[k] == store[k]
  {
    store[SettingsKey := Saved(SettingsJson(s))]
  }

  /** The provider of the selected model, when it is a table model. */
  function SelectedProvider(settings: Json): (r: Option<Provider>)
    ensures r.Some? ==>
      (IsString(Get(Some(settings), "selectedModel")) && ProviderForModel(Get(Some(settings), "selectedModel").value.s) == r)
  {
    var model := Get(Some(settings), "selectedModel");
    if IsString(model) then ProviderForModel(model.value.s) else None
  }

  /** `getApiKeys`, on settings already read: `null` (`None`) when there are no settings, the
      selected model has no provider, or that provider's key is missing or empty; an engine
      error when `providerKeys` itself is missing. */
  function ApiKeysOf(settings: Json): (r: Result<Option<Json>, Thrown>)
    ensures r.Success? && r.value.Some? ==>
      && Truthy(Some(settings))
      && SelectedProvider(settings).Some?
      && Truthy(Get(Get(Some(settings), "providerKeys"), ProviderName(SelectedProvider(settings).value)))
  {
    if !Truthy(Some(settings)) then Success(None)
    else
      match SelectedProvider(settings)
      case None => Success(None)
      case Some(p) =>
        var providerKeys := Get(Some(settings), "providerKeys");
        if Nullish(providerKeys) then Failure(EngineError)
        else
          var llmKey := Get(providerKeys, ProviderName(p));
          if !Truthy(llmKey) then Success(None)
          else Success(Some(JObj(Put(map[
            "llmProvider" := JStr(ProviderName(p)),
            "llmModel" := Get(Some(settings), "selectedModel").value,
            "llmKey" := llmKey.value], "firecrawl", Get(Some(settings), "firecrawl")))))
  }

  /** `getApiKeys()`: the keys (or `null`, or an error) and the store after the settings read. */
  function GetApiKeys(rt: Runtime, store: Store): (Result<Option<Json>, Thrown>, Store) {
    var (settings, after) := GetSettings(rt, store);
    (ApiKeysOf(settings), after)
  }

  /** Keys saved by the key form are read back as they were saved, exactly when the model
      belongs to the saved provider and the key is not empty; otherwise the read gives `null`. */
  lemma ApiKeysRoundTrip(rt: Runtime, store: Store, keys: ApiKeys)
    ensures var (r, _) := GetApiKeys(rt, SaveApiKeys(store, keys));
      && r.Success?
      && (r.value.Some? <==>
            (keys.llmKey != "" && ProviderForModel(keys.llmModel).Some?
             && ProviderName(ProviderForModel(keys.llmModel).value) == keys.llmProvider))
      && (r.value.Some? ==> r.value.value == JObj(map[
            "firecrawl" := JStr(keys.firecrawl), "llmProvider" := JStr(keys.llmProvider),
            "llmModel" := JStr(keys.llmModel), "llmKey" := JStr(keys.llmKey)]))
  {
    var settings := KeysSettings(keys);
    assert GetSettings(rt, SaveApiKeys(store, keys)) == (settings, SaveApiKeys(store, keys));
    assert Get(Some(settings), "selectedModel") == Some(JStr(keys.llmModel));
    match ProviderForModel(keys.llmModel)
    case None =>
    case Some(p) =>
      var pk := Get(Some(settings), "providerKeys");
      assert pk == Some(JObj(map[keys.llmProvider := JStr(keys.llmKey)]));
      if ProviderName(p) == keys.llmProvider {
        assert Get(pk, ProviderName(p)) == Some(JStr(keys.llmKey));
      } else {
        assert Get(pk, ProviderName(p)) == None;
      }
  }

  /** The keys typed settings give when the selected model's provider has a non-empty key:
      that provider, the model and its key. */
  lemma SettingsKeysFound(s: AppSettings, p: Provider)
    requires ProviderForModel(s.selectedModel) == Some(p)
    requires p in s.providerKeys && s.providerKeys[p] != ""
    ensures ApiKeysOf(SettingsJson(s)) == Success(Some(JObj(map[
      "firecrawl" := JStr(s.firecrawl), "llmProvider" := JStr(ProviderName(p)),
      "llmModel" := JStr(s.selectedModel), "llmKey" := JStr(s.providerKeys[p])])))
  {
    var settings := SettingsJson(s);
    assert SelectedProvider(settings) == Some(p);
    var pk := Get(Some(settings), "providerKeys");
    assert !Nullish(pk);
    assert Get(pk, ProviderName(p)) == Some(JStr(s.providerKeys[p]));
    var m := map["llmProvider" := JStr(ProviderName(p)), "llmModel" := JStr(s.selectedModel),
                 "llmKey" := JStr(s.providerKeys[p])];
    assert Put(m, "firecrawl", Get(Some(settings), "firecrawl")) == m["firecrawl" := JStr(s.firecrawl)];
    assert m["firecrawl" := JStr(s.firecrawl)] == map[
      "firecrawl" := JStr(s.firecrawl), "llmProvider" := JStr(ProviderName(p)),
      "llmModel" := JStr(s.selectedModel), "llmKey" := JStr(s.providerKeys[p])];
    assert Truthy(Get(pk, ProviderName(p)));
  }

  /** Typed settings give no keys when the selected model is not a table model or its
      provider's key is missing or empty. */
  lemma SettingsKeysMissing(s: AppSettings)
    requires var p := ProviderForModel(s.selectedModel);
      !(p.Some? && p.value in s.providerKeys && s.providerKeys[p.value] != "")
    ensures ApiKeysOf(SettingsJson(s)) == Success(None)
  {
    var settings := SettingsJson(s);
    assert SelectedProvider(settings) == ProviderForModel(s.selectedModel);
    match ProviderForModel(s.selectedModel)
    case None =>
    case Some(p) =>
      var pk := Get(Some(settings), "providerKeys");
      assert Get(pk, ProviderName(p)) == KeyEntry(s.providerKeys, p);
  }

  /** Saved typed settings are what the next key read works from, and that read writes
      nothing. */
  lemma SavedSettingsGiveKeys(rt: Runtime, store: Store, s: AppSettings)
    ensures GetApiKeys(rt, SaveSettings(store, s)) == (ApiKeysOf(SettingsJson(s)), SaveSettings(store, s))
  {
    assert GetSettings(rt, SaveSettings(store, s)) == (SettingsJson(s), SaveSettings(store, s));
  }

  /** `getSelectedModel()`: `settings?.selectedModel || null`. */
  function GetSelectedModel(rt: Runtime, store: Store): (Json, Store) {
    var (settings, after) := GetSettings(rt, store);
    var model := if settings.JNull? then None else Get(Some(settings), "selectedModel");
    (Or(model, Some(JNull)).value, after)
  }

  /** `setSelectedModel(id)`: changes the model of existing object settings; assigning a
      property to a primitive throws in strict-mode code, and an array's extra property is
      not serialised. */
  function SetSelectedModel(rt: Runtime, store: Store, id: string): (r: Result<Store, Thrown>)
    ensures r.Success? && GetSettings(rt, store).0.JObj? ==>
      GetSelectedModel(rt, r.value).0 == (if id == "" then JNull else JStr(id))
  {
    var (settings, after) := GetSettings(rt, store);
    if !Truthy(Some(settings)) then Success(after)
    else
      match settings
      case JObj(m) => Success(after[SettingsKey := Saved(JObj(m["selectedModel" := JStr(id)]))])
      case JArr(_) => Success(after[SettingsKey := Saved(settings)])
      case _ => Failure(EngineError)
  }

  // ---------------------------------------------------------------- current session

  /** `getCurrentSession()`: the stored value as it parses, `null` when there is none. */
  function GetSession(store: Store): Json {
    Read(store, SessionKey).GetOr(JNull)
  }

  function SessionJson(id: string, mode: Mode, now: string): Json {
    JObj(map["recipeId" := JStr(id), "mode" := JStr(ModeName(mode)), "updatedAt" := JStr(now)])
  }

  /** `saveCurrentSession(id, mode)` at time `now`. */
  function SaveSession(store: Store, id: string, mode: Mode, now: string): (r: Store)
    ensures GetSession(r) == SessionJson(id, mode, now)
    ensures forall k :: k in store && k != SessionKey ==> k in r && r[k] == store[k]
  {
    store[SessionKey := Saved(SessionJson(id, mode, now))]
  }

  /** `clearCurrentSession()`. */
  function ClearSession(store: Store): (r: Store)
    ensures GetSession(r) == JNull
    ensures forall k :: k in store && k != SessionKey ==> k in r && r[k] == store[k]
  {
    store - {SessionKey}
  }
}
