/**
 * The shared vocabulary of the recipe extractor (lib/types.ts): the three LLM providers, the
 * fixed table of offered models, and the record shapes the components work with.
 */
module Types {
  import opened Wrappers

  datatype Provider = OpenAI | Google | Anthropic

  /** The provider's name as it appears in stored settings and in `ApiKeys.llmProvider`. */
  function ProviderName(p: Provider): string {
    match p
    case OpenAI => "openai"
    case Google => "google"
    case Anthropic => "anthropic"
  }

  /** The provider a name denotes, if any. */
  function ProviderNamed(name: string): (r: Option<Provider>)
    ensures r.Some? ==> ProviderName(r.value) == name
    ensures r.None? ==> forall p: Provider :: ProviderName(p) != name
  {
    if name == "openai" then Some(OpenAI)
    else if name == "google" then Some(Google)
    else if name == "anthropic" then Some(Anthropic)
    else None
  }

  lemma ProviderNameInjective(p: Provider, q: Provider)
    ensures ProviderName(p) == ProviderName(q) ==> p == q
  {
  }

  datatype LlmModel = LlmModel(id: string, name: string, provider: Provider)

  /** `LLM_MODELS`, in the order the selectors list them. */
  const LlmModels: seq<LlmModel> := [
    LlmModel("gpt-4o", "GPT-4o", OpenAI),
    LlmModel("gpt-4.1", "GPT-4.1", OpenAI),
    LlmModel("gemini-2.0-flash", "Gemini 2.0 Flash", Google),
    LlmModel("gemini-2.5-pro", "Gemini 2.5 Pro", Google),
    LlmModel("claude-sonnet-4-20250514", "Claude 4 Sonnet", Anthropic),
    LlmModel("claude-opus-4-20250514", "Claude 4 Opus", Anthropic),
    LlmModel("claude-4-haiku", "Claude 4 Haiku", Anthropic)
  ]

  /** The model the selection falls back to when nothing has been chosen yet. */
  const DefaultModel: string := "gpt-4o"

  /** Some model of the table has id `id`. */
  predicate IsModelId(id: string) {
    exists k :: 0 <= k < |LlmModels| && LlmModels[k].id == id
  }

  /** The first table index at or after `k` whose model has id `id`. */
  function FindModelFrom(id: string, k: nat): (r: Option<nat>)
    requires k <= |LlmModels|
    ensures r.Some? ==> k <= r.value < |LlmModels| && LlmModels[r.value].id == id
    ensures r.None? ==> forall j :: k <= j < |LlmModels| ==> LlmModels[j].id != id
    decreases |LlmModels| - k
  {
    if k == |LlmModels| then None
    else if LlmModels[k].id == id then Some(k)
    else FindModelFrom(id, k + 1)
  }

  /** `getProviderForModel`: the provider of the table model with id `id` (which is
      imported but not defined in lib/types.ts; modelled as a lookup in the table). */
  function ProviderForModel(id: string): (r: Option<Provider>)
    ensures r.Some? <==> IsModelId(id)
  {
    match FindModelFrom(id, 0)
    case Some(k) => Some(LlmModels[k].provider)
    case None => None
  }

  /** No two models share an id, so the id-to-provider lookup is a partial function. */
  lemma ModelIdsDistinct(i: nat, j: nat)
    requires i < j < |LlmModels|
    ensures LlmModels[i].id != LlmModels[j].id
  {
  }

  /** The lookup answers with the provider of the (unique) model holding the id. */
  lemma ProviderForModelIsTableEntry(k: nat)
    requires k < |LlmModels|
    ensures ProviderForModel(LlmModels[k].id) == Some(LlmModels[k].provider)
  {
    var f := FindModelFrom(LlmModels[k].id, 0);
    if f.value != k {
      if f.value < k { ModelIdsDistinct(f.value, k); } else { ModelIdsDistinct(k, f.value); }
    }
  }

  /** The default selection is a table model, served by OpenAI. */
  lemma DefaultModelIsOpenAI()
    ensures ProviderForModel(DefaultModel) == Some(OpenAI)
  {
    ProviderForModelIsTableEntry(0);
  }

  /** The first table index at or after `k` whose model belongs to `p`. */
  function FirstModelFrom(p: Provider, k: nat): (r: Option<nat>)
    requires k <= |LlmModels|
    ensures r.Some? ==> k <= r.value < |LlmModels| && LlmModels[r.value].provider == p
    ensures r.Some? ==> forall j :: k <= j < r.value ==> LlmModels[j].provider != p
    ensures r.None? ==> forall j :: k <= j < |LlmModels| ==> LlmModels[j].provider != p
    decreases |LlmModels| - k
  {
    if k == |LlmModels| then None
    else if LlmModels[k].provider == p then Some(k)
    else FirstModelFrom(p, k + 1)
  }

  /** Every provider serves at least one table model. */
  lemma EveryProviderHasModel(p: Provider)
    ensures exists k :: 0 <= k < |LlmModels| && LlmModels[k].provider == p
  {
    var k := match p case OpenAI => 0 case Google => 2 case Anthropic => 4;
    assert LlmModels[k].provider == p;
  }

  /** `LLM_MODELS.find(m => m.provider === p)`: the provider's first model in table order, which
      always exists. */
  function FirstModelOf(p: Provider): (r: Option<LlmModel>)
    ensures r.Some?
    ensures r.Some? ==> r.value in LlmModels && r.value.provider == p
    ensures r.Some? ==> exists k :: (0 <= k < |LlmModels| && r.value == LlmModels[k] &&
      forall j :: 0 <= j < k ==> LlmModels[j].provider != p)
  {
    EveryProviderHasModel(p);
    match FirstModelFrom(p, 0)
    case Some(k) => Some(LlmModels[k])
    case None => assert false; None
  }

  /** `LLM_MODELS.filter(m => m.provider === p)`: the models of `p`, in table order. */
  function ModelsOf(p: Provider): (r: seq<LlmModel>)
    ensures forall m :: m in r <==> m in LlmModels && m.provider == p
  {
    ModelsFrom(p, 0)
  }

  function ModelsFrom(p: Provider, k: nat): (r: seq<LlmModel>)
    requires k <= |LlmModels|
    ensures forall m :: m in r <==> exists j :: k <= j < |LlmModels| && LlmModels[j] == m && m.provider == p
    decreases |LlmModels| - k
  {
    if k == |LlmModels| then []
    else if LlmModels[k].provider == p then [LlmModels[k]] + ModelsFrom(p, k + 1)
    else ModelsFrom(p, k + 1)
  }

  /** An ingredient line of a recipe. */
  datatype Ingredient = Ingredient(name: string, quantity: real, unit: string, notes: Option<string>)

  /** A step: a short title, the full instruction, and optional details and duration. */
  datatype RecipeStep = RecipeStep(title: string, instruction: string, details: Option<string>, duration: Option<string>)

  /** What the extraction form submits: the scraping key and the chosen provider, model and key.
      The provider is kept as text: values read back from storage are not checked. */
  datatype ApiKeys = ApiKeys(firecrawl: string, llmProvider: string, llmModel: string, llmKey: string)

  /** The saved settings: the scraping key, the keys present per provider, and the model in use. */
  datatype AppSettings = AppSettings(firecrawl: string, providerKeys: map<Provider, string>, selectedModel: string)

  /** The fields a parsed recipe carries (`RecipeResponse`). */
  const ResponseFields: set<string> :=
    {"title", "description", "baseServings", "ingredients", "steps", "warnings"}

  /** The fields the extractor adds when it turns a parsed response into a stored `Recipe`. */
  const AddedFields: set<string> := {"id", "sourceUrl", "extractedAt"}

  /** The fields of a `Recipe`. */
  const RecipeFields: set<string> :=
    {"id", "title", "description", "sourceUrl", "baseServings", "ingredients", "steps", "warnings", "extractedAt"}

  /** A response is a recipe without the three fields the extractor adds. */
  lemma ResponseIsRecipeWithoutAdded()
    ensures ResponseFields == RecipeFields - AddedFields
    ensures RecipeFields == ResponseFields + AddedFields
    ensures ResponseFields !! AddedFields
  {
  }
}
