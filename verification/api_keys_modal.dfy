/**
 * The single-provider key dialog (components/api-keys-modal.tsx): a scraping key, a provider,
 * a model of that provider and its key.  Its state is exactly the `ApiKeys` record it submits.
 */
module ApiKeysModal {
  import opened Wrappers
  import opened Text
  import opened JsonValues
  import opened Types
  import opened Storage

  /** The state before anything is loaded: OpenAI with its default model and no keys. */
  const Initial: ApiKeys := ApiKeys("", "openai", DefaultModel, "")

  /** The load effect: the saved keys when there are any, the current state otherwise. */
  function Load(state: ApiKeys, existing: Option<ApiKeys>): (r: ApiKeys)
    ensures existing.Some? ==> r == existing.value
    ensures existing.None? ==> r == state
  {
    existing.GetOr(state)
  }

  /** `handleProviderChange(p)`: the provider is set, and the model becomes the provider's first
      table model. */
  function ProviderChange(state: ApiKeys, p: Provider): (r: ApiKeys)
    ensures r.llmProvider == ProviderName(p)
    ensures r.firecrawl == state.firecrawl && r.llmKey == state.llmKey
    ensures ProviderForModel(r.llmModel) == Some(p)
    ensures exists k :: (0 <= k < |LlmModels| && LlmModels[k].id == r.llmModel &&
      forall j :: 0 <= j < k ==> LlmModels[j].provider != p)
  {
    EveryProviderHasModel(p);
    var k := FirstModelFrom(p, 0).value;
    ProviderForModelIsTableEntry(k);
    state.(llmProvider := ProviderName(p), llmModel := LlmModels[k].id)
  }

  /** `providerModels`: the table models of the chosen provider (none for a provider name that
      names no provider). */
  function ProviderModels(state: ApiKeys): (r: seq<LlmModel>)
    ensures forall m :: m in r <==> m in LlmModels && ProviderName(m.provider) == state.llmProvider
  {
    match ProviderNamed(state.llmProvider)
    case Some(p) => ModelsOf(p)
    case None => []
  }

  /** After a provider change, the chosen model is one of the models offered for the provider. */
  lemma ChangedModelIsOffered(state: ApiKeys, p: Provider)
    ensures var r := ProviderChange(state, p);
      exists m :: m in ProviderModels(r) && m.id == r.llmModel
  {
    var r := ProviderChange(state, p);
    var k :| 0 <= k < |LlmModels| && LlmModels[k].id == r.llmModel;
    ProviderForModelIsTableEntry(k);
    assert LlmModels[k] in ProviderModels(r);
  }

  /** `handleSubmit`: both keys trimmed, provider and model as chosen. */
  function Submit(state: ApiKeys): (r: ApiKeys)
    ensures r == ApiKeys(Trim(state.firecrawl), state.llmProvider, state.llmModel, Trim(state.llmKey))
    ensures IsTrimmed(r.firecrawl) && IsTrimmed(r.llmKey)
  {
    state.(firecrawl := Trim(state.firecrawl), llmKey := Trim(state.llmKey))
  }

  /** Submitting what was submitted changes nothing. */
  lemma SubmitIdempotent(state: ApiKeys)
    ensures Submit(Submit(state)) == Submit(state)
  {
    TrimIdempotent(state.firecrawl);
    TrimIdempotent(state.llmKey);
  }

  /** `isValid`: both keys are non-blank. */
  predicate IsValid(state: ApiKeys) {
    Trim(state.firecrawl) != "" && Trim(state.llmKey) != ""
  }

  /** The save button is enabled exactly when the submitted keys are both non-empty. */
  lemma ValidIffKeysPresent(state: ApiKeys)
    ensures IsValid(state) <==> Submit(state).firecrawl != "" && Submit(state).llmKey != ""
  {
  }

  /** Keys submitted after choosing a provider in the dialog are read back from storage exactly
      as submitted, provided the save button was enabled. */
  lemma ChosenProviderReadsBack(rt: Runtime, store: Store, state: ApiKeys, p: Provider)
    requires IsValid(ProviderChange(state, p))
    ensures var keys := Submit(ProviderChange(state, p));
      var (r, _) := GetApiKeys(rt, SaveApiKeys(store, keys));
      r == Success(Some(JObj(map[
        "firecrawl" := JStr(keys.firecrawl), "llmProvider" := JStr(keys.llmProvider),
        "llmModel" := JStr(keys.llmModel), "llmKey" := JStr(keys.llmKey)])))
  {
    var keys := Submit(ProviderChange(state, p));
    ApiKeysRoundTrip(rt, store, keys);
  }

  /** The initial state names a model of its own provider. */
  lemma InitialIsConsistent()
    ensures ProviderForModel(Initial.llmModel).Some?
    ensures ProviderName(ProviderForModel(Initial.llmModel).value) == Initial.llmProvider
  {
    DefaultModelIsOpenAI();
  }
}
