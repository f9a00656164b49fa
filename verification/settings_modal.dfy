/**
 * The settings dialog (components/settings-modal.tsx): four text inputs for the scraping key
 * and one key per provider, loaded from the saved settings and written back trimmed, with
 * only the non-blank provider keys kept.
 */
module SettingsModal {
  import opened Wrappers
  import opened Text
  import opened JsonValues
  import opened Types
  import opened Storage
  import opened ModelSelector

  /** The four inputs of the dialog. */
  datatype Form = Form(firecrawl: string, openai: string, google: string, anthropic: string)

  const EmptyForm: Form := Form("", "", "", "")

  /** The input for provider `p`. */
  function Input(f: Form, p: Provider): string {
    match p
    case OpenAI => f.openai
    case Google => f.google
    case Anthropic => f.anthropic
  }

  /** `providerKeys[p] || ""`: a missing key loads as the empty string. */
  function KeyOrEmpty(keys: map<Provider, string>, p: Provider): (r: string)
    ensures p in keys ==> r == keys[p]
    ensures p !in keys ==> r == ""
  {
    if p in keys then keys[p] else ""
  }

  /** The load effect on opening: the inputs are set from existing settings, and left as they
      are when there are none. */
  function Load(f: Form, existing: Option<AppSettings>): (r: Form)
    ensures existing.None? ==> r == f
    ensures existing.Some? ==>
      (r.firecrawl == existing.value.firecrawl && forall p :: Input(r, p) == KeyOrEmpty(existing.value.providerKeys, p))
  {
    match existing
    case None => f
    case Some(s) =>
      var keys := s.providerKeys;
      Form(s.firecrawl, KeyOrEmpty(keys, OpenAI), KeyOrEmpty(keys, Google), KeyOrEmpty(keys, Anthropic))
  }

  /** The `providerKeys` the dialog saves: an entry, trimmed, for every non-blank input. */
  function ProviderKeys(f: Form): (r: map<Provider, string>)
    ensures forall p :: p in r <==> Trim(Input(f, p)) != ""
    ensures forall p :: p in r ==> r[p] == Trim(Input(f, p))
  {
    map p | p in {OpenAI, Google, Anthropic} && Trim(Input(f, p)) != "" :: Trim(Input(f, p))
  }

  /** `handleSubmit`: the trimmed keys, and the selected model of the existing settings, or the
      default model when there is none or it is empty. */
  function Submit(f: Form, existing: Option<AppSettings>): (r: AppSettings)
    ensures r.firecrawl == Trim(f.firecrawl)
    ensures r.providerKeys == ProviderKeys(f)
    ensures existing.Some? && existing.value.selectedModel != "" ==> r.selectedModel == existing.value.selectedModel
    ensures (existing.None? || existing.value.selectedModel == "") ==> r.selectedModel == DefaultModel
  {
    var selected := if existing.Some? && existing.value.selectedModel != "" then existing.value.selectedModel else DefaultModel;
    AppSettings(Trim(f.firecrawl), ProviderKeys(f), selected)
  }

  /** `isValid`: a scraping key and at least one provider key, ignoring surrounding blanks. */
  predicate IsValid(f: Form) {
    Trim(f.firecrawl) != "" && (Trim(f.openai) != "" || Trim(f.google) != "" || Trim(f.anthropic) != "")
  }

  /** The save button is enabled exactly when the settings it would save have a scraping key and
      at least one provider key. */
  lemma ValidIffUsable(f: Form, existing: Option<AppSettings>)
    ensures IsValid(f) <==> Submit(f, existing).firecrawl != "" && |Submit(f, existing).providerKeys| > 0
  {
    var keys := ProviderKeys(f);
    if |keys| > 0 {
      var p :| p in keys;
      assert Trim(Input(f, p)) != "";
    }
    if IsValid(f) {
      assert OpenAI in keys || Google in keys || Anthropic in keys;
    }
  }

  /** Opening the dialog again after saving shows every input trimmed, with blank provider
      inputs emptied. */
  lemma LoadAfterSubmit(f: Form, g: Form, existing: Option<AppSettings>)
    ensures Load(g, Some(Submit(f, existing))) == Form(Trim(f.firecrawl), Trim(f.openai), Trim(f.google), Trim(f.anthropic))
  {
    var r := Load(g, Some(Submit(f, existing)));
    assert Input(r, OpenAI) == Trim(f.openai);
    assert Input(r, Google) == Trim(f.google);
    assert Input(r, Anthropic) == Trim(f.anthropic);
  }

  /** Clean provider keys are loaded and kept as they are. */
  lemma LoadedKeysKept(f: Form, s: AppSettings)
    requires forall p :: Input(f, p) == KeyOrEmpty(s.providerKeys, p)
    requires forall p :: p in s.providerKeys ==> s.providerKeys[p] != "" && IsTrimmed(s.providerKeys[p])
    ensures ProviderKeys(f) == s.providerKeys
  {
    var keys := ProviderKeys(f);
    forall p: Provider
      ensures (p in keys <==> p in s.providerKeys) && (p in keys ==> keys[p] == s.providerKeys[p])
    {
      if p in s.providerKeys {
        TrimOfTrimmed(s.providerKeys[p]);
      } else {
        TrimOfTrimmed("");
      }
    }
  }

  /** Settings that are already clean (trimmed scraping key, non-empty trimmed provider keys, a
      model chosen) come back unchanged from loading them and saving without edits. */
  lemma SubmitAfterLoad(g: Form, s: AppSettings)
    requires IsTrimmed(s.firecrawl) && s.selectedModel != ""
    requires forall p :: p in s.providerKeys ==> s.providerKeys[p] != "" && IsTrimmed(s.providerKeys[p])
    ensures Submit(Load(g, Some(s)), Some(s)) == s
  {
    var f := Load(g, Some(s));
    TrimOfTrimmed(s.firecrawl);
    LoadedKeysKept(f, s);
  }

  /** The model picker offers a model after saving exactly when its provider's input was not
      blank. */
  lemma OfferedAfterSubmit(f: Form, existing: Option<AppSettings>, m: LlmModel)
    requires m in LlmModels
    ensures m in AvailableModels(Submit(f, existing).providerKeys) <==> Trim(Input(f, m.provider)) != ""
  {
    var keys := ProviderKeys(f);
    if m.provider in keys {
      TrimIdempotent(Input(f, m.provider));
    }
  }

  /** Saved for the first time, the dialog's settings select the default OpenAI model, so keys
      can be read back exactly when the OpenAI input was not blank. */
  lemma FirstSaveNeedsOpenAIKey(f: Form)
    ensures var s := Submit(f, None);
      ApiKeysOf(SettingsJson(s)).Success?
      && (ApiKeysOf(SettingsJson(s)).value.Some? <==> Trim(f.openai) != "")
  {
    var s := Submit(f, None);
    DefaultModelIsOpenAI();
    if Trim(f.openai) != "" {
      SettingsKeysFound(s, OpenAI);
    } else {
      SettingsKeysMissing(s);
    }
  }
}
