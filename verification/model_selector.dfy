/**
 * The model picker (components/model-selector.tsx): it offers only the table models whose
 * provider has a key, grouped by provider, and shows the selected model when it is offered,
 * the first offered model otherwise, and nothing when none is.
 */
module ModelSelector {
  import opened Wrappers
  import opened Text
  import opened Types

  /** `key && key.trim().length > 0` for the provider's entry of `providerKeys`. */
  predicate HasKey(providerKeys: map<Provider, string>, p: Provider) {
    p in providerKeys && Trim(providerKeys[p]) != ""
  }

  /** The offered models from table index `k` on, in table order. */
  function AvailableFrom(providerKeys: map<Provider, string>, k: nat): (r: seq<LlmModel>)
    requires k <= |LlmModels|
    ensures forall m :: m in r <==> m in LlmModels[k..] && HasKey(providerKeys, m.provider)
    decreases |LlmModels| - k
  {
    if k == |LlmModels| then []
    else
      assert forall m :: m in LlmModels[k..] <==> m == LlmModels[k] || m in LlmModels[k + 1..];
      if HasKey(providerKeys, LlmModels[k].provider) then [LlmModels[k]] + AvailableFrom(providerKeys, k + 1)
      else AvailableFrom(providerKeys, k + 1)
  }

  /** `availableModels`. */
  function AvailableModels(providerKeys: map<Provider, string>): (r: seq<LlmModel>)
    ensures forall m :: m in r <==> m in LlmModels && HasKey(providerKeys, m.provider)
  {
    assert LlmModels[0..] == LlmModels;
    AvailableFrom(providerKeys, 0)
  }

  /** The first table index at or after `k` whose model's provider has a key. */
  function FirstKeyedFrom(providerKeys: map<Provider, string>, k: nat): (r: Option<nat>)
    requires k <= |LlmModels|
    ensures r.Some? ==> k <= r.value < |LlmModels| && HasKey(providerKeys, LlmModels[r.value].provider)
    ensures r.Some? ==> forall i :: k <= i < r.value ==> !HasKey(providerKeys, LlmModels[i].provider)
    ensures r.None? ==> forall i :: k <= i < |LlmModels| ==> !HasKey(providerKeys, LlmModels[i].provider)
    decreases |LlmModels| - k
  {
    if k == |LlmModels| then None
    else if HasKey(providerKeys, LlmModels[k].provider) then Some(k)
    else FirstKeyedFrom(providerKeys, k + 1)
  }

  /** The offered list keeps table order at its head: it is empty exactly when no model from `k`
      on has a keyed provider, and otherwise it starts with the first model that has one. */
  lemma {:induction false} AvailableFromFirst(providerKeys: map<Provider, string>, k: nat)
    requires k <= |LlmModels|
    ensures |AvailableFrom(providerKeys, k)| == 0 <==> FirstKeyedFrom(providerKeys, k).None?
    ensures FirstKeyedFrom(providerKeys, k).Some? ==>
      AvailableFrom(providerKeys, k)[0] == LlmModels[FirstKeyedFrom(providerKeys, k).value]
    decreases |LlmModels| - k
  {
    if k < |LlmModels| {
      AvailableFromFirst(providerKeys, k + 1);
      if HasKey(providerKeys, LlmModels[k].provider) {
        assert AvailableFrom(providerKeys, k) == [LlmModels[k]] + AvailableFrom(providerKeys, k + 1);
      } else {
        assert AvailableFrom(providerKeys, k) == AvailableFrom(providerKeys, k + 1);
      }
    }
  }

  /** Every table model has a non-empty id. */
  lemma ModelIdNonEmpty(m: LlmModel)
    requires m in LlmModels
    ensures m.id != ""
  {
  }

  /** The models of one provider among `models`, in order (the three group filters). */
  function Group(models: seq<LlmModel>, p: Provider): (r: seq<LlmModel>)
    ensures forall m :: m in r <==> m in models && m.provider == p
    ensures |r| <= |models|
  {
    if |models| == 0 then []
    else
      var rest := Group(models[1..], p);
      assert forall m :: m in models <==> m == models[0] || m in models[1..];
      if models[0].provider == p then [models[0]] + rest else rest
  }

  /** The three groups partition the list: every model lies in the group of its provider and in
      no other, and the group sizes add up to the list's. */
  lemma {:induction false} GroupsPartition(models: seq<LlmModel>)
    ensures |Group(models, OpenAI)| + |Group(models, Google)| + |Group(models, Anthropic)| == |models|
    ensures forall m, p :: m in models ==> (m in Group(models, p) <==> p == m.provider)
    decreases |models|
  {
    if |models| > 0 {
      GroupsPartition(models[1..]);
    }
  }

  /** Each group of the offered models is the provider's whole table list when the provider has
      a key, and empty otherwise. */
  lemma {:induction false} GroupOfAvailable(providerKeys: map<Provider, string>, p: Provider, k: nat)
    requires k <= |LlmModels|
    ensures Group(AvailableFrom(providerKeys, k), p) == if HasKey(providerKeys, p) then ModelsFrom(p, k) else []
    decreases |LlmModels| - k
  {
    if k < |LlmModels| {
      GroupOfAvailable(providerKeys, p, k + 1);
      var rest := AvailableFrom(providerKeys, k + 1);
      if HasKey(providerKeys, LlmModels[k].provider) {
        assert AvailableFrom(providerKeys, k) == [LlmModels[k]] + rest;
        assert ([LlmModels[k]] + rest)[1..] == rest;
      }
    }
  }

  /** `isSelectedAvailable`. */
  predicate IsSelectedAvailable(providerKeys: map<Provider, string>, selectedModel: string) {
    exists m :: m in AvailableModels(providerKeys) && m.id == selectedModel
  }

  /** `currentValue`: the selection when it is offered, else the first offered model's id, else
      the empty string. */
  function CurrentValue(providerKeys: map<Provider, string>, selectedModel: string): (r: string)
    ensures IsSelectedAvailable(providerKeys, selectedModel) ==> r == selectedModel
    ensures !IsSelectedAvailable(providerKeys, selectedModel) && |AvailableModels(providerKeys)| > 0 ==>
      r == AvailableModels(providerKeys)[0].id
    ensures |AvailableModels(providerKeys)| == 0 ==> r == ""
  {
    var available := AvailableModels(providerKeys);
    if IsSelectedAvailable(providerKeys, selectedModel) then selectedModel
    else if |available| > 0 then available[0].id
    else ""
  }

  /** When the selection is not offered, the value shown is the id of the first table model
      whose provider has a key, or "" when there is none. */
  lemma CurrentValueFallback(providerKeys: map<Provider, string>, selectedModel: string)
    requires !IsSelectedAvailable(providerKeys, selectedModel)
    ensures FirstKeyedFrom(providerKeys, 0).None? ==> CurrentValue(providerKeys, selectedModel) == ""
    ensures FirstKeyedFrom(providerKeys, 0).Some? ==>
      CurrentValue(providerKeys, selectedModel) == LlmModels[FirstKeyedFrom(providerKeys, 0).value].id
  {
    AvailableFromFirst(providerKeys, 0);
  }

  /** The shown value is always empty or the id of an offered model, and it is empty exactly
      when no provider has a key. */
  lemma CurrentValueOffered(providerKeys: map<Provider, string>, selectedModel: string)
    ensures var r := CurrentValue(providerKeys, selectedModel);
      r == "" || exists m :: m in AvailableModels(providerKeys) && m.id == r
    ensures CurrentValue(providerKeys, selectedModel) == "" <==> forall p :: !HasKey(providerKeys, p)
  {
    var available := AvailableModels(providerKeys);
    var r := CurrentValue(providerKeys, selectedModel);
    if IsSelectedAvailable(providerKeys, selectedModel) {
      var m :| m in available && m.id == selectedModel;
      ModelIdNonEmpty(m);
    } else if |available| > 0 {
      assert available[0] in available;
      ModelIdNonEmpty(available[0]);
    }
    if exists p :: HasKey(providerKeys, p) {
      var p :| HasKey(providerKeys, p);
      assert FirstModelOf(p).value in available;
    }
  }
}
