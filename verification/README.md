# Recipe extractor: a Dafny model of its data rules

The recipe extractor is a browser app. It takes a recipe page URL and works in these steps:

- It scrapes the page to markdown with a scraping service (Firecrawl).
- It asks a chosen LLM provider (OpenAI, Google or Anthropic) to turn the page into a JSON recipe.
- It checks the JSON and fills in defaults.
- It stores the recipe in a history of at most 20 entries, kept in `localStorage`.
- It shows the recipe with ingredient amounts scaled to a chosen serving count.
- It has a step-by-step cooking mode.

This project models the app's data rules as pure Dafny functions over immutable values. It also proves properties of them.

- **Amounts.** `formatQuantity` renders an amount as the empty string, an integer, a kitchen fraction or a short decimal. The model is in `format_quantity.dfy`, with decimal text in `decimal.dfy`.
- **Unit conversion.** This covers unit recognition, the fixed table of alternative measurements, de-duplication, the cap of three, and the display of converted amounts (`unit_conversions.dfy`).
- **Extraction** (`extract_recipe.dfy`, `step_normalization.dfy`):
  - finding the JSON in the LLM's answer;
  - required fields and defaults;
  - the step clean-up;
  - truncation of long pages;
  - status-to-message mapping for the scraper and the three providers;
  - provider dispatch and stamping the stored recipe.
- **Persistence** (`storage.dfy`, `recipe_normalization.dfy`):
  - the recipe normalisation applied to every history entry;
  - upsert by source URL with the cap of 20;
  - deletion by id;
  - settings, legacy-key migration and API-key derivation;
  - per-recipe cooking progress and the current session.

  `localStorage` is a `map<string, Stored>`.
- **The model table and the UI rules** (`types.dfy` and one module per component):
  - model availability, grouping and fallback selection;
  - the two key dialogs;
  - the servings counter;
  - the ingredient list;
  - the cooking-mode player;
  - step toggling;
  - the history picker.

## How the JavaScript runtime is modelled

**Dynamic values.** A dynamic value is a `Json`: null, boolean, number (`real`), string, array or object (`json.dfy`). An absent property is JavaScript `undefined`, written `None`. Truthiness, `??`, `||`, `===` and object spread are defined explicitly, because the code relies on each of them.

**The runtime record.** `JSON.parse` and the number-to-text conversion are fields of a `Runtime` record. Every function that needs them receives it as a parameter, and no property depends on their internals.

**JavaScript numbers.** Where non-finite numbers can reach the code, a number is a `JsNumber`: a finite `real`, `NaN` or a signed infinity. Four places need this:
- multiplication in `formatQuantity`;
- division by a zero serving count, which gives the scale factor of the ingredient list;
- the quantity `getAlternativeMeasurements` receives, which yields no alternatives unless it is finite and positive;
- the value `formatAltValue` writes, which is written as its name when it is not finite.

**`toFixed`.** It is specified over exact rationals, with rounding half away from zero. Its output is related back to the number by a decimal parser.

**Exceptions.** A thrown error is `Raised(message)` when the code throws its own `Error`. It is `EngineError` when the JavaScript engine would throw, for example on a property read on `null`.

**Inputs from outside.** HTTP exchanges are inputs of type `HttpResponse`, holding a status and a body. The LLM's reply is a function of the content sent, so truncation stays observable. Generated ids and timestamps are parameters.

## Model

| member | source | states |
|---|---|---|
| QuantityFormat.FormatQuantity | lib/format-quantity.ts:2-49 | The text is empty exactly when the scaled amount `quantity*scale` is 0; every other amount, including non-finite ones, gets non-empty text |
| QuantityFormat.FormatNonEmpty | lib/format-quantity.ts:3-48 | For a finite amount, only 0 is rendered as the empty string (the decimal fallback never strips down to nothing) |
| QuantityFormat.DecimalTextNonEmpty | lib/format-quantity.ts:47-48 | The decimal fallback never strips the `toFixed(2)` text down to the empty string |
| QuantityFormat.FormatWhole | lib/format-quantity.ts:8-10 | A non-zero whole amount is written as its integer string, which reads back as exactly the amount |
| QuantityFormat.ClosestFraction | lib/format-quantity.ts:13-38 | The fraction-table scan picks a fraction whose anchor is strictly within 0.05 of the fractional part, no candidate is closer, an exact tie goes to the earlier entry; it picks nothing exactly when no anchor is within 0.05 |
| QuantityFormat.ScanFindsClosest | lib/format-quantity.ts:29-38 | From any loop state satisfying the loop invariant, the rest of the scan ends with the reference choice, or with nothing exactly when no anchor is near |
| QuantityFormat.ClosestUnique | lib/format-quantity.ts:32-37 | The reference choice is unique, so the scan's answer is determined |
| QuantityFormat.FormatFinite | lib/format-quantity.ts:3-48 | No contract of its own: `FormatNonEmpty`, `FormatWhole`, `FormatMixed` and `FormatDecimal` state its empty case and its three branches |
| QuantityFormat.FormatMixed | lib/format-quantity.ts:25-45 | A non-integer whose fractional part the scan matches to fraction `i` is written as that fraction alone when the floor is 0 and as "whole fraction" otherwise; `i` is the reference choice (closest, earliest on a tie), and the mixed number is within 0.05 of the amount |
| QuantityFormat.FormatDecimal | lib/format-quantity.ts:47-48 | With no fraction near, the text reads back as exactly the amount rounded to two decimals with halves away from zero, the value `toFixed(2)` writes; it has at most two digits after the point, no trailing zero and no bare point, and so lies within 0.005 of the amount |
| QuantityFormat.FormatOneThird | lib/format-quantity.ts:16 | 0.333 is shown as "1/3" (the thirds are anchored at 0.333 and 0.666) |
| QuantityFormat.FormatOneAndAHalf | lib/format-quantity.ts:41-44 | 0.75 at scale 2 is shown as "1 1/2" |
| QuantityFormat.FormatTieGoesToEarlier | lib/format-quantity.ts:32-37 | 0.354, equally far from 0.333 and 0.375, is shown as "1/3": the strict `<` keeps the earlier entry |
| UnitConversions.NormalizeUnitSynonyms | lib/unit-conversions.ts:20-37 | A text names a unit exactly when its trimmed, lower-cased form is one of that unit's listed spellings, and names none exactly when it is no listed spelling (blank included) |
| UnitConversions.NormalizeUnit | lib/unit-conversions.ts:20-37 | No contract of its own: `NormalizeUnitSynonyms`, `NormalizeUnitName` and `NormalizeUnitTrim` state what it recognises |
| UnitConversions.SynonymsDisjoint | lib/unit-conversions.ts:24-34 | No spelling is listed for two units, so the chain of tests is a function of the spelling |
| UnitConversions.NormalizeUnitName | lib/unit-conversions.ts:25-34 | Every canonical tag normalises to its own unit |
| UnitConversions.NormalizeUnitTrim | lib/unit-conversions.ts:21 | Surrounding whitespace never changes the recognised unit |
| UnitConversions.TableFacts | lib/unit-conversions.ts:81-122 | Each unit's row has at most three targets, all distinct, none equal to the input unit, all in the input's family (volume or weight), each measuring the same amount as the input |
| UnitConversions.ConversionPreservesAmount | lib/unit-conversions.ts:81-122 | Every pushed entry is tagged with a unit of the input's family other than the input's own, and its value times that unit's size equals the input amount times the input unit's size |
| UnitConversions.ConversionsDistinct | lib/unit-conversions.ts:82-122 | Each row's entries have distinct non-empty lower-case keys, number at most three, and are all exact |
| UnitConversions.Dedupe | lib/unit-conversions.ts:124-131 | The filter keeps entries with pairwise distinct, non-empty, unseen keys, each the first entry with its key, and keeps some entry for every non-empty unseen key |
| UnitConversions.DedupeDistinct | lib/unit-conversions.ts:124-131 | A list whose keys are already distinct, non-empty and unseen passes the filter unchanged |
| UnitConversions.AlternativesAreTableRow | lib/unit-conversions.ts:71-135 | The result is empty exactly for a non-finite or non-positive amount or an unrecognised unit; otherwise it is the unit's whole table row |
| UnitConversions.GetAlternativeMeasurements | lib/unit-conversions.ts:71-135 | No contract of its own: `AlternativesAreTableRow`, `AlternativesShortDistinctExact` and `ConversionPreservesAmount` state the list it returns |
| UnitConversions.AlternativesShortDistinctExact | lib/unit-conversions.ts:124-134 | The result has at most three entries, pairwise distinct units ignoring case, every one exact |
| UnitConversions.GramsIncludeKilograms | lib/unit-conversions.ts:104-107 | From 1000 g on, however grams are spelled, the list contains q/1000 kg |
| UnitConversions.KilogramsThreshold | lib/unit-conversions.ts:104-107 | For a positive amount in grams, kilograms are offered exactly when the amount is at least 1000 |
| UnitConversions.PoundsThreshold | lib/unit-conversions.ts:104-108 | For a positive amount in grams, pounds are offered exactly when the amount is at least 453.592 |
| UnitConversions.LitresThreshold | lib/unit-conversions.ts:93-97 | For a positive amount in millilitres, litres are offered exactly when the amount is at least 1000 |
| UnitConversions.TablespoonIsFifteenMl | lib/unit-conversions.ts:88-91 | One tablespoon, however spelled, is listed as 15 ml |
| UnitConversions.AltUnitTextIs | lib/unit-conversions.ts:44 | The text `normalizeUnit(unit) ?? unit` equals a canonical tag exactly when the unit is recognised as that unit |
| UnitConversions.FormatAltValueSynonym | lib/unit-conversions.ts:43-66 | Any spelling of a unit formats every value exactly like the canonical tag ("grams" like "g") |
| UnitConversions.FormatAltValueSmallMetric | lib/unit-conversions.ts:47-58 | For ml and g the text reads back as the value rounded to a step of 0.5 below 50 and of 1 from 50 on, within half a step of the value |
| UnitConversions.FormatAltValueLargeMetric | lib/unit-conversions.ts:51-62 | For l and kg the text reads back as the value rounded to hundredths, within 0.005 of it, with no trailing zero or bare point |
| UnitConversions.FormatAltValueOther | lib/unit-conversions.ts:64-65 | Every other unit, recognised or not, is formatted as `formatQuantity(value, 1)` |
| UnitConversions.FormatAltValue | lib/unit-conversions.ts:43-66 | A non-finite value is written as its name whatever the unit |
| ExtractRecipe.FenceBody | lib/extract-recipe.ts:228-232 | A fenced block found is the text after the first fence, its optional `json` tag and the blanks that follow, up to the next fence |
| ExtractRecipe.FenceBodyFound | lib/extract-recipe.ts:229 | The fenced-block pattern matches exactly when the text holds two non-overlapping fences |
| ExtractRecipe.ObjectSpan | lib/extract-recipe.ts:234-238 | The brace pattern matches exactly when a `{` precedes a `}`, and the match runs from the first `{` to the last `}` |
| ExtractRecipe.LocateJson | lib/extract-recipe.ts:224-238 | Text with neither a fenced block nor a brace span is handed to the parser unchanged |
| ExtractRecipe.LocateBareObject | lib/extract-recipe.ts:226-238 | An answer that is a bare object without fences is parsed exactly as it stands |
| ExtractRecipe.ParseRecipeJson | lib/extract-recipe.ts:240-275 | Parsing succeeds exactly when the located text parses and has truthy `title`, `ingredients` and `steps`; every failure is the one generic message; a success has exactly the response fields |
| ExtractRecipe.ParsedFields | lib/extract-recipe.ts:263-270 | Title and ingredients are kept; a falsy description, baseServings or warnings becomes "", 4 or [] and a truthy one is kept; steps are the normalised steps |
| ExtractRecipe.ZeroServingsDefaultsToFour | lib/extract-recipe.ts:266 | A recipe declaring 0 servings gets 4 |
| ExtractRecipe.Scrape | lib/extract-recipe.ts:56-79 | A scrape succeeds only on an OK response and yields truthy markdown |
| ExtractRecipe.ScrapeOutcomes | lib/extract-recipe.ts:56-79 | 401 and 402 have their own messages, other failing statuses report the body, and an OK response fails with the blocking message exactly when `success` or the markdown is falsy; otherwise the markdown is returned |
| ExtractRecipe.ExtractWith | lib/extract-recipe.ts:82-222 | A provider call succeeds only on an OK response and then returns what the recipe parser returns for some answer text |
| ExtractRecipe.AnswerOutcome | lib/extract-recipe.ts:120-127 | A successful body yields a parse result of the answer text, with exactly the response fields |
| ExtractRecipe.ProviderStatusErrors | lib/extract-recipe.ts:110-219 | A failing status is a rejected-key error exactly for the provider's key statuses, and "<Provider> API error: <body>" otherwise |
| ExtractRecipe.ProviderAnswer | lib/extract-recipe.ts:120-221 | A missing or empty answer text is "No response from <Provider>", and a non-empty one is handed to the parser |
| ExtractRecipe.BadRequestOnlyRejectsGoogleKey | lib/extract-recipe.ts:159-167 | Status 400 is a rejected key for Google only; OpenAI and Anthropic report it with the body |
| ExtractRecipe.Truncate | lib/extract-recipe.ts:285-290 | Content of at most 15000 characters is unchanged; longer content becomes its first 15000 characters plus the marker; the result never exceeds 15000 plus the marker's length and starts with the content's first characters |
| ExtractRecipe.Extract | lib/extract-recipe.ts:278-330 | A successful extraction has exactly the recipe fields, with `sourceUrl` the requested URL and the given id and timestamp |
| ExtractRecipe.Stamp | lib/extract-recipe.ts:321-327 | The stored recipe copies every response field unchanged and adds id, sourceUrl and extractedAt |
| ExtractRecipe.ExtractKeepsResponse | lib/extract-recipe.ts:292-327 | A stored recipe exists only after a successful scrape and a known provider, and carries that provider's parsed response unchanged |
| ExtractRecipe.UnknownProviderRejected | lib/extract-recipe.ts:317-318 | After a successful scrape, a provider name other than the three fails with "Unknown LLM provider" |
| ExtractRecipe.ScrapeFailureFirst | lib/extract-recipe.ts:283 | A scrape failure is reported as it is, whatever the provider |
| StepNormalization.StepText | lib/extract-recipe.ts:250-253 | A step text is the first of the primary field and `summary` that is neither null nor missing, converted to text (a string as itself, a number as `String` writes it) and trimmed; "" when both are nullish |
| StepNormalization.TextOrEmpty | lib/extract-recipe.ts:257-258 | details and duration are kept when they are strings and are "" otherwise |
| StepNormalization.NormalizeStep | lib/extract-recipe.ts:249-259 | A normalised step has exactly the four fields title, instruction, details and duration, all strings |
| StepNormalization.NormalizeSteps | lib/extract-recipe.ts:248-261 | An array of steps is mapped element by element; anything else becomes [] |
| StepNormalization.NormalizeStepFields | lib/storage.ts:42-55 | Every normalised step has the normal shape and its fields keep what the step said, with the `summary` fallback |
| StepNormalization.NormalizeNormalStep | lib/storage.ts:42-55 | A step already in normal form is left unchanged |
| StepNormalization.NormalizeStepsIdempotent | lib/storage.ts:42-55 | Normalising steps twice is the same as once |
| RecipeNormalization.Survivors | lib/storage.ts:16-23 | The filter keeps exactly the alternatives with a finite positive quantity and a non-blank string unit, and never lengthens the list; `SurvivorsConcat` and `SurvivorsSingle` fix the order and multiplicity |
| RecipeNormalization.KeepAlternative | lib/storage.ts:18-22 | No contract of its own: the filter predicate, used by `Survivors` and `SurvivorsSingle` |
| RecipeNormalization.SurvivorsConcat | lib/storage.ts:16-23 | Filtering a concatenation is filtering each part, the parts kept in order |
| RecipeNormalization.SurvivorsSingle | lib/storage.ts:16-23 | One alternative survives exactly when it passes the filter; with `SurvivorsConcat`, the survivors are the passing alternatives in their order, each as often as in the input |
| RecipeNormalization.SurvivorsOfKept | lib/storage.ts:16-23 | A list whose every element passes the filter is kept whole |
| RecipeNormalization.NormalizeAlternativeClean | lib/storage.ts:25-33 | A cleaned alternative has the clean shape, keeps the quantity, has the trimmed unit and `exact` as the truthiness of the input's, and has a note exactly when the input's note is a non-blank string, then that note trimmed |
| RecipeNormalization.NormalizeAlternative | lib/storage.ts:25-33 | The cleaned alternative is an object; `NormalizeAlternativeClean` states its fields |
| RecipeNormalization.CleanAlternativeFixed | lib/storage.ts:25-33 | A clean alternative is its own cleaning |
| RecipeNormalization.NormalizeAlternativesSpec | lib/storage.ts:13-33 | The alternatives are the cleaned first six survivors, in order |
| RecipeNormalization.NormalizeAlternatives | lib/storage.ts:13-33 | At most six alternatives are kept; `NormalizeAlternativesSpec` states which |
| RecipeNormalization.NormalizeAlternativesIdempotent | lib/storage.ts:13-33 | Cleaning the cleaned alternatives changes nothing |
| RecipeNormalization.NormalizeIngredientFields | lib/storage.ts:35-38 | An ingredient keeps every own field except `alternatives`, which is present exactly when some alternative survives |
| RecipeNormalization.NormalizeIngredient | lib/storage.ts:12-39 | The normalised ingredient is an object; `NormalizeIngredientFields` states its fields |
| RecipeNormalization.NormalizeIngredientIdempotent | lib/storage.ts:12-39 | Normalising an ingredient twice is the same as once |
| RecipeNormalization.NormalizeRecipe | lib/storage.ts:10-62 | The result is an object that has `ingredients` and `steps`; `NormalizeRecipeLists` and `NormalizeRecipeKeepsFields` state their content |
| RecipeNormalization.NormalizeRecipeLists | lib/storage.ts:11-55 | An array of ingredients becomes the normalised ingredients one for one and in order, anything else []; the steps are the step normalisation of the recipe's `steps` |
| RecipeNormalization.NormalizeRecipeIdempotent | lib/storage.ts:10-62 | `normalizeRecipe` applied twice equals applied once |
| RecipeNormalization.NormalizeRecipeKeepsFields | lib/storage.ts:57-61 | Every top-level field other than ingredients and steps passes through the spread |
| RecipeNormalization.NormalizeRecipeEmptyLists | lib/storage.ts:11-55 | Non-array ingredients or steps become [] |
| RecipeNormalization.SpreadKeepsNamedField | lib/storage.ts:57-58 | A field whose name is not all digits reads the same from the spread copy as from the value |
| Types.ProviderNamed | lib/types.ts:1 | A name denotes a provider exactly when it is that provider's name |
| Types.ProviderNameInjective | lib/types.ts:1 | Distinct providers have distinct names |
| Types.ProviderForModel | lib/types.ts:9-28 | The lookup finds a provider exactly for the ids of table models |
| Types.ModelIdsDistinct | lib/types.ts:9-28 | No two table models share an id |
| Types.ProviderForModelIsTableEntry | lib/types.ts:9-28 | The lookup returns the provider of the model holding the id |
| Types.DefaultModelIsOpenAI | lib/types.ts:11 | "gpt-4o" is a table model, and OpenAI serves it |
| Types.EveryProviderHasModel | lib/types.ts:11-27 | Each of the three providers has at least one table model |
| Types.FirstModelOf | components/api-keys-modal.tsx:56 | `find` always finds a model for a provider, and it is the provider's first model in table order: no earlier table model belongs to that provider |
| Types.ModelsOf | components/api-keys-modal.tsx:75 | The models of a provider are exactly the table models it serves |
| Types.ResponseIsRecipeWithoutAdded | lib/types.ts:51-63 | The response fields are the recipe fields without id, sourceUrl and extractedAt |
| Storage.GetRecipes | lib/storage.ts:226-237 | Every recipe read from the history is in normal form |
| Storage.Read | lib/storage.ts:186-192 | A key reads as a value exactly when it is present and its text parses; absent keys and unparsable or empty text read as nothing |
| Storage.FindBySourceUrl | lib/storage.ts:242-244 | The index found is the first one whose sourceUrl is `===` the recipe's; none is found exactly when no entry matches |
| Storage.Upsert | lib/storage.ts:239-251 | The history after an upsert has at most 20 entries |
| Storage.UpsertReplaces | lib/storage.ts:242-246 | With a matching entry, the first match is replaced in place, nothing else moves, and the length is cut to 20 |
| Storage.UpsertPrepends | lib/storage.ts:247-251 | Without a match, the recipe goes first and the rest follow in order, cut to 20 |
| Storage.UpsertKeepsRecipe | lib/storage.ts:239-251 | In a history of at most 20 entries the saved recipe is always present after the upsert |
| Storage.SaveRecipe | lib/storage.ts:239-253 | Saving writes only the recipes key |
| Storage.NormalizeKeepsSourceUrl | lib/storage.ts:57-61 | Normalisation keeps `sourceUrl` |
| Storage.ReadBackWritten | lib/storage.ts:226-237 | A written list reads back element by element normalised |
| Storage.ReadBackNormal | lib/storage.ts:226-237 | A list in normal form reads back exactly as written |
| Storage.UpsertThenNormalize | lib/storage.ts:239-251 | Upserting into a normal history and then normalising equals upserting the normalised recipe |
| Storage.ReadBackAfterSave | lib/storage.ts:239-253 | After a save, the history read back is the history read before with the normalised recipe upserted |
| Storage.WithoutId | lib/storage.ts:257 | The filter keeps exactly the recipes whose id is not the given one and never lengthens the list; `WithoutIdConcat` and `WithoutIdSingle` fix the order and multiplicity |
| Storage.WithoutIdConcat | lib/storage.ts:257 | Filtering a concatenation is filtering each part, the parts kept in order |
| Storage.WithoutIdSingle | lib/storage.ts:257 | One recipe is dropped exactly when its id is the given one; with `WithoutIdConcat`, the result is the other recipes in their order, each as often as before |
| Storage.WithoutAbsentId | lib/storage.ts:257 | Deleting an id no recipe has changes nothing |
| Storage.DeleteRecipe | lib/storage.ts:255-258 | Deleting writes only the recipes key |
| Storage.DeleteRemovesOnlyId | lib/storage.ts:255-258 | After a delete, the history read back is the history read before without the recipes with the id, the others in their order; no recipe read back has the id and every other recipe is still there |
| Storage.ProgressJson | lib/storage.ts:118-121 | Saved progress is a truthy object |
| Storage.GetProgress | lib/storage.ts:104-110 | A recipe's progress is its map entry exactly when that entry is present and truthy |
| Storage.SaveProgress | lib/storage.ts:86-123 | Saving progress writes only the progress key; a stored array is written back unchanged (see `SaveIntoArrayIsLost`) |
| Storage.ClearProgress | lib/storage.ts:125-132 | Clearing writes nothing when there is no entry, and touches only the progress key |
| Storage.GetAfterSave | lib/storage.ts:86-123 | Unless the stored progress is an array, what was saved for a recipe is read back, with its timestamp |
| Storage.SaveIntoArrayIsLost | lib/storage.ts:86-123 | When the stored progress is an array, a save leaves the stored value unchanged and the recipe still has no progress |
| Storage.SaveKeepsOthers | lib/storage.ts:112-123 | Saving one recipe's progress leaves every other recipe's progress alone |
| Storage.ClearRemoves | lib/storage.ts:125-132 | After clearing, the recipe has no progress and the others keep theirs |
| Storage.Migrated | lib/storage.ts:151-157 | Migrated settings are an object with an object `providerKeys` |
| Storage.StoredSettingsWin | lib/storage.ts:138-146 | Readable stored settings are returned as they are, and nothing is written |
| Storage.GetSettings | lib/storage.ts:135-163 | No contract of its own: `StoredSettingsWin`, `LegacyMigration` and `NoSettings` state its three cases |
| Storage.LegacyMigration | lib/storage.ts:148-160 | Without readable settings, a truthy legacy record migrates to settings with only the legacy provider's key, the same scraping key and model, written back so that the next read returns it unchanged |
| Storage.NoSettings | lib/storage.ts:148-163 | With neither settings nor a legacy record, there are no settings and nothing is written |
| Storage.KeysSettings | lib/storage.ts:216-222 | The settings written from a key record have exactly one provider key, under the record's provider name |
| Storage.SaveApiKeys | lib/storage.ts:214-224 | Saving keys writes those settings under the settings key and touches nothing else |
| Storage.SettingsJson | lib/storage.ts:165-168 | Stored typed settings read back with the same scraping key, model and per-provider key entries |
| Storage.SaveSettings | lib/storage.ts:165-168 | Saving settings writes them under the settings key and touches nothing else |
| Storage.SelectedProvider | lib/storage.ts:200-201 | The provider used is the one serving the selected model |
| Storage.ApiKeysOf | lib/storage.ts:195-212 | Keys are returned only for truthy settings whose model has a provider with a truthy key |
| Storage.ApiKeysRoundTrip | lib/storage.ts:195-224 | Keys saved by `saveApiKeys` read back exactly as saved exactly when the key is non-empty and the model belongs to the saved provider, and read back as null otherwise |
| Storage.GetApiKeys | lib/storage.ts:195-212 | No contract of its own: `ApiKeysOf` states the keys it derives from the settings, and `ApiKeysRoundTrip` the round trip with `saveApiKeys` |
| Storage.SettingsKeysFound | lib/storage.ts:195-212 | Settings whose model's provider has a non-empty key give that provider, the model, the key and the scraping key |
| Storage.SettingsKeysMissing | lib/storage.ts:198-204 | Settings whose model is not a table model, or whose provider has no key, give null |
| Storage.SavedSettingsGiveKeys | lib/storage.ts:195-212 | After `saveSettings`, `getApiKeys` works from the saved settings and writes nothing |
| Storage.SetSelectedModel | lib/storage.ts:175-181 | After a model is set on existing object settings, reading the selected model gives it, or null for the empty id |
| Storage.GetSelectedModel | lib/storage.ts:170-173 | No contract of its own: `SetSelectedModel` states what it reads back after a model is set |
| Storage.SaveSession | lib/storage.ts:272-283 | The saved session reads back, and only the session key changes |
| Storage.ClearSession | lib/storage.ts:285-288 | After clearing, the session reads as null, and only the session key changes |
| Storage.GetSession | lib/storage.ts:261-270 | No contract of its own: `SaveSession` and `ClearSession` state what it reads back |
| IngredientList.Scale | components/ingredient-list.tsx:23 | The scale times the recipe's servings equals the chosen servings; with 0 recipe servings the scale is not finite |
| IngredientList.LineOf | components/ingredient-list.tsx:29-32 | A line shows `formatQuantity(quantity, scale)`, is highlighted exactly when the scale is not 1 and the quantity is positive, and is checked exactly when its index is in the (present) set |
| IngredientList.Lines | components/ingredient-list.tsx:29-56 | The list has one line per ingredient, in order |
| IngredientList.ScaledIffServingsDiffer | components/ingredient-list.tsx:31 | With positive recipe servings, a line is highlighted exactly when the chosen servings differ and the quantity is positive |
| IngredientList.AmountHiddenIffZero | components/ingredient-list.tsx:45-48 | With non-zero recipe servings, amount and unit are left out exactly when the quantity is 0 or no servings are chosen |
| IngredientList.EmptyAmount | components/ingredient-list.tsx:45 | The amount text of a finite quantity and scale is empty exactly when one of them is 0 |
| IngredientList.UnscaledAtBase | components/ingredient-list.tsx:23-31 | At the recipe's own servings nothing is highlighted and every amount is formatted unscaled |
| IngredientList.TwoForFourShownForSix | components/ingredient-list.tsx:23-32 | 2 of an ingredient for 4 servings, shown for 6, reads "3", highlighted and unchecked |
| ServingsAdjuster.Decrease | components/servings-adjuster.tsx:13-17 | Minus gives one fewer above 1 and changes nothing otherwise |
| ServingsAdjuster.Increase | components/servings-adjuster.tsx:19-23 | Plus gives one more below 99 and changes nothing otherwise |
| ServingsAdjuster.DisabledIffNoChange | components/servings-adjuster.tsx:39-52 | Each button is disabled exactly when pressing it would change nothing |
| ServingsAdjuster.IncreaseDecreaseInverse | components/servings-adjuster.tsx:13-23 | Within the range, plus undoes minus and minus undoes plus |
| ServingsAdjuster.Step | components/servings-adjuster.tsx:58-61 | Reset makes the count unscaled; plus and minus move it by at most one |
| ServingsAdjuster.Run | components/servings-adjuster.tsx:13-23 | No contract of its own: `RunStaysInRange` and `RunStaysPositive` state the ranges it keeps |
| ServingsAdjuster.RunStaysInRange | components/servings-adjuster.tsx:13-23 | Starting from a whole count in 1..99, with recipe servings in 1..99, any presses of plus, minus and reset keep a whole count in 1..99 |
| ServingsAdjuster.RunStaysPositive | components/servings-adjuster.tsx:13-23 | Without reset, a count strictly between 0 and 100 stays strictly between 0 and 100 |
| CookingMode.ClampedIndex | components/cooking-mode.tsx:51-54 | The index is 0 with no steps, the requested index when it is valid, 0 below the range and the last index above it |
| CookingMode.ClampIdempotent | components/cooking-mode.tsx:51-54 | Clamping a clamped index changes nothing |
| CookingMode.ClampReport | components/cooking-mode.tsx:56-59 | The effect reports the clamped index exactly when it differs from the requested one |
| CookingMode.ClampReportSettles | components/cooking-mode.tsx:56-59 | Once the reported index is taken, there is nothing left to report |
| CookingMode.Back | components/cooking-mode.tsx:224-225 | Back is enabled exactly when the clamped index is above 0, and moves one step back to a valid index |
| CookingMode.Next | components/cooking-mode.tsx:241-242 | Next is enabled exactly when the clamped index is below the last, and moves one step on to a valid index |
| CookingMode.NextBackInverse | components/cooking-mode.tsx:224-242 | Back undoes Next and Next undoes Back |
| CookingMode.MarkDone | components/cooking-mode.tsx:164-174 | Mark-done toggles the clamped step, and moves on by one exactly when the step was not done and there is a next step |
| CookingMode.MarkDoneMoves | components/cooking-mode.tsx:168-174 | Un-marking never moves; every index fired is a valid step; a move is what Next would do |
| CookingMode.ProgressLabel | components/cooking-mode.tsx:98 | With no steps the label is "Step 0 of 0"; otherwise it names a step between 1 and n |
| CookingMode.ProgressLabelOfValidIndex | components/cooking-mode.tsx:98 | A valid index i is shown as step i+1 |
| RecipeSteps.Toggle | components/recipe-steps.tsx:26-34 | The index is open afterwards exactly when it was closed before; every other index is unchanged |
| RecipeSteps.ToggleTwice | components/recipe-steps.tsx:26-34 | Toggling twice restores the set |
| RecipeSteps.ToggleCommutes | components/recipe-steps.tsx:26-34 | Toggles of two steps commute |
| RecipeSteps.OpenChange | components/recipe-steps.tsx:78 | An open change toggles a step with non-blank details and leaves the set alone otherwise |
| RecipeSteps.Replay | components/recipe-steps.tsx:78 | Steps never requested keep their open state |
| RecipeSteps.OnlyDetailedStepsOpen | components/recipe-steps.tsx:41-78 | If only steps with details are open, they stay the only ones open after any sequence of open changes |
| RecipeSteps.IsCompleted | components/recipe-steps.tsx:43 | A step is completed exactly when the set is present and holds its index |
| ModelSelector.AvailableFrom | components/model-selector.tsx:30-33 | A table model is offered exactly when its provider's key is present and non-blank after trimming |
| ModelSelector.AvailableModels | components/model-selector.tsx:30-33 | The offered models are exactly the table models whose provider has a non-blank key |
| ModelSelector.FirstKeyedFrom | components/model-selector.tsx:30-33 | The least table index from `k` on whose provider has a non-blank key, or none when no such model exists |
| ModelSelector.AvailableFromFirst | components/model-selector.tsx:30-33 | The filter keeps table order at its head: the list is empty exactly when no model has a keyed provider, and otherwise starts with the first table model whose provider is keyed |
| ModelSelector.ModelIdNonEmpty | lib/types.ts:11-27 | Every table model has a non-empty id |
| ModelSelector.Group | components/model-selector.tsx:36-38 | A group holds exactly the listed models of its provider |
| ModelSelector.GroupsPartition | components/model-selector.tsx:36-38 | The three groups partition the list: each model lies in the group of its provider and no other, and the sizes add up |
| ModelSelector.GroupOfAvailable | components/model-selector.tsx:30-38 | Each offered group is the provider's whole table list when it has a key, and empty otherwise |
| ModelSelector.CurrentValue | components/model-selector.tsx:41-42 | The value shown is the selection when offered, else the first offered id, else "" |
| ModelSelector.CurrentValueFallback | components/model-selector.tsx:30-42 | When the selection is not offered, the value shown is the id of the first table model whose provider has a key, or "" when no provider has one |
| ModelSelector.CurrentValueOffered | components/model-selector.tsx:41-42 | The value shown is "" or an offered id, and it is "" exactly when no provider has a key |
| SettingsModal.KeyOrEmpty | components/settings-modal.tsx:38-40 | A missing provider key loads as "" |
| SettingsModal.Load | components/settings-modal.tsx:33-43 | Opening with settings fills the scraping key and each provider's key (or ""); without settings the inputs stay |
| SettingsModal.ProviderKeys | components/settings-modal.tsx:46-56 | A provider has an entry exactly when its input is non-blank, and the entry is the trimmed input |
| SettingsModal.Submit | components/settings-modal.tsx:58-64 | The saved settings have the trimmed scraping key, those provider keys, and the existing model or "gpt-4o" when there is none or it is empty |
| SettingsModal.ValidIffUsable | components/settings-modal.tsx:71 | Save is enabled exactly when the settings it would save have a scraping key and at least one provider key |
| SettingsModal.IsValid | components/settings-modal.tsx:71 | No contract of its own: `ValidIffUsable` states when it holds |
| SettingsModal.LoadAfterSubmit | components/settings-modal.tsx:33-64 | Reopening after a save shows every input trimmed |
| SettingsModal.SubmitAfterLoad | components/settings-modal.tsx:33-64 | Clean settings, loaded and saved without edits, come back unchanged |
| SettingsModal.OfferedAfterSubmit | components/settings-modal.tsx:46-56 | After a save, the model picker offers a model exactly when its provider's input was not blank |
| SettingsModal.FirstSaveNeedsOpenAIKey | components/settings-modal.tsx:59-64 | A first save selects "gpt-4o", so keys can be read back exactly when the OpenAI input was not blank |
| ApiKeysModal.Load | components/api-keys-modal.tsx:42-51 | The dialog takes the saved keys when there are any and keeps its state otherwise |
| ApiKeysModal.ProviderChange | components/api-keys-modal.tsx:53-60 | A provider change sets the provider and its first table model, and leaves the keys alone |
| ApiKeysModal.ProviderModels | components/api-keys-modal.tsx:75 | The models offered are exactly the table models of the chosen provider |
| ApiKeysModal.ChangedModelIsOffered | components/api-keys-modal.tsx:53-75 | After a provider change, the chosen model is among those offered |
| ApiKeysModal.Submit | components/api-keys-modal.tsx:62-68 | The submitted keys are trimmed, and provider and model are unchanged |
| ApiKeysModal.SubmitIdempotent | components/api-keys-modal.tsx:62-68 | Submitting the submitted keys changes nothing |
| ApiKeysModal.ValidIffKeysPresent | components/api-keys-modal.tsx:73 | Save is enabled exactly when both submitted keys are non-empty |
| ApiKeysModal.IsValid | components/api-keys-modal.tsx:73 | No contract of its own: `ValidIffKeysPresent` states when it holds |
| ApiKeysModal.ChosenProviderReadsBack | components/api-keys-modal.tsx:53-71 | Keys submitted after choosing a provider, with save enabled, read back from storage exactly as submitted |
| ApiKeysModal.InitialIsConsistent | components/api-keys-modal.tsx:36-39 | The initial model belongs to the initial provider |
| RecipeHistory.TruncateTitle | components/recipe-history.tsx:30-33 | A title of at most 40 characters is unchanged; a longer one becomes 43 characters ending in "..."; the result always starts with the title's first characters |
| RecipeHistory.TruncateShortFixed | components/recipe-history.tsx:30-33 | A title shown whole is shown the same way when shown again |
| RecipeHistory.TruncatedAlike | components/recipe-history.tsx:30-33 | Two long titles are shown alike exactly when their first 40 characters agree |
| RecipeHistory.Select | components/recipe-history.tsx:13-18 | Selecting an id yields a listed recipe with that id, and yields nothing exactly when no recipe has it |
| RecipeHistory.SelectIsFirst | components/recipe-history.tsx:14 | The selected recipe is the first with the id |
| RecipeHistory.NothingSelectedAfterDelete | components/recipe-history.tsx:13-18 | After a delete, selecting the deleted id from the history read back selects nothing |

## Left out

- Network I/O (`fetch` to the scraping service and the three providers) is not modelled. Each response is an input of a status and a body text. Request bodies, headers and the extraction prompt are not modelled.
- `JSON.parse`, `JSON.stringify` and number-to-text conversion are parameters (`Runtime`), not implementations. A value the app stores is modelled as the value read back.
- `crypto.randomUUID()` and `new Date().toISOString()` are parameters.
- IEEE-754 rounding is not modelled; quantities and conversions use exact reals.
  - Output of `toFixed` and `Number#toString` for magnitudes of 1e21 and up is not modelled.
  - Float artefacts such as 0.1 + 0.2 are not modelled.
- Strings are sequences of characters, not UTF-16 code units. Lower-casing is modelled for ASCII letters only. So a non-ASCII spelling whose lower case is an ASCII unit spelling is not recognised: "\u212Ag" (with the Kelvin sign) lower-cases to "kg" in JavaScript, but the model finds no unit for it. The trimmed whitespace set is ECMAScript's WhiteSpace and LineTerminator.
- React rendering, hooks, effects, toasts and the SSR `typeof window` guards are left out; the model is the browser case.
- Left out as markup or browser APIs: `app/page.tsx`, the URL input, the recipe view, the warnings section, the feature card, the loader and the wake lock. The same goes for date formatting in the history picker.
- `app/page.tsx` hands the saved settings, not an `ApiKeys` record, to `extractRecipe`. The model follows `extractRecipe`'s declared parameter. With the settings object, `llmProvider` would be undefined and every extraction would fail with "Unknown LLM provider".
- `getProviderForModel` and the `AppSettings`/`ProviderApiKeys` types are imported by lib/storage.ts but are not defined in lib/types.ts. The model defines them as a lookup over `LLM_MODELS` and as the record used by the settings dialog.
- Objects with their own `toString`, `__proto__` keys and getters are not modelled.
- Storage.ProgressMap: a stored progress value that is an array is read as empty, not as an object with index keys.
- Storage.SaveProgress: when the stored progress is an array, every save is lost in the model. In the source, an id that is an array index (such as "0") would instead be stored as an element; that case is not modelled.
- ExtractRecipe.RequestContent: markdown that is not a string is sent as its string form and not truncated. The source's `content.length`/`slice` on such a value is not modelled.
- ApiKeysModal.Load: works on a typed `ApiKeys` record, not on what `getApiKeys` returns. Two throwing paths of the source are not modelled. First, `getApiKeys` throws a TypeError when the stored settings select a table model but have a nullish `providerKeys` (`Storage.ApiKeysOf` states this error on its own). Second, a stored `firecrawl` or provider key that is not a string, or a missing `firecrawl`, makes the `trim()` calls of `isValid` throw a TypeError at render.
- SettingsModal.Load: works on typed `AppSettings`. The raw stored value that `getSettings` returns is not modelled here, so settings with a non-string key are out of scope.
- Storage.UpsertKeepsRecipe: requires a history of at most 20 entries. A history longer than 20, which the app never writes, could lose the upserted recipe past position 20.
- CookingMode.MarkDone: requires at least one step, because the button is only rendered then.
- ServingsAdjuster.RunStaysInRange: requires whole serving counts, and recipe servings within 1..99.
  - A fractional count such as 1.5 leaves the range: minus gives 0.5. RunStaysPositive covers that case.
  - Reset to recipe servings outside 1..99 leaves the range too.
- IngredientList.LineOf: takes the quantity as a number, as `Ingredient` declares it. The stored and parsed recipes are not checked against that type: `quantity` passes through the parser and the normalisation unchanged. A string such as "1/2" or a missing quantity would render "NaN" in the source, and `null` would render "". The model does not cover these.
- RecipeHistory.TruncateTitle: takes the title as a string. The parser only checks that the title is truthy, so a stored title may be another value; a number title makes `title.slice` throw a TypeError in the source. The model does not cover this.
- RecipeSteps: the completion toggle of a step belongs to the parent component, which is not shown. Only `isCompleted` is modelled.
- CookingMode: the parent's handlers for the fired callbacks are not shown. The model states which callbacks fire, with which indices.
- A negative non-integer amount is written with its floor as the whole part, so -0.5 reads "-1 1/2". QuantityFormat.FormatMixed states this faithfully, as "whole part plus fraction".
