/**
 * Recipe extraction (lib/extract-recipe.ts): scrape a page to markdown, send it (truncated) to
 * the chosen LLM provider, locate the JSON object in the model's answer, check and default its
 * fields, and stamp the result with an id, the source URL and the extraction time.
 *
 * The network is not modelled: each HTTP exchange is an input `HttpResponse` (status and body
 * text), and the LLM's answer is a function of the content sent, so the effect of truncation
 * remains observable.  The id and the timestamp are parameters.
 */
module ExtractRecipe {
  import opened Wrappers
  import opened Text
  import opened JsonValues
  import opened Types
  import opened StepNormalization

  /** A response: its status and the text of its body (`response.text()`). */
  datatype HttpResponse = HttpResponse(status: int, body: string)

  /** `response.ok`. */
  predicate Ok(r: HttpResponse) {
    200 <= r.status <= 299
  }

  // ---------------------------------------------------------------- locating the JSON

  const Fence: string := "```"

  /** The text holds two non-overlapping code fences, which is when the fenced-block pattern
      ```` ```(?:json)?\s*([\s\S]*?)``` ```` matches. */
  predicate HasFencePair(text: string) {
    exists p, q :: 0 <= p && p + 3 <= q <= |text| && OccursAt(text, Fence, p) && OccursAt(text, Fence, q)
  }

  /** Where the captured body of a block opened at `p` starts: after the fence, the optional
      `json` tag and the whitespace that follows. */
  function BodyStart(text: string, p: nat): (r: nat)
    requires OccursAt(text, Fence, p)
    ensures p + 3 <= r <= |text|
    ensures r < |text| ==> !IsWhitespace(text[r])
  {
    LeadingEnd(text, if OccursAt(text, "json", p + 3) then p + 7 else p + 3)
  }

  /** The captured body of the first fenced block, if the pattern matches. */
  function FenceBody(text: string): (r: Option<string>)
    ensures r.Some? ==> exists p, q ::
      && OccursAt(text, Fence, p) && (forall k :: 0 <= k < p ==> !OccursAt(text, Fence, k))
      && BodyStart(text, p) <= q && OccursAt(text, Fence, q)
      && (forall k :: BodyStart(text, p) <= k < q ==> !OccursAt(text, Fence, k))
      && r.value == text[BodyStart(text, p)..q]
  {
    match IndexOf(text, Fence, 0)
    case None => None
    case Some(p) =>
      var start := BodyStart(text, p);
      match IndexOf(text, Fence, start)
      case None => None
      case Some(q) => Some(text[start..q])
  }

  /** The pattern finds a fenced block exactly when the text holds two non-overlapping fences. */
  lemma FenceBodyFound(text: string)
    ensures FenceBody(text).Some? <==> HasFencePair(text)
  {
    match IndexOf(text, Fence, 0)
    case None =>
    case Some(p) =>
      var start := BodyStart(text, p);
      match IndexOf(text, Fence, start)
      case Some(q) =>
        assert OccursAt(text, Fence, p) && OccursAt(text, Fence, q) && p + 3 <= q;
      case None =>
        if HasFencePair(text) {
          var p': nat, q': nat :| p' + 3 <= q' <= |text| && OccursAt(text, Fence, p') && OccursAt(text, Fence, q');
          NoBacktickBefore(text, p, q');
        }
  }

  /** Between the end of the opening fence and the start of the body there is only the `json`
      tag and whitespace, so no fence can start there. */
  lemma NoBacktickBefore(text: string, p: nat, q: nat)
    requires OccursAt(text, Fence, p) && forall k :: 0 <= k < p ==> !OccursAt(text, Fence, k)
    requires forall k :: BodyStart(text, p) <= k ==> !OccursAt(text, Fence, k)
    requires OccursAt(text, Fence, q)
    ensures q < p + 3
  {
    assert text[q..q + 3][0] == text[q];
    var tagged := OccursAt(text, "json", p + 3);
    if tagged && p + 3 <= q < p + 7 {
      assert text[p + 3..p + 7][q - p - 3] == text[q];
    }
    var after := if tagged then p + 7 else p + 3;
    assert WhitespaceIn(text, after, BodyStart(text, p));
  }

  /** The text holds a `{` before a `}`, which is when `\{[\s\S]*\}` matches. */
  predicate HasBracePair(s: string) {
    exists i, j :: 0 <= i < j < |s| && s[i] == '{' && s[j] == '}'
  }

  /** The span `\{[\s\S]*\}` matches: from the first `{` to the last `}` after it. */
  function ObjectSpan(s: string): (r: Option<string>)
    ensures r.Some? <==> HasBracePair(s)
    ensures r.Some? ==> exists i, j ::
      && 0 <= i < j < |s| && s[i] == '{' && s[j] == '}'
      && (forall k :: 0 <= k < i ==> s[k] != '{')
      && (forall k :: j < k < |s| ==> s[k] != '}')
      && r.value == s[i..j + 1]
  {
    match IndexOfChar(s, '{')
    case None => None
    case Some(i) =>
      match LastIndexOfChar(s, '}')
      case None => None
      case Some(j) => if i < j then Some(s[i..j + 1]) else None
  }

  /** The text `JSON.parse` is given: the first fenced block's body when there is one, then
      narrowed to its outermost brace span when there is one. */
  function LocateJson(text: string): (r: string)
    ensures !HasFencePair(text) && !HasBracePair(text) ==> r == text
  {
    FenceBodyFound(text);
    var s := FenceBody(text).GetOr(text);
    ObjectSpan(s).GetOr(s)
  }

  /** An answer that is a bare object, with no code fences, is parsed as it stands. */
  lemma LocateBareObject(text: string)
    requires |text| >= 2 && text[0] == '{' && text[|text| - 1] == '}'
    requires !HasFencePair(text)
    ensures LocateJson(text) == text
  {
    FenceBodyFound(text);
    assert HasBracePair(text) by { assert text[0] == '{' && text[|text| - 1] == '}'; }
    assert text[0..|text|] == text;
  }

  // ---------------------------------------------------------------- parsing the answer

  const ParseFailed: string :=
    "Failed to parse recipe from AI response. The content might not contain a valid recipe."

  /** The parsed value has the three fields the parser insists on, each truthy. */
  predicate HasRequiredFields(j: Json) {
    var v := Some(j);
    Truthy(Get(v, "title")) && Truthy(Get(v, "ingredients")) && Truthy(Get(v, "steps"))
  }

  /** The response built from a parsed value: `title` as is, defaults for a falsy
      `description` (""), `baseServings` (4), `ingredients` and `warnings` ([]), and the
      normalised steps. */
  function Response(rt: Runtime, parsed: Json): (r: Json)
    requires HasRequiredFields(parsed)
    ensures r.JObj? && r.fields.Keys == ResponseFields
  {
    var v := Some(parsed);
    JObj(map[
      "title" := Get(v, "title").value,
      "description" := Or(Get(v, "description"), Some(JStr(""))).value,
      "baseServings" := Or(Get(v, "baseServings"), Some(JNum(4.0))).value,
      "ingredients" := Or(Get(v, "ingredients"), Some(JArr([]))).value,
      "steps" := JArr(NormalizeSteps(rt, Get(v, "steps"))),
      "warnings" := Or(Get(v, "warnings"), Some(JArr([]))).value])
  }

  /** `parseRecipeJSON`: every failure inside (no JSON, `null`, a missing or falsy required
      field) surfaces as the one generic message. */
  function ParseRecipeJson(rt: Runtime, text: string): (r: Result<Json, Thrown>)
    ensures r.Failure? ==> r.error == Raised(ParseFailed)
    ensures r.Success? <==> (var p := rt.parse(LocateJson(text)); p.Some? && HasRequiredFields(p.value))
    ensures r.Success? ==> r.value.JObj? && r.value.fields.Keys == ResponseFields
  {
    match rt.parse(LocateJson(text))
    case None => Failure(Raised(ParseFailed))
    case Some(parsed) =>
      if HasRequiredFields(parsed) then Success(Response(rt, parsed)) else Failure(Raised(ParseFailed))
  }

  /** What a successful parse keeps and what it fills in: the title unchanged, the falsy
      optional fields replaced by their defaults and the truthy ones unchanged, the steps
      normalised. */
  lemma ParsedFields(rt: Runtime, text: string)
    requires ParseRecipeJson(rt, text).Success?
    ensures var p := Some(rt.parse(LocateJson(text)).value);
      var f := ParseRecipeJson(rt, text).value.fields;
      && Some(f["title"]) == Get(p, "title") && Truthy(Get(p, "title"))
      && Some(f["ingredients"]) == Get(p, "ingredients")
      && (Truthy(Get(p, "description")) ==> Some(f["description"]) == Get(p, "description"))
      && (!Truthy(Get(p, "description")) ==> f["description"] == JStr(""))
      && (Truthy(Get(p, "baseServings")) ==> Some(f["baseServings"]) == Get(p, "baseServings"))
      && (!Truthy(Get(p, "baseServings")) ==> f["baseServings"] == JNum(4.0))
      && (Truthy(Get(p, "warnings")) ==> Some(f["warnings"]) == Get(p, "warnings"))
      && (!Truthy(Get(p, "warnings")) ==> f["warnings"] == JArr([]))
      && f["steps"] == JArr(NormalizeSteps(rt, Get(p, "steps")))
  {
  }

  /** A recipe that declares zero servings is given the default of four. */
  lemma ZeroServingsDefaultsToFour(rt: Runtime, text: string)
    requires ParseRecipeJson(rt, text).Success?
    requires Get(rt.parse(LocateJson(text)), "baseServings") == Some(JNum(0.0))
    ensures ParseRecipeJson(rt, text).value.fields["baseServings"] == JNum(4.0)
  {
    ParsedFields(rt, text);
  }

  // ---------------------------------------------------------------- scraping

  const InvalidFirecrawlKey: string := "Invalid Firecrawl API key. Please check your key and try again."
  const FirecrawlQuota: string := "Firecrawl API quota exceeded. Please check your plan limits."
  const ScrapeFailedPrefix: string := "Failed to scrape page: "
  const ScrapeBlocked: string := "Failed to extract content from the page. The site may be blocking scraping."

  /** `scrapeWithFirecrawl`, given the scraping service's response: the page's markdown. */
  function Scrape(rt: Runtime, resp: HttpResponse): (r: Result<Json, Thrown>)
    ensures r.Success? ==> Ok(resp) && Truthy(Some(r.value))
  {
    if !Ok(resp) then
      if resp.status == 401 then Failure(Raised(InvalidFirecrawlKey))
      else if resp.status == 402 then Failure(Raised(FirecrawlQuota))
      else Failure(Raised(ScrapeFailedPrefix + resp.body))
    else
      match rt.parse(resp.body)
      case None => Failure(EngineError)
      case Some(data) =>
        if data.JNull? then Failure(EngineError)
        else
          var markdown := Get(Get(Some(data), "data"), "markdown");
          if !Truthy(Get(Some(data), "success")) || !Truthy(markdown) then Failure(Raised(ScrapeBlocked))
          else Success(markdown.value)
  }

  /** How a failed scrape reads: 401 and 402 have their own messages, any other failing status
      reports the body, and a successful response without content reports blocking. */
  lemma ScrapeOutcomes(rt: Runtime, resp: HttpResponse)
    ensures !Ok(resp) && resp.status == 401 ==> Scrape(rt, resp) == Failure(Raised(InvalidFirecrawlKey))
    ensures !Ok(resp) && resp.status == 402 ==> Scrape(rt, resp) == Failure(Raised(FirecrawlQuota))
    ensures !Ok(resp) && resp.status != 401 && resp.status != 402 ==>
      Scrape(rt, resp) == Failure(Raised(ScrapeFailedPrefix + resp.body))
    ensures Ok(resp) ==> match rt.parse(resp.body)
      case None => Scrape(rt, resp) == Failure(EngineError)
      case Some(data) => data != JNull ==>
        var markdown := Get(Get(Some(data), "data"), "markdown");
        (Scrape(rt, resp) == Failure(Raised(ScrapeBlocked)) <==>
          !Truthy(Get(Some(data), "success")) || !Truthy(markdown))
        && (Scrape(rt, resp).Success? ==> Some(Scrape(rt, resp).value) == markdown)
  {
  }

  // ---------------------------------------------------------------- asking the LLM

  /** The message for a rejected key. */
  function InvalidKey(p: Provider): string {
    match p
    case OpenAI => "Invalid OpenAI API key. Please check your key and try again."
    case Google => "Invalid Google AI API key. Please check your key and try again."
    case Anthropic => "Invalid Anthropic API key. Please check your key and try again."
  }

  /** What precedes the body of any other failing response. */
  function ErrorPrefix(p: Provider): string {
    match p
    case OpenAI => "OpenAI API error: "
    case Google => "Google AI API error: "
    case Anthropic => "Anthropic API error: "
  }

  /** The message for a response without answer text. */
  function NoResponse(p: Provider): string {
    match p
    case OpenAI => "No response from OpenAI"
    case Google => "No response from Google AI"
    case Anthropic => "No response from Anthropic"
  }

  /** The statuses that a provider's client reads as a rejected key. */
  predicate RejectsKey(p: Provider, status: int) {
    status == 401 || (p == Google && status == 400)
  }

  /** Where each provider's response carries the answer text. */
  function AnswerText(p: Provider, data: Json): Option<Json> {
    var d := Some(data);
    match p
    case OpenAI => Get(Get(First(Get(d, "choices")), "message"), "content")
    case Google => Get(First(Get(Get(First(Get(d, "candidates")), "content"), "parts")), "text")
    case Anthropic => Get(First(Get(d, "content")), "text")
  }

  /** The error a failing status raises: a rejected key for the provider's key statuses, the
      response body otherwise. */
  function StatusError(p: Provider, resp: HttpResponse): Thrown {
    if RejectsKey(p, resp.status) then Raised(InvalidKey(p)) else Raised(ErrorPrefix(p) + resp.body)
  }

  /** What becomes of a successful response's body: the answer text is parsed as a recipe. */
  function AnswerOutcome(rt: Runtime, p: Provider, body: string): (r: Result<Json, Thrown>)
    ensures r.Success? ==> exists answer :: ParseRecipeJson(rt, answer) == r
    ensures r.Success? ==> r.value.JObj? && r.value.fields.Keys == ResponseFields
  {
    match rt.parse(body)
    case None => Failure(EngineError)
    case Some(data) =>
      if data.JNull? then Failure(EngineError)
      else
        var text := AnswerText(p, data);
        if !Truthy(text) then Failure(Raised(NoResponse(p)))
        else if text.value.JStr? then ParseRecipeJson(rt, text.value.s)
        else Failure(EngineError)
  }

  /** `extractWithOpenAI`, `extractWithGoogle` and `extractWithAnthropic`, given the provider's
      response. */
  function ExtractWith(rt: Runtime, p: Provider, resp: HttpResponse): (r: Result<Json, Thrown>)
    ensures r.Success? ==> Ok(resp) && exists answer :: ParseRecipeJson(rt, answer) == r
    ensures r.Success? ==> r.value.JObj? && r.value.fields.Keys == ResponseFields
  {
    if !Ok(resp) then Failure(StatusError(p, resp)) else AnswerOutcome(rt, p, resp.body)
  }

  /** A failing status is reported as a rejected key exactly for the provider's key statuses
      (401, and for Google also 400), and otherwise with the response body. */
  lemma ProviderStatusErrors(rt: Runtime, p: Provider, resp: HttpResponse)
    requires !Ok(resp)
    ensures RejectsKey(p, resp.status) ==> ExtractWith(rt, p, resp) == Failure(Raised(InvalidKey(p)))
    ensures !RejectsKey(p, resp.status) ==> ExtractWith(rt, p, resp) == Failure(Raised(ErrorPrefix(p) + resp.body))
  {
  }

  /** A successful response whose answer text is missing or empty is reported as no response;
      answer text is handed to the parser. */
  lemma ProviderAnswer(rt: Runtime, p: Provider, resp: HttpResponse, data: Json)
    requires Ok(resp) && rt.parse(resp.body) == Some(data) && data != JNull
    ensures !Truthy(AnswerText(p, data)) ==> ExtractWith(rt, p, resp) == Failure(Raised(NoResponse(p)))
    ensures IsString(AnswerText(p, data)) && AnswerText(p, data).value.s != "" ==>
      ExtractWith(rt, p, resp) == ParseRecipeJson(rt, AnswerText(p, data).value.s)
  {
  }

  /** Google, unlike the others, reads 400 as a rejected key. */
  lemma BadRequestOnlyRejectsGoogleKey(rt: Runtime, resp: HttpResponse)
    requires resp.status == 400
    ensures ExtractWith(rt, Google, resp) == Failure(Raised(InvalidKey(Google)))
    ensures ExtractWith(rt, OpenAI, resp) == Failure(Raised(ErrorPrefix(OpenAI) + resp.body))
    ensures ExtractWith(rt, Anthropic, resp) == Failure(Raised(ErrorPrefix(Anthropic) + resp.body))
  {
    ProviderStatusErrors(rt, Google, resp);
    ProviderStatusErrors(rt, OpenAI, resp);
    ProviderStatusErrors(rt, Anthropic, resp);
  }

  // ---------------------------------------------------------------- the extraction flow

  const MaxChars: nat := 15000
  const TruncationMarker: string := "\n\n[Content truncated...]"

  /** The scraped content cut to `MaxChars` characters, with a marker when anything was cut. */
  function Truncate(content: string): (r: string)
    ensures |content| <= MaxChars ==> r == content
    ensures |content| > MaxChars ==> r == content[..MaxChars] + TruncationMarker
    ensures |r| <= MaxChars + |TruncationMarker|
    ensures forall i :: 0 <= i < MaxChars && i < |content| ==> r[i] == content[i]
  {
    if |content| > MaxChars then content[..MaxChars] + TruncationMarker else content
  }

  /** The content the LLM request carries: the markdown, truncated when it is text. */
  function RequestContent(rt: Runtime, markdown: Json): string {
    if markdown.JStr? then Truncate(markdown.s) else ToJsString(rt, markdown)
  }

  const UnknownProvider: string := "Unknown LLM provider"

  /** `extractRecipe(url, keys)`: `scrape` is the scraping service's response, `answer` how the
      selected provider answers the content it is sent, `id` and `now` the generated id and
      timestamp. */
  function Extract(rt: Runtime, url: string, keys: ApiKeys, scrape: HttpResponse,
                   answer: string -> HttpResponse, id: string, now: string): (r: Result<Json, Thrown>)
    ensures r.Success? ==> r.value.JObj? && r.value.fields.Keys == RecipeFields
    ensures r.Success? ==>
      (r.value.fields["sourceUrl"] == JStr(url) && r.value.fields["id"] == JStr(id) && r.value.fields["extractedAt"] == JStr(now))
  {
    var content :- Scrape(rt, scrape);
    match ProviderNamed(keys.llmProvider)
    case None => Failure(Raised(UnknownProvider))
    case Some(p) =>
      var data :- ExtractWith(rt, p, answer(RequestContent(rt, content)));
      Success(Stamp(data, url, id, now))
  }

  /** `{...recipeData, id, sourceUrl: url, extractedAt}` for a parsed response. */
  function Stamp(data: Json, url: string, id: string, now: string): (r: Json)
    requires data.JObj? && data.fields.Keys == ResponseFields
    ensures r.JObj? && r.fields.Keys == RecipeFields
    ensures forall k :: k in ResponseFields ==> r.fields[k] == data.fields[k]
    ensures r.fields["sourceUrl"] == JStr(url) && r.fields["id"] == JStr(id) && r.fields["extractedAt"] == JStr(now)
  {
    ResponseIsRecipeWithoutAdded();
    JObj(SpreadFields(data)["id" := JStr(id)]["sourceUrl" := JStr(url)]["extractedAt" := JStr(now)])
  }

  /** The stored recipe is the provider's parsed response, unchanged, plus the three added
      fields; and it is only produced when the scrape succeeded and the provider is known. */
  lemma ExtractKeepsResponse(rt: Runtime, url: string, keys: ApiKeys, scrape: HttpResponse,
                             answer: string -> HttpResponse, id: string, now: string)
    requires Extract(rt, url, keys, scrape, answer, id, now).Success?
    ensures Scrape(rt, scrape).Success? && ProviderNamed(keys.llmProvider).Some?
    ensures var p := ProviderNamed(keys.llmProvider).value;
      var resp := ExtractWith(rt, p, answer(RequestContent(rt, Scrape(rt, scrape).value)));
      var r := Extract(rt, url, keys, scrape, answer, id, now).value;
      && resp.Success?
      && forall k :: k in ResponseFields ==> k in resp.value.fields && r.fields[k] == resp.value.fields[k]
  {
  }

  /** A provider name outside the three is rejected once the page has been scraped. */
  lemma UnknownProviderRejected(rt: Runtime, url: string, keys: ApiKeys, scrape: HttpResponse,
                                answer: string -> HttpResponse, id: string, now: string)
    requires Scrape(rt, scrape).Success?
    requires keys.llmProvider !in {"openai", "google", "anthropic"}
    ensures Extract(rt, url, keys, scrape, answer, id, now) == Failure(Raised(UnknownProvider))
  {
  }

  /** A scrape failure is reported whatever the provider. */
  lemma ScrapeFailureFirst(rt: Runtime, url: string, keys: ApiKeys, scrape: HttpResponse,
                           answer: string -> HttpResponse, id: string, now: string)
    requires Scrape(rt, scrape).Failure?
    ensures Extract(rt, url, keys, scrape, answer, id, now) == Failure(Scrape(rt, scrape).error)
  {
  }
}
