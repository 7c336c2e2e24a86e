/**
 * The settings page: the API keys and the language-model choice kept in the
 * browser's local storage, the form that edits them, and the two accessors
 * the other pages use to learn which provider and model are active.
 */
module Settings {
  import opened Lists
  import opened Text

  /** The entries of the browser's local storage that the settings page
      owns, and every other entry by its name. An `OtherEntry` never
      carries one of the five owned names (see `ProperKey`), so that each
      browser entry has exactly one key. */
  datatype Key = OpenAiKeyName | DeepgramKeyName | ProviderName | OpenAiModelName | OllamaModelName
               | OtherEntry(name: string)

  /** The name each entry is stored under. */
  function KeyText(k: Key): string
  {
    match k
    case OpenAiKeyName => "openai_api_key"
    case DeepgramKeyName => "deepgram_api_key"
    case ProviderName => "llm_provider"
    case OpenAiModelName => "openai_model"
    case OllamaModelName => "ollama_model"
    case OtherEntry(name) => name
  }

  /** The five names the settings page owns. */
  predicate OwnedName(name: string)
  {
    name in {"openai_api_key", "deepgram_api_key", "llm_provider", "openai_model", "ollama_model"}
  }

  /** A key that names its entry the one way it can be named. */
  predicate ProperKey(k: Key)
  {
    k.OtherEntry? ==> !OwnedName(k.name)
  }

  /** Proper keys and stored names correspond one to one. */
  lemma KeyTextInjective(k1: Key, k2: Key)
    requires ProperKey(k1) && ProperKey(k2)
    ensures KeyText(k1) == KeyText(k2) <==> k1 == k2
  {
  }

  /** The browser's local storage. */
  type Storage = map<Key, string>

  /** `localStorage.getItem(key) || fallback`: a missing or empty entry
      reads as the fallback. */
  function Stored(s: Storage, key: Key, fallback: string): (r: string)
    ensures key in s && s[key] != "" ==> r == s[key]
    ensures key !in s || s[key] == "" ==> r == fallback
  {
    if key in s && s[key] != "" then s[key] else fallback
  }

  /** `getLLMProvider`: the saved provider, OpenAI when none is saved. */
  function GetLLMProvider(s: Storage): (r: string)
    ensures r != ""
    ensures ProviderName in s && s[ProviderName] != "" ==> r == s[ProviderName]
    ensures ProviderName !in s || s[ProviderName] == "" ==> r == "openai"
  {
    Stored(s, ProviderName, "openai")
  }

  /** `getCurrentModel`: the saved model of the active provider, with each
      provider's default model when none is saved; every provider other
      than OpenAI counts as Ollama. */
  function GetCurrentModel(s: Storage): (r: string)
    ensures r != ""
    ensures GetLLMProvider(s) == "openai" ==> r == Stored(s, OpenAiModelName, "gpt-4o-mini")
    ensures GetLLMProvider(s) != "openai" ==> r == Stored(s, OllamaModelName, "gemma3:4b")
  {
    if GetLLMProvider(s) == "openai" then Stored(s, OpenAiModelName, "gpt-4o-mini")
    else Stored(s, OllamaModelName, "gemma3:4b")
  }

  /** The fields of the settings form. */
  datatype Form = Form(openAiKey: string, deepgramKey: string, provider: string, openAiModel: string, ollamaModel: string)

  /** What the page reports after pressing Save. */
  datatype Status = InvalidOpenAiKey | SavedUsing(providerLabel: string, model: string)

  datatype Saved = Saved(storage: Storage, status: Status)

  /** The OpenAI key check: an empty key passes (it is removed), otherwise
      the key must start with "sk-". */
  predicate AcceptableOpenAiKey(key: string)
  {
    key == "" || IsPrefix("sk-", key)
  }

  /** Stores a trimmed key, or removes it when it is empty. */
  function PutKey(s: Storage, name: Key, key: string): (r: Storage)
    ensures key != "" ==> r == s[name := key]
    ensures key == "" ==> name !in r && forall other :: other != name && other in s ==> other in r && r[other] == s[other]
    ensures forall other :: other != name ==> (other in r <==> other in s)
  {
    if key != "" then s[name := key] else s - {name}
  }

  /** `after` is `before` with the two keys stored (or, when empty,
      removed), the three choices stored, and every other entry kept. */
  ghost predicate StoredForm(after: Storage, before: Storage, openAiKey: string, deepgramKey: string, form: Form)
  {
    && (OpenAiKeyName in after <==> openAiKey != "")
    && (OpenAiKeyName in after ==> after[OpenAiKeyName] == openAiKey)
    && (DeepgramKeyName in after <==> deepgramKey != "")
    && (DeepgramKeyName in after ==> after[DeepgramKeyName] == deepgramKey)
    && ProviderName in after && after[ProviderName] == form.provider
    && OpenAiModelName in after && after[OpenAiModelName] == form.openAiModel
    && OllamaModelName in after && after[OllamaModelName] == form.ollamaModel
    && forall other: Key :: other.OtherEntry? ==>
         (other in after <==> other in before) && (other in before ==> after[other] == before[other])
  }

  /** The writes of a successful save. */
  function StoreForm(s: Storage, openAiKey: string, deepgramKey: string, form: Form): (r: Storage)
    ensures StoredForm(r, s, openAiKey, deepgramKey, form)
  {
    var withKeys := PutKey(PutKey(s, OpenAiKeyName, openAiKey), DeepgramKeyName, deepgramKey);
    withKeys[ProviderName := form.provider][OpenAiModelName := form.openAiModel][OllamaModelName := form.ollamaModel]
  }

  /**
   * `saveSettings`: rejects an OpenAI key that does not start with "sk-"
   * and then leaves storage untouched; otherwise stores both keys trimmed
   * (removing an empty one) and the three choices as given, and reports
   * the provider and model in use.
   */
  function SaveSettings(s: Storage, form: Form): (r: Saved)
    ensures !AcceptableOpenAiKey(Trim(form.openAiKey)) <==> r.status == InvalidOpenAiKey
    ensures r.status == InvalidOpenAiKey ==> r.storage == s
    ensures r.status.SavedUsing? ==> StoredForm(r.storage, s, Trim(form.openAiKey), Trim(form.deepgramKey), form)
    ensures r.status.SavedUsing? ==>
      r.status == if form.provider == "openai" then SavedUsing("OpenAI", form.openAiModel)
                  else SavedUsing("Ollama", form.ollamaModel)
  {
    var openAiKey := Trim(form.openAiKey);
    if !AcceptableOpenAiKey(openAiKey) then Saved(s, InvalidOpenAiKey)
    else
      var stored := StoreForm(s, openAiKey, Trim(form.deepgramKey), form);
      var providerLabel := if form.provider == "openai" then "OpenAI" else "Ollama";
      var model := if form.provider == "openai" then form.openAiModel else form.ollamaModel;
      Saved(stored, SavedUsing(providerLabel, model))
  }

  /** After a save, the accessors report the provider and model the
      confirmation named, whenever the chosen fields are filled in. */
  lemma SaveThenCurrentModel(s: Storage, form: Form)
    requires SaveSettings(s, form).status.SavedUsing?
    requires form.provider != "" && form.openAiModel != "" && form.ollamaModel != ""
    ensures var r := SaveSettings(s, form);
      && GetLLMProvider(r.storage) == form.provider
      && GetCurrentModel(r.storage) == r.status.model
      && (r.status.providerLabel == "OpenAI" <==> GetLLMProvider(r.storage) == "openai")
  {
  }

  /** Saving the same form again changes nothing. */
  lemma SaveIdempotent(s: Storage, form: Form)
    ensures var once := SaveSettings(s, form);
      SaveSettings(once.storage, form) == once
  {
    var once := SaveSettings(s, form);
    if once.status.SavedUsing? {
      var twice := SaveSettings(once.storage, form);
      StoredFormUnique(twice.storage, once.storage, once.storage, s, Trim(form.openAiKey), Trim(form.deepgramKey), form);
    }
  }

  /** The writes of a save determine the result, given the other entries. */
  lemma StoredFormUnique(a: Storage, b: Storage, beforeA: Storage, beforeB: Storage,
                         openAiKey: string, deepgramKey: string, form: Form)
    requires StoredForm(a, beforeA, openAiKey, deepgramKey, form)
    requires StoredForm(b, beforeB, openAiKey, deepgramKey, form)
    requires forall other: Key :: other.OtherEntry? ==>
      (other in beforeA <==> other in beforeB) && (other in beforeA ==> beforeA[other] == beforeB[other])
    ensures a == b
  {
    forall k | k in a
      ensures k in b && a[k] == b[k]
    {
      if k.OtherEntry? {
        assert k in beforeA;
      }
    }
    forall k | k in b
      ensures k in a
    {
      if k.OtherEntry? {
        assert k in beforeB;
      }
    }
  }

  /** `loadSettings`: the form as filled in from storage. */
  function LoadSettings(s: Storage): (f: Form)
    ensures f.provider == GetLLMProvider(s)
    ensures f.provider == "openai" ==> f.openAiModel == GetCurrentModel(s)
    ensures f.provider != "openai" ==> f.ollamaModel == GetCurrentModel(s)
  {
    Form(Stored(s, OpenAiKeyName, ""), Stored(s, DeepgramKeyName, ""), Stored(s, ProviderName, "openai"),
         Stored(s, OpenAiModelName, "gpt-4o-mini"), Stored(s, OllamaModelName, "gemma3:4b"))
  }

  /** Saving a form and loading the page again shows the form back, keys
      trimmed and empty choices replaced by their defaults. */
  lemma SaveThenLoad(s: Storage, form: Form)
    requires SaveSettings(s, form).status.SavedUsing?
    ensures LoadSettings(SaveSettings(s, form).storage) == Form(
      Trim(form.openAiKey), Trim(form.deepgramKey),
      if form.provider == "" then "openai" else form.provider,
      if form.openAiModel == "" then "gpt-4o-mini" else form.openAiModel,
      if form.ollamaModel == "" then "gemma3:4b" else form.ollamaModel)
  {
  }

  /** Which groups of the form are visible. */
  datatype Visibility = Visibility(openAiModels: bool, ollamaModels: bool, ollamaStatus: bool)

  /** `toggleProviderFields`: OpenAI's model list for the OpenAI provider,
      Ollama's model list and server status for any other. */
  function ToggleProviderFields(provider: string): (v: Visibility)
    ensures v.openAiModels <==> provider == "openai"
    ensures v.ollamaModels <==> provider != "openai"
    ensures v.ollamaStatus == v.ollamaModels
  {
    if provider == "openai" then Visibility(true, false, false) else Visibility(false, true, true)
  }

  /** On load, the model list shown is the one whose value the other pages
      use as the current model. */
  lemma ShownModelIsCurrent(s: Storage)
    ensures var f := LoadSettings(s); var v := ToggleProviderFields(f.provider);
      && (v.openAiModels ==> f.openAiModel == GetCurrentModel(s))
      && (v.ollamaModels ==> f.ollamaModel == GetCurrentModel(s))
      && v.openAiModels != v.ollamaModels
  {
  }
}
