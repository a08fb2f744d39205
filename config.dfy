/**
 * The bot's settings, source/core/config.py. The class attributes of `Settings` are
 * read from the environment when the module is imported; here they arrive as a map from
 * attribute name to value. `__init__` overrides existing attributes with its keyword
 * arguments, then derives the channel lists, the base prompt and the Stable Diffusion flag.
 */
module Config {
  import opened Text

  /** A Python value stored in an attribute. */
  datatype Value = Str(s: string) | Int(i: int) | Bool(b: bool) | NoneValue

  /** The annotated type of an attribute. */
  datatype Kind = StrKind | IntKind | BoolKind | OptionalStrKind

  predicate HasKind(v: Value, kind: Kind)
  {
    match kind
    case StrKind => v.Str?
    case IntKind => v.Int?
    case BoolKind => v.Bool?
    case OptionalStrKind => v.Str? || v.NoneValue?
  }

  /** The declared attributes of `Settings` and their annotated types. */
  const Fields: map<string, Kind> := map[
    "discord_token" := StrKind,
    "llm_base_url" := StrKind,
    "llm_api_key" := StrKind,
    "model" := StrKind,
    "max_context_messages" := IntKind,
    "edit_every_n_chunks" := IntKind,
    "min_message_length" := IntKind,
    "safe_edit_length" := IntKind,
    "edit_min_interval_ms" := IntKind,
    "mention_required" := BoolKind,
    "chat_channels" := StrKind,
    "emoji_only_channels" := StrKind,
    "base_prompt_path" := StrKind,
    "sd_checkpoint" := OptionalStrKind,
    "sd_url" := OptionalStrKind
  ]

  /** Every value given for a declared attribute has the annotated type. */
  predicate Typed(values: map<string, Value>)
  {
    forall key :: key in values && key in Fields ==> HasKind(values[key], Fields[key])
  }

  /** A complete, well-typed set of class attributes. */
  predicate Declares(attributes: map<string, Value>)
  {
    attributes.Keys == Fields.Keys && Typed(attributes)
  }

  /** The class attributes when no environment variable is set. */
  const Fallbacks: map<string, Value> := map[
    "discord_token" := Str(""),
    "llm_base_url" := Str(""),
    "llm_api_key" := Str(""),
    "model" := Str("gpt-4o-mini"),
    "max_context_messages" := Int(15),
    "edit_every_n_chunks" := Int(15),
    "min_message_length" := Int(20),
    "safe_edit_length" := Int(1000),
    "edit_min_interval_ms" := Int(500),
    "mention_required" := Bool(false),
    "chat_channels" := Str(""),
    "emoji_only_channels" := Str(""),
    "base_prompt_path" := Str("default"),
    "sd_checkpoint" := NoneValue,
    "sd_url" := NoneValue
  ]

  lemma FallbacksDeclare()
    ensures Declares(Fallbacks)
  {
  }

  /** The attributes once the keyword arguments are applied: only existing names change. */
  function Overridden(defaults: map<string, Value>, kwargs: map<string, Value>): (attributes: map<string, Value>)
    ensures attributes.Keys == defaults.Keys
  {
    map key | key in defaults :: if key in kwargs then kwargs[key] else defaults[key]
  }

  /** Keyword arguments that name no attribute make no difference. */
  lemma UnknownKeysIgnored(defaults: map<string, Value>, kwargs: map<string, Value>, key: string, value: Value)
    requires key !in defaults
    ensures Overridden(defaults, kwargs[key := value]) == Overridden(defaults, kwargs)
  {
  }

  /** A keyword argument for an existing attribute sets it; the others keep their value. */
  lemma KnownKeyOverrides(defaults: map<string, Value>, kwargs: map<string, Value>, key: string)
    requires key in defaults
    ensures key in kwargs ==> Overridden(defaults, kwargs)[key] == kwargs[key]
    ensures key !in kwargs ==> Overridden(defaults, kwargs)[key] == defaults[key]
  {
  }

  /** Overriding keeps the attributes well typed when the arguments are. */
  lemma OverriddenDeclares(defaults: map<string, Value>, kwargs: map<string, Value>)
    requires Declares(defaults) && Typed(kwargs)
    ensures Declares(Overridden(defaults, kwargs))
  {
  }

  /** `s.split(",") if s else []`. */
  function ChannelList(s: string): (channels: seq<string>)
    ensures s == "" <==> channels == []
  {
    if s != "" then Split(s, ",") else []
  }

  /** Joining the channel list with commas gives the setting back. */
  lemma ChannelListRoundTrip(s: string)
    ensures Join(ChannelList(s), ",") == s
  {
    if s != "" {
      SplitJoin(s, ",");
    }
  }

  /** A list of comma-free channel patterns survives being written as a setting and read back. */
  lemma ChannelListOfJoin(channels: seq<string>)
    requires |channels| >= 1 && Join(channels, ",") != ""
    requires forall k :: 0 <= k < |channels| ==> ',' !in channels[k]
    ensures ChannelList(Join(channels, ",")) == channels
  {
    JoinSplit(channels, ",");
  }

  /** No channel pattern in the list contains a comma. */
  lemma ChannelListCommaFree(s: string)
    ensures forall k :: 0 <= k < |ChannelList(s)| ==> !Contains(ChannelList(s)[k], ",")
  {
    if s != "" {
      SplitPiecesFree(s, ",");
    }
  }

  /** The two adjacent string literals the fallback prompt is written as. */
  const PromptHead: string := "You are a helpful assistant. Please answer"
  const PromptTail: string := "the questions based on the context provided."

  /** The fallback prompt as written: the literals are concatenated with nothing between them. */
  const DefaultPromptAsWritten: string := PromptHead + PromptTail

  /** The fallback prompt with the space the sentence needs between the two literals. */
  const DefaultPrompt: string := PromptHead + " " + PromptTail

  /** As written, "answer" and "the" run together into one word. */
  lemma DefaultPromptAsWrittenGluesWords()
    ensures |PromptHead| == 42
    ensures OccursAt(DefaultPromptAsWritten, "answerthe", 36)
    ensures !OccursAt(DefaultPromptAsWritten, "answer the", 36)
  {
    assert PromptTail[0] == 't' && PromptTail[1] == 'h' && PromptTail[2] == 'e';
    assert PromptHead[36..] == "answer" && PromptTail[..3] == "the";
    assert DefaultPromptAsWritten[36..45] == PromptHead[36..] + PromptTail[..3];
    assert DefaultPromptAsWritten[36..46][6] == PromptTail[0] == 't';
  }

  /** The corrected prompt reads "answer the" at the same place. */
  lemma DefaultPromptSeparatesWords()
    ensures OccursAt(DefaultPrompt, "answer the", 36)
  {
    assert PromptTail[0] == 't' && PromptTail[1] == 'h' && PromptTail[2] == 'e';
    assert PromptHead[36..] == "answer" && PromptTail[..3] == "the";
    assert DefaultPrompt[36..46] == PromptHead[36..] + " " + PromptTail[..3];
  }

  /** `base_prompt`: the prompt file's text when the path exists, else the fallback prompt. */
  function BasePrompt(path: string, files: map<string, string>): (prompt: string)
    ensures path in files ==> prompt == files[path]
    ensures path !in files ==> prompt == DefaultPromptAsWritten
  {
    if path in files then files[path] else DefaultPromptAsWritten
  }

  /** A bot started without its prompt file sends the glued words to the model. */
  lemma MissingPromptFileGlues(path: string, files: map<string, string>)
    requires path !in files
    ensures OccursAt(BasePrompt(path, files), "answerthe", 36)
  {
    DefaultPromptAsWrittenGluesWords();
  }

  /** `use_stable_diffusion`: an SD URL is set and non-empty. */
  function UseStableDiffusion(sdUrl: Value): (enabled: bool)
    requires HasKind(sdUrl, OptionalStrKind)
    ensures enabled <==> sdUrl.Str? && sdUrl.s != ""
  {
    sdUrl != NoneValue && sdUrl != Str("")
  }

  /** The loop of `__init__`: `setattr` for every keyword argument that `hasattr` accepts. */
  method ApplyKwargs(defaults: map<string, Value>, kwargs: map<string, Value>) returns (current: map<string, Value>)
    ensures current == Overridden(defaults, kwargs)
  {
    current := defaults;
    var todo := kwargs.Keys;
    while todo != {}
      invariant todo <= kwargs.Keys && current.Keys == defaults.Keys
      invariant forall key :: key in defaults ==>
        current[key] == if key in kwargs && key !in todo then kwargs[key] else defaults[key]
      decreases todo
    {
      if forall key :: key !in todo {
        assert false;
      }
      var key :| key in todo;
      if key in current {
        current := current[key := kwargs[key]];
      }
      todo := todo - {key};
    }
  }

  class Settings {
    /** The instance's attributes, by name. */
    var attributes: map<string, Value>
    var chatChannelsData: seq<string>
    var emojiOnlyChannelsData: seq<string>
    var basePrompt: string
    var useStableDiffusion: bool

    /**
     * `Settings(**kwargs)`: `defaults` are the class attributes, `files` the readable
     * prompt files by path.
     */
    constructor (defaults: map<string, Value>, kwargs: map<string, Value>, files: map<string, string>)
      requires Declares(defaults) && Typed(kwargs)
      ensures attributes == Overridden(defaults, kwargs) && Declares(attributes)
      ensures chatChannelsData == ChannelList(attributes["chat_channels"].s)
      ensures emojiOnlyChannelsData == ChannelList(attributes["emoji_only_channels"].s)
      ensures basePrompt == BasePrompt(attributes["base_prompt_path"].s, files)
      ensures useStableDiffusion == UseStableDiffusion(attributes["sd_url"])
    {
      var current := ApplyKwargs(defaults, kwargs);
      OverriddenDeclares(defaults, kwargs);
      attributes := current;
      new;
      chatChannelsData := ChannelList(attributes["chat_channels"].s);
      emojiOnlyChannelsData := ChannelList(attributes["emoji_only_channels"].s);
      basePrompt := BasePrompt(attributes["base_prompt_path"].s, files);
      useStableDiffusion := UseStableDiffusion(attributes["sd_url"]);
    }
  }
}
