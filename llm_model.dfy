/**
 * The model-independent half of source/llms_models/llm_model.py: constructor checks,
 * prompt assembly from the role/content memory, the `"user: text"` split, the
 * optional translation of input and output, and the error fallback around the
 * backend call. The translator and the backend are uninterpreted.
 */
module LlmModel {
  import opened Wrappers
  import opened Text
  import opened ChatMemory

  /** The translation service: two total string functions. */
  datatype Translator = Translator(spanishToEnglish: string -> string, englishToSpanish: string -> string)

  /** One `{"role": ..., "content": ...}` prompt entry; a missing prompt gives `None` content. */
  datatype Entry = Entry(role: string, content: Option<string>)

  /** The fields the constructor settles (the backend client is not modelled). */
  datatype LlmConfig = LlmConfig(llmModel: string, translator: Option<Translator>, prompt: Option<string>)

  /** The two ways the constructor fails: both prompt sources given, or an unreadable prompt file. */
  datatype InitError = PromptConflict | PromptFileMissing(path: string)

  /**
   * The constructor: a literal prompt and a prompt file exclude each other; the file's
   * text is read when a path is given; with neither, there is no prompt.
   */
  function Init(llmModel: string, translator: Option<Translator>, prompt: Option<string>,
                promptPath: Option<string>, files: map<string, string>): (r: Result<LlmConfig, InitError>)
    ensures r == Failure(PromptConflict) <==> prompt.Some? && promptPath.Some?
    ensures r.Failure? && r.error.PromptFileMissing? <==>
      prompt.None? && promptPath.Some? && promptPath.value !in files
    ensures r.Success? ==> r.value.llmModel == llmModel && r.value.translator == translator
    ensures r.Success? && prompt.Some? ==> r.value.prompt == prompt
    ensures r.Success? && promptPath.Some? ==> r.value.prompt == Some(files[promptPath.value])
    ensures r.Success? ==> (r.value.prompt.None? <==> prompt.None? && promptPath.None?)
  {
    if prompt.Some? && promptPath.Some? then Failure(PromptConflict)
    else if promptPath.Some? then
      if promptPath.value in files then Success(LlmConfig(llmModel, translator, Some(files[promptPath.value])))
      else Failure(PromptFileMissing(promptPath.value))
    else Success(LlmConfig(llmModel, translator, prompt))
  }

  /** The prompt without memory: the system entry, then the user's input. */
  function GenerateBarePrompt(m: LlmConfig, inputText: string): (p: seq<Entry>)
    ensures |p| == 2 && p[0].role == "system" && p[1].role == "user"
    ensures p[0].content == m.prompt && p[1].content == Some(inputText)
  {
    [Entry("system", m.prompt), Entry("user", Some(inputText))]
  }

  /** Memory messages as prompt entries. */
  function Entries(messages: seq<Message>): (es: seq<Entry>)
    ensures |es| == |messages|
    ensures forall i :: 0 <= i < |messages| ==>
      es[i] == Entry(messages[i].role, Some(messages[i].content))
  {
    seq(|messages|, i requires 0 <= i < |messages| => Entry(messages[i].role, Some(messages[i].content)))
  }

  /** A window of entries with the system entry in front when there is a prompt. */
  function WithSystem(m: LlmConfig, window: seq<Entry>): seq<Entry>
  {
    if m.prompt.Some? then [Entry("system", m.prompt)] + window else window
  }

  /**
   * The prompt with memory: the memory's window, unchanged and in order, with one
   * system entry in front exactly when there is a prompt.
   */
  function GeneratePrompt(m: LlmConfig, memory: MemoryModel): (p: seq<Entry>)
    reads memory
    ensures var w := Entries(memory.HistorialConversation());
      |p| == |w| + (if m.prompt.Some? then 1 else 0) && p[|p| - |w|..] == w
    ensures m.prompt.Some? ==> p[0] == Entry("system", m.prompt)
  {
    WithSystem(m, Entries(memory.HistorialConversation()))
  }

  /** What the backend call does: answers with a content, or raises. */
  datatype ChatReply = Replied(content: string) | ChatRaised

  /** The answer's content, or `""` when the backend call raised. */
  function GenerateOutput(reply: ChatReply): (output: string)
    ensures reply.ChatRaised? ==> output == ""
    ensures reply.Replied? ==> output == reply.content
  {
    match reply
    case Replied(content) => content
    case ChatRaised => ""
  }

  /**
   * `"user: text"` cut at the first `": "`; without one, no user and the text unchanged.
   */
  function SplitUserInput(inputText: string): (r: (string, string))
    ensures !Contains(inputText, ": ") ==> r == ("", inputText)
    ensures Contains(inputText, ": ") ==> r.0 + ": " + r.1 == inputText && !Contains(r.0, ": ")
  {
    match SplitOnce(inputText, ": ")
    case None => ("", inputText)
    case Some(pair) => pair
  }

  /**
   * Without a translator the input is returned as is. With one, the stripped input is
   * split, only its text part is translated, and a non-empty user is put back in front.
   */
  function TranslateInput(translator: Option<Translator>, initialInputText: string): (r: string)
    ensures translator.None? ==> r == initialInputText
    ensures translator.Some? ==>
      var (user, text) := SplitUserInput(Strip(initialInputText));
      var translated := translator.value.spanishToEnglish(text);
      r == (if user != "" then user + ": " + translated else translated)
  {
    match translator
    case None => initialInputText
    case Some(t) =>
      var (user, inputText) := SplitUserInput(Strip(initialInputText));
      var translated := t.spanishToEnglish(inputText);
      if user != "" then user + ": " + translated else translated
  }

  /** The translation of the output, kept only when it is non-empty. */
  function TranslateOutput(translator: Option<Translator>, output: string): (r: string)
    ensures translator.None? ==> r == output
    ensures translator.Some? ==>
      r == (if translator.value.englishToSpanish(output) != "" then translator.value.englishToSpanish(output) else output)
    ensures r == "" ==> output == ""
  {
    match translator
    case None => output
    case Some(t) =>
      var translated := t.englishToSpanish(output);
      if translated != "" then translated else output
  }

  /**
   * With a translator that changes nothing, translating the input only strips it,
   * unless the stripped input starts with `": "`, whose empty user is dropped.
   */
  lemma TranslateInputIdentity(s: string)
    requires !StartsWith(Strip(s), ": ")
    ensures TranslateInput(Some(Translator(x => x, x => x)), s) == Strip(s)
  {
    var stripped := Strip(s);
    var (user, text) := SplitUserInput(stripped);
  }

  /** Whatever the translator returns, a non-empty user prefix is put back in front of it. */
  lemma TranslateInputKeepsUser(t: Translator, s: string)
    requires Contains(Strip(s), ": ") && !StartsWith(Strip(s), ": ")
    ensures var (user, _) := SplitUserInput(Strip(s));
      user != "" && StartsWith(TranslateInput(Some(t), s), user + ": ")
  {
    var stripped := Strip(s);
    var (user, text) := SplitUserInput(stripped);
    var r := TranslateInput(Some(t), s);
    assert r == user + ": " + t.spanishToEnglish(text);
    assert r[..|user + ": "|] == user + ": ";
  }
}
