/**
 * The older base model of llms_models/llm_model.py: a prompt template that defaults
 * to `"{input}"` and receives the rendered history, and a generation loop that asks
 * the backend again until it answers with something other than whitespace. Its split
 * and translation helpers are the same code as the newer base model's and are shared.
 */
module LegacyLlmModel {
  import opened Wrappers
  import opened Text
  import opened History
  import opened LegacyMemory
  import opened LlmModel

  const Placeholder := "{input}"

  /** The fields the older constructor settles. */
  datatype LegacyConfig = LegacyConfig(llmModel: string, translator: Option<Translator>, prompt: string)

  /**
   * The older constructor: the two prompt sources exclude each other; a file is read
   * when a path is given, a literal prompt is taken as is, and with neither the
   * template is the bare placeholder.
   */
  function Init(llmModel: string, translator: Option<Translator>, prompt: Option<string>,
                promptPath: Option<string>, files: map<string, string>): (r: Result<LegacyConfig, InitError>)
    ensures r == Failure(PromptConflict) <==> prompt.Some? && promptPath.Some?
    ensures r.Failure? && r.error.PromptFileMissing? <==>
      prompt.None? && promptPath.Some? && promptPath.value !in files
    ensures r.Success? ==> r.value.llmModel == llmModel && r.value.translator == translator
    ensures r.Success? && prompt.Some? ==> r.value.prompt == prompt.value
    ensures r.Success? && promptPath.Some? ==> r.value.prompt == files[promptPath.value]
    ensures prompt.None? && promptPath.None? ==> r.Success? && r.value.prompt == Placeholder
  {
    if prompt.Some? && promptPath.Some? then Failure(PromptConflict)
    else if promptPath.Some? then
      if promptPath.value in files then Success(LegacyConfig(llmModel, translator, files[promptPath.value]))
      else Failure(PromptFileMissing(promptPath.value))
    else if prompt.Some? then Success(LegacyConfig(llmModel, translator, prompt.value))
    else Success(LegacyConfig(llmModel, translator, Placeholder))
  }

  /**
   * Every `"{input}"` of the template replaced by the memory's rendered history: the
   * template is cut at the placeholders into pieces without one, and the history goes
   * between them.
   */
  function GeneratePrompt(m: LegacyConfig, memory: MemoryModel): (p: string)
    reads memory
    ensures var pieces := Split(m.prompt, Placeholder);
      && Join(pieces, Placeholder) == m.prompt
      && (forall k :: 0 <= k < |pieces| ==> !Contains(pieces[k], Placeholder))
      && p == Join(pieces, memory.HistorialConversation())
  {
    ReplacePieces(m.prompt, Placeholder, memory.HistorialConversation());
    ReplaceAll(m.prompt, Placeholder, memory.HistorialConversation())
  }

  /** With the default template the prompt is exactly the rendered history. */
  lemma DefaultPromptIsHistory(m: LegacyConfig, memory: MemoryModel)
    requires m.prompt == Placeholder
    ensures GeneratePrompt(m, memory) == memory.HistorialConversation()
  {
    ReplaceWhole(Placeholder, memory.HistorialConversation());
  }

  /** A template without the placeholder ignores the memory. */
  lemma FixedPromptIgnoresHistory(m: LegacyConfig, memory: MemoryModel)
    requires !Contains(m.prompt, Placeholder)
    ensures GeneratePrompt(m, memory) == m.prompt
  {
    ReplaceAbsent(m.prompt, Placeholder, memory.HistorialConversation());
  }

  /** Whether a generated output counts: it holds a character other than whitespace. */
  predicate NonBlank(output: string)
  {
    LeadingSpaces(output) < |output|
  }

  /** Holding a non-whitespace character is what `len(output.strip()) > 0` tests. */
  lemma NonBlankIsStripNonEmpty(output: string)
    ensures NonBlank(output) <==> |Strip(output)| > 0
  {
  }

  /** The first answer that holds a non-whitespace character, if any. */
  function FirstNonBlank(answers: seq<string>): Option<string>
  {
    if answers == [] then None
    else if NonBlank(answers[0]) then Some(answers[0])
    else FirstNonBlank(answers[1..])
  }

  /**
   * The retry loop over the backend's successive answers: the first answer that is
   * not blank. `None` stands for a backend that never produces one within `answers`,
   * where the loop would go on asking.
   */
  method GenerateOutput(answers: seq<string>) returns (output: Option<string>, tries: nat)
    ensures output == FirstNonBlank(answers)
    ensures tries <= |answers|
    ensures output.Some? ==> tries >= 1 && output.value == answers[tries - 1] && NonBlank(output.value)
    ensures output.Some? ==> forall j :: 0 <= j < tries - 1 ==> !NonBlank(answers[j])
    ensures output.None? ==> tries == |answers| && forall j :: 0 <= j < |answers| ==> !NonBlank(answers[j])
  {
    tries := 0;
    output := None;
    while tries < |answers| && output.None?
      invariant tries <= |answers|
      invariant output.None? ==> forall j :: 0 <= j < tries ==> !NonBlank(answers[j])
      invariant output.None? ==> FirstNonBlank(answers[tries..]) == FirstNonBlank(answers)
      invariant output.Some? ==> output == FirstNonBlank(answers)
      invariant output.Some? ==> tries >= 1 && output.value == answers[tries - 1] && NonBlank(output.value)
      invariant output.Some? ==> forall j :: 0 <= j < tries - 1 ==> !NonBlank(answers[j])
    {
      var candidate := answers[tries];
      assert answers[tries..][1..] == answers[tries + 1..];
      tries := tries + 1;
      if NonBlank(candidate) {
        output := Some(candidate);
      }
    }
  }
}
