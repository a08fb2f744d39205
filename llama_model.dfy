/**
 * The first bot's model of classes/llama_model.py: it keeps its own list of strings,
 * substitutes the rendered window into a prompt template, and after each answer
 * records both sides, clears the list when the answer repeats itself or the input,
 * and returns the first line of the (translated) answer. The local model and the
 * translator are functions; the template file's text is a constructor argument.
 */
module Llama {
  import opened Text
  import opened History
  import LlmModel

  const Placeholder := "{input}"

  /** The first line of a text: everything before the first newline. */
  function FirstLine(s: string): (r: string)
    ensures '\n' !in r
    ensures |r| <= |s| && s[..|r|] == r
    ensures |r| < |s| ==> s[|r|] == '\n'
  {
    var parts := Split(s, "\n");
    assert |parts[0]| < |s| ==> s[|parts[0]|] == '\n' by {
      if IndexOf(s, "\n").Some? {
        var i := IndexOf(s, "\n").value;
        assert parts[0] == s[..i];
        assert s[i..i + 1] == "\n";
      }
    }
    SplitPiecesFree(s, "\n");
    assert '\n' !in parts[0] by {
      if '\n' in parts[0] {
        var i :| 0 <= i < |parts[0]| && parts[0][i] == '\n';
        ContainsAt(parts[0], "\n", i);
      }
    }
    SplitJoin(s, "\n");
    JoinFirst(parts, "\n");
    parts[0]
  }

  /** The prompt a template gives for a list of `memorySize` window. */
  function PromptFor(template: string, memorySize: int, conversation: seq<string>): string
  {
    ReplaceAll(template, Placeholder, Render(Window(conversation, memorySize)))
  }

  class LlamaModel {
    const memorySize: int
    var conversation: seq<string>
    var lastResponse: string
    const prompt: string
    const translate: bool
    const translator: LlmModel.Translator

    constructor (prompt: string, translator: LlmModel.Translator, translate: bool := true, memorySize: int := 3)
      ensures this.memorySize == memorySize && this.prompt == prompt
      ensures this.translate == translate && this.translator == translator
      ensures conversation == [] && lastResponse == ""
    {
      this.memorySize := memorySize;
      conversation := [];
      lastResponse := "";
      this.translate := translate;
      this.translator := translator;
      this.prompt := prompt;
    }

    /**
     * Every `"{input}"` of the template replaced by the newest `memorySize` entries as
     * `"> "` lines; a template without the placeholder ignores the conversation, and the
     * bare placeholder gives the rendered window itself.
     */
    function GeneratePrompt(): (p: string)
      reads this
      ensures !Contains(prompt, Placeholder) ==> p == prompt
      ensures prompt == Placeholder ==> p == Render(Window(conversation, memorySize))
      ensures var pieces := Split(prompt, Placeholder);
        && Join(pieces, Placeholder) == prompt
        && (forall k :: 0 <= k < |pieces| ==> !Contains(pieces[k], Placeholder))
        && p == Join(pieces, Render(Window(conversation, memorySize)))
    {
      var window := Render(Window(conversation, memorySize));
      ReplacePieces(prompt, Placeholder, window);
      assert !Contains(prompt, Placeholder) ==> ReplaceAll(prompt, Placeholder, window) == prompt by {
        if !Contains(prompt, Placeholder) {
          ReplaceAbsent(prompt, Placeholder, window);
        }
      }
      ReplaceWhole(Placeholder, window);
      PromptFor(prompt, memorySize, conversation)
    }

    /** The input as the model sees it: translated to English when translation is on. */
    function InputFor(initialInputText: string): string
    {
      if translate then translator.spanishToEnglish(initialInputText) else initialInputText
    }

    /**
     * What the caller gets for a raw answer: the stripped (translated) text up to, not
     * including, its first newline.
     */
    function Shown(output: string): (r: string)
      ensures '\n' !in r
      ensures var t := Strip(if translate then translator.englishToSpanish(output) else output);
        |r| <= |t| && t[..|r|] == r && (|r| < |t| ==> t[|r|] == '\n')
    {
      FirstLine(Strip(if translate then translator.englishToSpanish(output) else output))
    }

    /**
     * The bookkeeping after an answer: `"Me: "` and the raw answer are appended, the
     * list is cleared when the answer repeats the last response or the untranslated
     * input, and the answer becomes the last response.
     */
    method RecordAnswer(initialInputText: string, output: string)
      modifies this
      ensures lastResponse == output
      ensures conversation ==
        (if output == old(lastResponse) || output == initialInputText then []
         else old(conversation) + ["Me: " + output])
    {
      conversation := conversation + ["Me: " + output];
      if output == lastResponse || output == initialInputText {
        conversation := [];
      }
      lastResponse := output;
    }

    /**
     * One turn: record the (translated) input, ask the model, record `"Me: "` and the raw
     * answer, then clear everything when the raw answer equals the last response or the
     * untranslated input. The raw answer becomes the last response; the caller gets the
     * first line of the stripped (translated) answer.
     */
    method EvaluateSync(initialInputText: string, generate: string -> string) returns (r: string)
      modifies this
      ensures lastResponse == generate(PromptFor(prompt, memorySize, old(conversation) + [InputFor(initialInputText)]))
      ensures conversation ==
        (if lastResponse == old(lastResponse) || lastResponse == initialInputText then []
         else old(conversation) + [InputFor(initialInputText), "Me: " + lastResponse])
      ensures r == Shown(lastResponse)
    {
      var inputText := initialInputText;
      if translate {
        inputText := translator.spanishToEnglish(initialInputText);
      }
      conversation := conversation + [inputText];
      var promptText := GeneratePrompt();
      var output := generate(promptText);
      RecordAnswer(initialInputText, output);
      var shown := output;
      if translate {
        shown := translator.englishToSpanish(output);
      }
      r := FirstLine(Strip(shown));
    }
  }
}
