/**
 * The older general model of llms_models/general_llm_model.py over the legacy string
 * memory: one synchronous turn with the self-heal clear and a clean-up pipeline that
 * keeps the first line, drops quote markers and a leading speaker label, and escapes
 * asterisks for Discord markdown.
 */
module LegacyGeneralLlm {
  import opened Wrappers
  import opened Text
  import opened History
  import opened LegacyMemory
  import opened LlmModel
  import opened LegacyLlmModel
  import GeneralLlm

  /** Index of the first newline or `#`, or the length when there is none. */
  function FirstBreak(s: string): (i: nat)
    ensures i <= |s|
    ensures forall j :: 0 <= j < i ==> s[j] != '\n' && s[j] != '#'
    ensures i < |s| ==> s[i] == '\n' || s[i] == '#'
  {
    if s == [] || s[0] == '\n' || s[0] == '#' then 0
    else
      var i := 1 + FirstBreak(s[1..]);
      assert forall j :: 1 <= j < i ==> s[j] == s[1..][j - 1];
      i
  }

  /** `re.split(r"\n+|#", s)[0]`: the text before the first newline or `#`. */
  function FirstSegment(s: string): (r: string)
    ensures |r| <= |s| && r == s[..|r|] && '\n' !in r && '#' !in r
    ensures |r| < |s| ==> s[|r|] == '\n' || s[|r|] == '#'
  {
    s[..FirstBreak(s)]
  }

  /** `s.split(":", maxsplit=1)[-1]`: the text after the first colon, or all of it. */
  function AfterColon(s: string): (r: string)
    ensures !Contains(s, ":") ==> r == s
    ensures Contains(s, ":") ==> exists head :: head + ":" + r == s && !Contains(head, ":")
  {
    match SplitOnce(s, ":")
    case None => s
    case Some(pair) => pair.1
  }

  /**
   * The pipeline up to, and not including, the escaping of asterisks: stripped, and
   * made only of characters of the output's first line other than `>`.
   */
  function Unescaped(output: string): (r: string)
    ensures IsStripped(r)
    ensures forall c :: c in r ==> c in FirstSegment(Strip(output)) && c != '>'
  {
    var s1 := Strip(output);
    var s2 := Strip(FirstSegment(s1));
    var r := Strip(AfterColon(ReplaceAll(s2, ">", "")));
    forall c | c in r ensures c in FirstSegment(s1) && c != '>' {
      TailChars(s2, c);
      StripChars(FirstSegment(s1), c);
    }
    r
  }

  /** The last two steps of the pipeline keep only characters of their input other than `>`. */
  lemma TailChars(s2: string, c: char)
    requires c in Strip(AfterColon(ReplaceAll(s2, ">", "")))
    ensures c in s2 && c != '>'
  {
    var s3 := ReplaceAll(s2, ">", "");
    var s4 := AfterColon(s3);
    StripChars(s4, c);
    assert c in s3 by {
      if Contains(s3, ":") {
        var head :| head + ":" + s4 == s3 && !Contains(head, ":");
        assert s3[|head| + 1..] == s4;
      }
    }
    ReplaceCharRemoves(s2, '>');
    ReplaceChars(s2, ">", "", c);
  }

  /**
   * The full clean-up: every `*` of the unescaped text becomes backslash-star, so only
   * backslashes and asterisks are added to its characters.
   */
  function ProcessedText(output: string): (r: string)
    ensures forall c :: c in r ==> c in Unescaped(output) || c == '\\' || c == '*'
  {
    EscapeChars(Unescaped(output));
    ReplaceAll(Unescaped(output), "*", "\\*")
  }

  /** Escaping asterisks adds only backslashes and asterisks. */
  lemma EscapeChars(u: string)
    ensures forall c :: c in ReplaceAll(u, "*", "\\*") ==> c in u || c == '\\' || c == '*'
  {
    forall c | c in ReplaceAll(u, "*", "\\*") ensures c in u || c == '\\' || c == '*' {
      ReplaceChars(u, "*", "\\*", c);
      assert "\\*" == ['\\', '*'];
    }
  }

  /** The cleaned output is one line: no newline, no `#`, no `>`. */
  lemma ProcessedOneLine(output: string)
    ensures '\n' !in ProcessedText(output) && '#' !in ProcessedText(output) && '>' !in ProcessedText(output)
  {
    forall c | c in ProcessedText(output) ensures c != '\n' && c != '#' && c != '>' {
      ProcessedChar(output, c);
    }
  }

  lemma ProcessedChar(output: string, c: char)
    requires c in ProcessedText(output)
    ensures c != '\n' && c != '#' && c != '>'
  {
    var u := Unescaped(output);
    if c in u {
      assert c in FirstSegment(Strip(output));
    }
  }

  /** No piece of a split at a single character holds that character. */
  lemma PiecesWithoutChar(s: string, c: char)
    ensures forall k :: 0 <= k < |Split(s, [c])| ==> c !in Split(s, [c])[k]
  {
    var parts := Split(s, [c]);
    SplitPiecesFree(s, [c]);
    forall k | 0 <= k < |parts| ensures c !in parts[k] {
      if c in parts[k] {
        var i :| 0 <= i < |parts[k]| && parts[k][i] == c;
        ContainsAt(parts[k], [c], i);
      }
    }
  }

  /** Undoing the escaping gives back the unescaped text: no asterisk is lost or invented. */
  lemma EscapeRoundTrip(output: string)
    ensures ReplaceAll(ProcessedText(output), "\\*", "*") == Unescaped(output)
  {
    var u := Unescaped(output);
    PiecesWithoutChar(u, '*');
    JoinSplit(Split(u, "*"), "\\*");
    SplitJoin(u, "*");
  }

  /** Cleans the output and records it as the memory's last response. */
  method ProcessOutput(output: string, memory: MemoryModel) returns (processed: string)
    modifies memory
    ensures processed == ProcessedText(output) && memory.lastResponse == processed
    ensures memory.conversation == old(memory.conversation) && memory.memorySize == old(memory.memorySize)
  {
    processed := ProcessedText(output);
    memory.SetLastResponse(processed);
  }

  /** Empties the conversation exactly when the output triggers a reset. */
  method ClearConversationIfNeeded(output: string, initialInputText: string, memory: MemoryModel)
    modifies memory
    ensures memory.conversation ==
      (if GeneralLlm.NeedsReset(output, old(memory.lastResponse), initialInputText) then []
       else old(memory.conversation))
    ensures memory.lastResponse == old(memory.lastResponse) && memory.memorySize == old(memory.memorySize)
  {
    var last := memory.GetLastResponse();
    if output in [last, initialInputText, ""] {
      memory.ClearConversation();
    }
  }

  /**
   * One turn: record the translated input, build the prompt, retry the backend until it
   * answers with text, apply the self-heal clear, record the cleaned answer as
   * `"Response: ..."` and return its translation. `None` is a backend that keeps
   * answering blanks, on which the source loops for ever; the input is recorded by then.
   */
  method EvaluateSync(m: LegacyConfig, initialInputText: string, memory: MemoryModel,
                      backend: string -> seq<string>)
    returns (r: Option<string>, prompt: string)
    modifies memory
    ensures var inputText := TranslateInput(m.translator, initialInputText);
      prompt == ReplaceAll(m.prompt, Placeholder,
        Render(Window(old(memory.conversation) + [inputText], memory.memorySize)))
    ensures r.None? <==> FirstNonBlank(backend(prompt)).None?
    ensures var inputText := TranslateInput(m.translator, initialInputText);
      r.None? ==> (memory.conversation == old(memory.conversation) + [inputText]
                   && memory.lastResponse == old(memory.lastResponse))
    ensures var inputText := TranslateInput(m.translator, initialInputText);
      var output := FirstNonBlank(backend(prompt));
      output.Some? ==>
        r == Some(TranslateOutput(m.translator, ProcessedText(output.value)))
        && memory.lastResponse == ProcessedText(output.value)
        && memory.conversation ==
          (if GeneralLlm.NeedsReset(output.value, old(memory.lastResponse), initialInputText) then []
           else old(memory.conversation) + [inputText])
          + ["Response: " + ProcessedText(output.value)]
  {
    var inputText := TranslateInput(m.translator, initialInputText);
    memory.AppendConversation(inputText);
    prompt := LegacyLlmModel.GeneratePrompt(m, memory);
    var generated, tries := LegacyLlmModel.GenerateOutput(backend(prompt));
    if generated.None? {
      return None, prompt;
    }
    var output := generated.value;
    ClearConversationIfNeeded(output, initialInputText, memory);
    var processed := ProcessOutput(output, memory);
    memory.AppendConversation("Response: " + processed);
    r := Some(TranslateOutput(m.translator, processed));
  }
}
