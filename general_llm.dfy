/**
 * The general model of source/llms_models/general_llm_model.py over the role/content
 * memory: prompt building that records the user's input, the self-heal clear, the
 * output clean-up, and the synchronous and streaming evaluations. The backend is a
 * function from prompt to reply; the stream is the sequence of chunk contents.
 */
module GeneralLlm {
  import opened Wrappers
  import opened Text
  import opened History
  import opened ChatMemory
  import opened LlmModel

  /** The memory's objects that a call may change: the memory when there is one. */
  function Footprint(memory: Option<MemoryModel>): set<MemoryModel>
  {
    if memory.Some? then {memory.value} else {}
  }

  /** The prompt a memory of `memorySize` holding `conversation` produces. */
  function PromptFrom(m: LlmConfig, memorySize: int, conversation: seq<Message>): seq<Entry>
  {
    WithSystem(m, Entries(Window(conversation, memorySize)))
  }

  /**
   * With memory: the translated input is appended as one user message and the prompt
   * is built from the memory. Without memory: the bare two-entry prompt.
   */
  method GetPrompt(m: LlmConfig, initialInputText: string, memory: Option<MemoryModel>)
    returns (prompt: seq<Entry>)
    modifies Footprint(memory)
    ensures var inputText := TranslateInput(m.translator, initialInputText);
      if memory.Some? then
        memory.value.conversation == old(memory.value.conversation) + [Message("user", inputText)]
        && memory.value.lastResponse == old(memory.value.lastResponse)
        && memory.value.memorySize == old(memory.value.memorySize)
        && prompt == GeneratePrompt(m, memory.value)
      else
        prompt == GenerateBarePrompt(m, inputText)
  {
    var inputText := TranslateInput(m.translator, initialInputText);
    if memory.Some? {
      memory.value.AppendConversation(inputText, "user");
      prompt := GeneratePrompt(m, memory.value);
    } else {
      prompt := GenerateBarePrompt(m, inputText);
    }
  }

  /** The loop-breaking condition: the output repeats the last response or the input, or is empty. */
  predicate NeedsReset(output: string, lastResponse: string, initialInputText: string)
  {
    output in [lastResponse, initialInputText, ""]
  }

  /** Empties the conversation exactly when the output triggers a reset. */
  method ClearConversationIfNeeded(output: string, initialInputText: string, memory: MemoryModel)
    modifies memory
    ensures memory.conversation ==
      (if NeedsReset(output, old(memory.lastResponse), initialInputText) then [] else old(memory.conversation))
    ensures memory.lastResponse == old(memory.lastResponse) && memory.memorySize == old(memory.memorySize)
  {
    var last := memory.GetLastResponse();
    if output in [last, initialInputText, ""] {
      memory.ClearConversation();
    }
  }

  /** The markers the clean-up removes, in the order it removes them. */
  const Markers: seq<string> := ["Response:", "response:", "RESPONSE:", "Peque\U{221A}\U{B1}in:"]

  /** The output with every marker removed in turn, then stripped. */
  function CleanOutput(output: string): (r: string)
    ensures IsStripped(r)
    ensures forall c :: c in r ==> c in output
  {
    var a := ReplaceAll(output, Markers[0], "");
    var b := ReplaceAll(a, Markers[1], "");
    var c := ReplaceAll(b, Markers[2], "");
    var d := ReplaceAll(c, Markers[3], "");
    var r := Strip(d);
    forall x | x in r ensures x in output {
      StripChars(d, x);
      ReplaceChars(c, Markers[3], "", x);
      ReplaceChars(b, Markers[2], "", x);
      ReplaceChars(a, Markers[1], "", x);
      ReplaceChars(output, Markers[0], "", x);
    }
    r
  }

  /** A stripped output without any marker comes out of the clean-up unchanged. */
  lemma CleanOutputFixpoint(output: string)
    requires IsStripped(output)
    requires forall k :: 0 <= k < |Markers| ==> !Contains(output, Markers[k])
    ensures CleanOutput(output) == output
  {
    ReplaceAbsent(output, Markers[0], "");
    ReplaceAbsent(output, Markers[1], "");
    ReplaceAbsent(output, Markers[2], "");
    ReplaceAbsent(output, Markers[3], "");
    StrippedIsFixpoint(output);
  }

  /** The four removal passes of `CleanOutput`, before the strip. */
  function Passes(output: string): string
  {
    ReplaceAll(ReplaceAll(ReplaceAll(ReplaceAll(output, Markers[0], ""), Markers[1], ""), Markers[2], ""), Markers[3], "")
  }

  /** No marker starts inside another marker and runs on into a marker-free text. */
  lemma MarkerAbsentAfter(j: nat, i: nat, x: string)
    requires i < j < |Markers|
    requires !Contains(x, Markers[i])
    ensures !Contains(Markers[j] + x, Markers[i])
  {
    AbsentInConcat(Markers[j], x, Markers[i]);
  }

  /** The passes remove a leading marker and leave the marker-free rest. */
  lemma PassesDropMarker(j: nat, x: string)
    requires j < |Markers|
    requires forall k :: 0 <= k < |Markers| ==> !Contains(x, Markers[k])
    ensures Passes(Markers[j] + x) == x
  {
    var m := Markers[j];
    assert !Contains(x, Markers[0]) && !Contains(x, Markers[1]);
    assert !Contains(x, Markers[2]) && !Contains(x, Markers[3]);
    var a := m + x;
    if j > 0 {
      MarkerAbsentAfter(j, 0, x);
      ReplaceAbsent(m + x, Markers[0], "");
    } else {
      ReplaceLeading(m, x);
      a := x;
    }
    assert ReplaceAll(m + x, Markers[0], "") == a;
    var b := a;
    if j > 1 {
      MarkerAbsentAfter(j, 1, x);
      ReplaceAbsent(m + x, Markers[1], "");
    } else if j == 1 {
      ReplaceLeading(m, x);
      b := x;
    } else {
      ReplaceAbsent(x, Markers[1], "");
    }
    assert ReplaceAll(a, Markers[1], "") == b;
    var c := b;
    if j > 2 {
      MarkerAbsentAfter(j, 2, x);
      ReplaceAbsent(m + x, Markers[2], "");
    } else if j == 2 {
      ReplaceLeading(m, x);
      c := x;
    } else {
      ReplaceAbsent(x, Markers[2], "");
    }
    assert ReplaceAll(b, Markers[2], "") == c;
    if j == 3 {
      ReplaceLeading(m, x);
    } else {
      ReplaceAbsent(x, Markers[3], "");
    }
  }

  /** An answer that opens with a marker, and holds none after it, loses the marker and the surrounding whitespace. */
  lemma CleanOutputDropsMarker(j: nat, x: string)
    requires j < |Markers|
    requires forall k :: 0 <= k < |Markers| ==> !Contains(x, Markers[k])
    ensures CleanOutput(Markers[j] + x) == Strip(x)
  {
    PassesDropMarker(j, x);
  }

  /** The answer of `MarkerRebuilt`: a marker cut in two around another. */
  const Rebuilding: string := "Respo" + Markers[1] + "nse:"

  /** `Rebuilding` holds no "Response:", so the first pass leaves it as it is. */
  lemma RebuildingFirstPass()
    ensures ReplaceAll(Rebuilding, Markers[0], "") == Rebuilding
  {
    var s := Rebuilding;
    forall k: nat ensures !OccursAt(s, Markers[0], k) {
      if k + |Markers[0]| <= |s| {
        if k == 0 {
          assert s[k..k + |Markers[0]|][5] == s[5] == 'r';
        } else {
          assert s[k..k + |Markers[0]|][0] == s[k];
        }
      }
    }
    ReplaceAbsent(s, Markers[0], "");
  }

  /** The second pass removes the inner "response:", and the two halves join into "Response:". */
  lemma RebuildingSecondPass()
    ensures ReplaceAll(Rebuilding, Markers[1], "") == Markers[0]
  {
    var s := Rebuilding;
    assert OccursAt(s, Markers[1], 5);
    forall k: nat | k < 5 ensures !OccursAt(s, Markers[1], k) {
      assert s[k..k + |Markers[1]|][0] == s[k];
    }
    assert IndexOf(s, Markers[1]) == Some(5);
    assert s[5 + |Markers[1]|..] == "nse:";
    assert s[..5] == "Respo";
    assert Split("nse:", Markers[1]) == ["nse:"];
    assert Split(s, Markers[1]) == ["Respo", "nse:"];
    assert Join(["Respo", "nse:"], "") == Markers[0];
  }

  /**
   * The markers are removed one pass each, so removing one can join its neighbours
   * into another: the cleaned answer below is itself a marker.
   */
  lemma MarkerRebuilt()
    ensures CleanOutput(Rebuilding) == Markers[0]
  {
    RebuildingFirstPass();
    RebuildingSecondPass();
    RebuildingLastPasses();
  }

  /** "Response:" survives the last two passes and the strip. */
  lemma RebuildingLastPasses()
    ensures ReplaceAll(ReplaceAll(Markers[0], Markers[2], ""), Markers[3], "") == Markers[0]
    ensures Strip(Markers[0]) == Markers[0]
  {
    AbsentInConcat(Markers[0], "", Markers[2]);
    assert Markers[0] + "" == Markers[0];
    ReplaceAbsent(Markers[0], Markers[2], "");
    AbsentInConcat(Markers[0], "", Markers[3]);
    ReplaceAbsent(Markers[0], Markers[3], "");
    StrippedIsFixpoint(Markers[0]);
  }

  /** Cleans the output and records it as the memory's last response. */
  method ProcessOutput(output: string, memory: MemoryModel) returns (processed: string)
    modifies memory
    ensures processed == CleanOutput(output) && memory.lastResponse == processed
    ensures memory.conversation == old(memory.conversation) && memory.memorySize == old(memory.memorySize)
  {
    processed := CleanOutput(output);
    memory.SetLastResponse(processed);
  }

  /**
   * With memory: the reset check comes first, then the clean-up, then the cleaned
   * response is appended as an assistant message. The result is translated either way;
   * without memory the raw output is only translated.
   */
  method PostProcess(m: LlmConfig, output: string, initialInputText: string, memory: Option<MemoryModel>)
    returns (r: string)
    modifies Footprint(memory)
    ensures memory.None? ==> r == TranslateOutput(m.translator, output)
    ensures memory.Some? ==>
      var processed := CleanOutput(output);
      var kept := if NeedsReset(output, old(memory.value.lastResponse), initialInputText)
                  then [] else old(memory.value.conversation);
      r == TranslateOutput(m.translator, processed)
      && memory.value.conversation == kept + [Message("assistant", "Response: " + processed)]
      && memory.value.lastResponse == processed
      && memory.value.memorySize == old(memory.value.memorySize)
  {
    var result := output;
    if memory.Some? {
      ClearConversationIfNeeded(output, initialInputText, memory.value);
      result := ProcessOutput(output, memory.value);
      memory.value.AppendConversation("Response: " + result, "assistant");
    }
    r := TranslateOutput(m.translator, result);
  }

  /**
   * One synchronous turn: build the prompt (recording the input), ask the backend,
   * post-process. After a self-heal the memory holds only the new assistant message.
   */
  method EvaluateSync(m: LlmConfig, initialInputText: string, memory: Option<MemoryModel>,
                      chat: seq<Entry> -> ChatReply)
    returns (r: string, prompt: seq<Entry>)
    modifies Footprint(memory)
    ensures var inputText := TranslateInput(m.translator, initialInputText);
      memory.None? ==>
        prompt == GenerateBarePrompt(m, inputText)
        && r == TranslateOutput(m.translator, GenerateOutput(chat(prompt)))
    ensures var inputText := TranslateInput(m.translator, initialInputText);
      var output := GenerateOutput(chat(prompt));
      var processed := CleanOutput(output);
      memory.Some? ==>
        prompt == PromptFrom(m, memory.value.memorySize, old(memory.value.conversation) + [Message("user", inputText)])
        && r == TranslateOutput(m.translator, processed)
        && memory.value.lastResponse == processed
        && memory.value.conversation ==
          (if NeedsReset(output, old(memory.value.lastResponse), initialInputText) then []
           else old(memory.value.conversation) + [Message("user", inputText)])
          + [Message("assistant", "Response: " + processed)]
  {
    prompt := GetPrompt(m, initialInputText, memory);
    var output := GenerateOutput(chat(prompt));
    r := PostProcess(m, output, initialInputText, memory);
  }

  /** One call of the stream callback: the text so far, whether forced, and the chunk count. */
  datatype Callback = Callback(output: string, force: bool, iteration: int)

  /**
   * The streaming turn over the chunk contents the backend yields: one callback per
   * chunk with the cumulative text and its 1-based count, one forced callback with the
   * whole raw text, then one forced callback with the post-processed result.
   */
  method EvaluateStream(m: LlmConfig, initialInputText: string, memory: Option<MemoryModel>,
                        chunks: seq<string>)
    returns (r: string, calls: seq<Callback>)
    modifies Footprint(memory)
    ensures |calls| == |chunks| + 2
    ensures forall i :: 0 <= i < |chunks| ==> calls[i] == Callback(Concat(chunks[..i + 1]), false, i + 1)
    ensures calls[|chunks|] == Callback(Concat(chunks), true, 0)
    ensures calls[|chunks| + 1] == Callback(r, true, 0)
    ensures memory.None? ==> r == TranslateOutput(m.translator, Concat(chunks))
    ensures var inputText := TranslateInput(m.translator, initialInputText);
      var processed := CleanOutput(Concat(chunks));
      memory.Some? ==>
        r == TranslateOutput(m.translator, processed)
        && memory.value.lastResponse == processed
        && memory.value.conversation ==
          (if NeedsReset(Concat(chunks), old(memory.value.lastResponse), initialInputText) then []
           else old(memory.value.conversation) + [Message("user", inputText)])
          + [Message("assistant", "Response: " + processed)]
  {
    var prompt := GetPrompt(m, initialInputText, memory);
    var output;
    output, calls := StreamChunks(chunks);
    calls := calls + [Callback(output, true, 0)];
    r := PostProcess(m, output, initialInputText, memory);
    calls := calls + [Callback(r, true, 0)];
  }

  /** The chunk loop of the streaming turn: one unforced callback per chunk, text so far. */
  method StreamChunks(chunks: seq<string>) returns (output: string, calls: seq<Callback>)
    ensures output == Concat(chunks) && |calls| == |chunks|
    ensures forall i :: 0 <= i < |chunks| ==> calls[i] == Callback(Concat(chunks[..i + 1]), false, i + 1)
  {
    output := "";
    var iteration := 0;
    calls := [];
    while iteration < |chunks|
      invariant 0 <= iteration <= |chunks|
      invariant output == Concat(chunks[..iteration])
      invariant |calls| == iteration
      invariant forall i :: 0 <= i < iteration ==> calls[i] == Callback(Concat(chunks[..i + 1]), false, i + 1)
    {
      assert chunks[..iteration + 1][..iteration] == chunks[..iteration];
      output := output + chunks[iteration];
      iteration := iteration + 1;
      calls := calls + [Callback(output, false, iteration)];
    }
    assert chunks[..|chunks|] == chunks;
  }
}
