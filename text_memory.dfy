/**
 * The string-based memory of memory_models/memory_model.py: raw strings are
 * stored, and the history is read back as `"> "`-prefixed lines.
 */
module TextMemory {
  import opened History

  class MemoryModel {
    var memorySize: int
    var conversation: seq<string>
    var lastResponse: string

    constructor (memorySize: int := 3)
      ensures this.memorySize == memorySize
      ensures conversation == [] && lastResponse == ""
    {
      this.memorySize := memorySize;
      conversation := [];
      lastResponse := "";
    }

    /**
     * The newest `memorySize` entries, oldest first, each as a `"> "` line, joined by
     * newlines; an empty conversation renders as the empty string.
     */
    function HistorialConversation(): (h: string)
      reads this
      ensures memorySize >= 1 ==>
        h == Render(conversation[|conversation| - Min(|conversation|, memorySize)..])
      ensures memorySize == 0 ==> h == Render(conversation)
      ensures conversation == [] ==> h == ""
    {
      Render(Window(conversation, memorySize))
    }

    method SetLastResponse(response: string)
      modifies this
      ensures lastResponse == response
      ensures conversation == old(conversation) && memorySize == old(memorySize)
    {
      lastResponse := response;
    }

    method GetLastResponse() returns (response: string)
      ensures response == lastResponse
    {
      response := lastResponse;
    }

    method ClearConversation()
      modifies this
      ensures conversation == []
      ensures lastResponse == old(lastResponse) && memorySize == old(memorySize)
    {
      conversation := [];
    }

    method AppendConversation(inputText: string)
      modifies this
      ensures conversation == old(conversation) + [inputText]
      ensures lastResponse == old(lastResponse) && memorySize == old(memorySize)
    {
      conversation := conversation + [inputText];
    }

    method GetConversationLength() returns (n: nat)
      ensures n == |conversation|
    {
      n := |conversation|;
    }
  }

  /** Four appends at size 3: the length is 4 and the history shows the newest three. */
  method MemorySizeScenario()
  {
    var memory := new MemoryModel(3);
    memory.AppendConversation("A");
    memory.AppendConversation("B");
    memory.AppendConversation("C");
    memory.AppendConversation("D");
    var n := memory.GetConversationLength();
    assert n == 4;
    assert memory.conversation[1..] == ["B", "C", "D"];
    assert memory.HistorialConversation() == Render(["B", "C", "D"]);
  }
}
