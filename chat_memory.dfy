/**
 * The per-channel conversation memory of source/memory_models/memory_model.py:
 * a list of `{role, content}` messages that grows without bound, a cached last
 * response, and a read window of the newest `memory_size` messages.
 */
module ChatMemory {
  import opened History

  /** One `{"role": ..., "content": ...}` entry of the conversation. */
  datatype Message = Message(role: string, content: string)

  /** What a pickled `MemoryModel` carries (its unused `kwargs` are not modelled). */
  datatype MemoryState = MemoryState(memorySize: int, conversation: seq<Message>, lastResponse: string)

  class MemoryModel {
    var memorySize: int
    var conversation: seq<Message>
    var lastResponse: string

    constructor (memorySize: int := 3)
      ensures this.memorySize == memorySize
      ensures conversation == [] && lastResponse == ""
    {
      this.memorySize := memorySize;
      conversation := [];
      lastResponse := "";
    }

    /** Rebuilds a memory object from its pickled state, as `pickle.load` does. */
    constructor Restore(state: MemoryState)
      ensures State() == state
    {
      memorySize := state.memorySize;
      conversation := state.conversation;
      lastResponse := state.lastResponse;
    }

    function State(): MemoryState
      reads this
    {
      MemoryState(memorySize, conversation, lastResponse)
    }

    /**
     * The newest `memorySize` messages in their original order (all of them when
     * there are fewer); a size of 0 gives the whole list, as `conversation[-0:]` does.
     */
    function HistorialConversation(): (w: seq<Message>)
      reads this
      ensures |w| <= |conversation| && w == conversation[|conversation| - |w|..]
      ensures memorySize >= 1 ==> |w| == Min(|conversation|, memorySize)
      ensures memorySize == 0 ==> w == conversation
    {
      Window(conversation, memorySize)
    }

    method SetLastResponse(response: string)
      modifies this
      ensures lastResponse == response
      ensures conversation == old(conversation) && memorySize == old(memorySize)
    {
      lastResponse := response;
    }

    method GetLastResponse() returns (response: string)
      ensures response == lastResponse
    {
      response := lastResponse;
    }

    /** Empties the conversation; the cached last response survives. */
    method ClearConversation()
      modifies this
      ensures conversation == []
      ensures lastResponse == old(lastResponse) && memorySize == old(memorySize)
    {
      conversation := [];
    }

    /** Adds one message at the end; nothing is ever dropped from the front. */
    method AppendConversation(inputText: string, role: string := "user")
      modifies this
      ensures conversation == old(conversation) + [Message(role, inputText)]
      ensures lastResponse == old(lastResponse) && memorySize == old(memorySize)
    {
      conversation := conversation + [Message(role, inputText)];
    }

    /** Every message appended since the last clear, not capped by `memorySize`. */
    method GetConversationLength() returns (n: nat)
      ensures n == |conversation|
    {
      n := |conversation|;
    }
  }

  /** The calls of `test_memory_size` in source/tests/test_memory.py, checked statically. */
  method MemorySizeScenario()
  {
    var memory := new MemoryModel(3);
    var n := memory.GetConversationLength();
    assert n == 0;
    memory.AppendConversation("Hola");
    memory.AppendConversation("Como estas?");
    memory.AppendConversation("Bien y tu?");
    n := memory.GetConversationLength();
    assert n == 3 && |memory.HistorialConversation()| == 3;
    memory.AppendConversation("Muy bien");
    n := memory.GetConversationLength();
    assert n == 4 && |memory.HistorialConversation()| == 3;
    memory.ClearConversation();
    n := memory.GetConversationLength();
    assert n == 0;
  }

  /** The calls of `test_memory_last_response` in source/tests/test_memory.py. */
  method LastResponseScenario()
  {
    var memory := new MemoryModel(3);
    memory.SetLastResponse("Hola 1");
    var r := memory.GetLastResponse();
    assert r == "Hola 1";
  }
}
