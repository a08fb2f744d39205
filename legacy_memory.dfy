/**
 * The oldest memory, memory/memory_model.py: raw strings, a `"> "`-line history
 * and no length getter.
 */
module LegacyMemory {
  import opened History

  /** What a pickled legacy `MemoryModel` carries. */
  datatype MemoryState = MemoryState(memorySize: int, conversation: seq<string>, lastResponse: string)

  class MemoryModel {
    var memorySize: int
    var conversation: seq<string>
    var lastResponse: string

    constructor (memorySize: int := 3)
      ensures this.memorySize == memorySize
      ensures conversation == [] && lastResponse == ""
    {
      this.memorySize := memorySize;
      conversation := [];
      lastResponse := "";
    }

    /** Rebuilds a memory object from its pickled state, as `pickle.load` does. */
    constructor Restore(state: MemoryState)
      ensures State() == state
    {
      memorySize := state.memorySize;
      conversation := state.conversation;
      lastResponse := state.lastResponse;
    }

    function State(): MemoryState
      reads this
    {
      MemoryState(memorySize, conversation, lastResponse)
    }

    /** The newest `memorySize` entries as `"> "` lines; the whole list when the size is 0. */
    function HistorialConversation(): (h: string)
      reads this
      ensures memorySize >= 1 ==>
        h == Render(conversation[|conversation| - Min(|conversation|, memorySize)..])
      ensures memorySize == 0 ==> h == Render(conversation)
      ensures conversation == [] ==> h == ""
    {
      Render(Window(conversation, memorySize))
    }

    method SetLastResponse(response: string)
      modifies this
      ensures lastResponse == response
      ensures conversation == old(conversation) && memorySize == old(memorySize)
    {
      lastResponse := response;
    }

    method GetLastResponse() returns (response: string)
      ensures response == lastResponse
    {
      response := lastResponse;
    }

    method ClearConversation()
      modifies this
      ensures conversation == []
      ensures lastResponse == old(lastResponse) && memorySize == old(memorySize)
    {
      conversation := [];
    }

    method AppendConversation(inputText: string)
      modifies this
      ensures conversation == old(conversation) + [inputText]
      ensures lastResponse == old(lastResponse) && memorySize == old(memorySize)
    {
      conversation := conversation + [inputText];
    }
  }
}
