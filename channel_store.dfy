/**
 * The multi-channel store of source/memory_models/multichannel_memory.py: a
 * dictionary from channel id to a shared `MemoryModel` object, created lazily,
 * cleared per channel or wholesale, and saved to / restored from one snapshot file.
 * The snapshot is an abstract file content rather than pickle bytes.
 */
module ChannelStore {
  import opened Wrappers
  import opened Snapshot
  import opened ChatMemory

  /** Unpickling: one fresh memory object per channel of the snapshot. */
  method Unpickle(snapshot: map<ChannelId, MemoryState>) returns (result: map<ChannelId, MemoryModel>)
    ensures result.Keys == snapshot.Keys && Distinct(result)
    ensures forall id :: id in result ==> fresh(result[id]) && result[id].State() == snapshot[id]
  {
    result := map[];
    var todo := snapshot.Keys;
    while todo != {}
      invariant todo <= snapshot.Keys && result.Keys == snapshot.Keys - todo
      invariant Distinct(result)
      invariant forall id :: id in result ==> fresh(result[id]) && result[id].State() == snapshot[id]
      decreases todo
    {
      if forall id :: id !in todo {
        assert false;
      }
      var id: ChannelId :| id in todo;
      var memory := new MemoryModel.Restore(snapshot[id]);
      result := result[id := memory];
      todo := todo - {id};
    }
  }

  class MultiChannelMemory {
    var memories: map<ChannelId, MemoryModel>
    const memorySize: int
    const loadPath: Option<string>
    const disk: Disk<MemoryState>

    ghost predicate Valid()
      reads this
    {
      Distinct(memories)
    }

    /** The value of the mapping: each channel's memory state. */
    function Contents(): (c: map<ChannelId, MemoryState>)
      reads this, memories.Values
      ensures c.Keys == memories.Keys
    {
      map id | id in memories :: memories[id].State()
    }

    /** Starts empty and loads the snapshot only when a path is given. */
    constructor (disk: Disk<MemoryState>, memorySize: int := 5, loadPath: Option<string> := None)
      ensures Valid()
      ensures this.disk == disk && this.memorySize == memorySize && this.loadPath == loadPath
      ensures Contents() == Hydrated(loadPath, disk.files)
      ensures forall id :: id in memories ==> fresh(memories[id])
    {
      this.disk := disk;
      this.memorySize := memorySize;
      this.loadPath := loadPath;
      memories := map[];
      new;
      if loadPath.Some? {
        var _ := LoadMemory();
      }
    }

    /** Writes the whole mapping to the snapshot path; without a path nothing happens. */
    method PersistMemory()
      modifies disk
      ensures loadPath.None? ==> disk.files == old(disk.files)
      ensures loadPath.Some? ==> disk.files == old(disk.files)[loadPath.value := Pickle(Contents())]
    {
      if loadPath.None? {
        return;
      }
      disk.files := disk.files[loadPath.value := Pickle(Contents())];
    }

    /**
     * Replaces the mapping by the snapshot. Without a path or a file: false, mapping
     * kept. Corrupt file: false, mapping reset to empty. Otherwise true.
     */
    method LoadMemory() returns (loaded: bool)
      requires Valid()
      modifies this
      ensures Valid()
      ensures loaded <==> loadPath.Some? && loadPath.value in disk.files && disk.files[loadPath.value].Pickle?
      ensures loadPath.None? || loadPath.value !in disk.files ==> memories == old(memories)
      ensures loadPath.Some? && loadPath.value in disk.files ==>
        Contents() == Hydrated(loadPath, disk.files) && forall id :: id in memories ==> fresh(memories[id])
    {
      if loadPath.None? {
        return false;
      }
      var path := loadPath.value;
      if path !in disk.files {
        return false;
      }
      match disk.files[path]
      case Corrupt =>
        memories := map[];
        assert Contents() == map[];
        loaded := false;
      case Pickle(snapshot) =>
        memories := Unpickle(snapshot);
        assert forall id :: id in snapshot ==> Contents()[id] == snapshot[id];
        assert Contents().Keys == snapshot.Keys;
        loaded := true;
    }

    /**
     * The channel's memory object, shared with the store: the existing one, or a new
     * empty one with the store's size, inserted first. No other channel is touched.
     */
    method GetMemory(id: ChannelId) returns (memory: MemoryModel)
      requires Valid()
      modifies this
      ensures Valid()
      ensures id in old(memories) ==> memory == old(memories)[id] && memories == old(memories)
      ensures id !in old(memories) ==> fresh(memory) && memories == old(memories)[id := memory]
      ensures id !in old(memories) ==> memory.State() == MemoryState(memorySize, [], "")
    {
      if id !in memories {
        var created := new MemoryModel(memorySize);
        memories := memories[id := created];
      }
      memory := memories[id];
    }

    /** Forgets one channel; an unknown channel is a no-op. */
    method ClearChannelMemory(id: ChannelId)
      requires Valid()
      modifies this
      ensures Valid()
      ensures memories == old(memories) - {id}
    {
      if id in memories {
        memories := memories - {id};
      }
    }

    /** Forgets every channel and deletes the snapshot file; a missing file is ignored. */
    method ClearAllMemory()
      modifies this, disk
      ensures Valid() && memories == map[]
      ensures loadPath.None? ==> disk.files == old(disk.files)
      ensures loadPath.Some? ==> disk.files == old(disk.files) - {loadPath.value}
    {
      memories := map[];
      if loadPath.Some? {
        disk.files := disk.files - {loadPath.value};
      }
    }
  }

  /** Persisting and then constructing a store on the same path reproduces the mapping. */
  method PersistThenReload(store: MultiChannelMemory) returns (reloaded: MultiChannelMemory)
    requires store.Valid() && store.loadPath.Some?
    modifies store.disk
    ensures fresh(reloaded) && reloaded.loadPath == store.loadPath
    ensures reloaded.Contents() == store.Contents()
  {
    store.PersistMemory();
    reloaded := new MultiChannelMemory(store.disk, store.memorySize, store.loadPath);
  }

  /** The calls of `test_multichannel_memory_save` in source/tests/test_memory.py. */
  method SaveScenario(disk: Disk<MemoryState>)
    modifies disk
  {
    disk.files := disk.files - {"test.pkl"};
    var store := new MultiChannelMemory(disk, 3, Some("test.pkl"));
    assert |store.memories| == 0;
    var memory := store.GetMemory(1);
    memory.AppendConversation("Hola 2");
    memory := store.GetMemory(1);
    memory.AppendConversation("Como estas? 2");
    store.PersistMemory();
    ReloadSteps(disk);
  }

  /** The reloading half of `test_multichannel_memory_save`, from the file just written. */
  method ReloadSteps(disk: Disk<MemoryState>)
    requires "test.pkl" in disk.files && disk.files["test.pkl"].Pickle?
    requires disk.files["test.pkl"].memories.Keys == {1}
    requires |disk.files["test.pkl"].memories[1].conversation| == 2
    modifies disk
  {
    var store2 := new MultiChannelMemory(disk, 3, Some("test.pkl"));
    assert store2.Contents().Keys == {1};
    assert |store2.memories.Keys| == 1;
    var restored := store2.GetMemory(1);
    var n := restored.GetConversationLength();
    assert n == 2;
  }

  /** The calls of `test_multichannel_clear` in source/tests/test_memory.py. */
  method ClearScenario()
  {
    var disk := new Disk<MemoryState>(map[]);
    var store := new MultiChannelMemory(disk, 3);
    assert |store.memories| == 0;
    var one := store.GetMemory(1);
    one.AppendConversation("Hola 3");
    one.AppendConversation("Como estas? 3");
    var two := store.GetMemory(2);
    two.AppendConversation("Hola 4");
    two.AppendConversation("Como estas? 4");
    var n1 := one.GetConversationLength();
    var n2 := two.GetConversationLength();
    assert n1 == 2 && n2 == 2;
    ClearSteps(store);
  }

  /** The clearing half of `test_multichannel_clear`, from two channels of two messages. */
  method ClearSteps(store: MultiChannelMemory)
    requires store.Valid() && 2 in store.memories
    requires |store.memories[2].conversation| == 2
    modifies store, store.disk
  {
    store.ClearChannelMemory(1);
    var one := store.GetMemory(1);
    var two := store.GetMemory(2);
    var n1 := one.GetConversationLength();
    var n2 := two.GetConversationLength();
    assert n1 == 0 && n2 == 2;
    store.ClearAllMemory();
    one := store.GetMemory(1);
    two := store.GetMemory(2);
    n1 := one.GetConversationLength();
    n2 := two.GetConversationLength();
    assert n1 == 0 && n2 == 0;
  }
}
