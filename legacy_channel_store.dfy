/**
 * The older multi-channel store of memory/multichannel_memory.py, over the legacy
 * string memory. It behaves like the newer store except that clearing everything
 * lets the missing-file error of the snapshot removal escape.
 */
module LegacyChannelStore {
  import opened Wrappers
  import opened Snapshot
  import opened LegacyMemory

  /** Unpickling: one fresh memory object per channel of the snapshot. */
  method Unpickle(snapshot: map<ChannelId, MemoryState>) returns (result: map<ChannelId, MemoryModel>)
    ensures result.Keys == snapshot.Keys && Distinct(result)
    ensures forall id :: id in result ==> fresh(result[id]) && result[id].State() == snapshot[id]
  {
    result := map[];
    var todo := snapshot.Keys;
    while todo != {}
      invariant todo <= snapshot.Keys && result.Keys == snapshot.Keys - todo
      invariant Distinct(result)
      invariant forall id :: id in result ==> fresh(result[id]) && result[id].State() == snapshot[id]
      decreases todo
    {
      if forall id :: id !in todo {
        assert false;
      }
      var id: ChannelId :| id in todo;
      var memory := new MemoryModel.Restore(snapshot[id]);
      result := result[id := memory];
      todo := todo - {id};
    }
  }

  class MultiChannelMemory {
    var memories: map<ChannelId, MemoryModel>
    const memorySize: int
    const loadPath: Option<string>
    const disk: Disk<MemoryState>

    ghost predicate Valid()
      reads this
    {
      Distinct(memories)
    }

    /** The value of the mapping: each channel's memory state. */
    function Contents(): (c: map<ChannelId, MemoryState>)
      reads this, memories.Values
      ensures c.Keys == memories.Keys
    {
      map id | id in memories :: memories[id].State()
    }

    /** Starts empty and loads the snapshot only when a path is given. */
    constructor (disk: Disk<MemoryState>, memorySize: int := 5, loadPath: Option<string> := None)
      ensures Valid()
      ensures this.disk == disk && this.memorySize == memorySize && this.loadPath == loadPath
      ensures Contents() == Hydrated(loadPath, disk.files)
      ensures forall id :: id in memories ==> fresh(memories[id])
    {
      this.disk := disk;
      this.memorySize := memorySize;
      this.loadPath := loadPath;
      memories := map[];
      new;
      if loadPath.Some? {
        var _ := LoadMemory();
      }
    }

    /** Writes the whole mapping to the snapshot path; without a path nothing happens. */
    method PersistMemory()
      modifies disk
      ensures loadPath.None? ==> disk.files == old(disk.files)
      ensures loadPath.Some? ==> disk.files == old(disk.files)[loadPath.value := Pickle(Contents())]
    {
      if loadPath.None? {
        return;
      }
      disk.files := disk.files[loadPath.value := Pickle(Contents())];
    }

    /**
     * Replaces the mapping by the snapshot. Without a path or a file: false, mapping
     * kept. Corrupt file: false, mapping reset to empty. Otherwise true.
     */
    method LoadMemory() returns (loaded: bool)
      requires Valid()
      modifies this
      ensures Valid()
      ensures loaded <==> loadPath.Some? && loadPath.value in disk.files && disk.files[loadPath.value].Pickle?
      ensures loadPath.None? || loadPath.value !in disk.files ==> memories == old(memories)
      ensures loadPath.Some? && loadPath.value in disk.files ==>
        Contents() == Hydrated(loadPath, disk.files) && forall id :: id in memories ==> fresh(memories[id])
    {
      if loadPath.None? {
        return false;
      }
      var path := loadPath.value;
      if path !in disk.files {
        return false;
      }
      match disk.files[path]
      case Corrupt =>
        memories := map[];
        assert Contents() == map[];
        loaded := false;
      case Pickle(snapshot) =>
        memories := Unpickle(snapshot);
        assert forall id :: id in snapshot ==> Contents()[id] == snapshot[id];
        assert Contents().Keys == snapshot.Keys;
        loaded := true;
    }

    /** The channel's memory object, shared with the store, created empty on first use. */
    method GetMemory(id: ChannelId) returns (memory: MemoryModel)
      requires Valid()
      modifies this
      ensures Valid()
      ensures id in old(memories) ==> memory == old(memories)[id] && memories == old(memories)
      ensures id !in old(memories) ==> fresh(memory) && memories == old(memories)[id := memory]
      ensures id !in old(memories) ==> memory.State() == MemoryState(memorySize, [], "")
    {
      if id !in memories {
        var created := new MemoryModel(memorySize);
        memories := memories[id := created];
      }
      memory := memories[id];
    }

    /** Forgets one channel; an unknown channel is a no-op. */
    method ClearChannelMemory(id: ChannelId)
      requires Valid()
      modifies this
      ensures Valid()
      ensures memories == old(memories) - {id}
    {
      if id in memories {
        memories := memories - {id};
      }
    }

    /**
     * Forgets every channel, then removes the snapshot file. With a path whose file
     * does not exist, the removal fails: `missing` is the escaping FileNotFoundError,
     * and the mapping is already empty by then.
     */
    method ClearAllMemory() returns (missing: bool)
      modifies this, disk
      ensures Valid() && memories == map[]
      ensures missing <==> loadPath.Some? && loadPath.value !in old(disk.files)
      ensures loadPath.None? ==> disk.files == old(disk.files)
      ensures loadPath.Some? ==> disk.files == old(disk.files) - {loadPath.value}
    {
      memories := map[];
      missing := false;
      if loadPath.Some? {
        if loadPath.value !in disk.files {
          return true;
        }
        disk.files := disk.files - {loadPath.value};
      }
    }
  }

  /** Persisting and then loading on the same path gives back the same mapping. */
  method PersistThenLoad(store: MultiChannelMemory) returns (loaded: bool)
    requires store.Valid() && store.loadPath.Some?
    modifies store, store.disk
    ensures loaded && store.Valid()
    ensures store.Contents() == old(store.Contents())
  {
    store.PersistMemory();
    loaded := store.LoadMemory();
  }
}
