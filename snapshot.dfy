/**
 * The snapshot file shared by both multi-channel stores, seen abstractly: a path is
 * absent, holds a mapping from channel id to memory state, or holds bytes that do
 * not unpickle.
 */
module Snapshot {
  import opened Wrappers

  type ChannelId = int

  /** What the snapshot path holds: a pickled mapping, or bytes that do not unpickle. */
  datatype FileContent<S> = Corrupt | Pickle(memories: map<ChannelId, S>)

  /** The file system as a store sees it; a path missing from `files` does not exist. */
  class Disk<S> {
    var files: map<string, FileContent<S>>

    constructor (files: map<string, FileContent<S>>)
      ensures this.files == files
    {
      this.files := files;
    }
  }

  /** Distinct channels never share a memory object. */
  ghost predicate Distinct<T>(memories: map<ChannelId, T>)
  {
    forall a, b :: a in memories && b in memories && a != b ==> memories[a] != memories[b]
  }

  /** The mapping a store constructed on `loadPath` starts from. */
  function Hydrated<S>(loadPath: Option<string>, files: map<string, FileContent<S>>): (m: map<ChannelId, S>)
    ensures loadPath.None? || loadPath.value !in files ==> m == map[]
    ensures loadPath.Some? && loadPath.value in files && files[loadPath.value].Pickle? ==>
      m == files[loadPath.value].memories
    ensures loadPath.Some? && loadPath.value in files && files[loadPath.value].Corrupt? ==> m == map[]
  {
    if loadPath.None? || loadPath.value !in files then map[]
    else match files[loadPath.value]
      case Corrupt => map[]
      case Pickle(m) => m
  }
}
