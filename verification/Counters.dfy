/**
 The two counters that tell whether the cache has changed since it was last saved: handlers
 count changes, the saver records which count it has saved. Both wrap like the `uint64` they are.
 */
module Counters {
  const UINT64_RANGE: nat := 0x1_0000_0000_0000_0000

  type uint64 = x: nat | x < UINT64_RANGE

  /** The change counter only runs when there is a file to save to. */
  function Marked(dirty: uint64, hasStateFile: bool): uint64 {
    if hasStateFile then (dirty + 1) % UINT64_RANGE else dirty
  }

  class ChangeCounters {
    const hasStateFile: bool
    var stateDirty: uint64
    var stateSavedDirty: uint64

    constructor (hasStateFile: bool)
      ensures this.hasStateFile == hasStateFile && stateDirty == 0 && stateSavedDirty == 0
    {
      this.hasStateFile := hasStateFile;
      stateDirty, stateSavedDirty := 0, 0;
    }

    method MarkStateDirty()
      modifies this`stateDirty
      ensures stateDirty == Marked(old(stateDirty), hasStateFile)
      ensures !hasStateFile ==> stateDirty == old(stateDirty)
      ensures hasStateFile ==>
                stateDirty == if old(stateDirty) == 0xFFFF_FFFF_FFFF_FFFF then 0 else old(stateDirty) + 1
    {
      if !hasStateFile {
        return;
      }
      stateDirty := (stateDirty + 1) % UINT64_RANGE;
    }

    method CurrentStateDirty() returns (dirty: uint64)
      ensures dirty == stateDirty
    {
      dirty := stateDirty;
    }

    method MarkStateSaved(dirty: uint64)
      modifies this`stateSavedDirty
      ensures stateSavedDirty == dirty
    {
      stateSavedDirty := dirty;
    }

    method HasUnsavedState() returns (unsaved: bool)
      ensures unsaved <==> stateDirty != stateSavedDirty
    {
      unsaved := stateDirty != stateSavedDirty;
    }

    method UnsavedStateChanges() returns (n: nat)
      ensures stateSavedDirty + n == stateDirty || (n == 0 && stateDirty < stateSavedDirty)
    {
      var dirty := stateDirty;
      var saved := stateSavedDirty;
      if dirty < saved {
        return 0;
      }
      return dirty - saved;
    }
  }
}
