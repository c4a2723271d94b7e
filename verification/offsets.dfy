/** The persisted offset of internal/source/offset.go, and where the tailer starts reading with it. */
module Offsets {
  import opened Collections

  datatype Offset = Offset(offset: nat, inode: nat)

  /** What Load returns when no record exists yet. */
  const NO_OFFSET: Offset := Offset(0, 0)

  /** The record, the zero one if there is none, or nothing if it cannot be read. */
  function Loaded(records: map<string, Offset>, name: string, unreadable: bool): Option<Offset> {
    if name !in records then Some(NO_OFFSET) else if unreadable then None else Some(records[name])
  }

  class OffsetStore {
    var records: map<string, Offset>   // {name}.offset
    var tmps: set<string>              // names with a left-over {name}.offset.tmp

    constructor ()
      ensures records == map[] && tmps == {}
    {
      records, tmps := map[], {};
    }

    method Load(name: string, unreadable: bool) returns (off: Option<Offset>)
      ensures off == Loaded(records, name, unreadable)
    {
      if name !in records { return Some(NO_OFFSET); }
      off := if unreadable then None else Some(records[name]);
    }

    /** Writes a temporary file and renames it: the old record stays until the new one is complete. */
    method Save(name: string, off: Offset, fails: bool, cleaned: bool) returns (ok: bool)
      modifies this
      ensures ok <==> !fails
      ensures records == if ok then old(records)[name := off] else old(records)
      ensures tmps - {name} == old(tmps) - {name}
    {
      tmps := tmps + {name};
      if fails {
        if cleaned { tmps := tmps - {name}; }
        return false;
      }
      tmps := tmps - {name};
      records := records[name := off];
      return true;
    }
  }

  /**
   Where `openInitial` starts reading: the saved offset if it is still meaningful, 0 if the file was
   replaced or cut, the end if there is no record or it cannot be loaded.
   */
  function StartOffset(fromBeginning: bool, loaded: Option<Offset>, inode: nat, size: nat): (start: nat)
    ensures start <= size
    ensures fromBeginning ==> start == 0
    ensures !fromBeginning && loaded.Some? && loaded.value.inode != 0 ==>
              start == if loaded.value.inode == inode && loaded.value.offset <= size then loaded.value.offset else 0
    ensures !fromBeginning && (loaded.None? || loaded.value.inode == 0) ==> start == size
  {
    if fromBeginning then 0
    else if loaded.None? then size
    else if loaded.value.inode != 0 && loaded.value.inode == inode && loaded.value.offset <= size
    then loaded.value.offset
    else if loaded.value.inode != 0 then 0
    else size
  }
}
