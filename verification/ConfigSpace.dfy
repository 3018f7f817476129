/** The assumed contract of IOBEWI ConfigSpace, the store behind every persisted record: one
    blob with a generation, replaced as a whole. Its code is not part of this model.

    Whether a call gets through is not the caller's choice: a read or a commit may fail at
    any time, and a failed commit leaves the stored blob as it was. */
module ConfigSpace {
  import opened Bytes
  import opened Wrappers

  datatype Snapshot = Snapshot(generation: nat, data: seq<Byte>)

  datatype Commit = Fails | Lands(generation: nat)

  class Space {
    var stored: Option<Snapshot>

    constructor (stored: Option<Snapshot>)
      ensures this.stored == stored
    {
      this.stored := stored;
    }

    method Load(readable: bool) returns (r: Result<Option<Snapshot>, ()>)
      ensures r == if readable then Ok(stored) else Err(())
    {
      r := if readable then Ok(stored) else Err(());
    }

    method Commit(data: seq<Byte>, outcome: Commit) returns (r: Result<nat, ()>)
      modifies this
      ensures outcome.Fails? ==> r == Err(()) && stored == old(stored)
      ensures outcome.Lands? ==> r == Ok(outcome.generation)
                                 && stored == Some(Snapshot(outcome.generation, data))
    {
      match outcome
      case Fails => r := Err(());
      case Lands(generation) =>
        stored := Some(Snapshot(generation, data));
        r := Ok(generation);
    }
  }
}
