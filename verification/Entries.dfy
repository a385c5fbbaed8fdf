/** The replicated metadata entry, which is also the value carried by a Paxos proposal. */
module Entries {

  datatype Option<+T> = None | Some(value: T)

  /** Where 64-bit unsigned numbers wrap around. */
  const U64: nat := 0x1_0000_0000_0000_0000

  datatype FileState = Creating | Active | Deleting | Deleted | Replicating

  /** A metadata entry without timestamps, owner, addresses and permission bits:
      `isDir` is the file-type part of the mode, `nodes` the storage node ids. */
  datatype Entry = Entry(
    fileId: string, path: string, state: FileState, size: nat, isDir: bool, nodes: seq<nat>, version: nat)
  {
    predicate Live() {
      state != Deleted
    }
  }
}
