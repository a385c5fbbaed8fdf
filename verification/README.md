# Verification of the distributed filesystem

A Dafny model of the parts of the system that decide what users read back: the Paxos node and the cluster it forms,
quorum reads and writes over append-only replicas, the inode filesystem of a storage node, the replicated metadata map
with its namespace, replica placement, the write-ahead log's checksum, and the text protocol between frontend and
storage node. `dafny verify dfyconfig.toml` checks everything.

Each component is modelled twice where the program changes state in place: a class whose methods are the program's
loops and updates, and functions on values that those methods are proved to compute. The theorems are about the
functions, so they hold for the methods.

## How the modules fit together

| component | program form | value form and laws |
|---|---|---|
| Paxos node | `PaxosMachine` | `PaxosNode` |
| cluster of nodes | | `PaxosSystem` (steps, runs, invariant), `PaxosOutcome`, `PaxosCertificates`, `PaxosAgreement`, `PaxosFollower`, `PaxosDurability`; `PaxosRounds` builds runs, `PaxosConflict` and `PaxosLimits` use it to show where promises end |
| file content | `AppendFile.BackedFile` | `AppendFile` |
| replicated file | `QuorumMachine.ReplicatedFile` | `QuorumFile` (events, invariant), `QuorumRuns` (reads), `QuorumAppends` (append-only), `QuorumEdges` |
| inode filesystem | `InodeMachine` | `PathTokens`, `Inodes`, `InodeLaws`, `RenameLaw`, `InodeRuns`, `InodeContent` |
| metadata map | `MetadataMap.Manager` | `MetadataMap`, `ReplicatedMetadata` |
| namespace | `Frontend.Server` | `Paths`, `Namespace`, `NamespaceRuns`, `NamespaceEdges`, `Listings` |
| consensus, map and namespace together | | `ReplicatedNamespace` |
| placement | `Placement.StorageInterface` | `Placement` |
| checksum | `Crc32.Checksum` | `Crc32` |
| storage protocol | `WireStream.HandleClient`, `WireStream.SendWrite` | `WireFormat`, `WireStream` |

## The Paxos step system

A thread inside `paxos_propose` is cut into steps at the places where it takes or drops a lock: take an id, take a
sequence number, claim a slot, broadcast PREPARE, leave the promise wait (quorum or timeout), accept locally, persist,
count itself, broadcast ACCEPT, finish. Handler steps deliver packets. A broadcast is sent to all peers or fails as a
whole. `Discipline` says how the network may behave: any packet any number of times and in any order
(`AnyDelivery`), PREPARE and LEARN any number of times and the other packets at most once (`SingleAnswers`), each packet
at most once (`AtMostOnce`, still with loss and reordering), or in order and without loss with one serialised proposer,
whose persists and PREPARE and ACCEPT broadcasts may still fail (`Fifo`). Invariants and outcome theorems hold for every
discipline; theorems that need a stronger network name it, and `PaxosLimits` shows what happens without it.

Where the code does not do what Paxos promises, the model follows the code: sequence numbers are local to a node,
promises carry no value, a proposer accepts its own value even when the ballot test fails, and a learner drops every
LEARN at or below its highest committed sequence number. Agreement is therefore not a theorem for several proposing
nodes. `PaxosConflict.AgreementIffOneProposer` proves exactly when it holds.

## Findings

- Two proposing nodes can commit different values under the same sequence number, in every cluster and for every two
  nodes and values (`PaxosConflict.TwoProposersCanDisagree`).
- A rename whose target lies inside its source succeeds and loses the subtree (`RenameLaw.RenameMovesOneSubtree`).
- `fused_unlink` removes directories with everything below them, and unlink, rmdir and rename refuse a path that ends
  in a slash (`InodeLaws.UnlinkLaw`, `InodeLaws.RmdirLaw`, `RenameLaw.RenameSucceedsIff`).
- A write through a directory's inode succeeds, changes the directory's size and does not store its bytes at their
  offset (`InodeContent.DirectoryWriteLaw`).
- A write with a gap ignores how many zeros were stored and what the final flush kept, so a write can be acknowledged
  whose bytes are not where they should be (`AppendFile.WriteKeepsConsistency` states exactly when size and content
  stay equal, `AppendFile.AcknowledgedIsStoredIff` exactly when an acknowledged write is stored).
- After a short store on a majority of the replicas, a later acknowledged write is read wrong, and with fewer it is
  read right (`QuorumEdges.ShortStoreRun`, `QuorumEdges.StaleByteIff`).
- A replica that received only part of a write counts as a success (`QuorumEdges.AcknowledgedPartIff` states exactly
  when such a write is read right).
- After such a partial write a later Write can succeed below the committed size: its bytes overlap committed ones and
  the size does not grow by what was written (`QuorumAppends.PartialArrivalRun`; `QuorumAppends.AppendsIffAhead` and
  `QuorumAppends.PartialArrivalIff` state exactly when this cannot happen).
- A Remove that clears replicas but is not committed makes later reads wrong exactly when it cleared a majority
  (`QuorumEdges.RemoveReadsRightIff`).
- Duplicated answers are counted again: from five nodes on a commit can rest on two acceptors, with three it cannot
  (`PaxosLimits.CertifiedIffThree`). A learner whose persist fails applies the record all the same
  (`PaxosLimits.FailingPersistLosesRecord`, `PaxosDurability.DurableIffLearnsPersist`).
- A path longer than 4095 characters is stored cut off, so it can be created again and again
  (`NamespaceEdges.CreatedIsFoundIff`, `NamespaceEdges.LongNamesCollide`); a directory path with a NUL in it skips the
  child check of rmdir (`NamespaceEdges.NulSkipsChildCheck`); overlapping creates of one path both succeed
  (`NamespaceEdges.OverlappingCreatesCollide`, `NamespaceEdges.OverlappingMakesTidyIff`); a create that overlaps the rmdir of its parent leaves an orphan
  (`NamespaceEdges.OverlappingRmdirOrphansIff`).
- Every burst of 32 bits changes the log's checksum, and of the bursts of 33 bits exactly one pattern does not
  (`Crc32.LongBurstMissedIff`).
- The proposal id falls back below earlier ids at ballot 2^48 - 1, and the saturation branch is never taken
  (`PaxosNode.NextIdLaw`).

## Model

| member | source | states |
|---|---|---|
| `PaxosNode.NextIdLaw` | distributed_core/src/paxos.c:144-163 | the new id is larger than the highest seen exactly up to the last ballot, always ends in the node's 16 bits, raises the ballot by one, wraps to the bare node bits at ballot 2^48 - 1, and the saturation branch cannot be reached |
| `PaxosMachine.Machine.constructor` | distributed_core/src/paxos.c:84-123 | a new node has a majority quorum, sequence number 1 and 256 free slots |
| `PaxosMachine.Machine.Init` | distributed_core/src/paxos.c:76-82 | a cluster size is refused exactly if it is even or below three |
| `PaxosMachine.Machine.NextProposalId` | distributed_core/src/paxos.c:144-163 | 64-bit arithmetic of the id, and that only the highest seen id changes |
| `PaxosMachine.Machine.TakeSequence` | distributed_core/src/paxos.c:183-185 | hands out the node's next sequence number and moves it by one |
| `PaxosMachine.Machine.ClaimSlot` | distributed_core/src/paxos.c:187-212 | the first free slot gets the proposal with one promise; a full pool changes nothing |
| `PaxosMachine.Machine.ReleaseSlot` | distributed_core/src/paxos.c:10-29 | the slot becomes free, nothing else changes |
| `PaxosMachine.Machine.AcceptLocally` | distributed_core/src/paxos.c:242-247 | the proposer's own acceptance raises both ballots only if the ballot test holds |
| `PaxosMachine.Machine.Scan` | distributed_core/src/paxos.c:350-363 | finds the first active, uncompleted slot of a proposal |
| `PaxosMachine.Machine.CountAccept` | distributed_core/src/paxos.c:396-439 | counts an acceptance and commits, applies and announces exactly when it makes a quorum |
| `PaxosMachine.Machine.HandleMessage` | distributed_core/src/paxos.c:315-460 | the in-place handlers compute the state function of each message |
| `PaxosSystem.FreshId` | distributed_core/src/paxos.c:147-157 | an id taken by any node in any reachable state was never used before in the cluster |
| `PaxosSystem.InvStep` | distributed_core/src/paxos.c:170-460 | every proposer and handler step keeps the cluster invariant |
| `PaxosSystem.InvRun` | distributed_core/src/paxos.c:170-460 | the invariant holds after every run under every network discipline |
| `PaxosSystem.OneValuePerId` | distributed_core/src/paxos.c:262-273 | on any network and with any number of proposers all ACCEPTs and LEARNs of one proposal id carry one value and one sequence number |
| `PaxosOutcome.ExactRun` | distributed_core/src/paxos.c:187-289 | in every reachable state each proposal is applied and announced on its own node once if it is committed and never otherwise |
| `PaxosOutcome.ReturnedForever` | distributed_core/src/paxos.c:10-73 | what a finished proposal returned does not change in any continuation |
| `PaxosOutcome.ProposeOutcomeIsExact` | distributed_core/src/paxos.c:187-289 | `paxos_propose` returns 0 exactly when its value was applied once on this node and one LEARN was broadcast, and after -1 it is never applied there, in every continuation |
| `PaxosOutcome.AcceptorsKeepPromises` | distributed_core/src/paxos.c:326-394 | ballots never go back, an id is promised at most once and in rising order, and after a promise no lower id is accepted, with duplication and reordering |
| `PaxosCertificates.CertifiedRun` | distributed_core/src/paxos.c:384-435 | if PROMISE, ACCEPT and ACCEPTED arrive at most once, or in a cluster of three on any network, every commit, LEARN and apply is backed by a majority of distinct acceptors |
| `PaxosCertificates.AppliesAreCertified` | distributed_core/src/paxos.c:262-273 | under the same conditions, for any number of proposers: every apply has a majority certificate, applies of one id are one record, which all its ACCEPTs and LEARNs carry, and two applied proposals share an acceptor |
| `PaxosCertificates.PromiseCountIsHonest` | distributed_core/src/paxos.c:347-366 | a promise count never exceeds the number of distinct nodes that promised, each of which has seen the id, even if PREPAREs and LEARNs are delivered again and again |
| `PaxosCertificates.CountedRun` | distributed_core/src/paxos.c:347-415 | after every run on any network the slot counters of every open proposal are backed by answers that were delivered, one for one when answers are single |
| `PaxosAgreement.ConflictNeedsTwoProposers` | distributed_core/src/paxos.c:183-185 | two different values under one sequence number come from two different proposing nodes |
| `PaxosAgreement.OneProposerAgrees` | distributed_core/src/paxos.c:183-185 | with one proposing node all nodes apply the same value under the same sequence number, on any network |
| `PaxosAgreement.LearnersApplyInOrder` | distributed_core/src/paxos.c:442-454 | a node that does not propose applies in strictly increasing sequence order, on any network |
| `PaxosRounds.Round` | distributed_core/src/paxos.c:170-289 | a node with the highest ballot and any set of peers that makes a quorum can commit, over at-most-once and over in-order links, and what the other nodes keep through that round |
| `PaxosConflict.TwoProposersCanDisagree` | distributed_core/src/paxos.c:183-185 | in every cluster any two nodes can commit any two values under sequence number 1 |
| `PaxosConflict.AgreementIffOneProposer` | distributed_core/src/paxos.c:96-96 | agreement on every sequence number holds in all at-most-once runs exactly when no two different nodes propose |
| `PaxosFollower.ReplicatedRun` | distributed_core/src/paxos.c:442-454 | over in-order links a follower has applied exactly the LEARNs it has heard, which are the proposer's announcements in order |
| `PaxosDurability.DurableIffLearnsPersist` | distributed_core/src/paxos.c:442-454 | in in-order runs everything applied on a follower was persisted there exactly if no LEARN was applied whose persist was called and failed |
| `PaxosDurability.ProposerDurable` | distributed_core/src/paxos.c:249-264 | over in-order links a single proposer's log holds everything it has applied, even if persists fail |
| `PaxosDurability.OwnRecordsAreDurable` | distributed_core/src/paxos.c:249-264 | on any network and with any number of proposers, a node applies no record of its own proposals that is not in its own log |
| `PaxosDurability.PrefixWasLog` | distributed_core/src/paxos.c:396-435 | every prefix of the proposer's log was its whole log at some earlier moment |
| `PaxosDurability.FollowersReplayTheProposer` | distributed_core/src/paxos.c:368-454 | a follower's applied log is a prefix of the proposer's and equals it at an earlier moment; the proposer's log is always complete, the follower's exactly if no applied LEARN's persist failed |
| `PaxosLimits.DuplicatesCommit` | distributed_core/src/paxos.c:396-415 | from five nodes on, any two nodes commit any value by one PROMISE and one ACCEPTED that are delivered repeatedly |
| `PaxosLimits.CertifiedIffThree` | distributed_core/src/paxos.c:396-415 | on a network that duplicates at will, certificates hold in all runs exactly in clusters of three |
| `PaxosLimits.FailingPersistLosesRecord` | distributed_core/src/paxos.c:442-454 | in every cluster and for every follower there is an in-order run in which it applies a record that is not in its log |
| `ReplicatedMetadata.FollowerMapWasTheProposers` | src/distributed_frontend.cpp:241-256 | a follower's metadata map is a map the proposer had earlier, chain order and counters included, and the missing records turn it into the present one |
| `ReplicatedMetadata.ReappliedHistoryIsHarmless` | src/distributed_frontend.cpp:241-256 | applying a node's history again, or any tail of it, leaves its map as it was |
| `ReplicatedNamespace.ProposerHistory` | src/distributed_frontend.cpp:177-199 | if every proposal is the decision of a namespace request on the proposer's map, the proposer's log is at every moment the log of a serial run of those requests |
| `ReplicatedNamespace.EveryNodeServesTheNamespace` | src/distributed_frontend.cpp:177-256 | in such runs the metadata map of every node is at every moment exactly the map a serial run of requests leaves, chain order and counters included, and it is tidy |
| `AppendFile.WriteKeepsConsistency` | src/fused_ops.c:251-316 | exactly when size and content length stay equal, in terms of the zeros stored in the gap, the count that is compared and the bytes kept after the flush, and exactly which writes are refused without effect |
| `AppendFile.AcknowledgedIsStoredIff` | src/fused_ops.c:284-308 | on any file, consistent or not, a write that reports success has its bytes at its offset, whatever they are, exactly if the old content and the zeros stored end at that offset and all of the bytes were kept |
| `AppendFile.ReadBack` | src/fused_ops.c:194-316 | an accepted write reads back, the gap reads as zeros, everything before it reads as before, and nothing lies beyond |
| `AppendFile.ReadIsClampedSlice` | src/fused_ops.c:194-246 | a read returns the slice clamped to the size |
| `AppendFile.ReadableBytesStay` | src/fused_ops.c:266-308 | the content only grows and what a read returned stays the front of what it returns, through any further writes, whatever each of them stores |
| `AppendFile.GrowthKeepsReads` | src/fused_ops.c:194-246 | reads of a grown file extend the reads before, and within the old content they are equal |
| `AppendFile.BackedFile.WriteAt` | src/fused_ops.c:251-316 | the gap loop, the append, the flush and the size update compute the write function, short stores included |
| `AppendFile.BackedFile.FillGap` | src/fused_ops.c:284-295 | the loop over blocks of 4096 appends what each ignored store keeps |
| `AppendFile.BackedFile.ReadAt` | src/fused_ops.c:194-246 | the clamped read returns the read function |
| `QuorumFile.QuorumWriteAppends` | src/distributed_frontend.cpp:641-681 | a write that a quorum reports has its offset at or above the committed size |
| `QuorumFile.CompleteIsSound` | src/distributed_frontend.cpp:651-667 | one write is sound if every counted replica was consistent, received all of the data and stored all of it |
| `QuorumFile.InvStep` | src/distributed_frontend.cpp:608-721 | every sound event keeps the invariant: writes that succeed, fail or roll back, late writes, and uncommitted Removes |
| `QuorumFile.InvLate` | src/storage_tcp_adapter.cpp:176-214 | a write that a replica executes after its request was given up keeps the invariant, at any offset and however much of it is stored |
| `QuorumFile.InvAfter` | src/distributed_frontend.cpp:641-706 | after every sound run every majority of the replicas includes a holder of each committed write, and committed writes do not overlap |
| `QuorumAppends.ClusterIsAppendOnly` | src/distributed_frontend.cpp:641-706 | after every run in which data arrives whole where it is counted, with any short stores: a successful write starts at or beyond the committed size, strictly grows it and raises the version by one, a failed one changes neither, committed writes do not overlap, and the rollback only runs when nothing was ever committed |
| `QuorumAppends.AppendsIffAhead` | src/distributed_frontend.cpp:641-681 | for every state: the next successful write, and every one in all continuations, starts at or beyond the committed size exactly when that size is at most one or every majority meets a replica that has grown to it |
| `QuorumAppends.PartialArrivalIff` | src/storage_tcp_adapter.cpp:176-205 | after an acknowledged write the file stays append-only exactly when the write ends within the first byte or all of it arrived at replicas that every majority meets |
| `QuorumAppends.PartialArrivalRun` | src/storage_tcp_adapter.cpp:176-205 | for every number of replicas and all data: a first write of which a part arrives everywhere succeeds, and so does a second one below the committed size that overlaps it |
| `QuorumFile.GetIsUnique` | src/distributed_frontend.cpp:813-850 | at most one value can have a majority of answers |
| `QuorumFile.SoundReadIsCorrect` | src/distributed_frontend.cpp:813-850 | after every sound run each byte a successful Get returns at a committed position is the committed byte |
| `QuorumFile.SoundReadIsComplete` | src/distributed_frontend.cpp:797-850 | after every sound run, if answers are not cut short, a successful Get returns everything asked for below the committed size and never more than asked for |
| `QuorumRuns.IntactIsConsistent` | src/fused_ops.c:284-308 | a replica that has made no short store since it was last cleared has the size of its content, after every run |
| `QuorumRuns.IntactRunIsSound` | src/distributed_frontend.cpp:641-706 | a run is sound if every replica counted for a committed write got all of the data, stored it whole and had made no earlier short store |
| `QuorumRuns.CommitsAreKept` | src/distributed_frontend.cpp:641-706 | after every such run every majority of the replicas includes a holder of each committed write, and committed writes do not overlap |
| `QuorumRuns.QuorumReadIsCorrect` | src/distributed_frontend.cpp:813-850 | after every such run each byte a successful Get returns at a committed position is the committed byte, with missed and late writes, partial stores on replicas that are not counted, leftovers of failed writes, lost answers and answers cut short |
| `QuorumRuns.QuorumReadIsComplete` | src/distributed_frontend.cpp:797-850 | after every such run, if answers are not cut short, a successful Get returns everything asked for below the committed size and never more than asked for |
| `QuorumRuns.FullRunIsIntact` | src/distributed_frontend.cpp:641-706 | runs in which every replica misses any subset of the writes and stores the others whole are such runs |
| `QuorumRuns.FullStoresReadRight` | src/distributed_frontend.cpp:813-850 | read correctness for all runs with full stores |
| `QuorumFile.InvAlwaysReadsRight` | src/distributed_frontend.cpp:813-850 | from every state with the invariant, every Get after every sound continuation agrees with the commits |
| `QuorumEdges.RemoveKeepsReads` | src/distributed_frontend.cpp:500-535 | for every cluster and every set of cleared replicas: if each commit keeps holders that meet every majority, all continuations read right |
| `QuorumEdges.RemoveReadsRightIff` | src/distributed_frontend.cpp:500-535 | on a fully replicated file with a committed byte other than zero, all continuations of an uncommitted Remove read right exactly when fewer than a majority of the replicas were cleared |
| `QuorumEdges.AcknowledgedPartIff` | src/storage_tcp_adapter.cpp:176-214 | on replicas that store what arrives, an acknowledged write whose last byte is not zero is read right in all continuations exactly when all of it arrived at replicas that every majority meets |
| `QuorumEdges.StaleByteIff` | src/fused_ops.c:297-308 | with the same stale byte on some replicas and the others consistent, a write that all store completely and acknowledge is read right in all continuations exactly when the stale replicas are fewer than a majority |
| `QuorumEdges.ShortStoreRun` | src/fused_ops.c:297-308 | for every number of replicas: the run of a short store and a complete later write, and exactly when it reads right |
| `QuorumEdges.LostByteIsRead` | src/distributed_frontend.cpp:813-850 | if the holders of a byte other than zero no longer meet every majority and the other replicas are short of it, some sound continuation reads it wrong |
| `QuorumMachine.ReplicatedFile.WriteReplicas` | src/distributed_frontend.cpp:651-667 | the loop over the replicas gives each its outcome and counts exactly the reported successes |
| `QuorumMachine.ReplicatedFile.Cleanup` | src/distributed_frontend.cpp:684-694 | the rollback clears exactly the replicas it reaches |
| `QuorumMachine.ReplicatedFile.WriteFile` | src/distributed_frontend.cpp:608-721 | the whole request is the write step, and it reports success exactly when the step succeeds |
| `QuorumMachine.CountAnswers` | src/distributed_frontend.cpp:813-841 | the counting loop returns a value with a majority of answers, and nothing exactly when no value has one |
| `QuorumMachine.ReplicatedFile.Get` | src/distributed_frontend.cpp:797-850 | the request returns a value exactly when a majority of replicas answers it |
| `PathTokens.SplitLaw` | src/fused_ops.c:780-814 | the parent and the last component of a path account for its tokens, repeated and trailing slashes included |
| `Inodes.LookupLive` | src/fused_ops.c:651-664 | under the invariant an inode number finds its own slot or nothing |
| `Inodes.WalkConcat` | src/fused_ops.c:675-723 | path resolution is compositional |
| `Inodes.UniquePath` | src/fused_ops.c:675-723 | two paths that resolve to the same inode are the same path |
| `Inodes.InvAppend` | src/fused_ops.c:819-851 | entering a live, unentered inode under a free name keeps the table invariant |
| `Inodes.InvDrop` | src/fused_ops.c:856-890 | removing an entry keeps the table invariant |
| `Inodes.InvFill` | src/fused_ops.c:729-753 | taking the next slot keeps the table invariant |
| `Inodes.InvClear` | src/fused_ops.c:755-775 | freeing an unentered slot keeps the table invariant, whether the last slot or a hole |
| `InodeLaws.MakeFails` | src/fused_ops.c:321-382 | a failing create or mkdir leaves the table exactly as it was |
| `InodeLaws.MakeAddsOnePath` | src/fused_ops.c:428-491 | a successful create or mkdir adds one path to a new inode and changes no other path |
| `InodeLaws.RmdirLaw` | src/fused_ops.c:493-561 | rmdir succeeds exactly for empty directories named without a trailing slash, removes that path and no other, and otherwise changes nothing |
| `InodeLaws.UnlinkLaw` | src/fused_ops.c:611-636 | unlink succeeds exactly for existing paths without a trailing slash, removes the path with everything below it and no other, and otherwise changes nothing |
| `RenameLaw.RenameFails` | src/fused_ops.c:563-606 | a failing rename leaves the table exactly as it was, rollback included |
| `RenameLaw.RenameMovesOneSubtree` | src/fused_ops.c:563-606 | for every path: below the target it resolves as below the source before, below the source to nothing, elsewhere as before, exactly if the target is not inside the source; otherwise the subtree is lost |
| `RenameLaw.RenameSucceedsIff` | src/fused_ops.c:563-606 | exactly when a rename succeeds |
| `InodeRuns.CallLaw` | src/fused_ops.c:251-636 | every call, writes through files and directories included, keeps the table invariant; a call that reports an error changes nothing, except that a failed write may leave bytes in its backing file |
| `InodeRuns.InvRun` | src/fused_ops.c:321-636 | the table invariant holds after every run of calls |
| `InodeRuns.ReachableTablesAreTrees` | src/fused_ops.c:675-723 | in every reachable table each inode has at most one path, a path ends at a live slot, and only the empty path is the root |
| `InodeContent.CallContent` | src/fused_ops.c:251-636 | every call leaves every other file in its slot with its content kept or grown; unlink clears exactly its target, and a slot that becomes a file starts empty |
| `InodeContent.ContentStaysUntilUnlink` | src/fused_ops.c:194-636 | in every run of create, mkdir, rmdir, rename, unlink and write, a live file that is not unlinked keeps its slot, its old bytes are a prefix of the later ones, and reads within the stored content are equal |
| `InodeContent.ReusedSlotStartsEmpty` | src/fused_ops.c:611-636 | a file found later in the slot of an unlinked file began empty after the unlink |
| `InodeContent.DirectoryWriteLaw` | src/fused_ops.c:251-316 | exactly when a write through a directory's inode succeeds (never on the root), that it changes only the directory's size and content, and that on a fresh directory the acknowledged bytes are not at their offset |
| `InodeMachine.FileSystem.constructor` | src/fused_ops.c:56-70 | a new table holds the root directory in its first slot |
| `InodeMachine.FileSystem.Find` | src/fused_ops.c:651-664 | the scan finds the first slot with the inode number |
| `InodeMachine.FileSystem.ResolvePath` | src/fused_ops.c:675-723 | the tokenising loop computes path resolution |
| `InodeMachine.FileSystem.DirAdd` | src/fused_ops.c:819-851 | the append to the child array with its three refusals |
| `InodeMachine.FileSystem.ShiftLeft` | src/fused_ops.c:869-880 | the shifting loop removes exactly one entry and keeps the order |
| `InodeMachine.FileSystem.DirRemove` | src/fused_ops.c:856-890 | the scan and shift compute the removal of an entry |
| `InodeMachine.FileSystem.Release` | src/fused_ops.c:755-775 | the last slot is given back, any other becomes a hole |
| `InodeMachine.FileSystem.EnterNode` | src/fused_ops.c:338-377 | allocation, backing file and entry, with the release on failure |
| `InodeMachine.FileSystem.CreateNode` | src/fused_ops.c:321-382 | create and mkdir in place |
| `InodeMachine.FileSystem.RemoveDirectory` | src/fused_ops.c:493-561 | rmdir in place |
| `InodeMachine.FileSystem.UnlinkPath` | src/fused_ops.c:611-636 | unlink in place |
| `InodeMachine.FileSystem.RenamePath` | src/fused_ops.c:563-606 | rename in place, with its rollback |
| `MetadataMap.BucketIgnoresWrap` | distributed_core/src/metadata_manager.c:26-33 | the 32-bit accumulator puts an id in the bucket of the unbounded polynomial |
| `MetadataMap.ApplyRefines` | distributed_core/src/metadata_manager.c:464-525 | one application is one update of the plain map: each id once in its own bucket, counters exact |
| `MetadataMap.LookupFindsLatest` | distributed_core/src/metadata_manager.c:182-203 | after any sequence a lookup finds the last entry applied for its id, the entry counter is the number of ids, the size counter the sum of sizes modulo 2^64 |
| `MetadataMap.ReplayChangesNothing` | distributed_core/src/metadata_manager.c:464-525 | applying the whole sequence again, or any tail of it, leaves every chain and counter as it was |
| `MetadataMap.LookupByPathRefines` | distributed_core/src/metadata_manager.c:206-230 | a path search finds nothing exactly when no live entry has the path, and otherwise a live entry with it |
| `MetadataMap.Manager.Hash` | distributed_core/src/metadata_manager.c:26-33 | the accumulator loop computes the hash |
| `MetadataMap.Manager.LookupId` | distributed_core/src/metadata_manager.c:182-203 | the chain walk computes the lookup |
| `MetadataMap.Manager.LookupPath` | distributed_core/src/metadata_manager.c:206-230 | the two nested loops compute the path search |
| `MetadataMap.Manager.ApplyEntry` | distributed_core/src/metadata_manager.c:464-525 | overwrite in place or insert at the head, with the counters |
| `Paths.TrimTrailingSlash` | src/distributed_frontend.cpp:72-81 | the loop drops exactly the trailing slashes after the first character |
| `Paths.ChildUndoesJoin` | src/distributed_frontend.cpp:83-108 | the direct-child test gives a name exactly if the candidate is the directory joined with that name, for every absolute directory |
| `Paths.JoinCanonical` | src/distributed_frontend.cpp:130-143 | joining a valid name to a canonical directory gives a canonical path with that parent and that name |
| `Paths.ChildOfParent` | src/distributed_frontend.cpp:83-108 | on canonical paths the direct-child test is "the parent is this directory" |
| `Namespace.DecideKeepsTidy` | src/distributed_frontend.cpp:299-603 | every request keeps one live entry per path, live parents and canonical paths, and commits a first version or the next version of a live entry |
| `Namespace.ServeChangesOnePath` | src/distributed_frontend.cpp:299-681 | a successful request changes the lookup of its own path as it should and of no other, and an unsuccessful one changes nothing |
| `Namespace.ServeSucceedsIff` | src/distributed_frontend.cpp:299-681 | a request succeeds exactly when the namespace permits it and consensus commits it |
| `NamespaceRuns.NamespaceStaysTidy` | src/distributed_frontend.cpp:145-175 | the namespace invariant holds after every serial run, and the map is the replay of what was committed |
| `NamespaceRuns.VersionCountsCommits` | src/distributed_frontend.cpp:670-681 | a file's version is the number of commits about it, in 64 bits |
| `NamespaceRuns.DeletedStaysDeleted` | src/distributed_frontend.cpp:524-535 | a deleted file id is never revived and never changes |
| `NamespaceEdges.NewEntryTidyIff` | src/distributed_frontend.cpp:334-350 | exactly when a new entry keeps the namespace tidy, in terms of the path as stored |
| `NamespaceEdges.CreatedIsFoundIff` | src/distributed_frontend.cpp:338-341 | a committed create is found again exactly when its path fits the field |
| `NamespaceEdges.LongNamesCollide` | src/distributed_frontend.cpp:321-341 | any name too long for the field can be created twice in the root, which leaves two live entries at one path |
| `NamespaceEdges.OverlappingCreatesCollide` | src/distributed_frontend.cpp:314-332 | two creates or mkdirs of one path that both check the map before either commits leave two live entries at that path |
| `NamespaceEdges.OverlappingMakesTidyIff` | src/distributed_frontend.cpp:314-332 | any two creates or mkdirs decided on one map, of any kind, directory and name that fit: committing both keeps the namespace tidy exactly when their paths differ |
| `NamespaceEdges.OverlappingRmdirOrphansIff` | src/distributed_frontend.cpp:314-332 | a create or mkdir decided before an rmdir commits and committed after it keeps the namespace tidy exactly when the directory removed is not its parent; otherwise the new entry has no live parent |
| `NamespaceEdges.DeletedDirTidyIff` | src/distributed_frontend.cpp:575-590 | deleting a directory keeps the namespace tidy exactly when nothing live is below it |
| `NamespaceEdges.NulSkipsChildCheck` | src/distributed_frontend.cpp:549-590 | with a NUL in the path rmdir succeeds on every committed request for a live directory, whatever it holds |
| `Listings.NamesOnce` | src/distributed_frontend.cpp:896-919 | no listing shows a name twice |
| `Listings.ListingIsLiveChildren` | src/distributed_frontend.cpp:896-919 | a listing shows exactly the live children with their type and size |
| `Listings.HasChildrenIffListed` | src/distributed_frontend.cpp:155-175 | the emptiness test is true exactly if the listing is not empty |
| `Frontend.CountAcks` | src/distributed_frontend.cpp:498-513 | the counting loop counts the named replicas that acknowledged |
| `Frontend.Server.DirectoryExists` | src/distributed_frontend.cpp:145-153 | the root, or a live directory entry |
| `Frontend.Server.DirectoryHasChildren` | src/distributed_frontend.cpp:155-175 | the nested loops answer true exactly if some stored entry is live and directly below |
| `Frontend.Server.ScanChain` | src/distributed_frontend.cpp:900-918 | one chain of the listing loop |
| `Frontend.Server.ReadDirectory` | src/distributed_frontend.cpp:866-925 | the loops with the set of seen names compute the listing |
| `Frontend.ReadDirLaw` | src/distributed_frontend.cpp:866-925 | a listing succeeds exactly on the root and on live directories and shows exactly their live children |
| `Frontend.Server.Commit` | src/distributed_frontend.cpp:177-199 | a proposal is applied exactly if consensus commits it, and an uncommitted one is an I/O error that changes nothing |
| `Frontend.Server.Make` | src/distributed_frontend.cpp:299-455 | Create and Mkdir are the decision on the map followed by consensus |
| `Frontend.Server.RemoveFile` | src/distributed_frontend.cpp:465-543 | Remove is the decision on the map followed by consensus |
| `Frontend.Server.RemoveDirectory` | src/distributed_frontend.cpp:546-603 | Rmdir is the decision on the map followed by consensus |
| `Frontend.Server.WriteFile` | src/distributed_frontend.cpp:608-681 | the metadata part of Write is the decision on the map followed by consensus |
| `Placement.SelectIsExact` | distributed_core/src/storage_interface.c:143-183 | for every registry, cursor and size: no replicas asked for is an error, otherwise the smaller of the number asked for and the number of different eligible ids is selected, all different and eligible |
| `Placement.PicksAreWalk` | distributed_core/src/storage_interface.c:143-183 | while all nodes are eligible, successive selections continue one round-robin walk |
| `Placement.PicksAreBalanced` | distributed_core/src/storage_interface.c:143-183 | after any number of selections the pick counts of two nodes differ by at most one |
| `Placement.StorageInterface.Register` | distributed_core/src/storage_interface.c:58-90 | appends a node unless the registry is full |
| `Placement.StorageInterface.Unregister` | distributed_core/src/storage_interface.c:93-115 | removes the first node with the id and keeps the order of the others and the cursor |
| `Placement.StorageInterface.ShiftLeft` | distributed_core/src/storage_interface.c:103-106 | the in-place shift of the node array |
| `Placement.StorageInterface.SelectNodes` | distributed_core/src/storage_interface.c:143-183 | the selection loop computes the selection and the new cursor |
| `Crc32.ComputeCrc` | distributed_core/src/metadata_manager.c:36-45 | the two loops compute the checksum for any polynomial with its highest bit set |
| `Crc32.Checksum` | distributed_core/src/metadata_manager.c:36-45 | the same for 0xEDB88320 |
| `Crc32.ShiftOnce` | distributed_core/src/metadata_manager.c:41-41 | the masked shift is the shift with conditional feedback |
| `Crc32.ShiftInjective` | distributed_core/src/metadata_manager.c:41-41 | one shift never merges two registers |
| `Crc32.BytesAreBits` | distributed_core/src/metadata_manager.c:38-43 | the byte loop equals the bit-serial register |
| `Crc32.BurstsAreDetected` | distributed_core/src/metadata_manager.c:36-45 | every difference within 32 consecutive bits changes the checksum, for every position and message length |
| `Crc32.ByteChangesAreDetected` | distributed_core/src/metadata_manager.c:36-45 | every change of one byte changes the checksum, for every message length |
| `Crc32.ChecksumDetects` | distributed_core/src/metadata_manager.c:36-45 | both for the polynomial the log uses |
| `Crc32.UndetectedIff` | distributed_core/src/metadata_manager.c:36-45 | an error pattern is invisible exactly when it feeds an empty register back to zero, whatever the message |
| `Crc32.GeneratorIsInvisible` | distributed_core/src/metadata_manager.c:36-45 | 32 bits are the limit: the 33-bit generator pattern is never detected |
| `Crc32.SameChecksumIff` | distributed_core/src/metadata_manager.c:36-45 | two messages of one length have the same checksum exactly when their difference leaves an empty register empty |
| `Crc32.LongBurstMissedIff` | distributed_core/src/metadata_manager.c:36-45 | a difference of messages that starts at some bit and ends within 33 bits is missed exactly when it is the generator |
| `Crc32.SomeLongBurstIsMissed` | distributed_core/src/metadata_manager.c:36-45 | every message of bytes has, at every place where 33 bits fit, a different message of the same checksum |
| `WireFormat.DecimalValue` | distributed_core/src/storage_interface.c:294-296 | printed decimals denote the number printed |
| `WireFormat.ScanDecimal` | src/storage_tcp_adapter.cpp:149-150 | scanning a printed 64-bit number gives it back and stops at the next character |
| `WireFormat.ScanUndoesPrintIff` | src/storage_tcp_adapter.cpp:149-150 | scanning undoes printing of the WRITE header exactly for ids of 1 to 63 characters without a bar, whatever follows the header |
| `WireStream.CollectedIs` | src/storage_tcp_adapter.cpp:176-187 | the receive loop collects the smallest of what is wanted, what is there and what is delivered |
| `WireStream.FramingRoundTrip` | src/storage_tcp_adapter.cpp:135-187 | if the first receive holds the header, the request arrives as sent with exactly the data delivered, for every chunking |
| `WireStream.WholeIffDelivered` | src/storage_tcp_adapter.cpp:135-187 | the receiver returns the request with all its data exactly when the network delivers all of the data, for every first receive that holds the header and every chunking |
| `WireStream.SplitHeaderIsRefused` | src/storage_tcp_adapter.cpp:121-147 | a first receive that stops inside the header is refused, and how |
| `WireStream.ReceiveRest` | src/storage_tcp_adapter.cpp:176-187 | the receive loop fills the payload buffer in order |
| `WireStream.Reassemble` | src/storage_tcp_adapter.cpp:156-187 | the copied and the received part together are the payload |
| `WireStream.HandleClient` | src/storage_tcp_adapter.cpp:113-187 | the handler up to the call of the storage service |
| `WireStream.SendWrite` | distributed_core/src/storage_interface.c:291-315 | a failed header send puts nothing on the wire; otherwise the part of the header that was accepted is followed by a prefix of the data, and the sender reports no failure exactly if all of the data was sent |

## Left out

- Sockets, the poll loop, reconnection and the peer list: represented by the packets of the step system, with peers distinct and excluding the sender.
- gRPC services and clients, and the forwarding of Get between frontends: thin wrappers over libraries.
- Recovery from the write-ahead log: replay applies nothing, so only the fact that persist was called is kept.
- The byte layouts of serialised messages and metadata entries: values are abstract.
- `metadata_create_entry`, `metadata_update_entry` and `metadata_delete_entry`: the frontend does not use them.
- Timestamps, owners, addresses, permission bits and log output; file ids are assumed fresh, clocks are nondeterministic timeout steps, allocation does not fail.
- The chains of the metadata map are sequences, not linked nodes: sharing and the updating of links are not captured.
- Strings of the metadata map are the C strings' contents, so they hold no NUL; request strings may (see `Namespace.CString`).
- Node counts and attempt counters stay below the 32-bit limit, and sequence numbers and slot counters do not wrap; ids, sizes, versions and the hash do wrap.
- The proposer's two adjacent critical sections that raise its persisted mark and count its own acceptance are one step; no other step reads both fields.
- PaxosSystem.InvRun: ballots stay below the point where ids wrap, as a condition on taking an id; PaxosNode.NextIdLaw states what happens there.
- PaxosOutcome.ProposeOutcomeIsExact: a wait ends by its condition or by a timeout, not by another error of the condition variable.
- PaxosCertificates.AppliesAreCertified: from five nodes on assumes that PROMISE, ACCEPT and ACCEPTED are delivered at most once, because the code counts a duplicate again; PaxosLimits.CertifiedIffThree proves that this is needed.
- PaxosFollower.ReplicatedRun: assumes proposals one after the other, as the coordinator lock makes them, and in-order, loss-free links.
- QuorumRuns.QuorumReadIsCorrect: holds for intact runs (`QuorumRuns.IntactRun`): every replica counted for a committed write got all of the data, stored it whole and had made no earlier short store, and an uncommitted Remove leaves holders that every majority meets; `QuorumEdges` shows what happens otherwise. One coordinator, distinct replicas that do not restart, offsets that are not negative.
- QuorumAppends.ClusterIsAppendOnly: holds for arrival runs (`QuorumAppends.ArrivalRun`): all of the data arrives at every replica that is counted for a committed write, and an uncommitted Remove leaves enough grown replicas; `QuorumAppends.PartialArrivalRun` shows what happens otherwise.
- QuorumFile.InvLate: late writes are harmless, late deletes are not; a delete that a replica executes after its request was given up is an uncommitted Remove of that replica, and reads stay right under the condition of `QuorumEdges.RemoveKeepsReads`, so the rollback of a first write relies on its deletes being executed before anything is committed.
- QuorumMachine.ReplicatedFile.Get: fixes all answers before it counts them, although the program stops asking once it has a majority; a read changes no replica.
- ReplicatedNamespace.EveryNodeServesTheNamespace: one proposing frontend that decides each request on its own map when it proposes, in-order links, and fresh file ids.
- NamespaceRuns.NamespaceStaysTidy: requests are served one at a time, because Create and Mkdir check existence before they take the lock; paths fit their field and directory paths hold no NUL.
- Paths of the inode filesystem are absolute; the 255-character buffers are modelled by `PathTokens.Clip`.
- Reads of attributes and directories of the inode filesystem, open handles beyond their inode number, and utimens.
- The READ, DELETE and PING commands of the storage protocol and the responses' text: same framing, no payload to reassemble.
- Registers and bytes of the checksum are rows of bits, not machine words.
