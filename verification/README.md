# Distributed systems models in Dafny

This project models the protocols and data structures of the repository's packages and proves what they
promise: Raft consensus (elections, replication, commit, compaction), the normal case of PBFT, the
consistent hash ring, the wait-for-graph deadlock detector, dotted version vectors, hybrid logical clocks,
Merkle trees, bucketed anti-entropy trees, the gossip state store, ring election and the network partition
coordinator.

`dafny verify dfyconfig.toml` checks everything.

## How it is built

Each object of the source that updates its fields is a class whose methods do the same updates. Where theorems
speak about runs, every handler is also a function on the value of the object (`View()`), the class methods are
proved equal to these functions, and a step system is built from the functions:

| file | content |
|---|---|
| `Wrappers`, `StringOrder`, `SortedSets`, `Division` | results, string order, sorting of sets, quotient and remainder |
| `RaftLog`, `RaftNode` | log, storage, state machine and node: handler functions and the classes that carry them out |
| `RaftCluster` | nodes and messages as a step system with a history that no handler reads |
| `RaftInvariants`, `RaftFrame`, `RaftCompleteness`, `RaftSteps`, `RaftReplication` | the invariant and what each step does to it |
| `RaftSafety` | the cluster theorems, without compaction |
| `RaftProgress` | what the handlers achieve when messages arrive: elections won, followers repaired, entries committed |
| `RaftCompaction`, `RaftLife` | compaction on one node: which AppendEntries do harm; a whole life of a node that compacts |
| `RaftCompactedSafety` | the cluster theorems for nodes that compact, carried over from a shadow cluster that does not |
| `RaftPaths`, `RaftStaleReplies`, `RaftStaleAcks`, `RaftHarmfulAppend` | runs that break the theorems, one for each hypothesis |
| `PbftNode`, `PbftAgreement`, `PbftDelivery` | a replica; agreement among 3f+1 and who assigns slots; no lost trigger in any view |
| `HashRing`, `DeadlockDetector`, `DottedVersionVector`, `HybridClock`, `MerkleTree`, `AntiEntropy`, `GossipStore`, `RingElection`, `PartitionCoordinator` | one package each |

Three hypotheses come with the Raft cluster theorems, because the code needs them; for each there is a run that
obeys the others, takes a single step against it, and breaks a theorem.

- `raft_node.py` compares the term of a reply with its own, never the term of the request. So a vote may not decide
  an election in a later term than the one it was given for: `RaftStaleReplies` has two leaders in one term.
- Nor may a leader record an acknowledgement of an earlier term: in `RaftStaleAcks` two nodes apply different
  entries at the same index. Every other reply is free.
- Below its snapshot a log only guesses terms and cannot truncate. So a node may not accept an AppendEntries that
  starts at index 0, brings nothing new, and repeats a compacted entry of another term than the snapshot's. These are
  exactly the accepted requests that damage its log (`AppendIsHarmlessIff`), and in `RaftHarmfulAppend` one of them,
  delayed, leaves two nodes with different stores. Under this hypothesis the theorems hold for nodes that compact
  (`RaftCompactedSafety`); `RaftSafety` has them for nodes that never do, where it is void.

The code departs from its comments in places; the models follow the code. A follower commits
`min(leader_commit, len(log))`, not the index of the last new entry, and a candidate that receives an
AppendEntries of its own term stays a candidate. `anti_entropy.py` assumes a power of two of buckets in a comment;
every bucket count works. PBFT counts prepares from the primary and does not check who sent a pre-prepare;
agreement rests on the commit quorum alone. A hash ring lookup skips a point that lies exactly on the key's hash
if its node has the empty name.

## Model

| member | source | states |
|---|---|---|
| RaftLogs.StoreHoldsLastWrites | raft-from-scratch/src/state_machine.py:68-91 | applying a log leaves every key with its last write, and no key that was last deleted or never set |
| RaftLogs.RepliesTellLastWrites | raft-from-scratch/src/state_machine.py:68-91 | on the store of any log a read replies with the key's last write, a delete says whether there was one, and an unknown operation is refused by name |
| RaftLogs.KeyValueStateMachine.Apply | raft-from-scratch/src/state_machine.py:68-91 | a set stores and a delete removes exactly its key; a read returns the value held, a delete says whether the key was there, and reads and unknown operations leave the store as it is |
| RaftLogs.KeyValueStateMachine.Restore | raft-from-scratch/src/state_machine.py:97-99 | the store becomes the snapshot |
| RaftLogs.RaftLog.GetTerm | raft-from-scratch/src/log.py:47-59 | answers for every index up to the length, exactly above the snapshot and with the snapshot's term below it, and raises beyond |
| RaftLogs.RaftLog.GetItem | raft-from-scratch/src/log.py:36-45 | the entry at an absolute index, raising inside the snapshot and past the end |
| RaftLogs.RaftLog.Append | raft-from-scratch/src/log.py:61-64 | one entry more, on disk too |
| RaftLogs.RaftLog.GetEntries | raft-from-scratch/src/log.py:66-74 | the stored suffix from an absolute index, whatever the snapshot offset |
| RaftLogs.RaftLog.MatchLog | raft-from-scratch/src/log.py:89-102 | true iff the index is 0 or inside the log with that term |
| RaftLogs.RaftLog.Truncate | raft-from-scratch/src/log.py:76-87 | drops the entry and all after it, does nothing below the snapshot, and keeps disk and memory equal |
| RaftLogs.RaftLog.Compact | raft-from-scratch/src/log.py:104-122 | moves the offset, keeps the entries after it, saves the snapshot, and keeps disk and memory equal |
| RaftNodes.RaftNode.constructor | raft-from-scratch/src/raft_node.py:66-91 | a restart resumes from the durable term, vote, log and snapshot, with everything volatile forgotten |
| RaftNodes.RaftNode.DoStartElection | raft-from-scratch/src/raft_node.py:170-192 | a new term, a vote for itself saved before asking, and the request all peers get |
| RaftNodes.RaftNode.DoUpdateTerm | raft-from-scratch/src/raft_node.py:433-440 | a new term forgets the vote, is saved, and makes a follower |
| RaftNodes.RaftNode.DoVoteReply | raft-from-scratch/src/raft_node.py:194-231 | the vote set of the request's own election decides: more than half of all nodes make a leader with fresh peer indices; a reply from a newer term deposes |
| RaftNodes.RaftNode.DoBecomeLeader | raft-from-scratch/src/raft_node.py:218-231 | every peer starts behind the end of the log with nothing matched |
| RaftNodes.RaftNode.DoAppendRequest | raft-from-scratch/src/raft_node.py:242-261 | the whole suffix from the peer's next index with the commit index, or nothing when the previous entry is gone |
| RaftNodes.RaftNode.DoAppendReply | raft-from-scratch/src/raft_node.py:263-291 | a refusal in the leader's term takes a next index n > 1 to n - 1 and touches nothing else; a success moves match and next index, and the commit index to the greatest index a majority holds; a newer term deposes, in any role |
| RaftNodes.RaftNode.DoUpdateCommitIndex | raft-from-scratch/src/raft_node.py:293-315 | the sorted middle is the greatest index that more than half of the nodes hold, and it is committed only in the leader's own term |
| RaftNodes.MajorityMatchIsUnique | raft-from-scratch/src/raft_node.py:305-311 | there is only one index a majority holds while none holds the next |
| RaftNodes.RaftNode.DoSubmitCommand | raft-from-scratch/src/raft_node.py:317-345 | only a leader appends, at the end, in its term, and durably |
| RaftNodes.RaftNode.DoApplyCommitted | raft-from-scratch/src/raft_node.py:347-372 | applies one by one up to the commit index, compacting whenever the interval is reached |
| RaftNodes.RaftNode.DoCheckSnapshot | raft-from-scratch/src/raft_node.py:364-372 | compacts at the last applied entry iff the interval is reached |
| RaftNodes.RaftNode.DoHandleRequestVote | raft-from-scratch/src/raft_node.py:374-399 | refuses old terms, adopts new ones, and grants iff the vote is free or already the candidate's and its log is at least as fresh, saving the vote |
| RaftNodes.RaftNode.DoHandleAppendEntries | raft-from-scratch/src/raft_node.py:401-431 | consistency check, the merge loop, and commit up to the minimum of the leader's index and the log |
| RaftNodes.RaftNode.DoMergeEntries | raft-from-scratch/src/raft_node.py:415-425 | conflicting entries and all after them give way, matching ones stay, missing ones are appended |
| RaftSafety.StateMachineSafety | raft-from-scratch/src/raft_node.py:293-315 | no two nodes at any two moments of any run have applied different entries at one index |
| RaftSafety.ReplicasAgree | raft-from-scratch/src/raft_node.py:347-362 | nodes that have applied equally many entries have the same store, at whatever moments |
| RaftSafety.ElectionSafety | raft-from-scratch/src/raft_node.py:170-216 | no term ever has two leaders, crashes, restarts and duplicated messages included |
| RaftSafety.OneVotePerTerm | raft-from-scratch/src/raft_node.py:374-399 | a node votes for one candidate per term, itself included, over restarts too |
| RaftSafety.LogsMatch | raft-from-scratch/src/raft_node.py:411-425 | two logs that agree on the term at an index agree on everything up to it, across nodes and time |
| RaftSafety.LeadersHaveCommitted | raft-from-scratch/src/raft_node.py:384-397 | whatever any node has committed is in the log of every leader of a later term |
| RaftSafety.ShippedCommitIsCovered | raft-from-scratch/src/raft_node.py:248-261 | no AppendEntries carries a commit index beyond its own entries, so the follower's minimum commits only what it has just matched with the leader |
| RaftSafety.CommittedEntriesStay | raft-from-scratch/src/raft_node.py:415-429 | no step rewrites or truncates an entry at or below the commit index of its node |
| RaftSafety.RunsKeepInv | raft-from-scratch/src/raft_node.py:170-440 | the cluster invariant holds in every state of every run |
| RaftProgress.RefusalsLowerNext | raft-from-scratch/src/raft_node.py:284-287 | after k refusals in its term a leader's next index n for the peer is max(1, n - k), and nothing else has changed |
| RaftProgress.RefusalsEndAtTheBeginning | raft-from-scratch/src/raft_node.py:242-287 | within n - 1 refusals a leader that never compacted ships its whole log from index 0, and every follower of its term or an earlier one accepts |
| RaftProgress.LaggingFollowerIsRepaired | raft-from-scratch/src/raft_node.py:242-287 | where nothing was compacted and the logs match: calls are refused until the previous entry is the last one below the next index up to which the logs agree; the next call, the n-th at the latest, is accepted, and the follower's log begins with the leader's |
| RaftProgress.LeadersCanRepair | raft-from-scratch/src/raft_node.py:401-431 | in every run these hypotheses hold between a leader and every node of its term or an earlier one |
| RaftProgress.MajorityCommits | raft-from-scratch/src/raft_node.py:293-315 | after a recorded reply a new index is committed, and applied, iff it or a later one is held by more than half of all nodes and of the leader's own term |
| RaftProgress.CommitsByMajority | raft-from-scratch/src/raft_node.py:263-315 | so whenever a leader of any run records a reply |
| RaftProgress.AppliedAtOnce | raft-from-scratch/src/raft_node.py:347-362 | in every state of every run every node has applied all it has committed |
| RaftProgress.VotesAreRepeatable | raft-from-scratch/src/raft_node.py:374-399 | a repeated request for a vote gets the same answer and changes nothing |
| RaftProgress.FreshLogGetsVote | raft-from-scratch/src/raft_node.py:374-399 | a voter of no newer term whose log is no fresher grants, in the candidate's new term |
| RaftProgress.CandidateWinsIff | raft-from-scratch/src/raft_node.py:170-231 | a candidate with the votes of k > 0 different peers leads iff k + 1 is more than half of all nodes, and then every peer's next index is past the end of its log with nothing matched; without peers it never leads |
| RaftCompleteness.CommittedPrefixesAgree | raft-from-scratch/src/raft_node.py:313-315 | any two committed prefixes agree as far as both go |
| RaftCompleteness.LeaderCompleteness | raft-from-scratch/src/raft_node.py:384-399 | a committed prefix is part of the log every later term's leader was elected with |
| RaftStaleReplies.StaleVoteElectsTwoLeaders | raft-from-scratch/src/raft_node.py:202-213 | three fresh nodes can get, by allowed steps but for one stale vote, to two leaders in one term |
| RaftStaleAcks.StaleAckBreaksSafety | raft-from-scratch/src/raft_node.py:268-287 | for every snapshot interval from three on there is a run, of allowed steps but for one stale acknowledgement, that ends with two nodes that have applied different entries at index 2 and hold different stores |
| RaftStaleAcks.FiveNodesDiverge | raft-from-scratch/src/raft_node.py:268-287 | any five fresh nodes can get there, by an acknowledgement of term 1 that is recorded in term 3 |
| RaftLives.CompactionIsTransparent | raft-from-scratch/src/raft_node.py:170-440 | from a fresh node on, over any sequence of timeouts, votes, replies to its own requests, submissions, harmless AppendEntries and restarts, as follower, candidate and leader: the store is the fold of the whole log up to the last applied entry, the stored entries are its suffix, and fewer than the interval of applied entries remain |
| RaftLives.SnapshotsComeByInterval | raft-from-scratch/src/raft_node.py:347-372 | after any such life the snapshot ends at the last multiple of the interval that was applied, neither earlier nor later |
| RaftLives.LeaderCompactsItsEntry | raft-from-scratch/src/raft_node.py:317-372 | one such life: a node is elected, submits an entry, commits, applies and compacts it, and follows another leader |
| RaftCompaction.AppendIsHarmlessIff | raft-from-scratch/src/raft_node.py:401-431 | an AppendEntries that does not contradict what is committed leaves the node standing for its whole log iff it is refused, or every shipped entry inside the snapshot has the snapshot's term, or it brings something new; from a previous index above 0 it always does; otherwise the log grows though nothing new was shipped |
| RaftCompaction.AppendAgrees | raft-from-scratch/src/raft_node.py:401-431 | a harmless AppendEntries, below the snapshot or not, is accepted only where a node that never compacts accepts it, and ends in the same state |
| RaftCompaction.VoteAgrees | raft-from-scratch/src/raft_node.py:384-399 | votes do not depend on compaction |
| RaftCompaction.ShippingAgrees | raft-from-scratch/src/raft_node.py:248-261 | a leader ships what it would ship without compaction, or nothing |
| RaftCompaction.ApplyAgrees | raft-from-scratch/src/raft_node.py:364-372 | applying with snapshots on the way ends like applying without |
| RaftCompaction.RepeatCorruptsCompactedLog | raft-from-scratch/src/log.py:76-82 | a call of the handler after which a wholly compacted log holds its first entry a second time, and one whose new entry overwrites that copy |
| RaftCompactedSafety.StoresFollowOneLog | raft-from-scratch/src/raft_node.py:347-372 | in every run of nodes that compact, without harmful AppendEntries: of two nodes at any two moments, the one that has applied less has the store of a prefix of what the other has applied |
| RaftCompactedSafety.CompactedReplicasAgree | raft-from-scratch/src/raft_node.py:347-372 | so nodes that have applied equally many entries have the same store |
| RaftCompactedSafety.CompactedStateMachineSafety | raft-from-scratch/src/raft_node.py:293-315 | applied entries that two nodes still store at an index are the same |
| RaftCompactedSafety.CompactedElectionSafety | raft-from-scratch/src/raft_node.py:170-216 | no term ever has two leaders |
| RaftCompactedSafety.CompactedLeadersHaveCommitted | raft-from-scratch/src/raft_node.py:384-397 | a leader of a later term reaches as far as what any node has committed, and has the same entries as far as both still store them |
| RaftCompactedSafety.RunIsShadowed | raft-from-scratch/src/raft_node.py:170-440 | every such run has a shadow of nodes with their whole logs, each the node had it never compacted, in which the cluster invariant holds and the history grows |
| RaftCompactedSafety.RequestIsHonest | raft-from-scratch/src/raft_node.py:248-261 | no leader of a node's term or a later one ships anything against what the node has committed |
| RaftHarmfulAppend.HarmfulAppendBreaksAgreement | raft-from-scratch/src/raft_node.py:415-425 | for every snapshot interval from two on, three nodes can get, by allowed steps but for one harmful AppendEntries that arrives late, to where two of them have applied equally many entries and hold different stores |
| PbftNodes.PbftNode.DoHandleRequest | byzantine-consensus/src/pbft/node.py:194-224 | the primary, whose id is the view's remainder by the size of the group, assigns the next number, logs and broadcasts it; any other replica does nothing |
| PbftNodes.PbftNode.DoHandlePrePrepare | byzantine-consensus/src/pbft/node.py:229-260 | first pre-prepare of its view and slot only: stored, answered with a PREPARE, own vote counted |
| PbftNodes.PbftNode.DoHandlePrepare | byzantine-consensus/src/pbft/node.py:262-288 | a vote of the view is stored even before the pre-prepare, and counts when its digest matches it |
| PbftNodes.PbftNode.DoCheckPrepared | byzantine-consensus/src/pbft/node.py:290-323 | 2f matching votes prepare a slot once and send its one COMMIT |
| PbftNodes.PbftNode.DoHandleCommit | byzantine-consensus/src/pbft/node.py:325-340 | likewise for COMMITs |
| PbftNodes.PbftNode.DoHandleNewView | byzantine-consensus/src/pbft/node.py:187-192 | any view is adopted unverified |
| PbftNodes.PbftNode.DoCheckCommitted | byzantine-consensus/src/pbft/node.py:342-357 | a prepared slot with 2f+1 matching votes is decided once |
| PbftAgreement.Agreement | byzantine-consensus/src/pbft/node.py:290-357 | with n = 3f+1 and at most f Byzantine members no two honest replicas decide different digests for a slot, at any moments, over arbitrary view jumps |
| PbftAgreement.CommittedIsCertified | byzantine-consensus/src/pbft/node.py:342-357 | what an honest replica has committed is vouched for by COMMITs of 2f+1 different members |
| PbftAgreement.CertificatesMeet | byzantine-consensus/src/pbft/node.py:352-354 | any two certificates share an honest member |
| PbftAgreement.RunsKeepInv | byzantine-consensus/src/pbft/node.py:187-357 | an honest replica has sent at most one COMMIT per slot, and its decisions are certified, in every state of every run |
| PbftAgreement.PrimariesAssign | byzantine-consensus/src/pbft/node.py:57-61 | in every run, through all view jumps, an honest replica has assigned slots only of views whose remainder by n is its id, so no two assign in one view, and it assigns no number twice |
| PbftAgreement.RequestAssigns | byzantine-consensus/src/pbft/node.py:194-227 | a request at the primary of the replica's view adds exactly one PRE-PREPARE, of that view and with a number it never used; at any other replica it changes nothing |
| PbftDelivery.QuietGroupHasCommitted | byzantine-consensus/src/pbft/node.py:229-357 | in a fault-free group of two or more, in its first view or any other, once everything sent is delivered in any order, every number the primary assigned is committed everywhere with the primary's digest |
| PbftDelivery.LoneReplicaNeverCommits | byzantine-consensus/src/pbft/node.py:194-227 | a group of one never prepares anything |
| PbftDelivery.RunsKeepLive | byzantine-consensus/src/pbft/node.py:262-340 | a slot waits only while a quorum is missing, whatever arrived before the pre-prepare |
| HashRings.ConsistentHashRing.constructor | consistent-hashing/src/consistent_hash.py:59-81 | the ring of the initial nodes, repeated ones once |
| HashRings.ConsistentHashRing.AddNode | consistent-hashing/src/consistent_hash.py:88-114 | the ring stays the sorted multiset of the members' points, of which the node has virtual_nodes times its weight, 1 where none is given; adding a member again changes nothing |
| HashRings.ConsistentHashRing.RemoveNode | consistent-hashing/src/consistent_hash.py:116-136 | the ring loses exactly the leaver's points |
| HashRings.ConsistentHashRing.GetNode | consistent-hashing/src/consistent_hash.py:138-162 | the node of the first point of the rotation, which no other point precedes going up from the key and round the end; none on an empty ring |
| HashRings.ConsistentHashRing.GetNodes | consistent-hashing/src/consistent_hash.py:164-206 | the distinct names met once round the ring, cut to the count |
| HashRings.BisectRight | consistent-hashing/src/consistent_hash.py:156 | binary search finds the one place where the points stop being at most the key |
| HashRings.Insort | consistent-hashing/src/consistent_hash.py:111 | one point more, in order |
| HashRings.MembersDetermineRing | consistent-hashing/src/consistent_hash.py:88-136 | after any history the members alone determine the ring, collisions included |
| HashRings.PointsByWeight | consistent-hashing/src/consistent_hash.py:83-114 | a member has exactly virtual_nodes times its weight points on the ring, none for a negative product, and nobody else has any |
| HashRings.VirtualNamesAreUnique | consistent-hashing/src/consistent_hash.py:100-103 | no name is hashed twice, neither for one node nor for two |
| HashRings.DecimalReadsBack | consistent-hashing/src/consistent_hash.py:101 | numbers are written in digits that read back as the number, without zeros in front |
| HashRings.RemovalShiftsReplicas | consistent-hashing/src/consistent_hash.py:128-131 | after removing x the replicas of any key are the old ones for one more, without x, cut to the count |
| HashRings.RemovalMovesOnlyItsKeys | consistent-hashing/src/consistent_hash.py:128-131 | a key x did not own keeps its owner |
| HashRings.AdditionMovesKeysToNewcomer | consistent-hashing/src/consistent_hash.py:100-112 | after adding x every key keeps its owner or moves to x, and its old replicas are the new ones without x |
| HashRings.ReplicasAreDistinctNodes | consistent-hashing/src/consistent_hash.py:168-206 | replicas are distinct nodes of the ring, as many as asked for if there are so many |
| HashRings.OwnerIsFirstReplica | consistent-hashing/src/consistent_hash.py:155-162 | `get_node` is the head of `get_nodes` |
| HashRings.ReplicasAreNearest | consistent-hashing/src/consistent_hash.py:180-206 | each replica has a point no later, going up from the key and round the end, than every point of the nodes that are not among the replicas before it |
| HashRings.SearchFindsSuccessorIff | consistent-hashing/src/consistent_hash.py:155-156 | the search starts at the first point at or after the key iff no node with the empty name lies exactly on it |
| HashRings.EmptyNameIsPassedBy | consistent-hashing/src/consistent_hash.py:105-112 | on every ring of which the node with the empty name is a member, the key ":0" misses the first point at or after it, which is that node's own |
| HashRings.EmptyNameLosesItsKey | consistent-hashing/src/consistent_hash.py:155-162 | on such a ring of two members the key goes to the other one |
| DeadlockDetectors.DeadlockDetector.BuildGraph | distributed-locks/src/deadlock_detector.py:86-98 | an edge iff a process waits for a resource another process holds |
| DeadlockDetectors.HasCycleFrom | distributed-locks/src/deadlock_detector.py:100-114 | the first search reports only real cycles and leaves finished nodes in an order without back edges; it terminates |
| DeadlockDetectors.CycleFrom | distributed-locks/src/deadlock_detector.py:144-165 | the second search returns a cycle of distinct nodes, or finishes like the first |
| DeadlockDetectors.DeadlockDetector.HasCycle | distributed-locks/src/deadlock_detector.py:78-121 | true iff there is a deadlock |
| DeadlockDetectors.DeadlockDetector.GetDeadlockCycle | distributed-locks/src/deadlock_detector.py:123-171 | non-empty iff there is a deadlock, and then two or more distinct processes each waiting for a resource the next one holds |
| DeadlockDetectors.DeadlockDetector.ChooseDeadlockVictim | distributed-locks/src/deadlock_detector.py:173-181 | a member of a deadlock, and none only when there is no deadlock |
| DeadlockDetectors.AllFinishedIsAcyclic | distributed-locks/src/deadlock_detector.py:113-121 | a finishing order that covers every waiting process excludes cycles |
| DeadlockDetectors.DeadlockDetector.LockOrderPreventsDeadlock | distributed-locks/src/deadlock_detector.py:183-188 | where processes wait only above what they hold in one order, there is no deadlock |
| DeadlockDetectors.DeadlockDetector.RecordLockOrder | distributed-locks/src/deadlock_detector.py:33-50 | holder and holding change for that resource, its wait ends, and no empty set stays |
| DeadlockDetectors.DeadlockDetector.RecordWait | distributed-locks/src/deadlock_detector.py:52-59 | one wait more |
| DeadlockDetectors.DeadlockDetector.ReleaseLock | distributed-locks/src/deadlock_detector.py:61-72 | only the holder frees a resource, and what is recorded as held is being held |
| DeadlockDetectors.DeadlockDetector.DeadlockedProcessesHoldAndWait | distributed-locks/src/deadlock_detector.py:33-50 | in a deadlock each process is recorded as holding what the one before it waits for, and as waiting for what the next one holds |
| DottedVersionVectors.DottedVersionVector.Increment | vector-clocks-advanced/src/vector_clock_advanced.py:42-69 | adds exactly one event; on a canonical vector a plain increment always a fresh one, in general iff there is no dot for it; refused times change nothing |
| DottedVersionVectors.SameTimeTwice | vector-clocks-advanced/src/vector_clock_advanced.py:54-57 | past a gap the same time can be given twice, for two events |
| DottedVersionVectors.LoadVector | vector-clocks-advanced/src/vector_clock_advanced.py:210-215 | takes over clock and dots as they are; an actor without a name is refused |
| DottedVersionVectors.NewVector | vector-clocks-advanced/src/vector_clock_advanced.py:30-35 | an actor without a name is refused; a new vector knows no event |
| DottedVersionVectors.DottedVersionVector.Event | vector-clocks-advanced/src/vector_clock_advanced.py:71-77 | adds an event to what both vectors knew; after a merge one that neither knew, without a merge iff the vector has no dot right above its clock, as no canonical one has |
| DottedVersionVectors.DottedVersionVector.Merge | vector-clocks-advanced/src/vector_clock_advanced.py:79-97 | of any two vectors, loaded ones included: the events known are the union, in canonical form |
| DottedVersionVectors.DottedVersionVector.CompactDots | vector-clocks-advanced/src/vector_clock_advanced.py:99-145 | keeps the set of events and leaves a canonical vector |
| DottedVersionVectors.ExtendedMax | vector-clocks-advanced/src/vector_clock_advanced.py:115-138 | the scan of sorted dots finds how far they extend the clock without a gap |
| DottedVersionVectors.CompactionKeepsPast | vector-clocks-advanced/src/vector_clock_advanced.py:143-145 | dropping covered dots after extending loses and invents no event |
| DottedVersionVectors.CanonicalIsUnique | vector-clocks-advanced/src/vector_clock_advanced.py:99-145 | canonical vectors with the same events have the same dots and the same clocks, up to zeros |
| DottedVersionVectors.Vector.Past | vector-clocks-advanced/src/vector_clock_advanced.py:334-335 | an event is in the causal past iff it is a dot or not above the clock |
| DottedVersionVectors.DottedVersionVector.IsSubset | vector-clocks-advanced/src/vector_clock_advanced.py:147-171 | decides inclusion of the sets of events, for loaded vectors too |
| DottedVersionVectors.DottedVersionVector.HappensBefore | vector-clocks-advanced/src/vector_clock_advanced.py:173-188 | decides strict inclusion |
| DottedVersionVectors.DottedVersionVector.Concurrent | vector-clocks-advanced/src/vector_clock_advanced.py:190-191 | decides incomparability |
| DottedVersionVectors.DottedVersionVector.Equals | vector-clocks-advanced/src/vector_clock_advanced.py:199-200 | decides equality of the sets of events |
| DottedVersionVectors.EventsAreIssuedOnce | vector-clocks-advanced/src/vector_clock_advanced.py:42-97 | over any run of replicas with gaps, merges and compactions, an event is unknown everywhere when issued iff the replica has no dot for it, as always for a plain increment; and it is issued again only with an explicit time past a gap for which the replica has a dot |
| HybridClocks.HybridLogicalClock.Now | clock-skew-simulator/src/hybrid_clock.py:78-95 | the clock after a local event or send |
| HybridClocks.HybridLogicalClock.Receive | clock-skew-simulator/src/hybrid_clock.py:115-145 | the clock after a receipt |
| HybridClocks.Tick | clock-skew-simulator/src/hybrid_clock.py:85-95 | later than before, with the larger of clock and reading, the logical part zero or one more |
| HybridClocks.Merge | clock-skew-simulator/src/hybrid_clock.py:125-145 | later than clock and message, with the largest physical part, the logical part zero or one more than one of the two |
| HybridClocks.HappensBeforeIsLess | clock-skew-simulator/src/hybrid_clock.py:30-36 | in every run, an event that happens before another has the smaller timestamp, whatever the physical clocks read |
| HybridClocks.LogicalCountsChain | clock-skew-simulator/src/hybrid_clock.py:86-95 | a logical part k comes from a causal chain with this physical part throughout and logical parts counting up to k |
| HybridClocks.NoLongerChain | clock-skew-simulator/src/hybrid_clock.py:130-143 | and no causal chain with this physical part is longer |
| HybridClocks.PhysicalIsLatestReading | clock-skew-simulator/src/hybrid_clock.py:127-143 | the physical part is the largest reading in the causal past, or zero where none is positive |
| MerkleTrees.BuildTree | merkle-trees/src/merkle_tree.py:87-112 | the bottom-up build keeps all leaves in order, with right hashes and widths |
| MerkleTrees.ParentLevel | merkle-trees/src/merkle_tree.py:100-110 | neighbours are paired and an odd last node is promoted |
| MerkleTrees.NewTree | merkle-trees/src/merkle_tree.py:74-85 | a tree over the blocks whose root is their `TreeHash`; refused for none |
| MerkleTrees.BuildSplits | merkle-trees/src/merkle_tree.py:87-112 | pairing bottom-up with promotion is splitting top-down at the largest power of two below the count |
| MerkleTrees.RootIsTreeHash | merkle-trees/src/merkle_tree.py:87-112 | so the root hash is a function of the blocks alone: the hash of the two parts' hashes, left before right |
| MerkleTrees.EqualCountsSameShape | merkle-trees/src/merkle_tree.py:100-112 | equally many blocks give the same shape, odd promotion included |
| MerkleTrees.DiffRecursive | merkle-trees/src/merkle_tree.py:245-273 | every reported difference is real for any hash; without collisions all are reported |
| MerkleTrees.Diff | merkle-trees/src/merkle_tree.py:228-243 | equals the plain scan of the blocks without collisions among the strings hashed; unequal counts are refused |
| MerkleTrees.EqualHashesEqualLeaves | merkle-trees/src/merkle_tree.py:253-255 | equal hashes at the same place mean equal leaves |
| MerkleTrees.ScanIsExact | merkle-trees/src/merkle_tree.py:228-237 | the plain scan is the list of differing positions with both values, ascending |
| MerkleTrees.GenerateProof | merkle-trees/src/merkle_tree.py:140-199 | fails iff the element is not in the tree; the proof is the audit path of its first occurrence, climbs to the root and is logarithmically short |
| MerkleTrees.ProofIsAuditPath | merkle-trees/src/merkle_tree.py:164-199 | the proof holds, from the bottom up, the hash of the part the block is not in, on the side where that part lies |
| MerkleTrees.GetProofRecursive | merkle-trees/src/merkle_tree.py:164-199 | the siblings from the leaf up, found by widths |
| MerkleTrees.ProofClimbsToRoot | merkle-trees/src/merkle_tree.py:164-226 | for any hash function the proof of any leaf leads to the root's hash |
| MerkleTrees.ProofsAreShort | merkle-trees/src/merkle_tree.py:100-112 | a proof of k > 0 steps in a tree of n blocks has 2^(k-1) < n |
| MerkleTrees.VerifyProof | merkle-trees/src/merkle_tree.py:201-226 | accepts iff climbing along the proof arrives at the root hash |
| MerkleTrees.AcceptedIsHashed | merkle-trees/src/merkle_tree.py:214-226 | without collisions an accepted element is a block or two sibling hashes in a row, unless some step of the climb hashes a block |
| MerkleTrees.HashedIsAccepted | merkle-trees/src/merkle_tree.py:214-226 | conversely every string hashed in the tree has an accepted proof, inner nodes included, for any hash; its steps are hashes of the tree, and the climb hashes nothing else |
| MerkleTrees.PassesIffHashed | merkle-trees/src/merkle_tree.py:202-226 | without collisions, with steps as long as hashes and no block as long as two of them: some proof of a string is accepted iff the string is hashed in the tree |
| MerkleTrees.OnlyBlocksPassIff | merkle-trees/src/merkle_tree.py:202-226 | there, every accepted element is a block iff there is only one block |
| MerkleTrees.AcceptedIsBlock | merkle-trees/src/merkle_tree.py:202-226 | there, an accepted element that is not as long as two hashes is a block |
| MerkleTrees.InnerNodePassesForElement | merkle-trees/src/merkle_tree.py:214-226 | the two leaf hashes of a two-block tree in a row are accepted with the empty proof |
| MerkleTrees.BlockPassesForStep | merkle-trees/src/merkle_tree.py:214-226 | where the only block ends in the hash of another string, that string is accepted with one step |
| AntiEntropyTrees.MerkleTree.Build | eventual-consistency-patterns/eventual_consistency/anti_entropy.py:26-55 | every key's entry is in the bucket its key's hash leaves as remainder; on empty buckets: every key in its bucket, buckets sorted, leaves and heap nodes hashed, for any bucket count and the empty store; built again: the entries join those already there, still each in its bucket, and leaves and heap nodes are the hashes of the result |
| AntiEntropyTrees.SameBucketIff | eventual-consistency-patterns/eventual_consistency/anti_entropy.py:19-20 | two keys share a bucket iff their hashes differ by a multiple of the number of buckets |
| AntiEntropyTrees.MerkleTree.AssignToBuckets | eventual-consistency-patterns/eventual_consistency/anti_entropy.py:27-30 | every key's entry, with the hash of its value, is added to its bucket exactly once, whatever the buckets hold |
| AntiEntropyTrees.MerkleTree.HashBuckets | eventual-consistency-patterns/eventual_consistency/anti_entropy.py:32-40 | buckets are sorted by key and hashed |
| AntiEntropyTrees.MerkleTree.BuildUp | eventual-consistency-patterns/eventual_consistency/anti_entropy.py:42-55 | every heap node has both children and is the hash of left and right in a row, down to the root |
| StringOrder.LessIsByFirstDifference | eventual-consistency-patterns/eventual_consistency/anti_entropy.py:35 | the order keys and node ids are compared in: one string is less than another iff at the first difference it ends or has the smaller character |
| AntiEntropyTrees.CompareRecursive | eventual-consistency-patterns/eventual_consistency/anti_entropy.py:73-94 | adds, without duplicates and for any hash, only keys of leaves below the node with different hashes, and all of those without collisions |
| AntiEntropyTrees.CompareTrees | eventual-consistency-patterns/eventual_consistency/anti_entropy.py:61-71 | of trees built any number of times or never, for every bucket count and any hash: only keys of buckets with different texts, and nothing where the root hashes are equal; without collisions exactly those keys. Of trees built at most once these are keys of buckets on which the stores differ, and all of them iff no two different buckets at one place have the same text. Unequal counts are refused |
| AntiEntropyTrees.CompleteIffLegible | eventual-consistency-patterns/eventual_consistency/anti_entropy.py:37-40 | the keys of buckets with different texts are all keys of buckets on which the stores differ iff different buckets have different texts |
| AntiEntropyTrees.ColonFreeIsLegible | eventual-consistency-patterns/eventual_consistency/anti_entropy.py:38-39 | as they have where no key contains a colon |
| AntiEntropyTrees.CoversSplits | eventual-consistency-patterns/eventual_consistency/anti_entropy.py:42-55 | below an inner heap node every leaf is on exactly one side, however many leaves there are |
| AntiEntropyTrees.TextDeterminesBucket | eventual-consistency-patterns/eventual_consistency/anti_entropy.py:37-40 | colon-free keys and hashes of one length can be read back from a bucket's text |
| AntiEntropyTrees.ColonKeysAreAmbiguous | eventual-consistency-patterns/eventual_consistency/anti_entropy.py:38-39 | with colons in keys two different stores have the same bucket text, for any hash |
| AntiEntropyTrees.ColonKeysFoolComparison | eventual-consistency-patterns/eventual_consistency/anti_entropy.py:73-78 | so two trees of such stores have the same root and are not told apart |
| AntiEntropyTrees.EqualBucketsAgree | eventual-consistency-patterns/eventual_consistency/anti_entropy.py:22-30 | without collisions equal bucket entries mean the same keys and values |
| AntiEntropyTrees.AgreeingBucketsEqual | eventual-consistency-patterns/eventual_consistency/anti_entropy.py:27-35 | the same keys and values mean equal bucket entries, in whatever order they were inserted, for any hash |
| AntiEntropyTrees.AgreeingLeavesEqual | eventual-consistency-patterns/eventual_consistency/anti_entropy.py:34-40 | and so equal bucket hashes |
| GossipStores.StateStore.Set | gossip-protocol/src/state_store.py:36-48 | writes an entry newer than the one it replaces |
| GossipStores.StateStore.Delete | gossip-protocol/src/state_store.py:50-65 | writes a newer tombstone, or nothing where there is nothing alive |
| GossipStores.StateStore.Merge | gossip-protocol/src/state_store.py:67-89 | the newer of the two entries stays, and a read of its key tells its value, or nothing for a tombstone, whichever node wrote it |
| GossipStores.StateStore.MergeEntries | gossip-protocol/src/gossip_node.py:226-235 | a pushed list is merged one by one; a read then tells the value of an entry that is newer than all others of its key |
| GossipStores.StateStore.GetDelta | gossip-protocol/src/state_store.py:99-107 | the entries of greater version than the digest's |
| GossipStores.StateStore.GetAllEntries | gossip-protocol/src/state_store.py:91-93 | a list of exactly the entries held |
| GossipStores.MergingJoins | gossip-protocol/src/state_store.py:67-89 | merging any list, in any order and multiplicity, leaves the newest entry per key |
| GossipStores.NewestStays | gossip-protocol/src/state_store.py:67-89 | wherever in the list the newest entry of a key comes, it is the one held afterwards |
| GossipStores.SameEntriesSameStore | gossip-protocol/src/state_store.py:67-89 | stores that merged the same entries are equal |
| GossipStores.OrderIsIrrelevantIff | gossip-protocol/src/state_store.py:67-89 | all orders and repetitions of a set of entries lead from a store to the same one iff of entries that share key, version and node each is beaten by a newer one of the set, or does not beat the one the store holds |
| GossipStores.TiedTwinsAreHarmless | gossip-protocol/src/state_store.py:75-87 | entries that only tie with the one held make no difference |
| GossipStores.KeptOrNewer | gossip-protocol/src/state_store.py:75-87 | whatever is merged, the entry of a key stays or gives way to a newer one |
| GossipStores.PushJoins | gossip-protocol/src/gossip_node.py:179-205 | a full push leaves the receiver at the join of both stores, and a push back makes them equal |
| GossipStores.PullJoinsIff | gossip-protocol/src/gossip_node.py:207-224 | a pull reaches the join iff no key is held in equal versions of which the peer's has the greater node id |
| GossipStores.SeenDeterminesStore | gossip-protocol/src/state_store.py:36-89 | in every run without restarts entries are unique per key, version and node, and nodes that saw the same entries hold the same store |
| GossipStores.PushSharesAllSeen | gossip-protocol/src/gossip_node.py:179-205 | a full push in a run leaves the receiver as if it had seen all the sender has seen |
| RingElections.RingElection.constructor | leader-election/src/ring_algorithm.py:54-66 | every node computes the same sorted ring and its successor in it |
| RingElections.RingElection.DoStartElection | leader-election/src/ring_algorithm.py:108-129 | a node not in an election sends itself as the only candidate, or leads at once when alone |
| RingElections.RingElection.DoStart | leader-election/src/ring_algorithm.py:80-97 | a node that starts and knows no leader initiates an election at once; starting twice does nothing |
| RingElections.RingElection.DoStop | leader-election/src/ring_algorithm.py:99-106 | a node that stops no longer leads and keeps what it knows |
| RingElections.RingElection.DoHandleElection | leader-election/src/ring_algorithm.py:153-182 | a node in the list ends the election with the maximum, any other joins and passes the list on |
| RingElections.RingElection.DoHandleElected | leader-election/src/ring_algorithm.py:184-209 | the result is adopted and passed on until it is back at its sender |
| RingElections.OwnIdMeansFullCircle | leader-election/src/ring_algorithm.py:169-171 | a node finds itself in the list only after a full circle, and then the maximum is the greatest id of all |
| RingElections.OneLeader | leader-election/src/ring_algorithm.py:153-226 | in every run, with messages late, lost, duplicated or reordered, a known leader is the greatest id and at most one node leads |
| RingElections.ElectionsAreShort | leader-election/src/ring_algorithm.py:34-44 | an initiated election sends at most 2N messages, in every run in which no message is duplicated |
| RingElections.DeliveryUsesOne | leader-election/src/ring_algorithm.py:180-209 | every message uses up one of those its predecessor could still cause |
| RingElections.QuietRingKnowsLeader | leader-election/src/ring_algorithm.py:169-209 | where all nodes run from the start and none stops, and no message is lost or duplicated: once an election was initiated and no message is left, all nodes know the leader and exactly it leads |
| PartitionCoordinators.PartitionCoordinator.CreatePartition | network-partition-tester/src/partition_coordinator.py:84-137 | refused iff a node is unknown or named twice; otherwise exactly the entries between groups go off |
| PartitionCoordinators.PartitionCoordinator.Validate | network-partition-tester/src/partition_coordinator.py:104-112 | the groups are valid iff all nodes are known and none is named twice |
| PartitionCoordinators.ApplyPartition | network-partition-tester/src/partition_coordinator.py:139-149 | the nested loops switch off exactly the pairs the groups separate |
| PartitionCoordinators.PartitionCoordinator.HealPartition | network-partition-tester/src/partition_coordinator.py:151-185 | the healed partitions no longer count, overlapping ones and crashes still do |
| PartitionCoordinators.PartitionCoordinator.CrashNode | network-partition-tester/src/partition_coordinator.py:187-208 | cuts off the node's row and column |
| PartitionCoordinators.PartitionCoordinator.RecoverNode | network-partition-tester/src/partition_coordinator.py:210-235 | reconnects the node as far as the partitions in force allow |
| PartitionCoordinators.PartitionCoordinator.CanCommunicate | network-partition-tester/src/partition_coordinator.py:237-252 | after any history: different, known, not crashed, and not separated by a partition in force |
| PartitionCoordinators.PartitionCoordinator.GetReachableNodes | network-partition-tester/src/partition_coordinator.py:254-268 | exactly the nodes that can be communicated with |
| PartitionCoordinators.PartitionCoordinator.AutoHeal | network-partition-tester/src/partition_coordinator.py:270-278 | a partition in force is over after a sweep iff it heals itself, has a duration other than 0, and createdAt plus the duration is not after the time of the sweep; nothing else changes |
| PartitionCoordinators.SweepsGoByTime | network-partition-tester/src/partition_coordinator.py:34-41 | after sweeps at any times, in any order, a partition has ended iff it was to end by the time of one of them: none comes back |
| PartitionCoordinators.NothingOutlivesItsDeadline | network-partition-tester/src/partition_coordinator.py:270-278 | after a sweep at or past every deadline no partition that heals itself is in force |
| PartitionCoordinators.RecoveryLeavesStaleEntries | network-partition-tester/src/partition_coordinator.py:223-228 | the matrix alone can be on toward a crashed node |

## Left out

- Threads, timers, locks, sockets, pickling, JSON, logging and callbacks: handlers are atomic steps, time and randomness are inputs.
- Durable writes of one handler are atomic: a crash between the two writes of `RaftLog.compact` is not modelled.
- Raft: client futures, `read_state`, membership change and InstallSnapshot (which the source does not have); `CounterStateMachine`; a command without its key.
- Raft liveness: elections may fail for ever; `RaftProgress` says what comes of messages that arrive.
- RaftProgress.LaggingFollowerIsRepaired: between nodes that have compacted nothing. Below a snapshot terms are guessed, and a leader whose previous entry is inside its snapshot sends nothing for ever; for a follower that has compacted, `RefusalsEndAtTheBeginning` still holds.
- `votes_received`, one set per started election in the source, is one set per term of the node; a node starts one election per term.
- Raft with compaction: what becomes of a cluster after a harmful AppendEntries, apart from the run that shows the harm.
- RaftNodes.RaftNode.DoUpdateCommitIndex: the IndexError of an index past the end of the log, which a worker swallows, shows as no change.
- PBFT: request bodies, client replies, execution bookkeeping, `status`, the view-change log and safety across views; a NEW_VIEW is an arbitrary view jump.
- PBFT: delivery inside a broadcast, as the in-memory network does it, where a handler runs in the middle of another one.
- PbftDelivery.QuietGroupHasCommitted: for a group that has assigned nothing before the view it is in.
- PBFT group sizes other than 3f+1 for agreement; the delivery theorem holds for every size from two on.
- HashRings.ConsistentHashRing.AddNode: `hash_to_node` is not modelled, no lookup reads it; the weights do not change while the ring lives.
- Node metadata and distribution statistics of the hash ring.
- `acquire_with_timeout` of the deadlock detector; the lock order is a hypothesis of a theorem, the code only stores it.
- DottedVersionVectors.EventsAreIssuedOnce: replicas start empty; a loaded vector may already have a dot right above its clock, and then even a plain increment repeats it. Loaded clocks count from 0 and dots from 1. Interval tree clocks.
- MerkleTrees.Diff: elements are strings, so different objects with equal text are not modelled; `verify` of a tree.
- AntiEntropyTrees.CompareTrees: completeness assumes no collisions among the strings hashed in the two trees.
- MD5 and SHA-256 are arbitrary functions; collision-freeness is a hypothesis on the strings actually hashed.
- Gossip membership, failure detection and subscribers; stores that restart with old node ids.
- Ring election: ids are numbers, of which only the order matters; a node that knows a different set of nodes.
- Partition ids are numbers; the empty id, which heals everything like no id, is no id.
- Latency, packet loss and the cluster assertions of the partition coordinator.
- Bully and lease elections, two-phase commit, quorums, CRDTs, rate limiters, Bloom filters, Lamport and plain vector clocks, phi detector, Redlock: easier than the above or without a stable invariant.
