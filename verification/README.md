# Verified models of skylu

Dafny models of the stateful parts of the skylu library and of its example servers, with proofs of
what they keep over whole runs:

| file | what it models |
|---|---|
| `RaftElection.dfy` | leader election of the Raft node, as steps of any number of nodes over a network that loses, repeats and reorders messages |
| `RaftLog.dfy` | the node's log: a ring of entries with compaction to a snapshot, and the rule by which entries become applicable |
| `BTreeModel.dfy`, `BTree.dfy` | the B-tree, as a value and as mutable nodes with key and pointer arrays, for any minimum degree m of at least 2 (the code has 2) |
| `BPlusTree.dfy` | insertion into the B+-tree with its circular chain of leaves |
| `ShamQueue.dfy` | the queue in shared memory: three semaphores, any number of writers, one reader |
| `MqCodec.dfy`, `NetBuffer.dfy` | the packets of the message queue, their framing in a byte stream, and the buffer they pass through |
| `Partition.dfy` | the broker's segmented log with its sparse index, its recovery scan and the slice a pull sends |
| `ShamPool.dfy`, `ShamHash.dfy` | the block allocator in shared memory and the map on top of it |
| `Delivery.dfy` | producer, broker and consumer together: resending until acknowledged, dropping duplicates, committing offsets |
| `Snowflake.dfy` | the generator of message ids |
| `RingIndex.dfy`, `Wrappers.dfy` | remainders, shared by the ring structures; types and a predicate that several files share |

Each part is a state machine or a set of functions on values, with lemmas over every input or every
run, and, where the code changes things in place, a class whose methods are proved to compute those
functions. `dafny verify dfyconfig.toml` checks everything.

Where the code does not do what one would expect of it, the model follows the code:

- In a cluster of odd size, at least three, two nodes can be elected in one term, one after the other:
  a candidate's vote for itself is not recorded, so a leader that steps down on an equal-term claim may
  vote in the term it led (`RaftElection.ElectionSafetyFails`). In the other clusters this cannot happen
  (`ElectionSafetyExactly`). What always holds is that no two nodes are leaders of one term at the same
  time.
- `Raft::restore` leaves snapshot marks in the slots it empties and `Raft::emit` does not write the
  mark, so a plain entry can be sent to a follower as a snapshot (`RaftLog.StaleMark`, with the exact
  conditions in `RestoreCleanExactly`, `CleanRunExactly` and `DeliveredExactly`).
- The index line that the partition keeps in memory for a message is keyed one higher than the line
  it points to, unlike the line written to disk, so a pull may start one message early
  (`Partition.PullsEarly`, with the exact conditions in `PullLands` and `PullEarlyExactly`).
- A message that ends exactly at the end of a segment file is never sent (`Partition.NeverSent`,
  `SendsSomethingExactly`), so a consumer group never gets past it (`Delivery.NothingPastFull`).
- A consumer that reconnects counts its local offsets from 0 again, under the new connection's name
  (skylu/net/tcpclient.cc:80-81); its pull of 0 is answered from the committed offset, and a known message
  moves its offset only where that is the message's own (example/mqbusd/consumer.cc:224). When all
  messages from the committed one to the end of that file are known, as after a repeated delivery, it is
  answered with the same messages for ever (`Delivery.WedgeHappens`, `StaysWedged`, with the exact
  conditions in `CatchesUpExactly` and `CanCatchUpExactly`).
- The check of the four-byte end marker reads one byte (`MqCodec.DamagedMarkerAccepted`,
  `MarkerExactly`), and `getMessage` returns the topic (`GetMessageFails`, `GetMessageExactly`).
- Deleting a key that is not in a B-tree can take the next smaller key away, because the leaf test reads
  the slot behind the last key (`BTree.TreeNode.DeleteLastTwice`, with the exact condition for whole trees
  in `BTreeModel.DeleteAbsentExactly` and `BTree.BTree.Delete`). Deleting the key that happens to be in the
  first slot of an empty tree leaves its root with -1 keys.
- `alloc_node` of the pool counts blocks ever handed out, not live ones (`ShamPool.LiveOrFree`).

Assertions in the C++ code are not aborts in the election model: runs go on past them, so the theorems
cover more runs than the program has. Randomness (timers), the clock, and the result of the log
checks that an election does not own are inputs of the steps. Unsigned 64-bit counters are taken as
unbounded where no run can come near their limit; the wire format and the ids model their widths.

## Model

| member | source | states |
|---|---|---|
| `RaftElection.AtMostOneLeader` | example/raft_server/raft.cc:320-366 | In every run of any number of nodes over a network that loses, repeats and reorders, no reachable state has two leaders of one term. |
| `RaftElection.OneVotePerTerm` | example/raft_server/raft.cc:821-865 | In every run a node grants its vote to one candidate per term. |
| `RaftElection.ElectionSafetyExactly` | example/raft_server/raft.cc:320-366 | The paper's Election Safety (at most one leader elected per term, ever) holds of every run of a cluster exactly when the number of its nodes is even or less than three. |
| `RaftElection.VotingGuardSuffices` | example/raft_server/raft.cc:854-858 | The guard that is missing in `handleClaim`: in a run in which no delivery makes a node vote in a term it has won, no term is won twice, whatever the size of the cluster. |
| `RaftElection.ElectionSafetyFails` | example/raft_server/raft.cc:334-366 | Every cluster of odd size, at least three, whatever its ids and timers, has a run in which two nodes win term 1 one after the other: the self-vote is not recorded in `m_voteFor`. |
| `RaftElection.SafeSize` | example/raft_server/raft.cc:320-323 | In a cluster of even size, or of fewer than three nodes, no run elects two leaders in one term, because two quorums cannot meet in the earlier winner alone. |
| `RaftElection.SecondElection` | example/raft_server/raft.cc:825-833 | When a term is won twice, the earlier winner, and nobody else, is in both quorums. |
| `RaftElection.QuorumsMeet` | example/raft_server/raft.cc:320-323 | Two vote counts that pass the test of `becomeLeader` come from sets of nodes with a common member. |
| `RaftElection.VoteLegal` | example/raft_server/raft.cc:867-901 | Handling a vote counts each peer at most once per claim: a counted vote is a real grant of this term, and the sequence number of the peer moves past it. |
| `RaftElection.MessageLegal` | example/raft_server/raft.cc:902-930 | Handling any message keeps what ties a node's term, role, vote, count and sequence numbers to the grants made in the cluster. |
| `RaftElection.TickLegal` | example/raft_server/raft.cc:405-436 | A tick keeps the same, whether it claims, beats, resets the timer or demotes a leader without a quorum. |
| `RaftElection.StepInv` | example/raft_server/raft.cc:405-436 | The whole cluster invariant survives a tick, an emitted update or any delivery. |
| `RaftElection.RunInv` | example/raft_server/raft.cc:902-930 | The invariant holds in every reachable state. |
| `RaftElection.NoStaleVote` | example/raft_server/raft.cc:845-858 | In every run each granted vote that appears on the network answers a claim sent by the candidate, of a term not older than the voter's and with a last index greater than the voter's, or equal to it, with an equal last term unless the log is empty. |
| `RaftElection.LeaderExactly` | example/raft_server/raft.cc:320-333 | A candidate becomes leader, and forgets how long its peers have been silent, exactly when its votes are more than half of the peers that are up. |
| `RaftElection.ClaimsSent` | example/raft_server/raft.cc:334-366 | Standing for a term means one vote and one claim to each other peer that is up, with the end of the log and the next number for that peer, or leadership at once in a cluster of one. |
| `RaftElection.QuorumChecked` | example/raft_server/raft.cc:438-448 | A leader steps down exactly when it and the peers heard of within the election time are no majority of those that are up. |
| `RaftElection.TickStands` | example/raft_server/raft.cc:405-436 | When the timer of a node that does not lead runs out, it stands for the next term, with a claim to each other peer that is up. |
| `RaftElection.TickBeats` | example/raft_server/raft.cc:405-436 | When the timer of a leader runs out, it sends each other peer that is up an update with the next number. |
| `RaftElection.TickWaits` | example/raft_server/raft.cc:405-436 | Until its timer runs out a node sends nothing and keeps its term, its vote and its count. |
| `RaftElection.VoteExactly` | example/raft_server/raft.cc:867-901 | A vote with any number but the last one sent changes nothing; one with it uses the number up, counts exactly when it is granted, of no older term and received by a candidate, and makes that candidate leader exactly when its votes are a majority. |
| `RaftElection.UpdateExactly` | example/raft_server/raft.cc:636-762 | An update of no older term whose entry fits the log makes its sender the leader and heard of just now; any other is answered with a failure and changes nothing here. |
| `RaftElection.DoneExactly` | example/raft_server/raft.cc:763-811 | A reply with any number but the last one sent, or to a node that does not lead, changes nothing; one with it uses the number up, marks the peer as heard of if it reports success, and is followed by the next update if the peer is behind. |
| `RaftElection.MessageAdopts` | example/raft_server/raft.cc:902-930 | A node's term after a message is the greater of the two; a newer one makes it a follower without votes, and without a vote of its own unless the message is a claim. |
| `RaftElection.EmitExactly` | example/raft_server/raft.cc:522-551 | A leader's entry becomes the last one, of its own term, and each other peer that is up is sent an update. |
| `RaftElection.RaftNode.ClaimLeadership` | example/raft_server/raft.cc:334-366 | In place: the fields and the datagrams sent to each peer are those of a claim, or those of an immediate win. |
| `RaftElection.RaftNode.IncreaseSilentTime` | example/raft_server/raft.cc:301-317 | In place: every other peer that is up ages by one heartbeat, and the result counts those heard of recently. |
| `RaftElection.RaftNode.CheckIsLeader` | example/raft_server/raft.cc:438-448 | In place: a leader that hears no majority becomes a follower. |
| `RaftElection.RaftNode.HandleTick` | example/raft_server/raft.cc:405-436 | In place: the node and its datagrams after a tick. |
| `RaftElection.RaftNode.HandleClaim` | example/raft_server/raft.cc:821-865 | In place: a claim is granted exactly when its term is not older, its log not behind the voter's, and the vote of its term free or the claimant's already; a granted vote takes term and vote and draws the timer, a refused one changes only term, vote and role, and those only in a newer term; the reply carries the claim's number. |
| `RaftElection.RaftNode.HandleVote` | example/raft_server/raft.cc:867-901 | In place: the node after a vote. |
| `RaftElection.RaftNode.HandleUpdate` | example/raft_server/raft.cc:636-762 | In place: the fields of an election after an update, whatever happens to the log. |
| `RaftElection.RaftNode.HandleDone` | example/raft_server/raft.cc:763-811 | In place: the fields of an election after a reply to an update. |
| `RaftElection.RaftNode.HandleMessage` | example/raft_server/raft.cc:902-930 | In place: a newer term is adopted before the message is handled by its kind. |
| `RaftLog.RingRefinesLog` | example/raft_server/raft.cc:451-551 | After any run of updates, progress, compactions and restored snapshots the ring never overflows, each index after the head holds its own patch, and the applied state is what the whole unbounded history replays to and what the ring alone rebuilds. |
| `RaftLog.StepInv` | example/raft_server/raft.cc:134-147 | Every log operation keeps the ring a window on the unbounded log. |
| `RaftLog.CompactKeepsUnapplied` | example/raft_server/raft.cc:451-485 | Compaction changes no entry at or above `applied`, keeps the last index and the state, and leaves one entry of those below. |
| `RaftLog.CompactInv` | example/raft_server/raft.cc:451-485 | Replacing the applied entries by a snapshot changes nothing of the history the log stands for. |
| `RaftLog.RestoreInv` | example/raft_server/raft.cc:488-520 | After `restore` the log stands for any history whose replay is the snapshot. |
| `RaftLog.EmitInv` | example/raft_server/raft.cc:522-551 | `emit` extends the history by the update, or leaves it as it was when the ring is stuck. |
| `RaftLog.EmitAcceptsUnlessStuck` | example/raft_server/raft.cc:522-551 | `emit` refuses exactly when the ring is full and at most its head is applied; an accepted update stands at the next index with the current term. |
| `RaftLog.AppliedUpTo` | example/raft_server/raft.cc:134-147 | `apply` stops exactly at the smaller of the acknowledged count and the end of the log, and touches only `applied` and the state. |
| `RaftLog.ProgressIsGreatest` | example/raft_server/raft.cc:368-402 | The new acknowledged count is the old one or the greatest count that an up peer reports and that a majority, counting the node itself, has reached; so the order of the peers does not matter. |
| `RaftLog.AckedIsReplicated` | example/raft_server/raft.cc:383-395 | Every index newly acknowledged is held by more than half of the peers. |
| `RaftLog.ReplicatedExactly` | example/raft_server/raft.cc:383-395 | The test in `refreshAcked` holds exactly when the node and the other peers that have reached a count are more than half of the peers. |
| `RaftLog.CompactExactly` | example/raft_server/raft.cc:451-485 | Compaction moves the head to the last applied entry, and nothing else of the window. |
| `RaftLog.RestoreExactly` | example/raft_server/raft.cc:488-520 | Slot by slot: the snapshot stands at its index and is the whole window; the slots of the old window keep term and mark and lose their data, the others keep everything. |
| `RaftLog.EmitExactly` | example/raft_server/raft.cc:522-551 | With room, `emit` writes data and term of the slot behind the last entry, not its mark, and no other slot; in a full ring it is `emit` after `compact`, if that makes room. |
| `RaftLog.DeliveredExactly` | example/raft_server/raft.cc:239-257 | Sending the entry at an index after the head brings a follower to the next state exactly when the entry carries no snapshot mark, or its patch overwrites every key. |
| `RaftLog.RestoreCleanExactly` | example/raft_server/raft.cc:488-520 | `restore` leaves the snapshot marks of the dropped entries: only the head is marked afterwards exactly when the old head was no snapshot or lay in the slot of the new one. |
| `RaftLog.CleanRunExactly` | example/raft_server/raft.cc:451-551 | In a run no entry behind the head is ever marked as a snapshot if and only if each `restore` of the run finds an old head that is no snapshot, or puts the new one into its slot. |
| `RaftLog.EmitClean` | example/raft_server/raft.cc:522-551 | If only the head is marked, that stays so when an update is emitted. |
| `RaftLog.CompactClean` | example/raft_server/raft.cc:451-485 | If only the head is marked, that stays so when the log is compacted. |
| `RaftLog.StaleMark` | example/raft_server/raft.cc:488-551 | For every ring of at least two slots two restores and one emitted update give a plain entry marked as a snapshot, and a follower that gets it loses its state. |
| `RaftLog.RingLog.ApplyAcked` | example/raft_server/raft.cc:134-147 | In place: the loop of `apply` and its count. |
| `RaftLog.RingLog.CompactRing` | example/raft_server/raft.cc:451-485 | In place: the ring after `compact` and the number of entries compacted. |
| `RaftLog.RingLog.EmitUpdate` | example/raft_server/raft.cc:522-551 | In place: the ring after `emit`, and the index or -1. |
| `RaftLog.RingLog.RestoreFrom` | example/raft_server/raft.cc:488-520 | In place: the ring after `restore`. |
| `RaftLog.RingLog.RefreshProgress` | example/raft_server/raft.cc:368-402 | In place: the two loops over the peers, then `apply`. |
| `BTreeModel.RunRefinesList` | skylu/base/tree.h:40-62 | Any sequence of insertions and deletions from the empty tree, of keys that are there or not, as long as no leaf test leaves its array or takes a key from an empty tree, yields a balanced tree with every node filled within bounds whose in-order list is what the same operations make of a sorted list. |
| `BTreeModel.RunCorrect` | skylu/base/tree.h:40-62 | With deletions of present keys alone the in-order list is sorted and is exactly the bag of keys that should be there. |
| `BTreeModel.HeightBound` | skylu/base/btree.cc:111-134 | A tree of height h > 0 holds at least 2 * m^h - 1 keys. |
| `BTreeModel.InsertCorrect` | skylu/base/btree.cc:111-134 | Insertion into any valid tree gives a valid tree, one level higher only if the root was full, with exactly one more `x`, in order. |
| `BTreeModel.DeleteCorrect` | skylu/base/btree.cc:179-200 | Deletion of a present key gives a valid tree, one level lower only if the root collapsed, with exactly one `x` fewer, in order. |
| `BTreeModel.DeleteAbsentExactly` | skylu/base/btree.cc:179-279 | Deletion of an absent key from any valid tree with keys gives a valid tree, with the same in-order list if and only if the slot that the leaf test reads does not hold the key; else the list loses the greatest key below it. |
| `BTreeModel.InsertNonfullShape` | skylu/base/btree.cc:77-108 | `BTreeInsertNonfull`, never entered with a full node, keeps depth and filling below and adds at most one key to its node. |
| `BTreeModel.InsertNonfullContents` | skylu/base/btree.cc:77-108 | It adds exactly one `x` and keeps the order. |
| `BTreeModel.DeleteFromShape` | skylu/base/btree.cc:203-279 | `BTreeDeleteNonone`, never entered with a node that could become under-full, keeps depth and filling and takes at most one key from its node. |
| `BTreeModel.DeleteFromContents` | skylu/base/btree.cc:203-279 | It removes exactly one occurrence of a key that is present. |
| `BTreeModel.SplitShape` | skylu/base/btree.cc:37-74 | A split gives two half-full kids and one more key above, all within bounds. |
| `BTreeModel.SplitInOrder` | skylu/base/btree.cc:37-74 | A split changes nothing of the in-order list. |
| `BTreeModel.MergeShape` | skylu/base/btree.cc:137-161 | Merging two minimal kids gives a full one, within bounds. |
| `BTreeModel.MergeInOrder` | skylu/base/btree.cc:137-161 | A merge changes nothing of the in-order list. |
| `BTreeModel.ShiftShape` | skylu/base/btree.cc:302-342 | A rotation brings the poor kid to m keys and leaves the rich one within bounds. |
| `BTreeModel.ShiftRightInOrder` | skylu/base/btree.cc:302-320 | Rotating to the right changes nothing of the in-order list. |
| `BTreeModel.ShiftLeftInOrder` | skylu/base/btree.cc:323-342 | Rotating to the left changes nothing of the in-order list. |
| `BTreeModel.MaxKeyLast` | skylu/base/btree.cc:282-289 | The predecessor search finds the last key of the in-order list. |
| `BTreeModel.MinKeyFirst` | skylu/base/btree.cc:292-299 | The successor search finds the first key of the in-order list. |
| `BTreeModel.RefillShape` | skylu/base/btree.cc:245-275 | Before the deletion descends, the kid has at least m keys. |
| `BTreeModel.RefillInOrder` | skylu/base/btree.cc:245-275 | Bringing it there changes nothing of the in-order list. |
| `BTreeModel.InsertGoes` | skylu/base/btree.cc:77-108 | Which way an insertion goes: to the right of the keys that are not greater, into the leaf or down into a kid with room, and nothing else of the node changes. |
| `BTreeModel.InsertSplits` | skylu/base/btree.cc:91-108 | A full kid on the way becomes its two halves, its middle key moves up between them, and the key goes to the right half exactly when it is greater than that. |
| `BTreeModel.DeleteInLeaf` | skylu/base/btree.cc:203-218 | A leaf loses the key if it has it; if not, and the slot behind its last key does not hold it either, it stays as it is. |
| `BTreeModel.DeleteFound` | skylu/base/btree.cc:219-243 | A key found in an inner node gives way to the greatest key of the kid to its left if that kid can spare one, else to the least of the kid to its right if that one can, else the two kids become one. |
| `BTreeModel.DeleteGoesDown` | skylu/base/btree.cc:244-275 | Else the deletion goes down: a kid that can spare a key is taken as it is; one that cannot gets a key from the left if the kid there can spare one, else from the right, else it is joined with the kid on its left, or on its right if it is the first. |
| `BTree.TreeNode.SplitChild` | skylu/base/btree.cc:37-74 | In place on the nodes' arrays: the parent stands for the split tree, only it and the child have changed, and all new memory is fresh. |
| `BTree.TreeNode.InsertNonfull` | skylu/base/btree.cc:77-108 | In place: the node stands for the tree with the key inserted. |
| `BTree.TreeNode.MergeChild` | skylu/base/btree.cc:137-161 | In place: the parent stands for the merged tree and uses no memory it did not have. |
| `BTree.TreeNode.ShiftToRightChild` | skylu/base/btree.cc:302-320 | In place: the rotation on keys and pointers of three nodes. |
| `BTree.TreeNode.ShiftToLeftChild` | skylu/base/btree.cc:323-342 | In place: the other rotation. |
| `BTree.TreeNode.SearchPredecessor` | skylu/base/btree.cc:282-289 | The loop down the last pointers returns the greatest key below. |
| `BTree.TreeNode.SearchSuccessor` | skylu/base/btree.cc:292-299 | The loop down the first pointers returns the least key below. |
| `BTree.TreeNode.DeleteFromLeaf` | skylu/base/btree.cc:205-218 | In place, for any key: it is shifted out of the leaf's array if it is there; else the leaf stays as it is unless the slot behind its last key holds the key, and then the last key goes, or `num` becomes -1 if there is none. |
| `BTree.TreeNode.DeleteLastTwice` | skylu/base/btree.cc:205-218 | In every full leaf: deleting the greatest key twice also takes the one before it. |
| `BTree.TreeNode.DeleteNonone` | skylu/base/btree.cc:203-279 | In place, for any key whose leaf test stays inside the array: the node stands for the tree with the key deleted, in memory it already had; for an absent key the slots of the leaf tested decide whether the last key of that leaf goes, and an empty leaf can get -1 keys. |
| `BTree.BTreeInsert` | skylu/base/btree.cc:111-134 | The new root, which is a new node only if the old one was full. |
| `BTree.BTreeDelete` | skylu/base/btree.cc:179-200 | The new root, which is the left kid only if the old root collapsed, and what it stands for, for present and absent keys and for an empty tree. |
| `BTree.BTree.Insert` | skylu/base/tree.h:40-44 | The mutable tree stays valid and its sorted list of keys gains exactly one `x`. |
| `BTree.BTree.Delete` | skylu/base/tree.h:57-62 | The mutable tree stays valid and its sorted list of keys loses exactly one `x`, if it is there; if not, the list changes exactly when the slot tested holds `x`, and then loses the greatest key below `x`; the root of an empty tree gets -1 keys in that case. |
| `BPlusTree.ChainListsKeys` | skylu/base/bplustree.cc:328-346 | After any insertions, following `next` from the leftmost leaf visits every leaf once and returns to it, `prev` and `next` undo each other, and the leaf keys in that order are the sorted list of the keys inserted. |
| `BPlusTree.RunValid` | skylu/base/bplustree.cc:119-140 | After any insertions the tree is balanced and filled within bounds, in search order, its chain intact, and the leaves hold exactly the keys inserted. |
| `BPlusTree.InsertCorrect` | skylu/base/bplustree.cc:119-140 | One insertion keeps all of that and adds exactly one `x` to the leaves. |
| `BPlusTree.InsertNodeShape` | skylu/base/bplustree.cc:89-117 | Depth and filling are kept below the node, which grows by at most one key. |
| `BPlusTree.InsertNodeOrder` | skylu/base/bplustree.cc:89-117 | Separators stay between the keys on their sides, although a leaf split copies its middle key upwards. |
| `BPlusTree.InsertGoesDown` | skylu/base/bplustree.cc:89-117 | An insertion goes down to the right of the separators that are not greater; with room in the kid there nothing else of the node changes. |
| `BPlusTree.InsertHalves` | skylu/base/bplustree.cc:42-117 | A full kid there is halved first: its middle key is copied up from a leaf, moved up from an inner node; the key goes to the right half exactly when it is greater, and the other half stays as it is. |
| `BPlusTree.InsertInLeaf` | skylu/base/bplustree.cc:89-101 | A leaf gets the key to the right of those that are not greater. |
| `BPlusTree.InsertNodeKeys` | skylu/base/bplustree.cc:89-117 | The keys in the leaves gain exactly one `x`. |
| `BPlusTree.InsertChain` | skylu/base/bplustree.cc:89-117 | The chain of leaves stays intact, whatever leaves lie to the left and right of the subtree. |
| `BPlusTree.SplitKidChain` | skylu/base/bplustree.cc:42-87 | The relinking of a leaf split puts the new leaf right after the old one in the chain; splitting an inner node leaves the chain alone. |
| `BPlusTree.SplitLeafOrder` | skylu/base/bplustree.cc:52-75 | Keeping the middle key in the left leaf and copying it up keeps the search order and introduces no new value. |
| `BPlusTree.LeavesSorted` | skylu/base/bplustree.cc:328-346 | In a tree in search order the leaf keys are sorted. |
| `BPlusTree.LeafChain.LinkNewLeaf` | skylu/base/bplustree.cc:79-85 | In place: the four pointer updates of a leaf split. |
| `BPlusTree.LeafChain.LinearPrint` | skylu/base/bplustree.cc:328-346 | The walk down and along `next` lists exactly the leaf keys. |
| `ShamQueue.ReadsArePrefix` | skylu/base/shamqueue.cc:187-216 | In every interleaving of any number of writers and one reader, copies not being atomic, the blocks read are a prefix of the blocks written, in commit order and whole. |
| `ShamQueue.NoOverwrite` | skylu/base/shamqueue.cc:192-197 | No writer copies over a block that is still to be read or being read. |
| `ShamQueue.WritersExclusive` | skylu/base/shamqueue.cc:192-199 | At most one writer is between taking and giving back the mutex. |
| `ShamQueue.QuietSemaphores` | skylu/base/shamqueue.cc:95-99 | With nobody inside, the two semaphores are exactly the numbers of unread and of free blocks. |
| `ShamQueue.NeverStuck` | skylu/base/shamqueue.cc:187-216 | Some process can always take its next step: the queue never blocks everyone. |
| `ShamQueue.ReaderServed` | skylu/base/shamqueue.cc:196-204 | With a block committed and not read, a waiting reader goes on at once or after at most two steps of one writer, which waits for nobody. |
| `ShamQueue.WriterServed` | skylu/base/shamqueue.cc:192-215 | With a free block to which no writer has a claim, a writer is let in at once or after one step of the reader. |
| `ShamQueue.MutexServed` | skylu/base/shamqueue.cc:193-198 | A writer waits for the mutex for at most as many steps of its holder as a block has bytes, and two; the holder waits for nobody. |
| `ShamQueue.RunInv` | skylu/base/shamqueue.cc:187-216 | The token count, the ring and the half-done copies hold together in every reachable state. |
| `ShamQueue.UninterruptedWrite` | skylu/base/shamqueue.cc:187-200 | A write that nobody interrupts appends its block and nothing else. |
| `ShamQueue.UninterruptedRead` | skylu/base/shamqueue.cc:202-216 | A read that nobody interrupts hands out the block under the read index. |
| `ShamQueue.OldestUnread` | skylu/base/shamqueue.cc:202-216 | The block under the read index is the oldest unread one. |
| `ShamQueue.SharedQueue.Write` | skylu/base/shamqueue.cc:187-200 | On the flat buffer: what the uninterrupted write does. |
| `ShamQueue.SharedQueue.Read` | skylu/base/shamqueue.cc:202-216 | On the flat buffer: what the uninterrupted read does, and the block it returns. |
| `MqCodec.AnyFragmentation` | skylu/proto/mq_proto.cc:5-23 | However a stream of well-formed packets is cut into fragments, after each fragment the receiver has handed over exactly the complete packets, in order and unchanged, and holds exactly the bytes of the next one. |
| `MqCodec.EverythingArrives` | example/mqbusd/consumer.cc:16-47 | When the whole stream has arrived, every packet sent has been handed over and the buffer is empty. |
| `MqCodec.DecodesLongestPrefix` | example/mqbusd/consumer.cc:19-24 | The loop of a message callback takes the longest complete prefix out of its buffer. |
| `MqCodec.ParseArrived` | skylu/proto/mq_proto.cc:5-23 | A packet with a command in 0..6 or 128..255 of which any part has arrived is found incomplete until its last byte is there and is then recovered field by field, whatever the bytes that the sender never set. |
| `MqCodec.ArrivedInFigures` | skylu/proto/mq_proto.cc:5-23 | The same with the width of each field written out: every packet whose fields are in the ranges of their C types, with a command in 0..6 or 128..255, is accepted as soon as its 84 bytes, topic and message are there. |
| `MqCodec.UnknownCommand` | skylu/proto/mq_proto.cc:7-12 | A first byte in 7..127 makes what was received malformed and empties the buffer, whatever follows. |
| `MqCodec.ParseInFigures` | skylu/proto/mq_proto.cc:5-23 | More than a header's bytes are malformed exactly when the first of them is in 7..127 or the byte behind the message is there and not 255, and incomplete exactly when not all bytes that the two lengths announce are there. |
| `MqCodec.LittleEndian` | skylu/proto/mq_proto.h:35-53 | Integers are read with their first byte counting least. |
| `MqCodec.HeaderArrived` | skylu/proto/mq_proto.h:35-53 | The header fields are read back from the struct layout as they were written. |
| `MqCodec.BodyArrived` | skylu/proto/mq_proto.cc:100-109 | Topic and message are read back as they were written. |
| `MqCodec.CompleteIsLongest` | skylu/proto/mq_proto.cc:13-15 | The number of packets taken is the greatest that fits the bytes received. |
| `MqCodec.OneMarkerByte` | skylu/proto/mq_proto.h:73-80 | Of all that follows the message, parsing sees the first byte and the number of bytes. |
| `MqCodec.MarkerExactly` | skylu/proto/mq_proto.cc:16-20 | A complete packet with any four bytes in the place of its end marker is accepted exactly when the first of them is right, and is malformed else. |
| `MqCodec.DamagedMarkerAccepted` | skylu/proto/mq_proto.cc:16-20 | A packet whose marker is damaged to 255, 0, 0, 0 is accepted unchanged. |
| `MqCodec.GetMessageExactly` | skylu/proto/mq_proto.cc:100-124 | From the bytes of any packet that has arrived `getTopicAndMessage` gives topic and message; `getMessage` gives the topic, hence the message exactly when the two are equal. |
| `MqCodec.GetMessageFails` | skylu/proto/mq_proto.cc:117-124 | A packet with topic 1 and message 2, 3, for which `getMessage` returns 1. |
| `NetBuffer.Buffer.UpdatePos` | skylu/net/buffer.h:115-123 | The readable bytes lose exactly their first `len`. |
| `NetBuffer.Buffer.Resize` | skylu/net/buffer.h:162-176 | The readable bytes stay and there is room for `len` more; the compacting branch is taken only with a positive read position. |
| `NetBuffer.Buffer.EnsureWriteableBytes` | skylu/net/buffer.h:137-144 | The readable bytes stay and there is room for `len` more. |
| `NetBuffer.Buffer.Append` | skylu/net/buffer.h:150-154 | The readable bytes are extended by the data. |
| `NetBuffer.SerializationToBuffer` | skylu/proto/mq_proto.cc:83-99 | Copying struct, topic, message and marker over one another into an uninitialized array appends an encoding of the packet. |
| `NetBuffer.SerializationToMqPacket` | skylu/proto/mq_proto.cc:5-23 | In place: the packet parsed and what is left in the buffer, for incomplete, malformed and complete input, with the known commands and the marker in figures: a known one loses exactly its own bytes, a malformed one empties the buffer. |
| `NetBuffer.OnMessage` | example/mqbusd/consumer.cc:16-47 | The loop hands over the packets and leaves the rest. |
| `Partition.PullAfterAnyRun` | example/mqbroker/partition.cc:143-205 | After any run of arrivals, rolls, syncs and restarts with any index lines lost, a pull of any message that the partition has starts in the right segment, at the message or one before it, never later; at the message when the lookup starts at 0 or at a line of an index file. |
| `Partition.PullEarlyExactly` | example/mqbroker/partition.cc:171-205 | In every run, with any restarts, a pull starts one message early exactly when its lookup uses a line of the index that was made since the last restart. |
| `Partition.PullsEarly` | example/mqbroker/partition.cc:57-66 | A message sent twice to a new partition that indexes it: the pull of the second one starts at the first. |
| `Partition.PullLands` | example/mqbroker/partition.cc:171-205 | Exactly which of the two: at the message if and only if the line used points to its own message, as lines from disk do. |
| `Partition.NothingLost` | example/mqbroker/partition.cc:41-69 | The segments read one after the other are exactly the packets taken in, stamped, in order, and `m_size` is their number. |
| `Partition.StoredAsArrived` | example/mqbroker/partition.cc:41-69 | In every run message k of the partition has topic, message, ids, times, codes and all other fields of the k-th packet that arrived and was taken in, with the command 4 and the offset k. |
| `Partition.PullDelivers` | example/mqbroker/partition.cc:143-255 | In every run the bytes sent for a pull of message o parse, with none left over, to the packets that arrived as messages o, or o - 1, and on, unchanged but for command and offset. |
| `Partition.AddExactly` | example/mqbroker/partition.cc:41-81 | What is indexed: a packet gets a line in memory, with its start, and one for the disk, with its end, under its number in the segment counted from 1, exactly when it is longer than a block or further than the interval from the last line. |
| `Partition.AddRollsExactly` | example/mqbroker/partition.cc:35-81 | When the packet does not fit, the segment is closed with all its index lines written out, and the packet is the first of a new one named by its number. |
| `Partition.RunAgrees` | example/mqbroker/partition.cc:57-80 | In every run the index in memory and the index file, with the lines still to be written, have lines for the same messages in each segment, and the interval is counted from the last of them. |
| `Partition.RunInv` | example/mqbroker/partition.cc:35-81 | In every reachable state logs, indexes, positions and counts agree with the messages taken in. |
| `Partition.RecoversExactly` | example/mqbroker/partition.cc:261-279 | However few bytes are left behind the last packet, even none, the recovery scan finds exactly the length and the number of messages that the writer had, as long as the header that it tries next lies in the mapped memory. |
| `Partition.RestartInv` | example/mqbroker/partition.cc:82-124 | A restart that loses any index lines loses no message and no count. |
| `Partition.SegmentFound` | example/mqbroker/partition.cc:143-150 | The segment chosen by `lower_bound` and the steps back is the one that has the message. |
| `Partition.SliceIsLongestRun` | example/mqbroker/partition.cc:206-249 | A pull sends whole messages, the longest run of at most `maxEnableBytes` bytes that ends before the last byte of the segment. |
| `Partition.SendsSomethingExactly` | example/mqbroker/partition.cc:213-241 | It sends something exactly when the first message fits the request and does not fill the segment to its last byte. |
| `Partition.NeverSent` | example/mqbroker/partition.cc:232-235 | A first message as long as a segment file: no pull, whatever it takes, sends anything of it. |
| `Partition.SkipLands` | example/mqbroker/partition.cc:198-205 | Stepping over packets by their lengths leads from packet to packet. |
| `Partition.AddInv` | example/mqbroker/partition.cc:35-81 | Adding a packet to a segment with room keeps all of this. |
| `Partition.RollInv` | example/mqbroker/partition.cc:292-313 | Opening a new segment keeps all of this. |
| `Partition.IndexLast` | example/mqbroker/partition.cc:57-68 | The line kept in memory points to the previous message, the line for the disk to the message with its key. |
| `Partition.PartitionLog.AddToLog` | example/mqbroker/partition.cc:35-81 | In place: the bytes written are the encoding of the packet with the command 4 and the offset `m_size`, at the end of the open segment or at the start of a new one, and the closed segments keep their bytes. |
| `Partition.PartitionLog.MmapNewLog` | example/mqbroker/partition.cc:292-313 | In place: the open segment is closed with its index lines written out, and a new one of zeros, named by `m_size`, is open. |
| `Partition.PartitionLog.FindLastSequenceMsg` | example/mqbroker/partition.cc:261-279 | In place: the loop of the recovery scan. |
| `Partition.PullSlice` | example/mqbroker/partition.cc:171-249 | The two loops of `sendToConsumer`, without reading outside the mapped file: where the bytes sent start and how many they are. |
| `ShamPool.PoolIsSound` | skylu/base/shampool.hpp:174-224 | After any run of `Alloc`s and of `Free`s of any pointers, each block handed out is live or on the free list, exactly once, and the header passes its check exactly for a process that expects the same sizes. |
| `ShamPool.AllocExactly` | skylu/base/shampool.hpp:174-205 | `Alloc` never hands out a live block, changes no other block's node, and fails exactly when `max_node` blocks are live. |
| `ShamPool.FreeableExactly` | skylu/base/shampool.hpp:207-224 | `Free` accepts exactly the pointers to nodes of live blocks, so no pointer twice. |
| `ShamPool.FreeShrinks` | skylu/base/shampool.hpp:317-321 | Freeing takes exactly that block out of use and leaves all nodes as they are. |
| `ShamPool.SizesInFigures` | skylu/base/shampool.hpp:235-253 | A header of 64 bytes or a page; blocks of a word and a node, rounded up to words, or to pages with another page for the fence. |
| `ShamPool.InitExactly` | skylu/base/shampool.hpp:113-133 | The header of a new pool, field by field, and its zeroed blocks. |
| `ShamPool.AllocWrites` | skylu/base/shampool.hpp:174-205 | `Alloc` takes the head of the free list if there is one, else the next new block if there is room; it zeroes that block's word and node and writes no other. |
| `ShamPool.FreeWrites` | skylu/base/shampool.hpp:207-224 | `Free` of a block handed out whose word is zero makes it the head of the free list and leaves every node as it is; of any other block it changes nothing. |
| `ShamPool.LastFreedFirst` | skylu/base/shampool.hpp:317-335 | The block freed last is handed out first. |
| `ShamPool.ValidExactly` | skylu/base/shampool.hpp:274-306 | `IsValidBlock` holds exactly of the offsets of the blocks below `alloc_size`. |
| `ShamPool.LiveOrFree` | skylu/base/shampool.hpp:308-337 | The live blocks and the free list make up the blocks handed out. |
| `ShamPool.RunInv` | skylu/base/shampool.hpp:255-272 | The header is in order and the free list is acyclic in every reachable region. |
| `ShamPool.AllocInv` | skylu/base/shampool.hpp:174-205 | `Alloc` keeps the region in order. |
| `ShamPool.FreeInv` | skylu/base/shampool.hpp:207-224 | `Free` keeps the region in order. |
| `ShamPool.VisitsLive` | skylu/base/shampool.hpp:350-392 | The iterator visits each live block once, in the order of their offsets, and nothing else. |
| `ShamPool.ShammemPool.IsValid` | skylu/base/shampool.hpp:274-306 | In place: the three tests on a pointer. |
| `ShamPool.ShammemPool.AllocNode` | skylu/base/shampool.hpp:174-205 | In place: the pointer returned, and header, words and nodes after it, for an empty free list with room and without, and for one with blocks. |
| `ShamPool.ShammemPool.FreeNode` | skylu/base/shampool.hpp:207-224 | In place: an accepted block becomes the head of the free list; a refused pointer changes nothing. |
| `ShamPool.ShammemPool.GetNextUsedBlock` | skylu/base/shampool.hpp:356-376 | The loop over the blocks finds the next live one. |
| `ShamHash.RunRefinesMap` | skylu/base/shamhash.hpp:103-177 | Any run of insertions, removals and attaching processes behaves as one map of at most `max_node` entries. |
| `ShamHash.InsertRefines` | skylu/base/shamhash.hpp:156-167 | `insert` puts a new key into the map while it has fewer than `max_node` entries, and else changes nothing. |
| `ShamHash.EraseRefines` | skylu/base/shamhash.hpp:131-148 | `erase` succeeds exactly on keys of the map and removes exactly them. |
| `ShamHash.GetIsLookup` | skylu/base/shamhash.hpp:174-177 | `get` is lookup in the map. |
| `ShamHash.AttachRebuilds` | skylu/base/shamhash.hpp:67-96 | A process that attaches to the region rebuilds exactly the index of the table. |
| `ShamHash.SizeIsLive` | skylu/base/shamhash.hpp:103-124 | The map has as many entries as there are live blocks. |
| `ShamHash.Shamhash.InsertPair` | skylu/base/shamhash.hpp:103-167 | In place: the table after `insert` and whether it succeeded. |
| `ShamHash.Shamhash.EraseKey` | skylu/base/shamhash.hpp:131-148 | In place: the table after `erase` and its return code. |
| `ShamHash.Shamhash.GetValue` | skylu/base/shamhash.hpp:211-218 | The value found through the index, or none. |
| `ShamHash.Shamhash.InitIndex` | skylu/base/shamhash.hpp:67-96 | In place: the rebuild loop over the region and its return code. |
| `Delivery.EndToEnd` | example/mqbusd/producer.cc:16-98 | Once the producer has nothing left to send and the consumer has caught up with the log, the application has been handed every message put, each exactly once. |
| `Delivery.CatchesUpExactly` | example/mqbusd/consumer.cc:16-130 | From every reachable state, rounds of pull, answer, handling and commit on a connection, old or new, bring its offset to the end of the log, wherever the answers start, if and only if no message of the log ends at the last byte of its file and the connection is not wedged: offset 0, a committed offset inside the log, nothing to commit, and only known messages from there to the end of that file. |
| `Delivery.CanCatchUpExactly` | example/mqbusd/consumer.cc:16-130 | They can bring it there, with answers that start early where they may, if and only if no message ends at the last byte of its file and the connection is not wedged behind an offset above 1 or the end of a file. |
| `Delivery.AllDelivered` | example/mqbusd/consumer.cc:199-233 | With nothing left in the producer and the connection not blocked like that, such rounds hand over every message put, each exactly once. |
| `Delivery.NothingPastFull` | example/mqbroker/partition.cc:232-240 | In no run does an offset pass a message that ends at the last byte of its file, and nothing but messages before it is handed over. |
| `Delivery.StaysWedged` | example/mqbusd/consumer.cc:219-226 | A connection wedged in a file that takes no more messages stays so whatever is put, appended, answered, committed or repeated later: nothing is handed over and no offset moves, until an answer arrives on another connection. |
| `Delivery.WedgeHappens` | example/mqbroker/mqbroker.cc:291-297 | A run that ends there: two messages, the second delivered twice, filling a file, read and committed on one connection, and any other connection. |
| `Delivery.DrainsProducer` | example/mqbusd/producer.cc:151-165 | From every state the producer can get rid of all that it has to send. |
| `Delivery.ProducerLosesNothing` | example/mqbusd/producer.cc:117-122 | Over any loss and repetition of deliveries and acknowledgements, every message ever put is still queued, in flight, waiting for its acknowledgement, or in the log of the broker. |
| `Delivery.LeavesAfterAppend` | example/mqbusd/producer.cc:186-202 | A message leaves the resend set only when the broker has appended it. |
| `Delivery.FirstSendsInOrder` | example/mqbusd/producer.cc:16-122 | In every run messages go out for the first time in the order in which they were put, none left out before another, however often they are sent again. |
| `Delivery.PutsStayInOrder` | example/mqbusd/producer.cc:117-122 | Messages put wait in their order behind what was there, and the send loop takes them over in it. |
| `Delivery.KeepsGreatest` | example/mqbroker/commitpartition.h:28-36 | The broker keeps the greatest offset committed. |
| `Delivery.HandedInOrderOnce` | example/mqbusd/consumer.cc:199-233 | In every run the application is handed a beginning of the log in order, each message once despite duplicates and overlapping answers, and neither the local nor the committed offset passes a message that was not handed over. |
| `Delivery.NoLossStep` | example/mqbusd/producer.cc:16-98 | Every step of producer, network and broker keeps every message somewhere. |
| `Delivery.OffsetsStep` | example/mqbusd/consumer.cc:104-160 | Every step keeps every offset, wherever it is under way, behind what has been received. |
| `Delivery.HandedStep` | example/mqbusd/consumer.cc:199-233 | Every step keeps what was handed over equal to the log without repetitions, up to a point. |
| `Delivery.SendAllWaits` | example/mqbusd/producer.cc:16-98 | After the send loop every queued message waits for its acknowledgement. |
| `Delivery.ProducerNode.PutMessage` | example/mqbusd/producer.cc:117-122 | In place: the message is queued last, and nothing else changes. |
| `Delivery.ProducerNode.SendInLoop` | example/mqbusd/producer.cc:16-98 | In place: the loop over the queue: with a connection exactly the messages queued go out, in order, and all of them wait for their acknowledgements. |
| `Delivery.ProducerNode.OnAcks` | example/mqbusd/producer.cc:134-150 | In place: the loop over acknowledgements takes exactly their messages out of the resend set. |
| `Delivery.ProducerNode.QueueResends` | example/mqbusd/producer.cc:151-165 | In place: the whole resend set is queued again. |
| `Delivery.ConsumerNode.HandlePull` | example/mqbusd/consumer.cc:199-226 | In place: past the end the offset is taken over; a new message is kept, a known one at the local offset moves the offset on. |
| `Delivery.ConsumerNode.OnPackets` | example/mqbusd/consumer.cc:16-47 | In place: the loop over an answer. |
| `Delivery.LoopIsHandles` | example/mqbusd/consumer.cc:16-47 | That loop does to the consumer what the packets of an answer do to it one by one in a run. |
| `Delivery.ConsumerNode.CommitReceived` | example/mqbusd/consumer.cc:104-130 | In place: the offset after the last message kept is committed, and the kept messages go. |
| `Snowflake.IdsIncrease` | skylu/base/snowflake.h:56-87 | In every run, whatever the clock says, the ids returned are strictly increasing. |
| `Snowflake.NextIsGreater` | skylu/base/snowflake.h:56-87 | One call gives an id above every earlier one, or raises exactly when the clock is behind the last id, or is still waiting. |
| `Snowflake.NextExactly` | skylu/base/snowflake.h:56-87 | When an id is given, and which: a reading past the last id gives its own time with sequence 0; the same time gives the next sequence up to 4095, then the first later reading with sequence 0, and no id exactly while there is none; an earlier reading raises. |
| `Snowflake.SameMillisecond` | skylu/base/snowflake.h:69-81 | While the clock stands still up to 4096 calls of a new generator return at once, with consecutive ids. |
| `Snowflake.IdInFigures` | skylu/base/snowflake.h:82-87 | The id as a sum of its fields, in figures. |
| `Snowflake.FieldsBack` | skylu/base/snowflake.h:82-87 | Shifting and masking recovers the four fields of an id, which fits 64 bits. |
| `Snowflake.GeneratorsDiffer` | skylu/base/snowflake.h:82-87 | Two generators with different worker or datacenter numbers never make the same id. |
| `Snowflake.IdWorker.TilNextMillis` | skylu/base/snowflake.h:114-120 | The loop on the clock returns its first reading after the last id. |
| `Snowflake.IdWorker.GetId` | skylu/base/snowflake.h:56-87 | In place: sequence, time and id after each of these cases; a clock behind leaves the state alone. |

## Left out

- Raft log replication in chunks, `append` on followers with conflicting entries, membership changes and restarts: Log Matching and the later safety properties of the paper are not claimed; the election sees a log as its last index and term, which change arbitrarily.
- The reset of `acked.bytes` of slow peers in `Raft::compact`: it belongs to chunked replication.
- B+-tree deletion and merging: borrowing from the right overwrites a key before shifting; only runs of insertions are modelled.
- BPlusTree.InsertCorrect: nodes are values with the leaf addresses and pointers explicit; the shifts inside the key and pointer arrays are the ones proved in place for `BTree`.
- BTreeModel.RunRefinesList: what an array slot holds that no key is in is an input of each deletion, and a tree whose root got -1 keys is not followed further.
- BTree.TreeNode.DeleteFromLeaf: a full leaf and a key above all of its own, for which the code reads outside the array.
- BTree.TreeNode.DeleteNonone: an absent key whose search ends in such a leaf.
- BTree.BTreeDelete: an absent key whose search ends in such a leaf.
- BTree.BTree.Delete: an absent key whose search ends in such a leaf.
- `node_num_`, printing and saving of trees; a failed `malloc`.
- More than one reader of the queue, and attaching to or destroying its segment.
- Pool blocks fenced with `mprotect`: the sizes are modelled, the page protection is not; `create_time`; the static cache of block sizes, so one node size per pool.
- ShamPool.AllocExactly: a free list corrupted from outside is not modelled; `Alloc` then returns none without the damage to `free_list`.
- Partition.PartitionLog.AddToLog: messages larger than a segment, and buffers that do not hold exactly one whole packet, which `handleDeliver` never passes.
- Partition.RecoversExactly: a scan whose next header lies outside the mapped memory, where what the code reads is not defined.
- Partition.RestartInv: restarts with such a scan.
- File and mapping errors.
- Partition.PullSlice: the bytes chosen are modelled, not their transmission; the count of packets that `sendToConsumer` returns is left out, as is the wrap-around of its 32-bit byte counter for segments of 4 GiB or more.
- Delivery.EndToEnd: a message is its id, there is one topic and one consumer group; sends without retry, which drop messages by design, and seeks by `Consumer::pull` are not part of the runs; the answer to a pull is any contiguous run of one file that starts at the offset or one before it, as `Partition` proves of the real ones.
- Delivery.CatchesUpExactly: its rounds pull without a limit of bytes, the default of the consumer; with a limit below the length of a message a pull can be answered with nothing.
- Delivery.DrainsProducer: the messages are taken to fit into a file.
- Delivery.ProducerNode.SendInLoop: one topic; the batches of 64 KiB in which the bytes leave are not modelled.
- Delivery.ConsumerNode.OnPackets: answers to pulls that succeeded or were past the end; the other commands and return codes of the loop change nothing here.
- Delivery.ConsumerNode.CommitReceived: one topic.
- Broker-side de-duplication: `m_messageId_set` is never filled.
- Snowflake.IdsIncrease: the elapsed time of every clock reading is taken to fit 42 bits.
- Sockets, event loop, threads, timers queue, HTTP server, logging, configuration files, the directory server's codec and the memcached example.
