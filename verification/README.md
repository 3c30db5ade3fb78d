# Verified model of the mesh's coordination, routing and synchronisation logic

This project models, in Dafny, the logic of five parts of the peer-to-peer agent mesh and proves
what they are for, over all inputs and all runs.

1. **Replicated log and ordered broadcast** (`coordination/`). MicroRaft's handlers are methods of
   a class, each proved to compute a function on the node's state. A cluster is a step system over
   those functions: proposals, heartbeats, deliveries, answers, timeouts, won and lost elections.
   Everything sent stays available, so any message may be lost, repeated, delayed or reordered.
   One node is the only one that wins elections, through any number of terms. On top come the
   coordinator's sequence numbers, the idempotency log, and the reorder buffer of the consumers.
2. **Leader election** (`phase0/raft.py`). The vote bookkeeping of `RaftNode`, over a broadcast
   medium with the same liberties.
3. **Kademlia table and lookup** (`phase0/dht_kademlia.py`). A node id is its 160-bit big-endian
   value; a bucket is the list of its contacts in dictionary order. The lookup is compared with the
   one-shot answer over everything heard.
4. **Merkle root and diff** (`depin/merkle_sync.py`). Hashes are symbolic: the digest of a message or
   of two digests, so different inputs have different digests and no message passes for a pair.
5. **Rate limiters** (`phase0/sig_gate.py`, `relay/server.py`). The filtering and the head-popping
   sliding window, over whole histories.

## Where the code falls short, and exactly when it does not

* A success answer is credited with the log length at the time it is *processed*
  (`coordination/raft.py:382`). `MajorityCommit.EarlyCommit` is a run that commits an entry only the
  leader holds. `MajorityCommit.CreditGuardIff` says when the credit is safe, in terms the leader can
  compare: exactly when its log still ends where the acknowledged snapshot ended.
  `MajorityCommit.CommitGuardIff` says the same of the commit itself, with a run for every other case,
  and `MajorityCommit.CommittedIsHeldByMajority` proves majority commit for runs that respect the guard.
* A vote response is counted without looking at the candidate it names, and responses are broadcast
  (`phase0/raft.py:78-89`, `212-213`). `ElectionSafety.TwoLeaders` is a run with two leaders of one
  term by an overheard grant, `ElectionSafety.TwoLeadersByRepeat` one by a grant that arrives twice;
  `ElectionSafety.CountTruthfulIff` gives the exact condition on one counted response, and
  `ElectionSafety.OneLeaderPerTerm` holds for runs that meet it,
  if any two nodes' quorums overlap. Nodes that list only themselves as peers, as
  `tests/test_multi_node_raft.py:45` starts them, need no miscounting to lead one term together
  (`ElectionSafety.LoneListsTwoLeaders`). One vote per term needs no condition.
* A phase-0 heartbeat never carries an entry (`phase0/raft.py:221-234`), so no log is ever replicated by
  one, in any run (`ElectionProgress.HeartbeatsReplicateNothing`).
* A MicroRaft node that wins forgets its vote (`coordination/raft.py:310`), and can then support another
  candidate of the very term it won (`MicroVotes.TwoVotesAfterWinning`); until it wins it supports at most
  one per term (`MicroVotes.OneVoteUnlessWon`).
* A consumer that joins a topic's group after the first message is numbered from zero and is never handed
  anything (`ReorderBuffer.LateStartStarves`); one that was there before gets everything
  (`OrderedBroadcast.NewcomerGetsAll`).
* A number buffered twice blocks the head of the reorder buffer (`ReorderBuffer.RepeatBlocks` is a
  short stream). `ReorderBuffer.KeepsUpIff` says exactly when deliveries keep up with arrivals, now
  and in every continuation: no number was ever buffered while a copy of it was waiting.
* Marking a message id whose expired entry is still in the log has no effect (`coordination/dedup.py:86`);
  `Dedup.MarkTakesEffectIff` gives the exact condition.
* A member of a group that has joined and not yet subscribed ends the broadcast with a KeyError
  (`coordination/consumer_group.py:76`, `185-189`), which also skips the log entry
  (`coordination/coordinator.py:148-155`), so that a repeat is broadcast again:
  `ExactlyOnce.RepeatBufferedTwice`. `ExactlyOnce.RepeatsInvisibleIff` says exactly when repeats are
  invisible: the group's members are all subscribed, or none is. Gap-free delivery survives it
  (`OrderedBroadcast.EveryConsumerGetsAPrefix`).
* `find_nearest` cuts each bucket in order of age. `KademliaTable.FindNearestExactIff` says for which
  counts it is exact on every table: those of at least K (and zero). The function named
  `leading_zeros`, documented as a count of leading zeros, returns the position of the highest
  differing bit; `KademliaTable.BucketIsHighestBit` states what it does.
* An odd log and the log that repeats its last message share a Merkle root
  (`Merkle.OddLogAmbiguous`). `Merkle.SameRootIff` says exactly which logs share one, and
  `Merkle.DiffCompletesIff` exactly when the diff completes a remote log. `compute_diff` is documented
  to return the messages the remote lacks; it only looks at root and length, and the model does too.
* Popping only expired heads equals filtering exactly when no expired time stands behind a live one
  (`RateLimit.DropIsKeepIff`), which a monotone clock guarantees (`RateLimit.DequeIsFilter`).

## Files

`MicroRaft.dfy` (node), `LogRepair.dfy`, `Replication.dfy`, `MajorityCommit.dfy`, `CatchUp.dfy` (log
results), `MicroVotes.dfy` (its votes); `RaftElection.dfy` (node), `ElectionSafety.dfy`,
`ElectionProgress.dfy`; `ReorderBuffer.dfy`, `ConsumerGroups.dfy`, `Coordination.dfy`, `Coordinator.dfy`,
`Dedup.dfy`, `NodeRun.dfy`, `ExactlyOnce.dfy`, `NodeDelivery.dfy`, `OrderedBroadcast.dfy`;
`KademliaTable.dfy`, `KademliaHistory.dfy`, `TopK.dfy`, `Lookup.dfy`, `LookupRounds.dfy`; `Merkle.dfy`;
`RateLimit.dfy`, `GateHistory.dfy`; `StableSort.dfy` and `Wrappers.dfy` are shared. `dafny verify dfyconfig.toml` checks everything.

## Model

| member | source | states |
|---|---|---|
| Replication.PrefixAgreement | coordination/raft.py:198-244 | any two nodes' applied commands, at any two moments of a run with one leading node, are prefixes of one another |
| Replication.AppliedIsCommittedPrefix | coordination/raft.py:198-244 | every node has applied a prefix of the leader's committed commands, and the leader all of them |
| Replication.InvStep | coordination/raft.py:146-431 | every step of the cluster keeps logs prefixes of the leader's log, applied commands equal to the committed part, and every message in flight a snapshot; nothing shrinks |
| Replication.RunGrows | coordination/raft.py:198-244 | logs, commit indices, terms and applied sequences only grow along a run, and the leader's log is only extended |
| Replication.HandleSynced | coordination/raft.py:146-233 | any RPC, stale or not, keeps a node in step with the leader; success means the whole snapshot is held |
| LogRepair.AppendAllMeaning | coordination/raft.py:217-226 | the append loop on a log-matching follower: a stretch inside the common prefix changes nothing, any other leaves exactly the leader's log up to its end |
| LogRepair.PrevCheckMeaning | coordination/raft.py:208-215 | the consistency check passes exactly when the snapshot starts inside the common prefix |
| LogRepair.LateAppendsHarmless | coordination/raft.py:198-226 | any stream of the leader's snapshots, late, repeated or reordered, keeps log matching and never shortens the common prefix |
| LogRepair.ExchangeMeaning | coordination/raft.py:343-388 | one send-and-answer round succeeds exactly when the next index is within one of the common prefix, and otherwise only decrements it |
| LogRepair.RepairSucceeds | coordination/raft.py:343-388 | repair ends in success as soon as the rounds make up for the excess of the next index over the common prefix; the follower then starts with the whole leader log |
| LogRepair.RepairWithinNextIndex | coordination/raft.py:343-388 | `next_index` rounds are always enough |
| MajorityCommit.CommittedIsHeldByMajority | coordination/raft.py:374-403 | in timely runs `match_index` never exceeds the shared prefix and everything committed is in the logs of a strict majority |
| MajorityCommit.CommittableIsHeld | coordination/raft.py:390-403 | an index the commit rule accepts is held by a strict majority of the nodes, given truthful match indices |
| MajorityCommit.CreditGuardIff | coordination/raft.py:380-384 | crediting answers to snapshots that ended at k with a log of n entries is always truthful exactly when k equals n |
| MajorityCommit.CommitGuardIff | coordination/raft.py:380-403 | after every timely run, processing an answer to a snapshot that ended at k with a log of n entries leaves the committed part held by a majority exactly when k equals n |
| MajorityCommit.EarlyCommit | coordination/raft.py:380-384 | a run, with a proposal between send and answer, that commits an entry held by one node of three |
| CatchUp.PeerCatchesUp | coordination/raft.py:343-388 | from every reachable state in which the node leads, a bounded continuation of heartbeats, deliveries and answers makes a given peer hold the leader's whole log |
| CatchUp.CommitReachesEnd | coordination/raft.py:343-403 | if its last entry is of the current term, a bounded continuation with a majority of peers commits and applies the leader's whole log |
| CatchUp.DeliveryEffect | coordination/raft.py:198-244 | in every run a snapshot that reaches a node is accepted exactly when it starts within the node's log; the log then reaches at least to its end, and the commit index it carries, as far as the log goes, is committed and applied; a refused one changes nothing |
| CatchUp.FollowerCommits | coordination/raft.py:228-244 | from every reachable state in which the node leads, a bounded continuation makes a given peer hold the leader's log, have its commit index, and have applied what it has applied |
| CatchUp.LoneLeaderCommits | coordination/raft.py:426-429 | in every run a leader without peers has committed and applied its whole log |
| CatchUp.ProposalIsLast | coordination/raft.py:407-431 | a command proposed at the sitting leader becomes the last entry, of its term, at the index the proposer is told |
| Replication.ProposalIsBroadcast | coordination/raft.py:343-372 | a proposal puts in flight exactly what it hands to the network: one message to each peer, in the order of the list |
| MicroVotes.VoteGrantedIff | coordination/raft.py:169-196 | a vote request is granted exactly when its term is current, the vote is free or its candidate's, and its log is up to date; the grant is all that is recorded |
| MicroVotes.TermObserved | coordination/raft.py:146-167 | any RPC of a newer term is adopted and makes the node a follower; otherwise term and role stay |
| MicroVotes.ElectedIffMajority | coordination/raft.py:287-302 | the count wins exactly when the node and its grants are a strict majority of peers and node |
| MicroVotes.ElectionIsTwoSteps | coordination/raft.py:273-316 | an uninterrupted election is the cluster's timeout followed by its win or its loss, decided by a strict majority |
| MicroVotes.OneVoteUnlessWon | coordination/raft.py:169-196 | a node that does not win supports at most one candidate per term, whatever it is sent and however often it stands |
| MicroVotes.TwoVotesAfterWinning | coordination/raft.py:307-316 | a node that won a term can then grant another candidate of that term |
| MicroVotes.ElectableHoldsCommitted | coordination/raft.py:186-194 | after every timely run, a node that could gather the grants of a strict majority holds everything the leader has committed |
| MicroRaftNode.GreatestCommittable | coordination/raft.py:390-403 | the commit target is the greatest current-term index beyond the commit index with a majority of acknowledgements, or the commit index itself |
| MicroRaftNode.CommitUpToStep | coordination/raft.py:390-403 | each iteration of the commit scan commits and applies its index or changes nothing, so the scan reaches the greatest one |
| MicroRaftNode.MicroRaft.ApplyCommitted | coordination/raft.py:235-244 | the loop hands the commands between `last_applied` and `commit_index` to the callbacks, once each and in order |
| MicroRaftNode.MicroRaft.HandleAppendEntries | coordination/raft.py:198-233 | the in-place handler computes the check, the append fold, the commit index and the application of the specification |
| MicroRaftNode.MicroRaft.HandleRequestVote | coordination/raft.py:169-196 | grants and records a vote exactly under the term, vote and log conditions |
| MicroRaftNode.MicroRaft.HandleRpc | coordination/raft.py:146-167 | adopts a newer term, steps down, and dispatches |
| MicroRaftNode.MicroRaft.StartElection | coordination/raft.py:273-305 | an election that nothing interrupts makes the node leader exactly when its own and the granted votes reach a majority, else follower |
| MicroRaftNode.MicroRaft.Stand | coordination/raft.py:275-277 | before the first wait the term is raised and the node votes for itself |
| MicroRaftNode.MicroRaft.Conclude | coordination/raft.py:301-305 | after the last wait the count alone decides, whatever the node has become meanwhile |
| MicroRaftNode.MicroRaft.RequestVotes | coordination/raft.py:279-299 | the peers are asked in order, each with the node's term and own last entry, until a majority is reached; stopping there decides the election as counting all grants would |
| MicroRaftNode.MicroRaft.BecomeLeaderInPlace | coordination/raft.py:307-316 | sets every peer's next and match index and clears the vote |
| MicroRaftNode.MicroRaft.BroadcastAppendEntries | coordination/raft.py:343-372 | builds, peer by peer, exactly the snapshot from the peer's next index on |
| MicroRaftNode.MicroRaft.HandleAppendReply | coordination/raft.py:380-388 | credits the current log length and updates the commit index, or decrements the next index |
| MicroRaftNode.MicroRaft.UpdateCommitIndex | coordination/raft.py:390-403 | the scan with application at each hit equals one jump to the greatest committable index followed by one application |
| MicroRaftNode.MicroRaft.ProposeCommand | coordination/raft.py:407-431 | only a leader appends, with its term and the next index, broadcasts, and commits at once when it has no peers |
| ElectionSafety.OneVotePerTerm | phase0/raft.py:113-175 | in every run a node supports at most one candidate per term, its own candidacy included |
| ElectionSafety.HandlersKeepVotes | phase0/raft.py:113-258 | no handler lowers the term or changes a vote cast in the present term |
| ElectionSafety.OneLeaderPerTerm | phase0/raft.py:113-217 | no two nodes ever become leader in one term, given faithful counting and that any two nodes need more votes together than there are members |
| ElectionSafety.FullListsOverlap | phase0/raft.py:120-122 | peer lists that name every member once, itself included, give overlapping quorums |
| ElectionSafety.LoneListsTwoLeaders | phase0/raft.py:113-129 | two nodes that list only themselves both lead term 1, and nothing is miscounted |
| ElectionSafety.LeadersOfOneTerm | phase0/raft.py:189-217 | two nodes that lead at once in the same term are the same node |
| ElectionSafety.TallyStep | phase0/raft.py:113-217 | every step keeps each candidate's tally equal to the set of members it counted, each of whom supports it, and each leader backed by as many as it needs |
| ElectionSafety.CountTruthfulIff | phase0/raft.py:197-217 | counting a response keeps the tally equal to the distinct backers exactly when it names this candidate and its voter is new |
| ElectionSafety.TwoLeaders | phase0/raft.py:78-89 | a run of three nodes in which an overheard grant makes two leaders of one term |
| ElectionSafety.TwoLeadersByRepeat | phase0/raft.py:212-217 | a run of five nodes in which every response reaches only its addressee, and one that arrives twice makes two leaders of one term |
| ElectionProgress.NamedLeaderHasLed | phase0/raft.py:236-248 | in every run a node that names another as leader is a follower, and the named node has led a term not beyond its own |
| ElectionProgress.HeartbeatObeyed | phase0/raft.py:236-258 | a heartbeat of at least the receiver's term leaves it a follower of the sender in that term, its log extended at its end; any other changes nothing |
| ElectionProgress.HeartbeatsReplicateNothing | phase0/raft.py:221-234 | in every run the heartbeats carry no entries, and logs and commit indices stay as they began |
| ElectionProgress.RequestGrantedIff | phase0/raft.py:157-183 | a vote request is granted exactly when it is another node's, of a current term, and the vote in that term is free or its candidate's |
| ElectionProgress.ElectionCanSucceed | phase0/raft.py:113-217 | from every reachable state a node with n names on its list can win the next term by one request to, and one response from, each of any n / 2 others that are not ahead of it |
| ElectionProgress.LeadsAtOnceIff | phase0/raft.py:113-129 | a node whose election timer fires leads at once exactly when its list has at most one name |
| ElectionProgress.LeaderCanBeFollowed | phase0/raft.py:221-258 | from every reachable state a leader whose term nobody is beyond can be followed by everybody, with one heartbeat to each |
| RaftElection.RaftNode.BeginElection | phase0/raft.py:113-142 | the candidate's new state, immediate victory of a lone node, and the requests to all other peers |
| RaftElection.RaftNode.HandleRequestVote | phase0/raft.py:157-183 | term adoption, vote and response |
| RaftElection.RaftNode.HandleRequestVoteResponse | phase0/raft.py:197-217 | stepping down, ignoring stale answers, counting and winning |
| RaftElection.RaftNode.HandleAppendEntries | phase0/raft.py:236-258 | adopting the sender's term and appending its entries without touching the vote |
| ReorderBuffer.GapFree | coordination/consumer_group.py:61-86 | for any stream at all, what is delivered is start+1, start+2, … up to the offset, once each and in order, and comes from the stream |
| ReorderBuffer.RestartGapFree | coordination/consumer_group.py:104-129 | restarting from the saved offset with an empty buffer continues the same sequence, whatever arrives |
| ReorderBuffer.RestartSameAsUninterrupted | coordination/consumer_group.py:104-129 | replaying what lies beyond the saved offset, in any order, ends exactly as the run that was never interrupted |
| ReorderBuffer.StreamCanonical | coordination/consumer_group.py:61-86 | for distinct numbers, delivered is the longest gap-free run above the start and pending is the rest, strictly sorted |
| ReorderBuffer.OrderIndependent | coordination/consumer_group.py:61-86 | two arrival orders of the same messages end in the same state with the same deliveries |
| ReorderBuffer.AllArrived | coordination/consumer_group.py:61-86 | when exactly the numbers up to n have arrived, all are delivered and the buffer is empty |
| ReorderBuffer.CleanIff | coordination/consumer_group.py:74-86 | the buffer ends without stale or repeated numbers exactly when no future number arrived while a copy was waiting |
| ReorderBuffer.KeepsUpIff | coordination/consumer_group.py:61-86 | in every continuation all numbers up to n are delivered once they have arrived, exactly when no number has been buffered while a copy was waiting |
| ReorderBuffer.RepeatBlocks | coordination/consumer_group.py:79-86 | a stream whose repeated number blocks a later one for good |
| ReorderBuffer.LateStartStarves | coordination/consumer_group.py:61-86 | whoever never gets the number after its offset is never handed anything |
| ConsumerGroups.ConsumerGroup.AddCallback | coordination/consumer_group.py:52-59 | adds a callback and makes sure there is a buffer |
| ConsumerGroups.ConsumerGroup.OnMessage | coordination/consumer_group.py:61-77 | the in-place handler is one move of the topic's channel, with every callback called with what it delivers; without a buffer it ignores a stale number and otherwise ends in a KeyError, after delivering an expected one |
| ConsumerGroups.ConsumerGroup.FlushBuffer | coordination/consumer_group.py:79-86 | the pop loop drains exactly what the channel's flush delivers, to every callback |
| ConsumerGroups.ConsumerGroup.Deliver | coordination/consumer_group.py:88-94 | every callback of the topic, and no other, gets the payload |
| ConsumerGroups.ConsumerGroup.CommitOffset | coordination/consumer_group.py:96-102 | moves an offset forward only |
| ConsumerGroups.ConsumerGroup.LoadState | coordination/consumer_group.py:122-129 | restores the offsets and nothing else |
| ConsumerGroups.ArrivalFailsIff | coordination/consumer_group.py:61-86 | a consumer raises a KeyError exactly when it has not subscribed and the number is beyond its offset; it then hands out and keeps nothing, and its offset follows the numbers that come in order |
| ConsumerGroups.ReceiveAllFollowsChannel | coordination/consumer_group.py:61-94 | over any stream every callback has received exactly the channel's deliveries and nothing else changed |
| ConsumerGroups.RestoredConsumerResumes | coordination/consumer_group.py:112-129 | save, restore and resubscribe: over both lives the callbacks see consecutive numbers |
| Coordination.GroupCoordinator.JoinGroup | coordination/consumer_group.py:144-163 | a new name is seated last with a fresh consumer, a known one gets its consumer back, and both tables say so |
| Coordination.GroupCoordinator.LeaveGroup | coordination/consumer_group.py:165-175 | takes away just that member, keeps the order of the others, tells whether it was there, and keeps the two tables in agreement |
| Coordination.GroupCoordinator.MemberCount | coordination/consumer_group.py:191-193 | the listed members of a group are as many as its consumers |
| Coordination.GroupCoordinator.SubscribeMember | coordination/consumer_group.py:52-59 | a member found by its name gets one more callback, and nobody else changes |
| Coordination.GroupCoordinator.Broadcast | coordination/consumer_group.py:185-189 | the message reaches the group's members in order up to and including the first that fails with a KeyError, if any, and nobody else changes |
| Coordination.GroupCoordinator.ToAll | coordination/consumer_group.py:185-189 | the delivery loop, for distinct consumers in any state |
| CoordinatorNode.Coordinator.OrderedBroadcast | coordination/coordinator.py:93-127 | a leader numbers the message and proposes it; anyone else changes nothing |
| CoordinatorNode.Coordinator.Commit | coordination/coordinator.py:129-155 | sends a sequenced command to its group unless its id is logged, and logs it unless the broadcast ends in a KeyError |
| Dedup.DedupLog.Check | coordination/dedup.py:72-79 | an id is processed while its entry has not expired |
| Dedup.DedupLog.MarkProcessed | coordination/dedup.py:81-90 | an existing entry keeps its expiry |
| Dedup.DedupLog.Sweep | coordination/dedup.py:98-105 | removes exactly the entries whose expiry has passed |
| Dedup.MarkTakesEffectIff | coordination/dedup.py:72-90 | marking makes an id processed exactly when no expired entry of it is still in the log |
| Dedup.ProcessedForItsLifetime | coordination/dedup.py:72-105 | a new entry reads as processed for exactly its lifetime, whatever is marked and swept in between |
| Dedup.MsgIdInjective | coordination/coordinator.py:142 | different topics or numbers give different message ids, whatever the topic contains |
| Dedup.DecimalReads | coordination/coordinator.py:142 | the number in an id is written in decimal digits without leading zeros, and reads back |
| ExactlyOnce.RepeatsAreInvisible | coordination/coordinator.py:129-155 | if a group's members are all subscribed, a stream of any length, with each repeat looked up before its entry expires, leaves the group as sending each message once would, whatever happens in other groups |
| ExactlyOnce.RepeatsInvisibleIff | coordination/coordinator.py:141-155 | repeats in time are invisible to a group's subscribed members in every stream exactly when all members are subscribed or none is |
| ExactlyOnce.RepeatBufferedTwice | coordination/coordinator.py:141-155 | a repeat that is never logged and that a subscribed member buffers twice, because the next member is not subscribed |
| ExactlyOnce.OnceNeverPasses | coordination/consumer_group.py:61-77 | sent once each in increasing order, numbers that members before are still missing never reach those behind |
| ExactlyOnce.EveryConsumerExactlyOnce | coordination/coordinator.py:129-155 | if moreover the numbers are 1 to n, every callback of a fresh member got the payloads of 1 to n once each and in order, and nothing waits |
| OrderedBroadcast.LogIsNumbered | coordination/coordinator.py:106-122 | in every run with one publisher each topic's messages sit in the leader's log with the numbers 1, 2, 3, … |
| OrderedBroadcast.AppliedIsNumbered | coordination/coordinator.py:93-155 | what any node has applied is numbered 1, 2, 3, … in every topic and is a prefix of what the publisher has committed |
| NodeDelivery.ServedRun | coordination/coordinator.py:129-166 | through any commits numbered 1, 2, 3, …, clean-ups, joins, leaves and subscriptions a member's callbacks hold a prefix of its topic's payloads, and all of them if the group's members are subscribed at every commit |
| NodeDelivery.NextReceived | coordination/consumer_group.py:61-86 | the topic's next message, when it arrives, extends the prefix by exactly what is delivered |
| OrderedBroadcast.EveryConsumerGetsAPrefix | coordination/coordinator.py:93-155 | on every node, whoever joins, leaves or subscribes meanwhile, a consumer that was fresh and does not leave has received exactly a prefix of its topic's committed payloads, once each and in order |
| OrderedBroadcast.EveryConsumerGetsAll | coordination/coordinator.py:93-155 | if at each commit of the topic its group's members are all subscribed, it has received all that the node has applied |
| OrderedBroadcast.NewcomerGetsAll | coordination/coordinator.py:93-161 | so has the callback of whoever joins the topic's group under a new name and subscribes before anything is committed |
| NodeDelivery.NewcomerIsFresh | coordination/consumer_group.py:144-165 | whoever joins under a new name and subscribes is seated last, has one callback and has missed nothing; the other groups stay as they were |
| NodeDelivery.LeaverIsGone | coordination/consumer_group.py:167-177 | whoever leaves is no longer in the group |
| NodeRun.CommitWithoutGroup | coordination/coordinator.py:141-155 | a message whose topic has no group is logged all the same |
| NodeRun.CommitFailsIff | coordination/coordinator.py:141-155 | a commit ends in a KeyError exactly when its message is not yet processed and some member of the topic's group has not subscribed and is behind its number |
| NodeRun.CleanUpForgets | coordination/dedup.py:98-105 | a clean-up forgets exactly the ids whose time has passed, and touches no group |
| KademliaTable.XorInjective | phase0/dht_kademlia.py:27-29 | at one distance from a target there is at most one id |
| KademliaTable.BucketIsHighestBit | phase0/dht_kademlia.py:31-34 | the bucket of an id is the highest set bit of its distance to the own id, and no other |
| KademliaTable.OwnBucket | phase0/dht_kademlia.py:31-34 | the own id belongs to the last bucket |
| KademliaTable.KBucket.AddNode | phase0/dht_kademlia.py:48-75 | refresh, append, evict or refuse |
| KademliaTable.KBucket.MarkFailure | phase0/dht_kademlia.py:77-80 | charges one failure to the contact, in place |
| KademliaTable.AddKeepsInv | phase0/dht_kademlia.py:48-75 | adding keeps at most K contacts, one per id, ordered by last_seen |
| KademliaTable.LiveNeverDisplaced | phase0/dht_kademlia.py:48-80 | over any run of one bucket a contact with fewer than three failures in all stays, with just those failures |
| KademliaTable.LeavesIffEvicted | phase0/dht_kademlia.py:65-75 | a contact leaves in one operation exactly when it is the oldest of a full bucket, has failed three times and a newcomer arrives |
| KademliaTable.LiveStaysInTable | phase0/dht_kademlia.py:112-118 | the same over any run of the whole table |
| KademliaTable.TableRun | phase0/dht_kademlia.py:100-118 | after any run under a monotone clock every contact sits only in its own bucket and every bucket is in order and within K |
| KademliaTable.PlacedRun | phase0/dht_kademlia.py:100-118 | after any run, even with a clock running backwards, every contact is there once, in its own bucket, and no bucket exceeds K |
| KademliaTable.BucketOfRun | phase0/dht_kademlia.py:108-118 | a bucket after a run is what its own operations make of it |
| KademliaHistory.ContactsRemember | phase0/dht_kademlia.py:48-80 | after any run every contact has the id, address and pubkey of the addition that stored it, at the time it was first seen; it was last seen at the latest addition of its id; its failures are those charged since it was stored |
| KademliaHistory.AddedIffPresent | phase0/dht_kademlia.py:48-75 | an addition reports success exactly when the id is in the bucket afterwards |
| KademliaHistory.GenuineAfterRun | phase0/dht_kademlia.py:48-80 | if all additions carry the id of their pubkey, so does every stored contact |
| KademliaTable.FindNearestOfOldest | phase0/dht_kademlia.py:82-126 | for any count the answer is exactly the count nearest of the count oldest contacts of every bucket, nearest first |
| KademliaTable.FindNearestExact | phase0/dht_kademlia.py:120-126 | with count at least K the answer is exactly the count nearest of all stored contacts, nearest first |
| KademliaTable.FindNearestExactIff | phase0/dht_kademlia.py:82-84 | the answer is exact on every table exactly for counts of at least K, and zero |
| KademliaTable.RoutingTable.AddNode | phase0/dht_kademlia.py:112-114 | changes only the id's own bucket |
| KademliaTable.RoutingTable.MarkFailure | phase0/dht_kademlia.py:116-118 | changes only the id's own bucket |
| KademliaTable.RoutingTable.Nearest | phase0/dht_kademlia.py:120-126 | the collecting loop, the sort and the cut |
| TopK.MergeIsTop | phase0/dht_kademlia.py:256-263 | merging new elements into a truncated top-K list and truncating again gives the top-K of everything |
| TopK.TopMonotone | phase0/dht_kademlia.py:261-263 | with more heard, no position of the top-K gets farther |
| TopK.TakeIsTop | phase0/dht_kademlia.py:261-263 | sorting and truncating a list with distinct distances gives its top-K |
| TopK.TopUnique | phase0/dht_kademlia.py:261-263 | a set has only one top-K list |
| IterativeLookup.LookupIsExact | phase0/dht_kademlia.py:216-270 | after any number of rounds the shortlist is the K nearest of all ids known at the start or reported since; no pubkey is asked twice; at most alpha peers a round are asked |
| IterativeLookup.LookupIsOneShot | phase0/dht_kademlia.py:216-270 | the shortlist equals what sorting everything heard once and keeping the first K would give |
| IterativeLookup.RoundKeeps | phase0/dht_kademlia.py:229-263 | one round keeps that, although it truncates |
| IterativeLookup.NeverFartherAway | phase0/dht_kademlia.py:229-268 | position by position further rounds bring nothing farther |
| IterativeLookup.ExhaustedIsClosed | phase0/dht_kademlia.py:231-233 | when nobody is left to ask, every listed peer has been asked, and whoever one of them reports is listed or farther than all K listed |
| LookupRounds.LookupStops | phase0/dht_kademlia.py:229-268 | fewer rounds than allowed are made only when nobody is left to ask or a round after the first left the nearest listed peer as it was, and no round is made after such a one |
| LookupRounds.StopsWhenSettled | phase0/dht_kademlia.py:229-268 | the same from any state of the loop |
| LookupRounds.AsksNearestUnasked | phase0/dht_kademlia.py:231-237 | a round asks the first alpha of the shortlist that have not been asked, in order, and all of them if there are fewer |
| LookupRounds.OffersAreReported | phase0/dht_kademlia.py:245-251 | the table is offered exactly the reported entries not asked yet, with their own id, address and pubkey |
| LookupRounds.ChargedIffBroken | phase0/dht_kademlia.py:252-254 | a query charges a failure to the peer it asked exactly when it raises, and to nobody else |
| LookupRounds.ReturnsOnlyKnown | phase0/dht_kademlia.py:216-270 | whatever is returned is a contact the table held or what a peer that was asked reported, unaltered |
| LookupRounds.LookupAfterRun | phase0/dht_kademlia.py:100-270 | the lookup is exact on every table that genuine additions, with any failures between them, have built from the empty one |
| IterativeLookup.StartIsExact | phase0/dht_kademlia.py:221 | the table's answer is the K nearest ids the table knows |
| IterativeLookup.GatherResults | phase0/dht_kademlia.py:235-254 | a collected node has been reported by a queried peer, and a reported one is collected or has been asked |
| IterativeLookup.MergeMembers | phase0/dht_kademlia.py:257-259 | the merge keeps the shortlist, covers every collected pubkey and repeats none |
| IterativeLookup.KademliaDHT.Find | phase0/dht_kademlia.py:216-270 | the five-round loop with its early exits computes the rounds, whatever others do to the table meanwhile, and the table sees exactly their operations, the offered entries and the failures |
| IterativeLookup.KademliaDHT.Query | phase0/dht_kademlia.py:235-254 | the querying loop collects and teaches the table as specified |
| IterativeLookup.KademliaDHT.Ask | phase0/dht_kademlia.py:238-254 | one query: what is read before an exception counts, and the exception charges a failure |
| IterativeLookup.KademliaDHT.Learn | phase0/dht_kademlia.py:245-251 | the entries not yet contacted are collected and added to the table |
| IterativeLookup.KademliaDHT.MergeInto | phase0/dht_kademlia.py:257-259 | the merging loop |
| Merkle.MerkleTree.constructor | depin/merkle_sync.py:65-74 | the root of any list, the empty one included |
| Merkle.MerkleTree.Build | depin/merkle_sync.py:76-105 | the level-by-level loop computes the root |
| Merkle.RootIsFullTree | depin/merkle_sync.py:89-105 | building with a duplicated odd last node at every level is building the full binary tree over the padded leaves |
| Merkle.SameRootIff | depin/merkle_sync.py:65-112 | two logs have equal roots exactly when their padded leaves are equal |
| Merkle.RootIdentifiesEqualLength | depin/merkle_sync.py:65-112 | logs of one length have equal roots exactly when they are equal |
| Merkle.RootIdentifiesNoRepeats | depin/merkle_sync.py:65-112 | logs without repeated messages have equal roots exactly when they are equal, whatever the lengths, apart from the empty log and the one message hashed for it |
| Merkle.LongerRepeats | depin/merkle_sync.py:92-94 | a longer log that shares the root of a shorter one repeats a message |
| Merkle.OddLogAmbiguous | depin/merkle_sync.py:92-94 | an odd log and the log that repeats its last message share a root |
| Merkle.MerkleSync.ComputeDiff | depin/merkle_sync.py:182-205 | the branches on root, count and length, for any claimed count |
| Merkle.DiffIsSuffix | depin/merkle_sync.py:182-205 | what is sent follows the claimed number of messages: everything for none or fewer, nothing for as many or more or for an equal root |
| Merkle.DiffCompletesIff | depin/merkle_sync.py:182-205 | for any two logs the remote followed by its diff is the local log exactly when the remote is a prefix and is as long or has another root |
| Merkle.DiffCompletesNoRepeats | depin/merkle_sync.py:182-205 | a prefix of a local log without repeats is always completed |
| Merkle.RepeatNeverSent | depin/merkle_sync.py:194-196 | the repeated last message of an even log is never sent |
| RateLimit.EveryWindowWithinLimit | phase0/sig_gate.py:45-54 | every window, wherever it opens, holds at most the limit of a sender's accepted messages |
| RateLimit.RefusedIffFull | phase0/sig_gate.py:48-54 | a message is let through exactly when fewer than the limit were, in the window that ends with it: its opening end left out at the gate, included at the relay |
| RateLimit.StoredIsEnough | phase0/sig_gate.py:48-53 | the stored times serve every later check as the whole history would |
| RateLimit.DropIsKeepIff | relay/server.py:385-388 | popping the head equals filtering exactly when no expired time stands behind a live one |
| RateLimit.DequeIsFilter | relay/server.py:380-392 | under a monotone clock the deque holds, admits and refuses exactly what the filter does |
| RateLimit.RelayWindow | relay/server.py:380-392 | at the relay every closed second holds at most the configured number of a peer's messages |
| RateLimit.RelayRefusesIff | relay/server.py:380-392 | the relay lets a message through exactly when fewer than the configured number of its peer's were in the second up to it, both ends included |
| RateLimit.RelayLimiter.CheckRateLimit | relay/server.py:380-392 | the popping loop, the test and the append |
| RateLimit.SigGate.CheckRate | phase0/sig_gate.py:45-54 | the filtering, the test and the append |
| RateLimit.SigGate.Filtered | phase0/sig_gate.py:50 | the comprehension keeps exactly the live times, in order |
| RateLimit.SigGate.Check | phase0/sig_gate.py:56-95 | the chain of tests computes the verdict, counts it under one heading, and only a verified message uses up quota |
| RateLimit.SigGate.SetAllowlist | phase0/sig_gate.py:37-39 | the list set last is the one in force |
| RateLimit.SigGate.Deny | phase0/sig_gate.py:41-43 | one more sender is refused |
| GateHistory.GateJudges | phase0/sig_gate.py:45-95 | after any run under a monotone clock a message passes exactly when it is complete, verified, from a sender of the allowlist set last and never denied, fewer than the limit of whose messages passed less than the window ago; and each rejection is counted under its own reason |
| GateHistory.GateWindow | phase0/sig_gate.py:45-95 | in no run does more than the limit of one sender's messages pass within a window |
| GateHistory.StatsAreVerdicts | phase0/sig_gate.py:56-95 | in every run the four counters are the numbers of messages that met each verdict |

## Left out

- MicroRaft election safety, leader completeness and safety with several leading nodes: the handlers do not support them (`coordination/raft.py:155-161`, `198-215`, `287-302`, `310`), so runs have one leading node.
- MicroRaftNode.MicroRaft.StartElection: the election that nothing interrupts; other handlers may run between `Stand` and `Conclude`, which the cluster model has as separate steps.
- Entry timestamps, and log entries with indices below 1 or terms below 0.
- Sockets, tasks, timers, random timeouts, JSON, SQLite and printing: nondeterministic steps, clock parameters and maps stand for them.
- Exceptions raised by callbacks: both callback loops swallow them, so a callback is the list of what it was called with.
- ConsumerGroups.ConsumerGroup.LoadState: the restored consumer owns its offsets, while the source shares the dictionary it is given.
- ConsumerGroups.ConsumerGroup.GetState: the saved topic names and the total of waiting messages, which restoring ignores.
- Streams in which `commit` moves an offset forward past undelivered numbers; the method itself is modelled.
- `list_groups` and the other listings of groups.
- ExactlyOnce.RepeatsAreInvisible: a repeat that is looked up after its entry has expired is sent again, because the source forgets it (`coordination/dedup.py:72-79`).
- OrderedBroadcast.EveryConsumerGetsAPrefix: one publishing coordinator, because every coordinator starts its numbers afresh (`coordination/coordinator.py:74`).
- The log fields of vote requests in `phase0/raft.py`, which no handler reads, and its write-ahead log beyond the appended entries.
- `KBucket.remove_node`, table refresh, and storing, fetching and replicating values in the DHT.
- IterativeLookup.KademliaDHT.Find: no negative `alpha`, for which the slice would drop peers from the end.
- IterativeLookup.LookupIsExact: assumes that pubkeys and node ids correspond one to one, in the table and in the answers.
- Node ids given as byte strings of other lengths, which the source would keep apart from equal values.
- `MerkleTree.get_proof` and `_node_at`, a placeholder by their own comments, and the node objects below the root.
- Logs holding a message of 128 hexadecimal digits, which could pass for a pair of digests.
- Cryptography, handshakes, identity, adapters, the SDK, the command line, HTTP and WebSocket relays.
- `phase0/dht.py`, the device registry, the ring buffer, the chronicle database and reputation scores.
