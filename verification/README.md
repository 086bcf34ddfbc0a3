# A verified model of the distributed sync system

The system is five stateful components: a Raft consensus module, a lock manager replicated by it,
a geo-distributed replicator with vector clocks, a message queue on a consistent hash ring, and a
set of LRU caches kept coherent by invalidation. Each is modelled twice. A class with the fields of
the original updates them in place, loop by loop, and every method is proved to do what a function
on values says. Those functions are the steps of runs in which messages are lost, repeated and
reordered and handlers of different nodes interleave freely, and the theorems are about every run.

| file | content |
|---|---|
| `Commands.dfy`, `Options.dfy`, `Sets.dfy`, `Sequences.dfy` | lock commands, optional values, majorities, lists without repetition |
| `RaftNode.dfy`, `RaftServer.dfy` | one Raft node: the handlers as functions, and as an object |
| `RaftCluster.dfy` | the cluster, the network, the steps, and the hypotheses A, B and C |
| `RaftElection.dfy`, `RaftLogs.dfy`, `RaftSafety.dfy`, `RaftCommit.dfy` | the Raft theorems, bottom up |
| `RaftCatchUp.dfy`, `RaftOrigins.dfy` | how a follower is brought up to date; where entries come from |
| `RaftMoves.dfy`, `RaftWitness.dfy` | prolonging a run step by step; runs that break the theorems without A, B or C |
| `Proposals.dfy`, `RaftProposals.dfy`, `ProposalWitness.dfy` | the futures that proposals wait on, and what their answers mean |
| `LockTable.dfy`, `LockManager.dfy` | locks as values, the lock manager object |
| `WaitGraph.dfy`, `Searches.dfy`, `Detector.dfy` | closed walks and trees, the search, the deadlock detector |
| `LockSafety.dfy`, `LockEffects.dfy`, `Deadlocks.dfy`, `ReplicatedLocks.dfy` | what every run of the lock table keeps, also on top of Raft |
| `VectorClocks.dfy`, `Replication.dfy`, `GeoReplicator.dfy`, `ReplicationRuns.dfy`, `RequestedValues.dfy` | clocks, last-writer-wins, the replicator object, its runs, whose values are stored |
| `HashRing.dfy` | the consistent hash ring |
| `MessageQueue.dfy`, `QueueNode.dfy`, `Deliveries.dfy` | the queue, its runs, its objects, and what consumers can rely on |
| `Lru.dfy`, `Recency.dfy`, `Coherence.dfy`, `CacheNode.dfy` | the LRU cache, what it evicts, the invalidation protocol, the cache objects |

## Raft, and the three places where it leaves the paper

The reference is Ongaro and Ousterhout, "In Search of an Understandable Consensus Algorithm" (2014),
sections 5.2 to 5.4. The code differs from it in three places. Each has a name, a repair (a switch in
`RaftNode.Fixes`) and, for the code as written, a guard that the node can check on its own state and
the message before it acts; every theorem says which it uses, and holds with the repair or with the
guard in every step of the run.

- **A** (src/consensus/raft.py:265): an append of the current term clears the vote of that term. Guard:
  a node that knows a leader of the term and has no vote of it on record is not asked for one by a
  candidate that is up to date (`RaftNode.VotesBehindLeader`). `RaftElection.GuardForbidsSecondVote` derives from
  it that no second vote is granted, which is exactly what keeps votes unique in a step and in a run
  (`VotesOnceExactly`, `RunsVoteOnceExactly`).
- **B** (src/consensus/raft.py:277-281): a non-empty append cuts the log behind it even where the log
  agrees with it. Guard: the append is empty, reaches the end of the log, or contradicts it.
- **C** (src/consensus/raft.py:216-227): a reply is counted without checking that it answers the
  present leadership. Guard: a leader is not told of a success of another term.

| theorem | A | B | C |
|---|---|---|---|
| `RaftLogs.ShapeAlways`, `RaftElection.WinsTheTermItAskedFor`, `RaftCommit.AppendsWereSent`, `RaftOrigins.EntriesWereProposed` | | | |
| `RaftElection.ElectionSafety` | x | | |
| `RaftProposals.TrueMeansOwnCommandExactly` | x | | |
| `RaftLogs.LogMatching`, `RaftCatchUp.FollowerCatchesUp` (in a run with one leader per term) | | | |
| `RaftCommit.LeaderCompleteness`, `StateMachineSafety`, `CommitsNeverUndone`, `AgreementAcrossTime`, `FollowerCommitsExactly`, `RaftProposals.AnsweredExactly` | x | x | x |

`RaftWitness` shows that none of the three can be dropped, even where the other two are repaired:
without A two nodes lead one term, against election safety; without B a committed entry is lost, and
without C an entry is committed that a minority holds, and in both cases two nodes apply different
commands at one index, against state machine safety. `ForgetsVoteExactly`, `TruncatesExactly` and `CountsStaleExactly` say
exactly when the code as written departs from its repair.

## Where the code says less than its documentation

- "Detect all cycles" (src/nodes/lock_manager.py:65) is too strong: `WaitGraph.NotEveryCycleIsReported`.
  Searches report every cycle, from whichever client they start, exactly if no edge of the graph lies on
  two cycles (`Detector.OneWay`, `Detector.ReportsAllExactly`); otherwise there is a client from which
  every search misses one. In any case the closing edges of the reported lists break every cycle
  (`WaitGraph.SearchResult`).
- A proposal is answered true once any entry is applied at its index, also another leader's, whatever is
  repaired (`ProposalWitness.TrueForAnotherCommand`). Under A the command is its own exactly if the entry
  at the index has the proposal's term (`RaftProposals.TrueMeansOwnCommandExactly`).
- A deadlock can leave no cycle in the wait-for graph: a release drops the edges of a client for every
  resource (`Deadlocks.DeadlockUnseen`), a promotion adds none to the new holder (`PromotionHidesDeadlock`),
  and a client that queues behind itself has no edge (`SelfWaitUnseen`). The graph holds every wait
  throughout a run exactly if no event drops a client that still waits or is waited for
  (`EdgesStayCompleteExactly`, `CompleteThroughoutExactly`), and then every ring of two or more clients is
  noticed (`DeadlocksNoticed`). That every reported list is a real deadlock holds of every run.
- Replicas of the lock table agree only while no lease runs out, because expiry is a local decision that
  no command records: `LockSafety.ExpiryMakesReplicasDisagree`. That is the exact condition, for one expiry pass
  (`SweepKeepsAgreementExactly`) and for a table and the replay of its commands throughout a run
  (`AgreesExactly`).
- Last-writer-wins converges, whatever the order of arrival, exactly if one entry beats all others (`Replication.ConvergesExactly`). Time
  stamps that tie, or that contradict causality, break this: `Replication.DivergenceHappens`.
- docs/architecture.md:81 has a read without another copy go to state E. The code never produces
  `EXCLUSIVE`, and `Coherence.CopiesCoherent` includes that it never appears.
- `had_copy` in the answer to an invalidation is always false (`CacheNode.CacheNode.ProcessInvalidate`),
  because the line is invalidated before its state is read.

## Model

| member | source | states |
|---|---|---|
| RaftServer.RaftServer.constructor | src/consensus/raft.py:39-61 | a fresh follower of term zero with an empty log |
| RaftServer.RaftServer.StepDown | src/consensus/raft.py:104-111 | a higher term makes the node a follower without a vote; any other term changes nothing |
| RaftServer.RaftServer.StartElection | src/consensus/raft.py:138-148 | a new term, a vote for itself, and a request with the end of its own log |
| RaftServer.RaftServer.CountVotes | src/consensus/raft.py:149-154 | the loop counts the granting peers exactly; a node that is still a candidate wins with a majority |
| RaftServer.RaftServer.BecomeLeader | src/consensus/raft.py:156-164 | every peer starts at the end of the leader's log with nothing matched |
| RaftServer.RaftServer.HandleVoteRequest | src/consensus/raft.py:177-191 | a vote is granted exactly to an up-to-date candidate when none, or that one, has the vote |
| RaftServer.RaftServer.Propose | src/consensus/raft.py:90-97 | a leader appends the entry with its term and position, registers a future under its index and ships its log; any other node refuses |
| Proposals.PendingRequests.Register | src/consensus/raft.py:95-96 | a new future takes the place of any other under its index |
| Proposals.PendingRequests.Answer | src/consensus/raft.py:254-256 | whatever is stored under the index is removed, and answered true exactly if it still waits |
| Proposals.PendingRequests.TimeOut | src/consensus/raft.py:99 | a future that still waits is cancelled, any other is left alone |
| Proposals.PendingRequests.Conclude | src/consensus/raft.py:98-102 | true exactly if the future was confirmed; otherwise whatever is stored under the index is removed |
| RaftProposals.TrueMeansOwnCommandExactly | src/consensus/raft.py:90-102 | over every run under A, a true answer means an entry of the proposal's index was applied, and it is the proposed one exactly if it has the proposal's term; under B and C too it is the committed entry of the node's own log |
| RaftProposals.AnsweredExactly | src/consensus/raft.py:90-102 | under A, B and C, a proposal that is neither cancelled nor shares its index is answered true exactly if the entry of its index was applied |
| ProposalWitness.TrueForAnotherCommand | src/consensus/raft.py:95-102 | whatever is repaired: a run in which a proposal is answered true and another leader's command was applied at its index |
| RaftServer.RaftServer.ReplicateEntries | src/consensus/raft.py:196-209 | one append for each peer, with the whole suffix of the log from its next index |
| RaftServer.RaftServer.ProcessAppendReply | src/consensus/raft.py:216-229 | steps down, advances the peer's indices and the commit index and answers what was applied, or backs off by one but not below one |
| RaftServer.RaftServer.TryAdvanceCommit | src/consensus/raft.py:231-243 | the scan that commits and applies at each replicated position ends in one jump to the highest of them |
| RaftServer.RaftServer.CountReplicas | src/consensus/raft.py:237-240 | the loop counts exactly the peers that match up to a position |
| RaftServer.RaftServer.ApplyCommitted | src/consensus/raft.py:245-256 | hands the callbacks exactly the entries between the applied and the commit index, in order, and answers the futures stored under their indices |
| RaftServer.RaftServer.HandleAppendEntries | src/consensus/raft.py:258-286 | accepts on a matching previous entry, replaces the log behind it, learns the commit index up to its own length, and answers what was applied |
| RaftNode.VoteOutcome | src/consensus/raft.py:104-191 | a vote is granted exactly if the term is not behind, no other vote is on record in it, and the log is up to date; granted or not, the answer carries the node's term after the request |
| RaftNode.AppendOutcome | src/consensus/raft.py:104-286 | an append of a term that is not behind makes the node a follower of its sender; accepted or refused, the answer carries the node's term |
| RaftNode.AppendCommits | src/consensus/raft.py:282-285 | an accepted append commits up to the announced index or the end of the log and applies that in order; a refused one commits nothing |
| RaftNode.QuorumIsMajority | src/consensus/raft.py:68-69 | a quorum is a strict majority of all nodes |
| RaftNode.AdvancesExactly | src/consensus/raft.py:231-243 | a leader commits up to the highest position of its own term that a strict majority holds, any other node nothing |
| RaftCatchUp.RefusalBacksOff | src/consensus/raft.py:228-229 | a refusal takes the peer's next index back by one, but not below one, and changes nothing else |
| RaftCatchUp.SuccessCounts | src/consensus/raft.py:222-227 | a success is recorded for that peer alone, at the end of what was sent |
| RaftCatchUp.AcceptsExactly | src/consensus/raft.py:262-275 | an append is accepted exactly if its term is not behind and the two logs agree up to what precedes its entries |
| RaftCatchUp.CatchesUp | src/consensus/raft.py:196-286 | a leader and a follower left to themselves: each refusal steps back by one, the first request that reaches into the common part is accepted, and then the follower's log begins with the leader's and the leader knows it |
| RaftCatchUp.FollowerCatchesUp | src/consensus/raft.py:196-286 | from every moment of a run with one leader per term, heartbeats alone can bring a follower that is not ahead up to date, at most as many as its next index |
| RaftOrigins.EntriesWereProposed | src/consensus/raft.py:90-94 | without hypothesis: every entry in a log, applied or in flight is a client's command, in the term of the leader it was proposed to |
| RaftNode.TopCommit | src/consensus/raft.py:231-243 | no replicated position of the current term lies above the chosen commit index, and a new one is replicated |
| RaftNode.ForgetsVoteExactly | src/consensus/raft.py:261-265 | A: a vote of the current term is forgotten exactly on an append of that term at a node that has voted |
| RaftNode.TruncatesExactly | src/consensus/raft.py:277-281 | B: replacing differs from keeping what agrees exactly if the append is non-empty, agrees, and ends before the log |
| RaftNode.CountsStaleExactly | src/consensus/raft.py:216-243 | C: what a leader records differs exactly if a stale success brings a new position; what it commits and applies, exactly if some position of its term then counts as replicated |
| RaftCluster.NodeOutcome | src/consensus/raft.py:104-286 | terms never decrease; who can be candidate or leader after each kind of step |
| RaftElection.VotesOnceExactly | src/consensus/raft.py:177-191 | a step keeps one vote per node and term exactly if it grants no second one |
| RaftElection.RunsVoteOnceExactly | src/consensus/raft.py:177-191 | over every run, votes are unique exactly if no second vote is granted |
| RaftElection.GuardForbidsSecondVote | src/consensus/raft.py:180-190 | under A, with votes traced, whoever grants a vote has given no other in the term |
| RaftElection.VotesOnceAlways | src/consensus/raft.py:177-191 | under A, over every run, a node votes for one candidate in a term, and its vote stays on record or was erased by a leader of the term |
| RaftElection.ElectionSafety | src/consensus/raft.py:138-154 | section 5.2: under A, by repair or by a guard on the node's own state, any two elections won in a term are won by one node, and any two leaders of a term are one node |
| RaftElection.WinsTheTermItAskedFor | src/consensus/raft.py:149-154 | without hypothesis: a node that wins the tally is in the term it asked votes for and holds the log it offered |
| RaftLogs.ShapeAlways | src/consensus/raft.py:90-97 | without hypothesis: an entry's index is its position plus one; terms never decrease along a log and stay within the current term |
| RaftLogs.AcceptedAppend | src/consensus/raft.py:274-281 | after an accepted append the log begins with the leader's log at sending: it is that log, or the follower's own unchanged |
| RaftLogs.LogMatching | src/consensus/raft.py:196-281 | section 5.3: where two logs agree on a term at an index they agree up to it |
| RaftSafety.CommittedInLeader | src/consensus/raft.py:177-191 | section 5.4.3: an entry on a quorum of its term is in the log of each later winner, by induction on the term |
| RaftCommit.LeaderCompleteness | src/consensus/raft.py:231-243 | section 5.4: what a quorum of a term acknowledged is in every later leader's log |
| RaftCommit.StateMachineSafety | src/consensus/raft.py:245-256 | no two nodes apply different commands at an index; applied entries are exactly the committed prefix of the log |
| RaftCommit.CommitsNeverUndone | src/consensus/raft.py:231-256 | from any earlier moment to the end of a run, commit index and applied sequence only grow |
| RaftCommit.AgreementAcrossTime | src/consensus/raft.py:245-256 | of what two nodes have applied at any two moments, one is a prefix of the other |
| RaftCommit.FollowerCommitsExactly | src/consensus/raft.py:270-285 | after an accepted append the commit index is the larger of the follower's own and the announced one, and up to the announced one the log equals the leader's log at sending |
| RaftCommit.AppendsWereSent | src/consensus/raft.py:196-209 | every append in the network is a snapshot of a leader of its term at some earlier moment |
| RaftWitness.TwoLeadersOfOneTerm | src/consensus/raft.py:265 | without the repair of A, with or without the others: a run of three nodes with two leaders of one term |
| RaftWitness.CommittedEntryLost | src/consensus/raft.py:277-281 | without the repair of B, with or without the others: a run in which two nodes apply different commands at one index |
| RaftWitness.CommittedByMinority | src/consensus/raft.py:216-227 | without the repair of C, with or without the others: a run of five nodes that commits what only a minority holds |
| RaftWitness.MinorityCommitDiverges | src/consensus/raft.py:216-227 | the same run continued: the other three nodes elect a leader that applies a different command at that index |
| LockTable.LocksStandAlone | src/nodes/lock_manager.py:145-201 | after any run, a lock depends only on the events for its own resource |
| LockSafety.TableInvAlways | src/nodes/lock_manager.py:145-201 | over every run with expiry: one holder of an exclusive lock, a queue only behind a holder, a head that conflicts with the mode held |
| LockSafety.EdgesAlwaysReal | src/nodes/lock_manager.py:54-86 | over every run, an edge from w to h means w is queued on a resource h holds |
| LockSafety.ReplicasAgree | src/nodes/lock_manager.py:132-190 | replicas with the same commands, other clocks and other lease timeouts have the same table but for times, while no lease ends |
| LockSafety.SweepKeepsAgreementExactly | src/nodes/lock_manager.py:192-201 | an expiry pass keeps a replica in agreement exactly if no lease has lapsed |
| LockSafety.AgreesExactly | src/nodes/lock_manager.py:132-201 | over a whole run, a table equals the replay of its commands after every event exactly if no expiry pass ends a lease |
| LockSafety.ExpiryMakesReplicasDisagree | src/nodes/lock_manager.py:192-201 | two replicas with the same two commands and different exclusive holders |
| LockSafety.GrantsInOrder | src/nodes/lock_manager.py:162-190 | all requests ever queued are the granted ones, in order, followed by those still waiting |
| LockSafety.WaiterServed | src/nodes/lock_manager.py:150-190 | a request at position k has been granted, in its mode, once the token has grown by k + 1, though shared requests barge in |
| LockSafety.TokensNeverDecrease | src/nodes/lock_manager.py:153 | fencing tokens never decrease over a run |
| LockSafety.OneTenurePerToken | src/nodes/lock_manager.py:150-190 | exclusively held under one token at two moments means held by one client all the while |
| LockSafety.LeaseHonoured | src/nodes/lock_manager.py:154-201 | a holder keeps the lock until it releases it or a pass begins after its lease |
| LockSafety.GrantHonoured | src/nodes/lock_manager.py:150-159 | who is granted a lock by a command holds it for the lease that was asked for, or the default one, unless it releases it |
| LockSafety.PromotionHonoured | src/nodes/lock_manager.py:178-190 | who is promoted from the queue holds the lock for the default lease, unless it releases it |
| LockEffects.EventExactly | src/nodes/lock_manager.py:132-201 | what every event makes of every lock, field by field: a free lock is granted, a shared one joined, others queue; a freed lock goes to the head batch of its queue or to nobody; other locks stay |
| LockEffects.SweptExactly | src/nodes/lock_manager.py:196-201 | a pass makes all holders of a lock leave exactly if its lease has run out, whether or not anybody waits |
| LockEffects.LeaseEnds | src/nodes/lock_manager.py:192-201 | after a pass that begins when all leases given on a resource have run out, a client holds it only if that pass or a later event has granted it |
| WaitGraph.EveryCycleIsBroken | src/nodes/lock_manager.py:64-86 | given a finish order, every closed walk uses a closing edge |
| WaitGraph.NothingClosedLeft | src/nodes/lock_manager.py:64-86 | without the closing edges the graph is acyclic |
| WaitGraph.SearchDone | src/nodes/lock_manager.py:64-86 | what a finished search returns: exactly the simple cycles that follow its tree, whose closing edges break all others, and none exactly if the graph is acyclic |
| WaitGraph.NotEveryCycleIsReported | src/nodes/lock_manager.py:65 | where exactly the tree cycles are reported, no search of a triangle reports both of its cycles of length three |
| Searches.CycleSearch.Dfs | src/nodes/lock_manager.py:70-81 | terminates on every finite graph, restores path and stack, and finishes the node with all its edges accounted for and every tree cycle that ends in it listed |
| Searches.CycleSearch.Report | src/nodes/lock_manager.py:77-79 | a neighbour on the path gives a simple cycle that the edge to it closes |
| Detector.DeadlockDetector.AddWait | src/nodes/lock_manager.py:54-57 | adds the edges to the holders other than the waiter itself, and no more |
| Detector.DeadlockDetector.RemoveClient | src/nodes/lock_manager.py:59-62 | the loop leaves no edge from or to the client and every other edge |
| Detector.DeadlockDetector.DetectCycles | src/nodes/lock_manager.py:64-86 | the lists are exactly the simple cycles that follow the search tree, and all of them if no edge lies on two; every cycle uses a closing edge; empty exactly if acyclic |
| Detector.SomeSearch | src/nodes/lock_manager.py:64-86 | from every client of the graph there is a search |
| Detector.OneWayReportsAll | src/nodes/lock_manager.py:64-86 | where no edge lies on two cycles, every search reports every cycle |
| Detector.TwoWaysMissOne | src/nodes/lock_manager.py:64-86 | two cycles through one edge are not both reported by a search that starts where the edge leads |
| Detector.ReportsAllExactly | src/nodes/lock_manager.py:64-86 | searches report every cycle, wherever they start, exactly if no edge lies on two cycles; otherwise some client has a search, and every search from it misses one |
| Deadlocks.CyclesAreReal | src/nodes/lock_manager.py:54-86 | where edges are real, a cycle is a ring of clients waiting for each other on locks held now |
| Deadlocks.NoFalseDeadlock | src/nodes/lock_manager.py:54-86 | after any run, every simple cycle of the graph, so every reported list, is a real circular wait |
| Deadlocks.EdgesStayCompleteExactly | src/nodes/lock_manager.py:54-62 | an event keeps every wait in the graph exactly if no client whose edges it drops still waits or is waited for |
| Deadlocks.CompleteThroughoutExactly | src/nodes/lock_manager.py:145-201 | the graph holds every wait throughout a run exactly if no event of the run drops one |
| Deadlocks.CircularWaitsAreCycles | src/nodes/lock_manager.py:54-86 | with every wait in the graph, rings of two or more waiting clients are exactly its simple cycles |
| Deadlocks.DeadlocksNoticed | src/nodes/lock_manager.py:64-86 | after a run that drops no wait, a deadlock of two or more clients makes the search report, with a closing edge on its ring |
| Deadlocks.DeadlockUnseen | src/nodes/lock_manager.py:170-175 | a run that ends in a circular wait with an acyclic graph, through a release |
| Deadlocks.PromotionHidesDeadlock | src/nodes/lock_manager.py:178-185 | the same through a promotion |
| Deadlocks.SelfWaitUnseen | src/nodes/lock_manager.py:54-57 | a client queued behind itself waits for ever without an edge |
| LockManager.LockManager.DoAcquire | src/nodes/lock_manager.py:145-168 | grants a free lock with a new token, joins a shared one, or queues with an edge to each holder |
| LockManager.LockManager.Promote | src/nodes/lock_manager.py:178-190 | the loop grants exactly the head, or with a shared head the run of shared requests, and drops their edges |
| LockManager.LockManager.DoRelease | src/nodes/lock_manager.py:170-190 | the client leaves, and the head of the queue is granted exactly if the lock is then free |
| LockManager.LockManager.ExpireLease | src/nodes/lock_manager.py:196-201 | the holders of a lock leave exactly if its lease has run out, whether or not anybody waits; one by one, in any order, amounts to at once |
| LockManager.LockManager.ExpireLeases | src/nodes/lock_manager.py:192-201 | a pass, in any order of resources, ends exactly the lapsed leases, leaves every other lock as it was, and keeps the table invariant |
| LockManager.LockManager.ApplyLockCommand | src/nodes/lock_manager.py:132-143 | the commit callback does what the command says, with the node's own lease where the command has none, and keeps the table invariant |
| LockManager.LockManager.HandleDeadlocks | src/nodes/lock_manager.py:249-250 | every list returned is a real circular wait, the lists are exactly the tree cycles, and some list is returned if the graph holds every wait and two or more clients wait in a ring |
| ReplicatedLocks.LockManagersAgree | src/nodes/lock_manager.py:132-190 | with state machine safety: lock managers at the same applied index never name different exclusive holders, while no lease ends |
| VectorClocks.VectorClock.Increment | src/geo/replicator.py:31-32 | one more for the node, a missing entry counting as zero |
| VectorClocks.VectorClock.Merge | src/geo/replicator.py:34-36 | the loop takes the maximum at every node |
| VectorClocks.VectorClock.IsConcurrent | src/geo/replicator.py:38-50 | true exactly if neither clock is nowhere ahead of the other |
| VectorClocks.VectorClock.Dominates | src/geo/replicator.py:52-62 | true exactly if the other clock is nowhere ahead and behind somewhere |
| VectorClocks.ExactlyOne | src/geo/replicator.py:38-62 | exactly one of equal, after, before, concurrent |
| VectorClocks.AheadIsStrictOrder | src/geo/replicator.py:52-62 | dominating is irreflexive and transitive |
| VectorClocks.MergedIsLeast | src/geo/replicator.py:34-36 | merging is the least upper bound |
| GeoReplicator.Replicator.Write | src/geo/replicator.py:128-139 | increments its own counter, stores the key, value and time of the call whatever was there, queues the entry and sends a copy |
| GeoReplicator.Replicator.Resolve | src/geo/replicator.py:145-160 | the arriving entry is stored exactly if there is none, it dominates, or it is concurrent and later |
| GeoReplicator.Replicator.HandleReplicate | src/geo/replicator.py:141-163 | resolves the entry, merges its clock, and answers with its status |
| Replication.ReceivingKeepsSurvivor | src/geo/replicator.py:141-163 | what a node stores after a series of entries for one key is the survivor of the series |
| Replication.ConvergesExactly | src/geo/replicator.py:145-160 | the order of arrival does not matter exactly if one entry beats all the others |
| Replication.PairConvergesExactly | src/geo/replicator.py:146-157 | for two entries: exactly if they are not concurrent with equal stamps, nor under one clock |
| Replication.SlowClockDiverges | src/geo/replicator.py:146-157 | three entries whose stamps contradict causality survive differently in two orders |
| Replication.DivergenceHappens | src/geo/replicator.py:146-157 | concrete entries for the tie and for the slow clock |
| ReplicationRuns.CausalAlways | src/geo/replicator.py:128-163 | over every run, a clock counts exactly the writes in the causal past of its node or entry |
| ReplicationRuns.ClocksAreExact | src/geo/replicator.py:31-62 | distinct writes have distinct clocks; one is ahead of another exactly if the other is in its causal past |
| ReplicationRuns.PutIsLatest | src/geo/replicator.py:130-135 | the unconditional local write stores the latest entry the node has seen |
| ReplicationRuns.BeatsIsLater | src/geo/replicator.py:145-157 | for timely writes an arriving entry wins exactly if its stamp is later |
| ReplicationRuns.StoredIsLatest | src/geo/replicator.py:128-163 | a node stores the entry with the greatest stamp of all it has written or received for a key |
| ReplicationRuns.NodesConverge | src/geo/replicator.py:128-163 | nodes that have seen the same writes to a key store the same entry, under loss, repetition and reordering |
| RequestedValues.ValuesWereAsked | src/geo/replicator.py:128-163 | over every run, each entry written, in flight or stored carries the key, value and time of a client's request |
| RequestedValues.ReadsLatestRequest | src/geo/replicator.py:128-163 | for timely writes, a node stores the value asked for last of all writes to the key that it has made or received, and none exactly without one |
| HashRing.ConsistentHashRing.AddNode | src/nodes/queue_node.py:80-85 | the loop gives the node every one of its positions, and the keys are listed in order |
| HashRing.ConsistentHashRing.RemoveNode | src/nodes/queue_node.py:87-92 | the loop takes away every one of its positions, and the keys are listed in order |
| HashRing.ConsistentHashRing.GetNode | src/nodes/queue_node.py:94-101 | the owner of the clockwise successor with wrap, or none exactly on an empty ring |
| HashRing.ConsistentHashRing.GetNodesForKey | src/nodes/queue_node.py:103-122 | the loop with wrapping index collects the first owners clockwise, each once |
| HashRing.AddMovesKeysOnlyToTheNewNode | src/nodes/queue_node.py:80-85 | a key that moves when a node comes moves to that node, even with hash collisions |
| HashRing.RemoveMovesOnlyItsKeys | src/nodes/queue_node.py:87-92 | without collisions a key that moves when a node leaves was its own |
| HashRing.RemoveMovesOnlyItsKeysExactly | src/nodes/queue_node.py:87-92 | no key moves between other nodes exactly if each position taken but no longer owned passes to its present owner |
| HashRing.CollisionMovesForeignKeys | src/nodes/queue_node.py:80-92 | after three additions with a colliding placement, removing the first node moves keys from the second to the third |
| HashRing.CollisionsHappen | src/nodes/queue_node.py:77-92 | such a placement exists |
| HashRing.RoundTripExactly | src/nodes/queue_node.py:80-92 | adding and removing a node restores the ring exactly if none of its positions was taken |
| HashRing.ListedOneWay | src/nodes/queue_node.py:85 | sorted keys are determined by the ring, so they are restored with it |
| HashRing.ReplicasAreDistinct | src/nodes/queue_node.py:103-122 | the list has min(count, owners) different owners, at least one, and begins with the owner of the key |
| HashRing.ReplicasChangeMinimally | src/nodes/queue_node.py:103-122 | after a node comes, the new list without it is a prefix of the old |
| QueueNode.QueueNode.HandleEnqueue | src/nodes/queue_node.py:244-264 | a fresh pending message, assigned to the owner of its partition key, becomes the current one of its identifier, at the end of the queue, and is copied once to each of the first peers |
| QueueNode.QueueNode.ReplicateEnqueue | src/nodes/queue_node.py:179-187 | a replica replaces the message object of its identifier, and is queued exactly if pending |
| QueueNode.QueueNode.HandleDequeue | src/nodes/queue_node.py:266-279 | delivers the current message of the head of the queue, processing since now |
| QueueNode.QueueNode.HandleAck | src/nodes/queue_node.py:280-288 | completes the current message of a known identifier and changes nothing else |
| QueueNode.QueueNode.CheckTimeout | src/nodes/queue_node.py:222-234 | an overdue message is put back with one more retry, or given up after its last |
| QueueNode.QueueNode.ScanTimeouts | src/nodes/queue_node.py:218-235 | an undisturbed pass visits every current message once |
| Deliveries.DeliveredAsCameIn | src/nodes/queue_node.py:179-279 | over every run, a delivered message has the payload, node and retry limit that came in last under the identifier at the head of the queue |
| Deliveries.VisitExactly | src/nodes/queue_node.py:222-234 | a scan changes a message exactly if it has been processed for more than thirty seconds, and puts it back exactly below its last retry |
| Deliveries.AckCompletes | src/nodes/queue_node.py:280-288 | an acknowledgement completes the message and changes nothing else |
| Deliveries.AckedStays | src/nodes/queue_node.py:222-288 | over every run, an acknowledged message stays completed until it is delivered once more or replaced: no scan puts it back |
| Deliveries.DeliveryIsKept | src/nodes/queue_node.py:222-288 | over every run, a delivery is the consumer's for thirty seconds: until then no scan puts the message back |
| MessageQueue.NothingLost | src/nodes/queue_node.py:179-285 | what was appended has been delivered in that order or waits; per identifier, deliveries and places in the queue are enqueues, pending replicas and put-backs |
| MessageQueue.NothingStuck | src/nodes/queue_node.py:222-234 | a pending message is in the queue, and one being processed is put back or given up by a late enough scan |
| MessageQueue.DeliveriesBounded | src/nodes/queue_node.py:222-234 | deliveries of an identifier are bounded by the retries its message objects allow, late acknowledgements or not |
| MessageQueue.EnqueuedOnceDeliveredBoundedly | src/nodes/queue_node.py:222-273 | an identifier that came in once is delivered at most max(1, max_retries) times |
| CacheNode.LRUCache.Get | src/nodes/cache_node.py:53-60 | a hit makes the key the newest, a miss changes nothing |
| CacheNode.LRUCache.Put | src/nodes/cache_node.py:62-72 | the line is the newest, and the loop evicts exactly the oldest until the cache fits |
| CacheNode.LRUCache.Invalidate | src/nodes/cache_node.py:74-79 | the line no longer counts, the order is unchanged |
| CacheNode.CacheNode.ReadLocal | src/nodes/cache_node.py:136-146 | a hit exactly on a line that counts; each read is counted once |
| CacheNode.CacheNode.FinishRead | src/nodes/cache_node.py:153-165 | stores the last value found in the order of the responses as shared, or nothing if there was none |
| CacheNode.LastFoundIsAnAnswer | src/nodes/cache_node.py:153-158 | the value a read ends with is one of the answers, or a miss exactly without one |
| CacheNode.CacheNode.FinishWrite | src/nodes/cache_node.py:174-180 | the line is modified with the new value and is the newest |
| CacheNode.CacheNode.ProcessInvalidate | src/nodes/cache_node.py:183-190 | the line no longer counts, and the answer always denies a copy |
| CacheNode.CacheNode.ProcessRemoteRead | src/nodes/cache_node.py:192-201 | answers with the value of a line that counts and makes a modified one shared |
| Recency.LookupExactly | src/nodes/cache_node.py:53-60 | a look-up that hits moves the key to the end of the order, the others keep theirs, and no line changes |
| Recency.OrderIsByLastUse | src/nodes/cache_node.py:53-72 | after any uses, the order lists exactly the stored keys by the time of their last hit or store |
| Recency.EvictsLeastRecent | src/nodes/cache_node.py:68-72 | only a full cache evicts, and what goes was used before everything that stays |
| Recency.StaysUntilOthersUsed | src/nodes/cache_node.py:53-72 | a key just found or stored stays until as many different other keys have been used as the cache has room for |
| Lru.LargerCacheKeepsMore | src/nodes/cache_node.py:53-72 | inclusion: on the same uses the smaller cache's order is a subsequence of the larger's, with equal lines, and neither exceeds its size |
| Lru.PutKeeps | src/nodes/cache_node.py:62-72 | the size limit holds and the order lists exactly the stored keys |
| Coherence.CopiesCoherent | src/nodes/cache_node.py:136-201 | all copies that count hold the last value written since the last invalidation; a modified copy is the only one; none is exclusive |
| Coherence.ReadsReturnTheLastWrite | src/nodes/cache_node.py:136-165 | a read returns that value or misses, across evictions |
| Coherence.CachesFit | src/nodes/cache_node.py:62-72 | over every run no cache exceeds its size |

## Left out

- Crash and restart of Raft nodes: nothing is persisted, so runs are without restarts.
- Elections and heartbeats in time: timers, sleeps and randomness are steps that may happen whenever the code allows them, and no liveness is claimed.
- RaftProposals.AnsweredExactly: assumes an index that no other proposal of the node shares, because futures are stored by index alone: a later proposal displaces an earlier future, and a wait that times out drops whatever is stored.
- RaftLogs.LogMatching: assumes a run with one leader per term, which `RaftElection.ElectionSafety` provides under A.
- LockSafety.ReplicasAgree: assumes that no lease ends, because expiry is decided by the local clock.
- Deadlocks.DeadlocksNoticed: assumes that the run drops no wait, since the graph then under-approximates waits, and a ring of at least two clients.
- src/main.py: wiring, with a lock applier that never promotes waiters (src/main.py:280-282); the model follows `LockManagerNode`.
- The clock inside an arriving entry is an immutable value, because nothing updates it after it is made; the node's own clock is an object.
- ReplicationRuns.NodesConverge: assumes distinct, non-zero time stamps per key that respect causality; `Replication.ConvergesExactly` says when order does not matter without that.
- The list of pending replications is only appended to; its clean-up loop (src/geo/replicator.py:178-189) is not modelled.
- HashRing.RemoveMovesOnlyItsKeys: assumes no collisions; `HashRing.RemoveMovesOnlyItsKeysExactly` says what is needed with them.
- The MD5 hash is an arbitrary function, and a key is given by its hash.
- Creation time and partition key of a message: stored and reported, never read again; the key enters as its hash.
- MessageQueue.NothingStuck: assumes that no clock reads zero, because a start time of zero never times out.
- QueueNode.QueueNode.HandleEnqueue: is without suspension, so the copies show the message as it was made; `QueueNode.QueueNode.Replicate` copies whatever it is by then.
- QueueNode.QueueNode.ScanTimeouts: is a pass without suspension; in `MessageQueue` the visits of a scan interleave with all other handlers, also at replaced message objects.
- Deliveries.AckedStays: until the next delivery, because an identifier that is still queued is delivered again after its acknowledgement (src/nodes/queue_node.py:269-273).
- Redis persistence and recovery, and the HTTP, JSON and retry layers: the network is a set of messages.
- Overlapping transactions on one cache key: two concurrent writes end up modified at both nodes, so runs serialise them per key, and a broadcast reaches every peer.
- `CACHE_UPDATE` is never sent, and a negative cache size makes the original fail; neither is modelled.
- TLS, roles, the audit log, metrics, the failure detector, regions and configuration would add only easy members.
