# Verified model of the swiftpaxos replication protocols

This project models the ordering, execution and recovery logic of the replication protocols in
`swiftpaxos/` and proves their safety properties with Dafny 4.11. `dafny verify dfyconfig.toml`
checks everything.

The protocols, and the files that model them:

- **The store** (`Store.dfy`, `StoreLaws.dfy`): commands, their conflict test, their execution, and the
  theorem on which every protocol rests: only conflicting commands have to be ordered. The laws say what
  a read returns and that the conflict test orders no more than it must.
- **PPaxos** (`PPaxos*.dfy`), started as "eppaxos". `PPaxos` gives each handler as a function on the
  state of a replica; `PPaxosReplica` is the replica as a class with the source's loops and
  recursion, each method proved equal to its function. `PPaxosLocal` and `PPaxosHandler` prove what
  one replica keeps, `PPaxosGlobal` what the cluster keeps when the network delivers each message
  at most once, in any order, or never. `PPaxosTheorems` states agreement, commit order,
  acyclicity, exactly what is committed, no lost wake-up and conservation of proposals;
  `PPaxosCoverage` says what the computed dependencies cover, `PPaxosTable` that the conflict table is
  exact, `PPaxosVectors` which dependencies are taken over, `PPaxosParking` and `PPaxosWaits` which
  proposals are parked and what an answer leaves unordered, and `PPaxosLone` settles clusters of fewer
  than two replicas. `PPaxosKnown` and `PPaxosCounts` say what replicas know of and count;
  `PPaxosProgress` proves that deliveries end and what is then committed; `PPaxosCycle` is a run that
  leaves three instances over, `PPaxosUnordered` one that commits two conflicting PUTs unordered.
- **EPaxos execution** (`EPaxos*.dfy`): Tarjan's search interleaved with execution.
  `EPaxosGraph` defines valid executions and proves that they agree; `EPaxosTarjan` holds the
  invariants of the search; `EPaxosExec` and `EPaxosExecutor` are the executor in place;
  `EPaxosConverge` carries the order over to the stores; `EPaxosTies` is about equal sort keys,
  which `EPaxosAttributes`, the computation of Seq and dependencies, produces under contention.
- **SwiftPaxos** (`HashLog*.dfy`, `Swift*.dfy`): the hash log as a doubly linked list with an
  incremental hash against a fold from scratch; the per-key logs and the leader's hashes; and the
  sparse dependency lists, kept in place by `SwiftKeys` and compared in `SwiftAcks`.
- **Fast Paxos** (`FastPaxos*.dfy`): uncoordinated recovery with one fixed fast quorum; `FastPaxosSafety`
  is about agreement and order, `FastPaxosProgress` about what is committed and executed once the votes
  have arrived.
- **Quorums, ballots and message sets** (`Quorums.dfy`, `Ballots.dfy`, `MsgSets.dfy`).

SHA-256 is a parameter: every statement about hashes holds for every function from byte blocks to
hashes.

Conditions and exceptions that the proofs bring out:

- PPaxos with a single replica never commits: `handlePropose` does not call `Commit`, and no reply
  ever arrives. No wake-up is lost exactly when there are at least two replicas
  (`PPaxosTheorems.WakeupExactly`).
- PPaxos does not commit every proposal. Once everything sent has arrived, which deliveries alone
  achieve, nothing is parked and an instance is uncommitted exactly when its dependencies run into a
  cycle (`PPaxosProgress.UncommittedExactly`, `Completes`); three replicas and three batches of two
  keys can close one (`PPaxosCycle.Deadlock`).
- PPaxos does not order every two conflicting instances. `updatePriority` looks only at the latest own
  conflict of a command. A vote covers every own interfering instance exactly when the latest own conflict
  of each command is at most the proposer's value or a decisive one (`PPaxosUnordered.VoteCovers`); three
  replicas commit two PUTs of one key, neither of which depends on anything
  (`PPaxosUnordered.Unordered`). A proposal does depend on every conflicting instance its proposer has
  (`PPaxosCoverage.ProposalCovers`).
- The conflict test orders two commands exactly when some table shows their order, except that a PUT
  conflicts with a no-op of its key and with a PUT of the same value (`StoreLaws.ConflictExact`).
- EPaxos breaks ties on Seq and replica by a local clock, the propose time. What all replicas share,
  executions sorted by Seq and replica, settles the order inside a component exactly when there is no
  tie (`EPaxosConverge.OrderSettled`). Two executors agree on a tied pair exactly when their propose
  times happen to be ordered alike (`EPaxosTies.OrderExact`, for distinct times);
  `EPaxosTies.TiedExecutors` runs two executors with the same decisions, those of three contending
  proposals (`EPaxosAttributes.Contend`), to different stores.
- The search of EPaxos `updateAttributes` stops at the first command of a batch with a later conflict,
  so a batch can miss one (`EPaxosAttributes.BatchMisses`); `EPaxosAttributes.BatchCovered` says
  exactly when it does not.
- In Fast Paxos a replica outside the fast quorum can replace a committed, unexecuted value by its
  next proposal and then execute the wrong command (`FastPaxosOutsider.OutsiderDiverges`). A whole call
  of `handleProposal` is safe exactly when it overwrites no such value, and members never do
  (`FastPaxosOutsider.ProposalIsSafe`).
- The light lists of SwiftPaxos settle the table (`SwiftDeps.SparseDepsSuffice`) but not every reply: a
  later write waits for a read exactly when the next command on the key after the read is no read
  (`SwiftDeps.ReadOrdered`, `ReadBeforeWrite`), so a read can answer with a write that follows it
  (`SwiftDeps.RepliesDiffer`).
- `Execute` and `Conflict` include the last key of a SCAN, `keysOf` stops one key before it; that key
  is the only one missed, for every SCAN (`SwiftDeps.ScanMissesUpperBound`).
- `Dep.Equals` compares a list exactly with every other list if and only if it has no repetitions or
  names one command only (`MsgSets.EqualsExact`). The lists of PUTs and GETs always qualify
  (`SwiftAcks.SingleKeyExact`). Two SCANs that arrive in opposite orders at leader and follower make a
  third one list the same commands in lists that the test rejects (`SwiftAcks.CrossedScans`).
- `recordLeaderHash` holds back hashes of unknown commands, so the waiting updates inside a hash
  log are never used by a replica that hears of each command once
  (`SwiftHashes.HashTracker.Propose`).

## Model

| member | source | states |
|---|---|---|
| Store.ConflictBatch | swiftpaxos/state/state.go:100-109 | true exactly when some pair of commands, one from each batch, conflicts |
| Store.ConflictSymmetric | swiftpaxos/state/state.go:75-98 | the conflict test does not depend on the order of its arguments |
| Store.State.Execute | swiftpaxos/state/state.go:115-146 | a PUT stores its value and answers nothing, a GET answers the stored value or nothing, a SCAN the values of exactly the stored keys from its key to its upper bound, both included, in ascending key order; only a PUT changes the table |
| Store.ReplyIs | swiftpaxos/state/state.go:115-146 | what the replies of the other statements are, operation by operation |
| StoreLaws.ReadsLastPut | swiftpaxos/state/state.go:115-146 | in any order of commands a GET answers with the last PUT of its key before it, and without one with what the table held at the start |
| StoreLaws.ConflictExact | swiftpaxos/state/state.go:75-98 | two commands conflict exactly when some table shows their order, in itself or in a reply, no-ops and two PUTs of one value apart |
| StoreLaws.RangeBytes | swiftpaxos/state/state.go:87-89 | the eight bytes of a SCAN are its count, lowest byte first |
| Store.Commute | swiftpaxos/state/state.go:75-146 | commands that do not conflict leave the same table in either order, and neither changes the other's reply |
| Store.MoveToFront | swiftpaxos/state/state.go:75-146 | moving a command before a run of commands it does not conflict with changes no table and no reply |
| Store.TraceEquivalence | swiftpaxos/state/state.go:75-146 | two orders of the same commands that agree on every conflicting pair end in the same table and give every command the same reply, SCANs with their inclusive bound included |
| PPaxosTheorems.Agreement | swiftpaxos/eppaxos/epaxos.go:930-1054 | in every run, whatever one replica has committed for an instance, any replica that commits it then or later holds the same commands and the same dependency vector |
| PPaxosTheorems.CommittedIsFinal | swiftpaxos/eppaxos/epaxos.go:951-969 | a committed vector holds replica i's single vote in every column i below the proposer, and the proposer's own value in every other column, also when the vote came first or the column was filled from -1 |
| PPaxosTheorems.CommitOrder | swiftpaxos/eppaxos/epaxos.go:1078-1094 | at each replica the commit order lists dependencies, and earlier instances of the row, first; a row is committed exactly up to CommittedUpTo |
| PPaxosLocal.AdvanceByOne | swiftpaxos/eppaxos/epaxos.go:618-626 | when an instance commits it is the next of its row, and updateCommitted moves CommittedUpTo by exactly one, to it |
| PPaxosTheorems.Acyclic | swiftpaxos/eppaxos/epaxos.go:1078-1094 | the dependency relation over everything committed at any replica has no cycle |
| PPaxosTheorems.NoLostWakeup | swiftpaxos/eppaxos/epaxos.go:1085-1133 | with two or more replicas, in every reachable state no instance that has its command, every higher-priority replica, a majority and all dependencies is left uncommitted |
| PPaxosTheorems.CommittedExactly | swiftpaxos/eppaxos/epaxos.go:1056-1094 | with two or more replicas, in every reachable state a replica has committed an instance whose command it has if and only if every higher-priority replica and more than half of all are reached and every column is committed |
| PPaxosProgress.CommitsByVotes | swiftpaxos/eppaxos/epaxos.go:930-1094 | the same in terms of messages: exactly when it heard of every higher-priority replica and of a majority, itself, the proposer and the replicas whose vote arrived, and has committed all dependencies |
| PPaxosLocal.CommitExactly | swiftpaxos/eppaxos/epaxos.go:1056-1094 | a call of Commit leaves its instance committed exactly if it was committed or passes the test, written out |
| PPaxosTheorems.SingleReplicaSleeps | swiftpaxos/eppaxos/epaxos.go:898-928 | a cluster of one replica reaches a state where an instance could commit and is not committed: handlePropose never calls Commit |
| PPaxosTheorems.WakeupExactly | swiftpaxos/eppaxos/epaxos.go:898-1136 | no wake-up is lost in any reachable state if and only if there are at least two replicas |
| PPaxosTheorems.FirstCommit | swiftpaxos/eppaxos/epaxos.go:930-1094 | the theorems are about runs in which commits happen: with two replicas, one proposal and its delivery commit the instance at the receiver |
| PPaxosTheorems.ProposalsConserved | swiftpaxos/eppaxos/epaxos.go:957-989 | a received proposal is answered, once to each peer, or parked in exactly one wait-list slot under an instance that has no command; never both |
| PPaxosLone.CommitNeedsTwo | swiftpaxos/eppaxos/epaxos.go:898-928 | in every run, whatever is committed at some replica needed a second replica |
| PPaxosKnown.HandleKnows | swiftpaxos/eppaxos/epaxos.go:930-1054 | a delivery with its retries leads only to instances that were proposed: stored, depended on, waited for or written about |
| PPaxosKnown.ReachableKnows | swiftpaxos/eppaxos/epaxos.go:867-1054 | in every reachable state that holds at every replica, and rows are proposed in order |
| PPaxosCounts.HandleCounts | swiftpaxos/eppaxos/epaxos.go:1037-1044 | no reach flag is ever reset, a vote sets its sender's, and whoever answers a proposal sets its own and the proposer's |
| PPaxosCounts.ReachableCounts | swiftpaxos/eppaxos/epaxos.go:898-1052 | in every reachable state each delivered vote and each answer is counted |
| PPaxosCounts.CountsExactly | swiftpaxos/eppaxos/epaxos.go:1037-1052 | in every reachable state a reach flag is set exactly for the replica itself, the proposer and the replicas whose vote arrived |
| PPaxosProgress.WaitsUpward | swiftpaxos/eppaxos/epaxos.go:719-741 | in every reachable state a parked proposal waits for a proposed instance of a higher-numbered replica, so waiting cannot be circular |
| PPaxosProgress.NothingParked | swiftpaxos/eppaxos/epaxos.go:943-981 | once everything sent has arrived, no proposal is parked anywhere |
| PPaxosProgress.AllCount | swiftpaxos/eppaxos/epaxos.go:930-1052 | then every replica counts every replica for every proposed instance |
| PPaxosProgress.CycleBlocks | swiftpaxos/eppaxos/epaxos.go:1078-1094 | in any reachable state an instance whose final dependencies run into a cycle is committed nowhere |
| PPaxosProgress.UncommittedExactly | swiftpaxos/eppaxos/epaxos.go:1056-1136 | once everything sent has arrived, an instance is uncommitted at a replica if and only if its final dependencies run into a cycle |
| PPaxosProgress.Quiesces | swiftpaxos/eppaxos/epaxos.go:930-1054 | from every reachable state a finite number of deliveries leads to one in which everything sent has arrived |
| PPaxosProgress.Completes | swiftpaxos/eppaxos/epaxos.go:867-1136 | so every run can be completed by deliveries, and then every replica has committed exactly the instances without a cycle ahead |
| PPaxosCycle.DecisiveVote | swiftpaxos/eppaxos/epaxos.go:691-750 | the vote a replica sends is at least its latest own instance that interferes, does not depend on the proposal and is separated from it by no interfering one |
| PPaxosCycle.Deadlock | swiftpaxos/eppaxos/epaxos.go:658-750 | three replicas reach a state in which everything sent has arrived and three instances are committed nowhere |
| PPaxosParking.ParkedExactly | swiftpaxos/eppaxos/epaxos.go:691-750 | updatePriority parks a proposal exactly under the instance that its first waiting command waits for: the own conflict is above the answer so far and does not depend on the proposal, and the first instance, row by row, above the proposal's dependencies and up to the conflict's that is unknown or interferes is unknown; otherwise it answers with the highest decisive conflict |
| PPaxosParking.AnswerOrders | swiftpaxos/eppaxos/epaxos.go:691-750 | if it answers, every own conflict above the answer depends on the proposal, or does not interfere, or has a known interfering instance in between |
| PPaxosParking.ScanStops | swiftpaxos/eppaxos/epaxos.go:718-741 | the labelled loop over rows and instances finds the first stop, or that there is none |
| PPaxosWaits.DeliveredProposal | swiftpaxos/eppaxos/epaxos.go:930-981 | in every run a delivered proposal is parked, in one slot, exactly under that instance, and otherwise answered with that vote |
| PPaxosUnordered.VoteCovers | swiftpaxos/eppaxos/epaxos.go:691-750 | the vote covers every own interfering instance if and only if the latest own conflict of each command is at most the proposer's value or a decisive conflict |
| PPaxosUnordered.Unordered | swiftpaxos/eppaxos/epaxos.go:658-750 | three replicas commit two PUTs of one key everywhere, and neither depends on anything: a newer own conflict that got its dependency from a third instance hides the older one |
| PPaxosLocal.CommitKeeps | swiftpaxos/eppaxos/epaxos.go:1056-1136 | Commit and its recursion keep the watermarks, the commit order, the columns and the stored tallies |
| PPaxosLocal.CommitLive | swiftpaxos/eppaxos/epaxos.go:1121-1133 | looking only for Deps[Replica] == Instance, and only for the first hit of a row, wakes everything the commit made ready |
| PPaxosHandler.HandleKeeps | swiftpaxos/eppaxos/epaxos.go:930-1054 | one delivery, with all nested retries of parked proposals, keeps the replica invariant, keeps answers and commits, and conserves proposals; an answered proposal keeps the dependency that updatePriority gave it |
| PPaxosHandler.HandleAllKeeps | swiftpaxos/eppaxos/epaxos.go:975-981 | the same for the loop over the wait list |
| PPaxosGlobal.NextKeeps | swiftpaxos/eppaxos/epaxos.go:867-1054 | every proposal and every delivery keeps the invariant over all replicas, all sent messages and all votes |
| PPaxosGlobal.ReachableInv | swiftpaxos/eppaxos/epaxos.go:867-1136 | the global invariant holds in every state reachable from the initial one |
| PPaxos.Commit | swiftpaxos/eppaxos/epaxos.go:1056-1136 | Commit with its recursion ends (each nested call has fewer uncommitted instances) and changes only tallies, statuses, watermarks and the commit log; when it commits is said by PPaxosLocal.CommitExactly |
| PPaxos.Handle | swiftpaxos/eppaxos/epaxos.go:930-1054 | handlePreAcceptReply with the retries of the wait list ends: the wait-list slots and the messages still to retry decrease |
| PPaxosCoverage.ProposalCovers | swiftpaxos/eppaxos/epaxos.go:658-690 | in every reachable state a proposal depends on every instance whose command its proposer has and that interferes with it on a key |
| PPaxosCoverage.HandleCovers | swiftpaxos/eppaxos/epaxos.go:628-656 | every delivery keeps the conflict table at or above every known command: `last` for all, `lastWrite` for all but GETs |
| PPaxosCoverage.RecordReaches | swiftpaxos/eppaxos/epaxos.go:628-656 | updateConflicts records every command of an instance and lowers no entry |
| PPaxosCoverage.AttributesCover | swiftpaxos/eppaxos/epaxos.go:658-690 | updateAttributes leaves each column at or above the latest conflict of every command in that row |
| PPaxosVectors.AttributesExact | swiftpaxos/eppaxos/epaxos.go:658-690 | turn by turn, a command's later conflict raises its own column to it and every column to the conflict's dependencies; the result reaches all of these, and each column is the given value, such a conflict or a dependency of one |
| PPaxosTable.RecordExact | swiftpaxos/eppaxos/epaxos.go:628-656 | after updateConflicts the entries of a key are the larger of the old one and the instance, if its commands touch or write the key |
| PPaxosTable.TableExact | swiftpaxos/eppaxos/epaxos.go:666-674 | in every reachable state a lookup finds the latest instance of the row that the replica has and that interferes with the command, and nothing if there is none |
| PPaxosTable.InterferesIsConflict | swiftpaxos/eppaxos/epaxos.go:706-716 | for PUTs and GETs interference is the conflict test of the state machine |
| PPaxosCoverage.AnswerIsDecisive | swiftpaxos/eppaxos/epaxos.go:691-750 | an answered proposal gets, in the replica's own column, the proposer's value or the latest own instance that interferes, does not depend on the proposal, and is separated from it by no interfering instance of a lower-priority row |
| PPaxosReplica.Replica.UpdateConflicts | swiftpaxos/eppaxos/epaxos.go:628-656 | the row's table after the loop is the fold of the commands over it |
| PPaxosReplica.Replica.Raise | swiftpaxos/eppaxos/epaxos.go:675-680 | the conflict and its dependencies, column by column the larger of the two values |
| PPaxosReplica.Replica.UpdateAttributes | swiftpaxos/eppaxos/epaxos.go:658-690 | the two nested loops compute the dependency vector of the specification, and `changed` tells whether it differs |
| PPaxosReplica.Replica.AttributesOfRow | swiftpaxos/eppaxos/epaxos.go:666-687 | the loop over the commands for one row |
| PPaxosReplica.Replica.ScanAbove | swiftpaxos/eppaxos/epaxos.go:719-741 | the labelled loop returns whether the scan is clear, hits an interfering instance, or meets an unknown one first |
| PPaxosReplica.Replica.PriorityOfCommand | swiftpaxos/eppaxos/epaxos.go:696-747 | one command: the instance it must wait for, or the dependency from here on |
| PPaxosReplica.Replica.PriorityOf | swiftpaxos/eppaxos/epaxos.go:695-748 | the loop over the commands, up to the first that must wait |
| PPaxosReplica.Replica.UpdatePriority | swiftpaxos/eppaxos/epaxos.go:691-750 | the answer, or the parking of the message under the instance that PPaxosParking.Parks names |
| PPaxosReplica.Replica.UpdateCommitted | swiftpaxos/eppaxos/epaxos.go:618-626 | the watermark moves past every consecutive committed instance |
| PPaxosReplica.Replica.TallyOf | swiftpaxos/eppaxos/epaxos.go:1058-1070 | the count of reached replicas, and whether all higher-priority ones are among them |
| PPaxosReplica.Replica.DepsCommitted | swiftpaxos/eppaxos/epaxos.go:1078-1083 | whether every column is committed up to its dependency |
| PPaxosReplica.Replica.Recount | swiftpaxos/eppaxos/epaxos.go:1058-1088 | the stored tallies are the number of reached replicas and whether all higher-priority ones are, and the answer is whether these, a majority and all dependencies allow the commit |
| PPaxosReplica.Replica.CommitInstance | swiftpaxos/eppaxos/epaxos.go:1056-1136 | the recursive Commit computes the state of the specification |
| PPaxosReplica.Replica.FindHit | swiftpaxos/eppaxos/epaxos.go:1124-1132 | the first waiting instance of a row that depends exactly on this one |
| PPaxosReplica.Replica.WakeRows | swiftpaxos/eppaxos/epaxos.go:1121-1133 | the loop over the rows with its nested commits |
| PPaxosReplica.Replica.SendToAll | swiftpaxos/eppaxos/epaxos.go:923-927 | one message to every other replica, in order |
| PPaxosReplica.Replica.HandlePropose | swiftpaxos/eppaxos/epaxos.go:867-928 | the state and the messages after a proposal |
| PPaxosReplica.Replica.Fill | swiftpaxos/eppaxos/epaxos.go:965-969 | columns still at -1 take the proposer's value |
| PPaxosReplica.Replica.AcceptCommand | swiftpaxos/eppaxos/epaxos.go:961-976 | the command is stored and recorded, and its wait list is taken |
| PPaxosReplica.Replica.CountAndCommit | swiftpaxos/eppaxos/epaxos.go:1037-1052 | the reach flags and the sender's column, then Commit |
| PPaxosReplica.Replica.HandlePreAcceptReply | swiftpaxos/eppaxos/epaxos.go:930-1054 | the state and the messages after a delivery, nested retries included |
| PPaxosReplica.Replica.RetryAll | swiftpaxos/eppaxos/epaxos.go:977-981 | the loop over the parked proposals |
| EPaxosExecutor.Exec.StrongConnect | swiftpaxos/epaxos/exec.go:58-149 | Tarjan's invariant over the stack, indices and executed instances: on success the call executed its component or left it on the stack with a correct lowlink; on failure something the instance depends on is not committed with its commands |
| EPaxosExecutor.Exec.VisitEdge | swiftpaxos/epaxos/exec.go:79-114 | one dependency edge: missing, executed, uncommitted, unvisited or stacked |
| EPaxosExecutor.Exec.VisitRow | swiftpaxos/epaxos/exec.go:77-115 | one row of dependencies, from ExecedUpTo + 1; what is skipped was executed |
| EPaxosExecutor.Exec.VisitWhite | swiftpaxos/epaxos/exec.go:103-109 | the recursive call and the lowlink it passes on |
| EPaxosExecutor.Exec.RunComponent | swiftpaxos/epaxos/exec.go:118-146 | the popped segment is sorted, run and marked EXECUTED; the log grows by exactly that batch and stays valid |
| EPaxosExecutor.Exec.RunList | swiftpaxos/epaxos/exec.go:124-144 | the store is the fold of the listed instances' commands and exactly these become EXECUTED |
| EPaxosExecutor.Exec.RunInstance | swiftpaxos/epaxos/exec.go:125-142 | only PUTs reach the store |
| EPaxosExecutor.Exec.InStack | swiftpaxos/epaxos/exec.go:151-158 | true exactly for the instances on the stack |
| EPaxosExec.SortNodes | swiftpaxos/epaxos/exec.go:160-172 | a permutation of the list, sorted by Seq, replica and propose time |
| EPaxosExecutor.Exec.FindSCC | swiftpaxos/epaxos/exec.go:46-56 | true exactly when everything the root depends on is committed with its commands; then all of that is executed; on either return every unexecuted instance has Index 0, the executed set is closed under dependencies, and nothing the root does not depend on was executed |
| EPaxosExecutor.DependenciesRun | swiftpaxos/epaxos/exec.go:58-149 | whatever an executed instance depends on has been executed, in its own batch or an earlier one |
| EPaxosExecutor.StoreHolds | swiftpaxos/epaxos/exec.go:116-149 | the store holds, for every key, the value of its last executed PUT |
| EPaxosExecutor.Exec.ResetIndexes | swiftpaxos/epaxos/exec.go:51-54 | resetting the stack sets every unexecuted Index to 0 and changes nothing else |
| EPaxosExecutor.Exec.ExecuteCommand | swiftpaxos/epaxos/exec.go:25-42 | true exactly when nothing the instance depends on is missing, and exactly when it is executed on return |
| EPaxosExecutor.Exec.SweepRow | swiftpaxos/epaxos/epaxos.go:397-423 | behind ready instances, an instance is executed exactly when nothing it depends on is missing; ExecedUpTo stops at the row's first unexecuted instance |
| EPaxosExecutor.Exec.RaiseTo | swiftpaxos/epaxos/epaxos.go:398-422 | ExecedUpTo moves only to the next instance |
| EPaxosExecutor.Exec.Sweep | swiftpaxos/epaxos/epaxos.go:385-431 | the same for all rows of one pass; batches are only added, watermarks never fall |
| EPaxosExecutor.Exec.LearnCommit | swiftpaxos/epaxos/epaxos.go:1071-1119 | a decision is dropped exactly when the instance is decided already or the ballot is below the known one, and is stored otherwise; executed instances and the invariant are untouched |
| EPaxosExecutor.Exec.UpdateCommitted | swiftpaxos/epaxos/epaxos.go:618-626 | CommittedUpTo ends at the last instance before the row's first undecided one |
| EPaxosExecutor.ExecutedWithinCommitted | swiftpaxos/epaxos/epaxos.go:618-626 | ExecedUpTo never passes CommittedUpTo |
| EPaxosTarjan.SegmentIsScc | swiftpaxos/epaxos/exec.go:118-145 | when lowlink equals index, the stack from the instance up is exactly one strongly connected component |
| EPaxosTarjan.SegmentClosed | swiftpaxos/epaxos/exec.go:118-145 | everything that segment depends on is in it or already executed |
| EPaxosTarjan.Pop | swiftpaxos/epaxos/exec.go:118-145 | popping it keeps the search invariant for the calls still open |
| EPaxosTarjan.Leave | swiftpaxos/epaxos/exec.go:118-148 | so does leaving with a lowlink below the index |
| EPaxosTarjan.SeeChild | swiftpaxos/epaxos/exec.go:103-109 | a nested call's lowlink, taken as a minimum, is reached from the caller and bounds all edges below it |
| EPaxosTarjan.SeeStacked | swiftpaxos/epaxos/exec.go:110-113 | so is the index of a stacked dependency |
| EPaxosGraph.OrderIndependence | swiftpaxos/epaxos/exec.go:58-168 | any two valid executions order any two instances linked by a dependency path the same way, if Seq and replica identify an instance inside its component |
| EPaxosConverge.OrderSettled | swiftpaxos/epaxos/exec.go:166-168 | among executions sorted by Seq and replica, which is what all replicas share, the order of two instances of a component is settled if and only if Seq or replica tells them apart |
| EPaxosConverge.TieFlips | swiftpaxos/epaxos/exec.go:166-168 | on a tie, swapping the two instances gives another execution sorted by Seq and replica |
| EPaxosTies.ComponentOrder | swiftpaxos/epaxos/exec.go:120-145 | inside a component every executor runs the lower Seq first, then the lower replica, then the earlier propose time |
| EPaxosTies.TieByTime | swiftpaxos/epaxos/exec.go:166-168 | on a tie an executor runs first exactly the instance with its lower propose time |
| EPaxosTies.OrderExact | swiftpaxos/epaxos/exec.go:160-168 | two executors with the same decisions order two instances of a component alike if and only if Seq or replica tells them apart or their propose times are ordered alike |
| EPaxosTies.TiedExecutors | swiftpaxos/epaxos/exec.go:58-168 | two executors that learned the decisions of the contention below, and heard of its two PUTs in opposite orders, execute the same instances in opposite orders and end with different stores |
| EPaxosAttributes.Attributes.UpdateConflicts | swiftpaxos/epaxos/epaxos.go:628-656 | the row's table after the loop, and the highest Seq of each key |
| EPaxosAttributes.RaiseExact | swiftpaxos/epaxos/epaxos.go:648-654 | every key of the batch ends with the larger of its old Seq and the new one, and no other key changes |
| EPaxosAttributes.Attributes.UpdateAttributes | swiftpaxos/epaxos/epaxos.go:658-694 | each column takes the first later conflict of a command, another replica's own column stays; Seq is the least number above what was taken and recorded; `changed` tells whether anything differs |
| EPaxosAttributes.Attributes.FirstConflict | swiftpaxos/epaxos/epaxos.go:665-682 | the loop over the commands of a row stops at the first later conflict |
| EPaxosAttributes.Attributes.StartPhase1 | swiftpaxos/epaxos/epaxos.go:754-781 | the attributes of an own new instance, which is then recorded |
| EPaxosAttributes.Attributes.HandlePreAccept | swiftpaxos/epaxos/epaxos.go:818-837 | the attributes of a reply; the instance is recorded under the Seq that was sent |
| EPaxosAttributes.MergeAttributes | swiftpaxos/epaxos/epaxos.go:696-716 | the larger Seq, and column by column the larger dependency except in the leader's own |
| EPaxosAttributes.BatchCovered | swiftpaxos/epaxos/epaxos.go:665-682 | a column reaches the latest conflict of every command of a batch if and only if no command after the one where the search stops has a later one |
| EPaxosAttributes.BatchMisses | swiftpaxos/epaxos/epaxos.go:665-682 | a batch of two PUTs whose dependency misses the later of two conflicts |
| EPaxosAttributes.Contend | swiftpaxos/epaxos/epaxos.go:628-850 | three contending proposals of one key end with two instances of one replica under the same Seq, in a dependency cycle |
| EPaxosExecutor.ReplicasAgree | swiftpaxos/epaxos/exec.go:58-168 | two executors with the same decisions ran linked instances in the same order, whatever roots and retries they used |
| EPaxosConverge.StoresConverge | swiftpaxos/epaxos/exec.go:118-146 | executions of the same instances in which interfering instances are linked give the same table, and every command the same reply |
| EPaxosExecutor.ReplicasConverge | swiftpaxos/epaxos/exec.go:118-146 | two executors that executed the same instances hold the same store |
| HashLogSpec.HashIsFold | swiftpaxos/swift/dpath.go:60-143 | after any run of appends on fresh ids and updates, the hash is the left fold from syncedHash over the pending list, which has no repetitions and shares no id with the waiting updates |
| HashLogSpec.FollowerState | swiftpaxos/swift/dpath.go:60-143 | after any interleaving of appends in the leader's order and updates in increasing sequence number, every field of the log is a closed function of how many of each there were |
| HashLogSpec.HashAgreement | swiftpaxos/swift/dpath.go:60-143 | then every Append returns the hash the leader's Append returned for that command, also when the update came first |
| HashLogSpec.RunTracks | swiftpaxos/swift/dpath.go:60-143 | in any order of appends and updates, pending is what was appended and not updated, the waiting updates are the reverse, and synced is the highest sequence number of both |
| HashLogSpec.Resynchronised | swiftpaxos/swift/dpath.go:60-143 | once every appended command has been updated exactly once and vice versa, nothing is pending or waiting and the hash is the leader's for the highest sequence number |
| HashLogSpec.BlockInjective | swiftpaxos/swift/dpath.go:145-163 | the hashed block determines the previous hash and the command id |
| HashLogSpec.HashBinds | swiftpaxos/swift/dpath.go:145-163 | a hash stands for the whole history behind it: two different histories of one length with the same hash contain two different blocks with one digest, at the same step |
| HashLogSpec.PendingInOrder | swiftpaxos/swift/dpath.go:60-143 | in any interleaving the pending commands stand in the order of their appends |
| HashLogList.HashLog.constructor | swiftpaxos/swift/dpath.go:52-58 | the empty log |
| HashLogList.HashLog.Append | swiftpaxos/swift/dpath.go:60-88 | keeps the doubly linked list, its head and tail shapes and the node index; new log and returned hash are those of the value-level log |
| HashLogList.HashLog.Enlist | swiftpaxos/swift/dpath.go:67-85 | links a node at the end in each shape: empty list, single node with or without a tail, longer list |
| HashLogList.HashLog.Update | swiftpaxos/swift/dpath.go:90-92 | the value-level update, saving it when the command was not appended |
| HashLogList.HashLog.UpdateNode | swiftpaxos/swift/dpath.go:100-143 | unlinks the node if there is one, moves synced up, and recomputes the hash |
| HashLogList.HashLog.Unlink | swiftpaxos/swift/dpath.go:110-126 | removes exactly that node and keeps list and index well formed |
| HashLogList.HashLog.Rehash | swiftpaxos/swift/dpath.go:136-142 | the loop over the list computes the fold |
| SwiftHashes.HashTracker.Propose | swiftpaxos/swift/swift.go:270-284 | a proposal is appended once to the log of each of its keys, then the leader's hashes that arrived before it are applied; no log ever keeps a saved update |
| SwiftHashes.HashTracker.AppendAll | swiftpaxos/swift/swift.go:768-793 | the hash part of getDepAndHashes: every log of a touched key, and no other, gets the append |
| SwiftHashes.HashTracker.RecordLeaderHash | swiftpaxos/swift/swift.go:795-805 | hashes of an unknown command wait; those of a known one update the log of each of its keys |
| SwiftHashes.HashTracker.UpdateLogs | swiftpaxos/swift/swift.go:807-822 | one update per key, or a fatal mismatch that changes nothing |
| SwiftHashes.KeyAgreement | swiftpaxos/swift/swift.go:768-822 | on each key, a follower that appends in the leader's order returned, for every command, the very hash that the leader returned for it |
| SwiftDeps.InfoIsLast | swiftpaxos/swift/key.go:101-137 | the light lists hold the last command and the last write of each key |
| SwiftDeps.DepExactly | swiftpaxos/swift/swift.go:768-782 | the list of a command holds, for each of its keys, the last earlier command that touches the key, the last earlier write for a GET, and nothing else |
| SwiftDeps.EarlierWrites | swiftpaxos/swift/swift.go:768-793 | every earlier PUT on a key a command touches is in the transitive closure of its dependency list |
| SwiftDeps.ReadOrdered | swiftpaxos/swift/key.go:101-137 | a GET is in the closure of another command's list if and only if the next command on its key is not a GET and is in that closure |
| SwiftDeps.ReadBeforeWrite | swiftpaxos/swift/key.go:101-137 | between PUTs and GETs of one key, a later PUT follows a GET exactly when the next command on the key after the GET is a PUT |
| SwiftDeps.Precedes | swiftpaxos/swift/swift.go:550-554 | what a delivered command depends on, through any number of lists, was delivered before it |
| SwiftDeps.WritesOrdered | swiftpaxos/swift/swift.go:534-557 | delivered writes on one key follow the order of their proposals |
| SwiftDeps.SparseDepsSuffice | swiftpaxos/swift/swift.go:534-557 | any two deliveries of the same commands that respect the lists end in the same table |
| SwiftDeps.RepliesDiffer | swiftpaxos/swift/swift.go:534-557 | two GETs and a PUT of one key can be delivered, respecting the lists, so that the first GET answers with the later PUT |
| SwiftDeps.ScanMissesUpperBound | swiftpaxos/swift/key.go:31-43 | a conflict of a SCAN with a PUT escapes keysOf exactly when the PUT writes the SCAN's upper bound and the SCAN does not wrap around |
| SwiftKeys.LightKeyInfo.Add | swiftpaxos/swift/key.go:113-119 | the lists after a command |
| SwiftKeys.LightKeyInfo.Remove | swiftpaxos/swift/key.go:121-129 | only entries holding this command are cleared |
| SwiftKeys.LightKeyInfo.GetConflictCmds | swiftpaxos/swift/key.go:131-137 | a GET gets the last write, anything else the last command |
| SwiftKeys.FullKeyInfo.Add | swiftpaxos/swift/key.go:45-65 | the tables from client to last command and to last write change at this client only |
| SwiftKeys.FullKeyInfo.Remove | swiftpaxos/swift/key.go:67-91 | the swap-remove deletes exactly this client's entries |
| SwiftKeys.FullKeyInfo.GetConflictCmds | swiftpaxos/swift/key.go:93-99 | one command per client, without repetitions |
| SwiftKeys.FullKeyInfo.Drop | swiftpaxos/swift/key.go:70-77 | moving the last entry into the gap keeps the index exact |
| SwiftKeys.DepTracker.GetDep | swiftpaxos/swift/swift.go:768-782 | the loop over the keys: the collected list, and the lists of all keys afterwards |
| SwiftKeys.Deliverer.Deliver | swiftpaxos/swift/swift.go:534-557 | delivers exactly when the command is known, not yet delivered, committed (or optimistically executed by the leader) and all of its list is delivered; the order of deliveries keeps respecting the lists |
| SwiftKeys.DeliverersConverge | swiftpaxos/swift/swift.go:534-557 | replicas that delivered the same commands hold the same store |
| FastPaxosSafety.Agreement | swiftpaxos/fastpaxos/fastpaxos.go:94-150 | no two replicas pass different values to commit for an instance |
| FastPaxosSafety.BallotOneSettles | swiftpaxos/fastpaxos/fastpaxos.go:98-149 | an instance is committed exactly when the quorum's votes at ballot 0 are equal or its votes at ballot 1 are complete; no instance and no member's vote goes past ballot 1 |
| FastPaxosProgress.HighestMember | swiftpaxos/fastpaxos/fastpaxos.go:94-150 | what is committed for an instance is the proposal of the quorum's highest member, collision or not |
| FastPaxosProgress.ExecutionMaximal | swiftpaxos/fastpaxos/fastpaxos.go:188-216 | in every reachable state everything below the execution mark is committed, and the instance at the mark is not |
| FastPaxosProgress.ArrivedCommits | swiftpaxos/fastpaxos/fastpaxos.go:73-150 | once the votes sent have arrived, a replica has committed exactly the instances in which every member proposed, whether they collided or not |
| FastPaxosProgress.ArrivedExecutes | swiftpaxos/fastpaxos/fastpaxos.go:73-216 | and has executed exactly those below the first instance in which some member did not propose |
| FastPaxosProgress.CatchUp | swiftpaxos/fastpaxos/fastpaxos.go:63-150 | from every reachable state deliveries alone lead to one in which the votes have arrived |
| FastPaxosProgress.Completes | swiftpaxos/fastpaxos/fastpaxos.go:63-216 | so every run can be completed by deliveries, and then every replica has executed exactly these instances |
| FastPaxosSafety.CommonSequence | swiftpaxos/fastpaxos/fastpaxos.go:188-216 | replicas that never overwrote a committed value execute prefixes of one sequence and no command twice |
| FastPaxosSafety.MembersClean | swiftpaxos/fastpaxos/fastpaxos.go:73-92 | quorum members never overwrite one |
| FastPaxosOutsider.ProposalIsSafe | swiftpaxos/fastpaxos/fastpaxos.go:73-92 | a whole call of handleProposal keeps the chosen values and the executed prefix exactly when it overwrites no committed, unexecuted value, and a member's call never does |
| FastPaxosOutsider.OutsiderDiverges | swiftpaxos/fastpaxos/fastpaxos.go:79-81 | a reachable state in which a replica outside the quorum executed another command than the agreed one |
| FastPaxosSafety.HandleKeeps | swiftpaxos/fastpaxos/fastpaxos.go:94-150 | one vote, with the recovery it triggers, keeps the replica's invariant and makes members send only legitimate votes |
| FastPaxosSafety.NextInv | swiftpaxos/fastpaxos/fastpaxos.go:63-150 | every proposal and delivery keeps the invariant over the cluster |
| FastPaxosReplica.Replica.HandleProposal | swiftpaxos/fastpaxos/fastpaxos.go:73-92 | state and votes after a proposal |
| FastPaxosReplica.Replica.HandleM2B | swiftpaxos/fastpaxos/fastpaxos.go:94-150 | state and votes after a vote: commit, recovery with a new vote, or nothing |
| FastPaxosReplica.Replica.Tally | swiftpaxos/fastpaxos/fastpaxos.go:103-128 | whether all votes agree, and the last vote by cballot and replica |
| FastPaxosReplica.Replica.CommitValue | swiftpaxos/fastpaxos/fastpaxos.go:188-216 | the commit loop executes every consecutive committed instance, skipping delivered commands |
| FastPaxosReplica.Replica.AdvanceBallot | swiftpaxos/fastpaxos/fastpaxos.go:181-186 | ballot and cballot only grow, together |
| Quorums.Builder.Subsets | swiftpaxos/replica/quorum.go:259-278 | the recursion restores q and appends, for each leader, the enumerated sets that contain it, although it goes on with negative sizes |
| Quorums.NewQuorumSet | swiftpaxos/replica/quorum.go:224-241 | the table of all leaders |
| Quorums.EnumerationExact | swiftpaxos/replica/quorum.go:228-278 | for each leader every set of the given size that contains it is stored exactly once, under the numbers 0 to C(n-1, size-1) - 1 |
| Quorums.HitsExact | swiftpaxos/replica/quorum.go:259-278 | the sets reached from a partial set are exactly its extensions by the remaining size |
| Ballots.BallotOf | swiftpaxos/replica/quorum.go:250-257 | a ballot whose leader and quorum are the given ones, or -1 exactly when the leader has no such quorum |
| Ballots.NextIsLarger | swiftpaxos/replica/replica.go:697-703 | NextBallotOf is larger than the old ballot, lies in the next round, and is led by rid exactly when it is not negative or rid is 0 |
| Ballots.SameHigherKeeps | swiftpaxos/replica/quorum.go:138-142 | SameHigher keeps leader and quorum and adds the most whole cycles of rounds that higherThan holds; so it is above higherThan from the leader's number of quorums on, and changes nothing below it |
| Ballots.AliveQuorumExists | swiftpaxos/swift/swift.go:257-266 | a replica has an alive quorum of n/2 + 1 if and only if n/2 others are alive |
| Ballots.QuorumIsAlive | swiftpaxos/swift/swift.go:259-265 | the loop over the quorum |
| Ballots.FindAliveBallot | swiftpaxos/swift/swift.go:257-266 | the search ends after at most C(n-1, n/2) + 1 checks at a ballot not below the start with an alive quorum, having passed only dead ones |
| MsgSets.MsgSet.Add | swiftpaxos/replica/mset.go:45-87 | what is kept, filtered and returned; the handler runs exactly when the call counted and the answers kept, with the leader once its message is stored, are at least Size, and with exactly those answers |
| MsgSets.MsgSet.FilterMsgs | swiftpaxos/replica/mset.go:58-66 | a new leader message keeps exactly the messages it accepts |
| MsgSets.MsgSet.Reinit | swiftpaxos/replica/mset.go:27-43 | the set is empty again |
| MsgSets.QuorumAnswered | swiftpaxos/replica/mset.go:45-87 | when the handler runs with a leader message, at least Size distinct quorum members counting the leader have answered, each without a list or with the leader's set of dependencies |
| MsgSets.HandlerRuns | swiftpaxos/replica/mset.go:68-86 | after any receipts the test for running the handler holds if and only if the answers kept and the leader, once its message is stored, are at least Size |
| MsgSets.KeptBefore | swiftpaxos/replica/mset.go:45-66 | before the leader's message every member that answered is kept, with its last answer |
| MsgSets.KeptAfter | swiftpaxos/replica/mset.go:45-66 | after it a member is kept exactly if an answer of its agrees: the one kept before, or else the first that comes later |
| MsgSets.AnswerCounts | swiftpaxos/swift/swift.go:666-673 | after the leader's message exactly the answers without a list or with the leader's commands count, for all answers, if and only if the leader's list has no repetitions or names one command only; no other command set is ever counted |
| MsgSets.Equals | swiftpaxos/sppaxos/defs.go:196-224 | true only for equal sets of equal length; exactly for these when the first list has no repetitions or names one command only |
| MsgSets.EqualsExact | swiftpaxos/sppaxos/defs.go:196-224 | the test tells a list from every other one exactly if and only if the list has no repetitions or names one command only |
| MsgSets.RepetitionsMislead | swiftpaxos/sppaxos/defs.go:196-224 | for every list with a repetition and two different commands, a list of the same length and commands that the test rejects |
| SwiftAcks.SingleKeyExact | swiftpaxos/swift/swift.go:768-782 | the list of a PUT or a GET has at most one command, so its comparison with any list is exact |
| SwiftAcks.CrossedScans | swiftpaxos/swift/swift.go:768-782 | two SCANs seen in opposite orders by leader and follower make a third SCAN's lists name the same commands and fail the comparison |
| MsgSets.Contains | swiftpaxos/sppaxos/defs.go:179-186 | membership |
| MsgSets.NilDepRecognised | swiftpaxos/sppaxos/defs.go:188-194 | the marker of a nil list is recognised exactly, and names the command itself |

## Left out

- Sockets, RPC, marshalling, client connections, timers, heartbeats, profiling, printing, latency
  measurement, `master`, `client`, `config`: not modelled. Messages are values in an outbox or a
  set of sent messages.
- Interleaving of goroutines: each handler is one atomic step, and an EPaxos commit arrives between
  searches, not during one.
- Duplicate delivery in PPaxos: its handlers have no guard against it, so each message is delivered
  at most once, as TCP gives it. The Fast Paxos results hold under any repetition.
- Crashes and recovery in PPaxos and EPaxos, and the leader change of SwiftPaxos.
- `int32` overflow of instance numbers, sequence numbers and ballots, and the `MaxN` padding of
  dependency vectors beyond N.
- The batching channel of `handlePropose`: the batch is its argument, and it is not empty.
- PPaxosReplica.Replica.HandlePreAcceptReply: replies to every peer; the branches for thriftiness
  depend on measured latencies and only send fewer replies. A reply that is not sent is a packet that
  is never delivered, so the theorems over all runs cover it; PPaxosTheorems.ProposalsConserved counts
  the replies of the mode without thriftiness.
- PPaxosReplica.Replica.CommitInstance: does not execute the replica's own instances or reply to their
  clients, which needs the table of client proposals; nothing in the replica's state depends on it.
- `conflictMap`, which nothing on the commit path reads, and the locks around the tables.
- Replies of the EPaxos executor: its store is modelled, and StoresConverge speaks about the replies
  the commands would give.
- The loop over conflicting commands in `strongconnect` of EPaxos: it has no effect, since its
  `continue` belongs to the innermost loop.
- `getInstance` of Fast Paxos does not store the slice it grows, so an instance number at or above the
  slice's length of 1e8 would recurse without end. The model's instances are a map without that bound.
- Instances as heap objects: they are values in a map field. No two fields of the modelled code
  alias the same instance.
- `sort.Sort` in the EPaxos executor is an insertion sort; its contract is what the model uses. The
  sort of Fast Paxos votes is a scan for the last one, the only one used.
- The global `stack` of the EPaxos executor is a field; slices grow by concatenation.
- The recovery queue and grace period in `executeCommands`; one pass over the rows is modelled, the
  endless loop around it is not.
- Two commands of one batch with the same key in a hash log cannot happen: a command touches each
  key once. A command id is proposed once per replica, and its leader's hash arrives once.
- `FullKeyInfo` is never created by the modelled code; only its own correctness is proved.
- That every two conflicting PPaxos instances are ordered is false (PPaxosUnordered.Unordered). The exact
  condition is given for one vote (PPaxosUnordered.VoteCovers), not for chains of dependencies through
  third instances.
- PPaxosUnordered.VoteCovers: speaks about the column of the replica that votes, the only one it sets.
- A proposal is known before its Fast Paxos commit: the source would dereference a missing proposal,
  as its own note says. Fast quorums other than one fixed set, such as three quarters, are left out.
- The callback and the quorum file of `newQuorumSetAdvance`; quorum maps are sequences, since their
  keys are 0, 1, … in order of insertion.
- PPaxosTheorems.NoLostWakeup: requires two replicas, because it is false for one
  (PPaxosTheorems.SingleReplicaSleeps).
- FastPaxosSafety.CommonSequence: for replicas outside the quorum it requires that they overwrote
  nothing, because it is false otherwise (FastPaxosOutsider.OutsiderDiverges).
- EPaxosGraph.OrderIndependence: requires unique keys inside a component, because it is false for
  ties (EPaxosTies.TiedExecutors).
- EPaxosExecutor.Exec.LearnCommit: leaves out `maxRecvBallot` and `vbal`, the conflict table, and the
  return of client proposals whose instance was decided as a no-op; execution reads none of them.
- EPaxosTies.OrderExact: says nothing about equal propose times, which the unstable sort leaves open.
- EPaxosConverge.StoresConverge: that interfering instances are linked by dependencies is a hypothesis.
  The EPaxos commit protocol is not part of this model beyond the attributes of first proposals, and
  for batches these do not always link (EPaxosAttributes.BatchMisses).
- EPaxosAttributes.Attributes.HandlePreAccept: leaves out ballots, `maxSeq`, the status of the reply and
  the case of an instance that was accepted before.
- PPaxosProgress.UncommittedExactly: requires two replicas; with one nothing ever commits
  (PPaxosLone.CommitNeedsTwo).
- `ppaxos/`, `n2paxos`, `curp`, `paxos`, the rest of `sppaxos`, `swift/recovery.go`: not modelled.
