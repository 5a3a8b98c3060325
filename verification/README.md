# micro-raft, modelled and proved in Dafny

micro-raft is a Raft-replicated key-value store. This project models its hardest parts and proves what they promise, for every input, every log and every run:

- **Consensus** (`Raft*.dfy`). Each handler of a node is a pure function from node and message to new node and effects (`RaftCore`), and an imperative class that performs it step by step (`RaftNode`). `RaftCluster` runs any number of nodes: the network loses, duplicates and reorders; the driver executes queued effects one at a time; a crash may fall between any two effects or inside a log append. One invariant (`RaftInvariants`) is kept by every event, and the Raft guarantees follow for whole runs (`RaftGuarantees`, `RaftCampaigns`). `RaftAnswers` says exactly when a vote is granted, an entry commits and a proposal is taken; `RaftProgress` and `RaftCatchUp` that undisturbed elections succeed, that every follower catches up and that what a quorum holds commits.
- **The application** (`Payload.dfy`, `Application*.dfy`, `StateMachine.dfy`). The log-driven state machine with client sessions, its capacity counters, its undo-log transaction and its snapshots. Exactly-once semantics, exact rollback and the snapshot round trip are theorems about every log. `ApplicationLaws` says when a request must take effect, why each refusal is given, and that a value is always the last one written.
- **The applied store** (`AppliedStore.dfy`, `StoreRecovery.dfy`, `StoreBytes.dfy`, `GroupApply.dfy`). Incremental cells against a full dump, the round trip through bytes, recovery against replay, and grouped application against one entry at a time.
- **The history checker** (`Linearizability.dfy`, `History*.dfy`). The memoized search is sound, complete and bounded; locality in the sense of Herlihy and Wing lifts the per-key verdicts to one global order; `HistoryMeaning` says what that means for the attempts that were recorded.
- **The driver and its surroundings** (`Driver*.dfy`, `SnapshotReceiver.dfy`, `AddressCache.dfy`, `Crc.dfy`). Persist-before-send, first-come batching, and conservation of client responses, the last joined with the consensus core: it never gives a waiting client's index away, and each client waits where the log holds its own command.

`dafny verify dfyconfig.toml` checks everything. Hash functions are arbitrary functions throughout; no property relies on their being collision-free. Clocks, timers, I/O failures and the moments at which clients hang up are parameters or free choices of the environment.

Three promises turn out to be conditional, and the condition is proved exact:

- A state exported and imported again comes back if and only if its stored values are within the import bounds. Plain writes are not bounded when applied, so a log with an empty key breaks the round trip, and leaves a store that cannot be reopened (`ExportImport`, `EmptyKeyIsNotPortable`, `Reopen`, `EmptyKeyCannotReopen`).
- Undoing an entry restores the state if and only if it is not a registration whose index already names a session, which the transaction's index check excludes (`ApplyUndone`, `StaleUndoDeletes`).
- Every client that stays is answered unless an accepted command is given an index another client still waits at; then, and only then, that client is dropped without an answer (`Execute`, `DuplicateIndexLoses`). The consensus core never does this (`DriverCore`), so the driver around it loses nobody.

## Model

| member | source | states |
|---|---|---|
| `RaftGuarantees.ElectionSafety` | crates/raft-core/src/election.rs:164-281 | over a whole run with loss, duplication, reordering and crashes, two nodes leading the same term, in whatever states, are one node |
| `RaftGuarantees.WinnersAreUpToDate` | crates/raft-core/src/election.rs:30-41 | every leader, from the moment it wins, is a quorum together with the voters whose durable vote is for it, and its log at its own vote was at least as up to date as each voter's log at the moment that grant became durable |
| `RaftGuarantees.RecordedWinners` | crates/raft-core/src/election.rs:288-348 | once the winner's first entry is durable, its quorum and its log at the election stay on record |
| `RaftCampaigns.PreVoteGate` | crates/raft-core/src/election.rs:45-160 | a node that raises its own term goes up by one and holds grants of a quorum (or is one alone) for that prospective term under the very campaign it is running; every other rise adopts a received message's term |
| `RaftCampaigns.CutOff` | crates/raft-core/src/election.rs:132-160 | over any stretch of a run in which a node, with the grants it holds and receives, is no quorum and hears no newer term, its term never rises, however often it times out or restarts, and does not move at all without a restart |
| `RaftCampaigns.CampaignsAreFresh` | crates/raft-core/src/election.rs:45-95 | over any stretch of any run a node's incarnation never falls, within one its campaign number never falls, and a campaign with the same number is the same, uninterrupted campaign for the same prospective term with growing grants |
| `RaftGuarantees.StateMachineSafety` | crates/raft-core/src/lib.rs:817-828 | whatever any two nodes apply at one index, at any two times and across any crashes, is the same entry |
| `RaftGuarantees.LeadersHoldCommitted` | crates/raft-core/src/election.rs:288-348 | every leader, from the moment it wins and with whatever it still has to write, holds every entry committed in its own or an earlier term |
| `RaftGuarantees.LogMatchingInRun` | crates/raft-core/src/replication.rs:168-326 | two durable logs, read at any two times of a run, that agree on the term at an index agree on everything up to it |
| `RaftGuarantees.NothingLeavesBeforeDisk` | crates/kv-node/src/driver.rs:1399-1407 | whenever a message or an application is the next effect, the node's whole hard state and log are already on its disk |
| `RaftGuarantees.RecoveryAccepts` | crates/raft-core/src/lib.rs:256-302 | every disk a run can produce, torn appends included, passes the structural checks of recovery |
| `RaftCampaigns.RepliesMoveCursors` | crates/raft-core/src/replication.rs:361-447 | whatever reply arrives, confirmed watermarks never fall, and a rejection only moves the sender's retry cursor back, never to or below what is confirmed |
| `RaftCampaigns.CursorsInRun` | crates/raft-core/src/replication.rs:361-447 | in every state of every run each leader's retry cursors are ahead of what its peers have confirmed |
| `RaftGuarantees.RunExtends` | crates/raft-core/src/lib.rs:369-409 | durable votes, elected leaders, leader logs, acknowledgements and applications recorded by a run are never retracted later in it |
| `RaftAnswers.UpToDateTotal` | crates/raft-core/src/election.rs:23-41 | of two logs one is always at least as up to date as the other, and a log as itself |
| `RaftAnswers.VoteExact` | crates/raft-core/src/election.rs:23-41 | in its own term a node votes for a candidate if and only if it may, its vote is free for that candidate, and the candidate's log is at least as up to date; the vote is saved before it is sent; otherwise the node is unchanged and says no |
| `RaftAnswers.RequestAnswered` | crates/raft-core/src/election.rs:209-254 | the same for a delivered request of any term: an older term is refused, a newer one is adopted and frees the vote, whatever is then decided is saved before the one answer |
| `RaftAnswers.PreVoteExact` | crates/raft-core/src/election.rs:97-129 | a trial vote is granted if and only if the node may vote, the term is new to it, the log is at least as up to date, and it neither leads nor recently heard a leader; it changes nothing |
| `RaftAnswers.QuorumCommitExact` | crates/raft-core/src/membership_protocol.rs:498-546 | the new commit index is of the leader's term and held by a quorum, no greater such index is left, and exactly the entries in between are applied, in order |
| `RaftAnswers.CommitExact` | crates/raft-core/src/replication.rs:361-447 | after a success reply the leader has committed the last entry of its own term that it and the peers known to hold it make a quorum for; any success reply of another term, from a stranger or beyond the log changes nothing |
| `RaftAnswers.StepDownExact` | crates/raft-core/src/lib.rs:429-444 | a leader whose quorum window lapsed becomes a follower and reports it, keeping term, vote and log |
| `RaftAnswers.ProposeExact` | crates/raft-core/src/replication.rs:113-162 | a batch is taken if and only if the node leads and votes, it has at most 16 commands, none a membership change, and index space is left; then it is the log's new end, saved first; otherwise every command is rejected and nothing changes |
| `RaftProgress.ElectionSucceeds` | crates/raft-core/src/election.rs:45-348 | a candidate that times out asks every voting peer, and once voters that make a quorum with it have answered, in any order, it leads the next term with an empty entry of that term saved |
| `RaftProgress.LoneVoterLeads` | crates/raft-core/src/election.rs:45-348 | a voter that is a quorum alone leads at once and commits its whole log |
| `RaftCatchUp.HeartbeatSends` | crates/raft-core/src/replication.rs:66-103 | every heartbeat sends every peer at most 16 entries from its cursor on, anchored at the entry before |
| `RaftCatchUp.AnchoredTakes` | crates/raft-core/src/replication.rs:168-326 | a follower that holds the anchor takes the batch, commits as far as the leader's word and the batch reach, and confirms exactly that far |
| `RaftCatchUp.UnanchoredRefuses` | crates/raft-core/src/replication.rs:168-326 | a follower that does not keeps its log and answers with its length and a hint |
| `RaftCatchUp.HintExact` | crates/raft-core/src/replication.rs:331-344 | the hint is the end of a shorter log, or the term held at the anchor and the first entry of that term |
| `RaftCatchUp.LeaderRetries` | crates/raft-core/src/replication.rs:361-447 | after a refusal the leader tries just past its own last entry of the hinted term, else where the follower's entries of it begin, strictly earlier than before and above what is confirmed |
| `RaftCatchUp.ExchangeAdvances` | crates/raft-core/src/replication.rs:66-447 | unless the follower is in line, one batch and its answer confirm more of the log or move the cursor back towards what is confirmed |
| `RaftCatchUp.CatchesUp` | crates/raft-core/src/replication.rs:66-447 | whatever its log was, finitely many exchanges bring a follower to hold the leader's whole log |
| `RaftCatchUp.ReplicationCommits` | crates/raft-core/src/replication.rs:361-447 | when followers that make a quorum with the leader are in line and its last entry is of its term, its whole log is committed |
| `RaftCatchUp.FollowerLearns` | crates/raft-core/src/replication.rs:168-326 | with the next batch a follower in line commits what the leader has |
| `RaftCatchUp.RunCompatible` | crates/raft-core/src/lib.rs:369-409 | in every state of every run the idle leader of the newest term and any idle node it replicates to meet the conditions of the catch-up theorems |
| `RaftSafety.NextOk` | crates/raft-core/src/lib.rs:369-409 | the cluster invariant is kept by every enabled event at every node: input, executed effect, crash, torn append |
| `RaftSafety.RunOk` | crates/raft-core/src/lib.rs:369-409 | the cluster invariant holds in every state of every run |
| `RaftSafety.TornStep` | crates/kv-node/src/driver.rs:1399-1403 | a crash that leaves the cut and any prefix of an append on disk keeps the invariant |
| `RaftTheorems.LeaderCompleteness` | crates/raft-core/src/replication.rs:45-59 | once an index of a term is durable on a quorum, the leader of every later term started with that whole prefix |
| `RaftTheorems.ChosenAgree` | crates/raft-core/src/replication.rs:45-59 | two committed indices, of any terms, agree on every entry below both |
| `RaftTheorems.OneLeaderPerTerm` | crates/raft-core/src/election.rs:258-281 | in any state satisfying the invariant a term has at most one leader |
| `RaftTheorems.LogMatching` | crates/raft-core/src/replication.rs:168-326 | logs consistent with the recorded leader logs that agree on the term at an index agree up to it |
| `RaftTheorems.AppliedAgree` | crates/raft-core/src/lib.rs:817-828 | no two recorded applications at one index differ |
| `RaftQuorums.QuorumsIntersect` | crates/raft-core/src/membership.rs:54-62 | any two quorums of one configuration, stable or joint, share a voter |
| `RaftQuorums.MajorityIndexExact` | crates/raft-core/src/membership.rs:30-40 | an index is held by a strict majority if and only if it does not exceed the sorted-watermark answer |
| `RaftQuorums.ReplicatedIndexExact` | crates/raft-core/src/membership.rs:66-76 | an index is held by a quorum of the configuration if and only if it does not exceed the replicated index |
| `RaftReplication.WalkMatches` | crates/raft-core/src/replication.rs:277-308 | merging a leader's payload either finds everything present or ends exactly on the leader's prefix, cut only at a real conflict |
| `RaftReplication.MergeKeepsCommitted` | crates/raft-core/src/replication.rs:235-308 | the merge keeps the follower's committed prefix and holds the whole acknowledged prefix of the leader |
| `RaftNode.RaftNode.constructor` | crates/raft-core/src/lib.rs:256-327 | a recovered node is a follower with the durable hard state and log and nothing volatile |
| `RaftNode.RaftNode.BecomeFollower` | crates/raft-core/src/lib.rs:782-796 | performs exactly the step-down whose safety is proved |
| `RaftNode.RaftNode.SolicitVoters` | crates/raft-core/src/election.rs:191-205 | sends one copy to every peer that is a voter, in peer order, and nothing else |
| `RaftNode.RaftNode.StartPreVote` | crates/raft-core/src/election.rs:45-95 | performs exactly the proved pre-vote campaign, durable state untouched unless the node is a quorum alone |
| `RaftNode.RaftNode.OnPreVote` | crates/raft-core/src/election.rs:97-130 | performs exactly the proved pre-vote answer and changes no state of the node |
| `RaftNode.RaftNode.OnPreVoteReply` | crates/raft-core/src/election.rs:132-160 | performs exactly the proved count of pre-vote grants |
| `RaftNode.RaftNode.StartElection` | crates/raft-core/src/election.rs:164-206 | performs exactly the proved election start: the hard state is persisted before any solicitation |
| `RaftNode.RaftNode.OnRequestVote` | crates/raft-core/src/election.rs:209-254 | performs exactly the proved vote decision: a new grant is persisted before the reply |
| `RaftNode.RaftNode.OnRequestVoteReply` | crates/raft-core/src/election.rs:258-281 | performs exactly the proved count of grants |
| `RaftNode.RaftNode.TakeOffice` | crates/raft-core/src/election.rs:288-330 | fresh cursors, the current-term no-op appended, committed at once by a lone voter, exactly as in the proved step |
| `RaftNode.RaftNode.BecomeLeader` | crates/raft-core/src/election.rs:288-348 | performs exactly the proved inauguration: the no-op is persisted before the heartbeat that carries it |
| `RaftNode.RaftNode.SendAppendEntries` | crates/raft-core/src/replication.rs:66-103 | one bounded batch per peer, starting at its cursor, in peer order |
| `RaftNode.RaftNode.AdvanceCommit` | crates/raft-core/src/lib.rs:817-828 | raises the commit index and applies every newly committed entry in index order |
| `RaftNode.RaftNode.WalkPayload` | crates/raft-core/src/replication.rs:282-299 | the loop over the payload leaves the log, cut and new entries of the proved walk |
| `RaftNode.RaftNode.AcceptPayload` | crates/raft-core/src/replication.rs:282-326 | merge, persist, commit and acknowledge exactly as in the proved accept path |
| `RaftNode.RaftNode.OnAppendEntries` | crates/raft-core/src/replication.rs:168-326 | performs exactly the proved follower step, refusals and conflict hints included |
| `Payload.PayloadExact` | crates/kv-node/src/application.rs:794-838 | decoding accepts a payload if and only if it is the canonical encoding of a bounded mutation of that key, and returns its value |
| `Payload.PayloadInjective` | crates/kv-node/src/application.rs:828-838 | different bounded mutations never share a canonical payload |
| `ApplicationInvariant.ApplyKeeps` | crates/kv-node/src/application.rs:404-449 | every entry keeps the application invariant: counters equal true sums, caps respected, nonces and ids in bijection, operation indices distinct, sequences bounded by the log |
| `ApplicationInvariant.ReplayInv` | crates/kv-node/src/application.rs:404-449 | every log leads to a state satisfying that invariant |
| `ApplicationInvariant.ReplayOk` | crates/kv-node/src/application.rs:703-791 | in addition retained payloads stay canonical, and values stay bounded when plain writes are |
| `ApplicationInvariant.NeverExhausted` | crates/kv-node/src/application.rs:703-791 | in every state below the index limit no mutation is refused for an exhausted sequence |
| `ApplicationInvariant.NoUnderflow` | crates/kv-node/src/application.rs:703-791 | a replaced payload is always part of the retained byte count |
| `ApplicationLaws.RequestExact` | crates/kv-node/src/application.rs:703-801 | a session request takes effect if and only if key and value are in bounds, the session exists and is open, it carries its key's next number, the key has a record or there is room for one (256 in the session, 8192 in all), and the retained bytes stay within 16 MiB; each refusal is given exactly in its own case, with the expected number, a retry gets the earlier result, and only an effective request changes anything: its own key and record |
| `ApplicationLaws.PlainExact` | crates/kv-node/src/application.rs:411-421 | a put sets its key, a delete leaves it absent, other plain commands change nothing; all are answered with their index |
| `ApplicationLaws.ValuesAreLastWrites` | crates/kv-node/src/application.rs:404-440 | after any log a key holds what the last entry that wrote it says, its value or nothing after a delete, and nothing if no entry wrote it |
| `ApplicationLaws.RegisterExact` | crates/kv-node/src/application.rs:669-691 | a registration is refused for a bad nonce or 1024 sessions, returns the session of a known nonce, and otherwise opens one named by its index |
| `ApplicationLaws.RegisteredOnce` | crates/kv-node/src/application.rs:669-691 | registering a nonce again, however much later, returns the first result |
| `ApplicationLaws.CloseExact` | crates/kv-node/src/application.rs:693-701 | a closing is refused for an unknown session, returns the first result of a closed one, and otherwise closes it |
| `ApplicationLaws.ClosedOnce` | crates/kv-node/src/application.rs:693-701 | closing a session again, however much later, returns the first result |
| `ApplicationLaws.ControlExact` | crates/kv-node/src/application.rs:670-670 | on UTF-8 the byte scan for control characters finds exactly the texts with a code point below 32 or from 127 to 159 |
| `ApplicationLaws.PayloadLength` | crates/kv-node/src/application.rs:828-838 | the length of the retained encoding of a request |
| `ApplicationSessions.NthCarriesN` | crates/kv-node/src/application.rs:703-791 | over every log, the n-th effective mutation of a session's key carries sequence number n |
| `ApplicationSessions.AtMostOnce` | crates/kv-node/src/application.rs:703-791 | no sequence number of a session's key takes effect twice |
| `ApplicationSessions.EveryNumberUsed` | crates/kv-node/src/application.rs:703-791 | every number up to the count of effective mutations did take effect |
| `ApplicationSessions.SequenceCounts` | crates/kv-node/src/application.rs:703-791 | the retained sequence number is the count of effective mutations in the log |
| `ApplicationSessions.EffectiveStep` | crates/kv-node/src/application.rs:703-791 | an effective mutation carries the next number, sets the value, and records its own index, digest, payload and result, touching no other session or key |
| `ApplicationSessions.RetryReturnsOriginal` | crates/kv-node/src/application.rs:703-791 | repeating the latest effective request anywhere later in the log, while the session is open, returns the original outcome and moves only the watermark |
| `ApplicationSessions.RejectionChangesNothing` | crates/kv-node/src/application.rs:404-449 | every rejected session command moves only the watermark |
| `ApplicationSessions.ClosedForever` | crates/kv-node/src/application.rs:693-701 | a closed session is frozen for the rest of every log |
| `ApplicationSessions.ClosedNeverMutates` | crates/kv-node/src/application.rs:693-701 | no later entry takes effect through a closed session |
| `ApplicationSnapshot.Export` | crates/kv-node/src/application.rs:453-489 | the snapshot lists every value, session and retry record of the state, each once, with its counters and watermark |
| `ApplicationSnapshot.ImportValues` | crates/kv-node/src/application.rs:527-540 | accepts a value list if and only if it is duplicate-free and within bounds, and returns its map |
| `ApplicationImport.ImportSession` | crates/kv-node/src/application.rs:541-656 | accepts a session row if and only if it may join those before it, and accounts its indices, keys and bytes |
| `ApplicationImport.ImportSessions` | crates/kv-node/src/application.rs:541-656 | what it rebuilds is the listed sessions, sound and counted; it refuses no row of an acceptable snapshot |
| `ApplicationImport.Import` | crates/kv-node/src/application.rs:494-667 | accepts a snapshot if and only if its lists are duplicate-free and denote a state satisfying the invariant, with canonical payloads and bounded values, at the expected index; returns that state |
| `ApplicationImport.ExportImport` | crates/kv-node/src/application.rs:453-667 | for every log the trip succeeds if and only if the index is right and the stored values are within bounds, and then returns that very state |
| `ApplicationImport.BoundedLogsArePortable` | crates/kv-node/src/application.rs:404-449 | a log whose plain writes are bounded leads to a state the trip preserves |
| `ApplicationImport.EmptyKeyIsNotPortable` | crates/kv-node/src/application.rs:412-419 | one applied plain write of the empty key leaves a sound state that no acceptable snapshot denotes, at any index |
| `ApplicationImport.Rebuilt` | crates/kv-node/src/kv.rs:179-195 | a machine on an acceptable snapshot's state is sound, so transactions and groups on it are covered |
| `StateMachine.Machine.constructor` | crates/kv-node/src/application.rs:393-400 | a new machine is the empty state, and sound |
| `StateMachine.Machine.Apply` | crates/kv-node/src/application.rs:404-449 | from any state satisfying the invariant: accepts exactly the next index, takes the proved step and keeps the invariant; otherwise nothing changes |
| `StateMachine.Machine.Perform` | crates/kv-node/src/application.rs:404-446 | in place, the effect and outcome of the command as specified |
| `StateMachine.Machine.Register` | crates/kv-node/src/application.rs:669-691 | in place, registration as specified: idempotent per nonce, capacity-bounded |
| `StateMachine.Machine.Close` | crates/kv-node/src/application.rs:693-701 | in place, closing as specified: the first close's result is kept |
| `StateMachine.Machine.Mutate` | crates/kv-node/src/application.rs:703-791 | in place, a session mutation as specified, all refusals included |
| `StateMachine.Machine.Enter` | crates/kv-node/src/application.rs:733-791 | in place, the part that consults and updates the key's record and the counters |
| `StateMachine.Machine.Consult` | crates/kv-node/src/application.rs:735-767 | retry, stale, gap and capacity answers exactly as specified, without a change |
| `StateMachine.Machine.Update` | crates/kv-node/src/application.rs:768-790 | record, counters and value change together, as specified |
| `StateMachine.Machine.Undo` | crates/kv-node/src/application.rs:265-313 | in place, restores every captured component |
| `StateMachine.ApplyUndone` | crates/kv-node/src/application.rs:216-313 | capture, apply, restore returns the state in every component, for every command, if and only if it is not a registration whose index already names a session |
| `StateMachine.StaleUndoDeletes` | crates/kv-node/src/application.rs:320-328 | undoing a registration whose index names a session loses that session, whatever state the undo starts from |
| `StateMachine.Transaction.constructor` | crates/kv-node/src/application.rs:359-366 | a transaction starts from the machine's state with nothing to undo |
| `StateMachine.Transaction.Apply` | crates/kv-node/src/application.rs:320-338 | extends the applied entries by one, or refuses and changes nothing |
| `StateMachine.Transaction.UndoLast` | crates/kv-node/src/application.rs:339-344 | the state is the one before the last entry still applied |
| `StateMachine.Transaction.Commit` | crates/kv-node/src/application.rs:345-347 | keeps the state |
| `StateMachine.Transaction.Drop` | crates/kv-node/src/application.rs:349-357 | an uncommitted transaction leaves the starting state in every component, a committed one its result |
| `AppliedStore.KeysExact` | crates/kv-node/src/applied_store.rs:130-146 | key bytes and cell keys correspond one to one across the five namespaces |
| `AppliedStore.EntryDump` | crates/kv-node/src/applied_store.rs:162-216 | writing an entry's cells over a dump of the state gives the dump of the next state |
| `AppliedStore.IncrementalIsFull` | crates/kv-node/src/applied_store.rs:162-251 | for every nonempty log the folded entry cells are exactly the full dump of the replayed state |
| `AppliedStore.DumpUnique` | crates/kv-node/src/applied_store.rs:218-251 | a state has one dump |
| `AppliedStore.DumpDetermines` | crates/kv-node/src/applied_store.rs:253-338 | a dump determines its state and term |
| `StoreRecovery.FullCells` | crates/kv-node/src/applied_store.rs:218-251 | the listed cells are distinct, true, and written to an empty store give the dump |
| `StoreRecovery.Decode` | crates/kv-node/src/applied_store.rs:270-338 | of parsed rows, accepts exactly the dumps of importable states at the engine's watermark and returns state and term; at watermark zero exactly the empty store |
| `StoreRecovery.ParseRows` | crates/kv-node/src/applied_store.rs:270-300 | of raw rows, accepts exactly those without a repeated key, in known namespaces and with readable keys and contents, and returns what they say |
| `StoreRecovery.DecodeStore` | crates/kv-node/src/applied_store.rs:253-338 | reading back raw engine rows is exact: refused if unparsable or no dump of an importable state, accepted otherwise |
| `StoreRecovery.Reopen` | crates/kv-node/src/applied_store.rs:474-516 | succeeds if and only if the rows are those derived from the log's prefix, whose last term is positive and whose values are within bounds; returns that replay and its last term |
| `StoreRecovery.BoundedReopens` | crates/kv-node/src/applied_store.rs:474-516 | a log with bounded plain writes can be reopened at every watermark |
| `StoreBytes.ReplayTextual` | crates/kv-node/src/applied_store.rs:127-129 | every string of a replayed state is UTF-8, so every name and value reads back as text |
| `StoreBytes.EncodeRows` | crates/kv-node/src/applied_store.rs:218-251 | the raw rows are the encoded cells, each exactly once |
| `StoreBytes.EncodedReflects` | crates/kv-node/src/applied_store.rs:218-338 | the encoded dump of any sound textual state, in any order of rows, parses to exactly that dump |
| `StoreBytes.ReadBack` | crates/kv-node/src/applied_store.rs:253-338 | the encoded dump of an importable state, in any order of rows, decodes to that state and its term |
| `StoreBytes.WriteRead` | crates/kv-node/src/applied_store.rs:218-338 | writing a dump as bytes and reading it back returns the state and its term |
| `StoreBytes.ReopenStore` | crates/kv-node/src/applied_store.rs:474-516 | from raw rows, reopening succeeds if and only if they parse to rows derived from the log's prefix that can be reopened, and returns that replay and its last term |
| `StoreBytes.OwnStoreReopens` | crates/kv-node/src/applied_store.rs:474-516 | the bytes a node derived from its own bounded log parse and can be reopened over it at every watermark |
| `StoreRecovery.EmptyKeyCannotReopen` | crates/kv-node/src/applied_store.rs:474-516 | after an applied write of the empty key no rows can be reopened |
| `GroupApply.Batch.constructor` | crates/kv-node/src/kv.rs:125-127 | an empty batch with a true byte count |
| `GroupApply.Batch.Add` | crates/kv-node/src/applied_store.rs:642-680 | merges if and only if the changes are distinct, bounded and fit; the byte count is the true sum; otherwise the batch is unchanged |
| `GroupApply.Batch.Measure` | crates/kv-node/src/applied_store.rs:642-672 | the prospective byte and record counts are those of the coalesced cells |
| `GroupApply.OverlayCoalesce` | crates/kv-node/src/applied_store.rs:642-680 | one transaction of merged cells equals writing every change in order |
| `GroupApply.OneByOneSplit` | crates/kv-node/src/driver.rs:1415-1449 | splitting the one-at-a-time run anywhere gives the same run |
| `GroupApply.Store.constructor` | crates/kv-node/src/applied_store.rs:401-538 | a new store is empty at index zero |
| `GroupApply.Store.Commit` | crates/kv-node/src/applied_store.rs:542-568 | all cells and the watermark, or nothing; an engine failure poisons, a wrong range does not |
| `GroupApply.StageOne` | crates/kv-node/src/kv.rs:130-148 | takes the entry and merges its cells; or undoes it because its cells exist and are valid but do not fit the batch as it stands; or refuses it because it does not follow, has no cells, or they are invalid |
| `GroupApply.Stage` | crates/kv-node/src/kv.rs:124-148 | provisionally applies a nonempty prefix as the one-at-a-time run does, with exactly that prefix's cells in the batch, stopping short only where the next entry's cells do not fit beside them |
| `GroupApply.Group` | crates/kv-node/src/kv.rs:108-160 | on any sound machine, a nonempty prefix is applied exactly as one entry at a time, behind one engine transaction, or nothing changes; the transaction holds exactly that prefix's cells, it stops short only where the next entry's cells do not fit beside them, and succeeds on every clean run |
| `GroupApply.Drain` | crates/kv-node/src/driver.rs:1415-1449 | gathering, grouping and pushing back ends, and leaves application, rows and outcomes of the one-at-a-time run of a prefix; the whole queue when the engine and the entries allow |
| `Linearizability.PlaceTimed` | scripts/check_history.py:150-195 | running maxima of start times place any real-time-compatible order at nondecreasing points inside the operations' intervals |
| `Linearizability.TimedRealTime` | scripts/check_history.py:150-195 | conversely any such placement respects real time |
| `Linearizability.Interleave` | scripts/check_history.py:234-248 | two orders over disjoint keys merge into one that is legal for the store and respects real time across keys |
| `Linearizability.Locality` | scripts/check_history.py:234-248 | if every key's operations linearize alone, all operations linearize in one global order |
| `Linearizability.KeyOfGlobal` | scripts/check_history.py:234-248 | a global linearization, restricted to a key, linearizes that key |
| `Linearizability.LocalityExact` | scripts/check_history.py:234-248 | a history linearizes as a whole if and only if each key's part does |
| `Linearizability.DropRead` | scripts/check_history.py:198-210 | removing a read keeps a history linearizable |
| `Linearizability.PickLinearizable` | scripts/check_history.py:198-210 | searching a sub-list decides exactly that part of the whole list |
| `HistorySearch.WitnessLinearizes` | scripts/check_history.py:150-195 | the operations a witness applies, in its order, form a linearization |
| `HistorySearch.LinearizationCompletes` | scripts/check_history.py:150-195 | every linearization is the applied part of some witness the search could return |
| `HistorySearch.CompletableExact` | scripts/check_history.py:150-195 | the search space has a completion if and only if a linearization exists with some subset of the unknown mutations |
| `HistorySearch.StatesBound` | scripts/check_history.py:150-195 | there are at most 2^n (n + 1) search states |
| `HistorySearch.Searcher.constructor` | scripts/check_history.py:150-157 | predecessor sets are exactly the operations completed before the start; memo and count are empty |
| `HistorySearch.Searcher.Visit` | scripts/check_history.py:159-189 | a found witness completes, a dead end has no completion, every memoized pair truly has none, and the states visited exceed the memo by at most the current path |
| `HistorySearch.Searcher.Try` | scripts/check_history.py:169-187 | one turn finds a witness, exhausts the budget, or excludes every completion that starts with this operation |
| `HistorySearch.Searcher.Dispose` | scripts/check_history.py:172-187 | one action on a free operation, then the rest: a witness extends, a dead end excludes that action |
| `HistorySearch.Search` | scripts/check_history.py:150-195 | PASS comes with a linearization, FAIL means there is none, INCONCLUSIVE means the budget is spent; never more states than the budget or the bound |
| `HistorySearch.Counterexample` | scripts/check_history.py:198-218 | keeps every write, stays as linearizable as the whole, is minimal in reads when complete, and is incomplete only on a spent budget |
| `HistoryRows.FoldExact` | scripts/check_history.py:126-144 | a folded operation covers exactly the instants after some attempt started and not after any acknowledgement, and is optional exactly when none was acknowledged |
| `HistoryRows.GroupsAgreeExact` | scripts/check_history.py:130-136 | first-attempt comparison accepts exactly the histories whose attempts of one identity agree pairwise |
| `HistoryRows.OperationsWellFormed` | scripts/check_history.py:66-147 | operations of a valid history have ordered intervals and initialised keys |
| `HistoryCheck.Normalize` | scripts/check_history.py:66-147 | accepts exactly the valid histories and returns their folded operations; every acknowledged attempt and every unknown write has exactly one operation, with its kind, key and recorded value, and nothing else has one |
| `HistoryMeaning.OperationsExact` | scripts/check_history.py:122-147 | each ok row and each unknown put or delete is an attempt of exactly one operation, whose attempts are the rows under its logical name, with their kind, key and value; other rows yield none; an operation may be left out exactly when none of its attempts was acknowledged |
| `HistoryMeaning.LegalExact` | scripts/check_history.py:149-219 | an order is legal if and only if every read returns the last value written to its key before it, or the initial one |
| `HistoryMeaning.MeaningExact` | scripts/check_history.py:122-254 | the operations linearize if and only if one order of everything acknowledged explains every recorded read and contradicts no acknowledgement that came before an invocation |
| `HistoryCheck.CheckKey` | scripts/check_history.py:236-239 | the verdict on a key is exact for that key's operations |
| `HistoryCheck.CheckKeys` | scripts/check_history.py:234-247 | PASS means every key linearizes, FAIL that the named key does not, inconclusive that the budget is spent |
| `HistoryCheck.Check` | scripts/check_history.py:221-254 | PASS means that in one order of everything acknowledged, of all keys, every recorded read returns the last value written before it or the initial one; FAIL that there is no such order and the named key alone shows it; a valid history is inconclusive only on a spent budget, and no more than keys times 2^n (n + 1) + n states are ever visited |
| `DriverAudit.Audit` | crates/kv-node/src/driver.rs:1090-1141 | accepts a batch if and only if every solicitation follows a hard-state save, and every granted vote or successful append reply follows its batch's first matching save when there is one |
| `DriverAudit.Splice` | crates/kv-node/src/driver.rs:1503-1513 | pushing a callback's batch to the front disturbs no other batch's order |
| `DriverAudit.Execute` | crates/kv-node/src/driver.rs:1167-1522 | effects run in the stated schedule, each once, sends always behind their own batch's completed saves, wherever the trace is cut; success means everything ran, failure names its cause |
| `DriverAudit.TraceSafe` | crates/kv-node/src/driver.rs:1180-1181 | persist-before-send holds in any in-order trace of audited batches |
| `DriverResponses.Responder.constructor` | crates/kv-node/src/driver.rs:1043-1050 | nobody waits, nobody is gone and nothing is answered |
| `DriverResponses.Responder.HangUp` | crates/kv-node/src/driver.rs:1483-1488 | clients may close their end at any moment, wherever they wait; conservation is kept |
| `DriverResponses.Responder.Admit` | crates/kv-node/src/driver.rs:974-1005 | the batch's queue is its clients that have not hung up, in order |
| `DriverResponses.Responder.Reject` | crates/kv-node/src/driver.rs:1490-1501 | the first queued client, and only it, is told the command was refused |
| `DriverResponses.Responder.Accept` | crates/kv-node/src/driver.rs:1476-1489 | the first queued client moves to its index; one that has hung up by now is forgotten; an index in use is an error that loses exactly its client |
| `DriverResponses.Responder.Apply` | crates/kv-node/src/driver.rs:1440-1448 | the client waiting at the applied index, and only it, gets that outcome |
| `DriverResponses.Responder.MarkUnknown` | crates/kv-node/src/driver.rs:1371-1386 | exactly the clients at indices up to the boundary get an unknown outcome, once each |
| `DriverResponses.Responder.DropResponses` | crates/kv-node/src/driver.rs:1040-1050 | every client still queued gets an unknown outcome, in order |
| `DriverResponses.Responder.Perform` | crates/kv-node/src/driver.rs:1349-1501 | each effect changes waiting clients as stated, and the conservation invariant is kept: each admitted live client is queued, pending at its own index, or answered once and truthfully |
| `DriverResponses.Responder.Execute` | crates/kv-node/src/driver.rs:1167-1522 | the batch is a run of such steps, with clients hanging up in between, ended by its first failure; afterwards nobody is queued, and exactly the client displaced by the failing step, if any, is lost |
| `DriverResponses.DuplicateIndexLoses` | crates/kv-node/src/driver.rs:1483-1488 | accepting at an index in use does lose the client waiting there |
| `DriverResponses.AppliedReported` | crates/kv-node/src/driver.rs:1440-1448 | a client waiting at an index that a batch applies is told that result |
| `DriverResponses.UnknownNeedsCause` | crates/kv-node/src/driver.rs:1371-1386 | a batch that keeps leadership and installs no snapshot tells nobody that the outcome is unknown |
| `DriverResponses.MatchedRun` | crates/kv-node/src/driver.rs:1476-1522 | a batch with one verdict per queued client at fresh indices loses nobody, ends badly only on a failure, and leaves nobody queued |
| `DriverResponses.Responder.Shutdown` | crates/kv-node/src/driver.rs:608-622 | afterwards every client ever admitted, not lost and still there, has been answered exactly once |
| `DriverCore.StepUndemanding` | crates/raft-core/src/lib.rs:369-409 | a step without proposals gives no verdicts; a leader that stays one only extends its log, one that does not, and only it, reports it |
| `DriverCore.ProposalMatched` | crates/raft-core/src/replication.rs:113-162 | a proposal batch gives every command one verdict, accepts only at indices no client waits at, and when refused leaves the node as it was |
| `DriverCore.ProposalServes` | crates/raft-core/src/replication.rs:113-162 | after a proposal batch every pending index still holds, in the log, the command of the client waiting there, and a refusal is told only if the node is as it was |
| `DriverCore.Driver.constructor` | crates/kv-node/src/driver.rs:1043-1050 | the loop starts with nobody waiting |
| `DriverCore.Driver.Turn` | crates/kv-node/src/driver.rs:532-544 | the node takes the core's step; nobody is lost, and the turn ends badly only where one of that step's own effects failed; every pending index stays the core's and holds its client's command; while the node leads, every client whose command is applied is told its result, and nobody that it is unknown |
| `DriverCore.Driver.Propose` | crates/kv-node/src/driver.rs:974-1036 | the node takes the core's step on the commands of the clients still there, and each of them gets its verdict; the batch ends badly only where one of its own effects failed; afterwards every waiting client's own command is in the log at the index it waits at, and if anybody was refused the node is unchanged |
| `DriverCore.Driver.Stop` | crates/kv-node/src/driver.rs:608-622 | whenever the driver stops, every client ever admitted that has not hung up has been answered, exactly once |
| `DriverBatching.Collect` | crates/kv-node/src/driver.rs:830-887 | verdicts follow arrival order; cancelled exactly when gone, oversized exactly when too large, deferred only when the batch would burst; within record, byte and scan limits; ends only for a stated reason |
| `DriverBatching.Serve` | crates/kv-node/src/driver.rs:798-887 | over repeated calls the batches with cancelled and oversized requests partition a prefix of the arrivals in order; at most one request is held back and it is the next in line; every call makes progress |
| `SnapshotReceiver.Receiver.constructor` | crates/kv-node/src/snapshot.rs:202-217 | a new receiver has no transfer and an empty file |
| `SnapshotReceiver.Receiver.StageChunk` | crates/kv-node/src/snapshot.rs:268-414 | performs exactly the chunk step proved sound, poisoning on an I/O error, and keeps soundness |
| `SnapshotReceiver.Receiver.Transact` | crates/kv-node/src/snapshot.rs:370-414 | the file work of one chunk, exactly as proved |
| `SnapshotReceiver.Receiver.CancelTransfer` | crates/kv-node/src/snapshot.rs:428-462 | performs exactly the cancellation proved sound |
| `SnapshotReceiver.Receiver.Completed` | crates/kv-node/src/snapshot.rs:417-425 | an image handed out is the whole file of that transfer with the declared length, digest and descriptor; without a failed I/O it is withheld only while the file is not that image |
| `SnapshotReceiver.RunSound` | crates/kv-node/src/snapshot.rs:268-462 | in every state of every sequence of chunks, cancellations and I/O failures the file is exactly as long as the accepted offset, and the transfer is complete exactly when the file has the declared length, digest and descriptor |
| `SnapshotReceiver.FileIsParts` | crates/kv-node/src/snapshot.rs:370-386 | in every state of every run the file is the gap-free concatenation of the chunks that moved the active transfer forward; duplicates and rejected chunks never alter it |
| `SnapshotReceiver.DuplicatesAreHarmless` | crates/kv-node/src/snapshot.rs:374-381 | in every state of every run a chunk before the offset is compared inside the file: without a fault it is no I/O error and leaves the file alone |
| `SnapshotReceiver.HonestTransfer` | crates/kv-node/src/snapshot.rs:268-414 | whatever else arrives, the file of a transfer whose chunks come from one image is a prefix of it, and once complete is that image |
| `SnapshotReceiver.NextSegmentAdvances` | crates/kv-node/src/snapshot.rs:370-414 | the next segment of an honest transfer is accepted, and the last completes it |
| `SnapshotReceiver.TransferCompletes` | crates/kv-node/src/snapshot.rs:268-414 | whatever the slot held, if it is free for the transfer and the segments of the image arrive in order, the receiver ends with the image |
| `SnapshotReceiver.OnlySegmentsTaken` | crates/kv-node/src/snapshot.rs:268-348 | a chunk that changes anything or is acknowledged is a segment of a valid descriptor for this group from a member or authorized sender, newer than what is installed, of the active transfer or the start of a newer one |
| `SnapshotReceiver.CancelFrees` | crates/kv-node/src/snapshot.rs:428-462 | cancelling the active transfer frees the slot for every transfer, cancelling another changes nothing |
| `SnapshotReceiver.InstalledAnswered` | crates/kv-node/src/snapshot.rs:308-316 | a segment of the installed snapshot is acknowledged as complete exactly when its bytes match |
| `SnapshotReceiver.BadImageNeverCompletes` | crates/kv-node/src/snapshot.rs:387-405 | over any stretch of a run, a transfer whose full file fails the digest or the descriptor never completes, until another transfer replaces it or it is cancelled |
| `SnapshotReceiver.NeverBackwards` | crates/kv-node/src/snapshot.rs:332-348 | between cancellations the active transfer's term and boundary index never go back |
| `AddressCache.CheckCandidates` | crates/kv-node/src/config.rs:1025-1052 | accepts if and only if every candidate is admissible and the set is bounded; returns the canonical candidates without repetition |
| `AddressCache.CheckPeer` | crates/kv-node/src/config.rs:969-982 | accepts a peer if and only if none of its candidates aliases this node or an earlier destination |
| `AddressCache.CheckPeers` | crates/kv-node/src/config.rs:958-986 | the growing-set loop accepts exactly the peers that are admissible with pairwise disjoint destinations |
| `AddressCache.CountIsComplete` | crates/kv-node/src/config.rs:984-986 | among distinct configured peers, the right count means every configured peer is there |
| `AddressCache.Validate` | crates/kv-node/src/config.rs:927-988 | accepts exactly the valid snapshots, complete meaning that every configured peer is present |
| `AddressCache.NeverAbsent` | crates/kv-node/src/config.rs:818-828 | a complete valid snapshot has a place for exactly the configured peers, so the absent-peer refusal cannot occur |
| `AddressCache.MergeExact` | crates/kv-node/src/config.rs:803-841 | merging one valid peer into a valid cache fails if and only if a fresh address collides with another cached peer |
| `AddressCache.Cache.constructor` | crates/kv-node/src/config.rs:803-841 | a cache starts from a valid complete snapshot |
| `AddressCache.Cache.AcceptPeer` | crates/kv-node/src/config.rs:803-841 | accepted exactly when one valid peer that collides with no other, and then only that peer's addresses and this node's own advertisements change; a conflict is reported exactly on a true collision; any failure leaves the cache as it was |
| `AddressCache.Cache.AcceptSnapshot` | crates/kv-node/src/config.rs:842-864 | accepted exactly when valid, unchanged since it was read and asked for a configured peer; stale exactly when changed; the cache stays valid under every interleaving |
| `Crc.TableStep` | crates/kv-node/src/crc.rs:5-33 | one table step is eight division steps |
| `Crc.MakeTable` | crates/kv-node/src/crc.rs:5-23 | every table entry is eight division steps of its index |
| `Crc.Checksum` | crates/kv-node/src/crc.rs:27-33 | the table-driven loop equals division bit by bit on every message |
| `Crc.Compute` | crates/kv-node/src/crc.rs:27-33 | with the table for 0xEDB88320 the result is that polynomial's checksum |
| `Crc.StepsInjective` | crates/kv-node/src/crc.rs:5-23 | division by a polynomial with its top bit set loses nothing |
| `Crc.ShortFeed` | crates/kv-node/src/crc.rs:27-33 | up to 32 bits act like one word entered at once |
| `Crc.DivideIsFeed` | crates/kv-node/src/crc.rs:27-33 | dividing byte by byte is dividing the message's bit stream |
| `Crc.BurstDetected` | crates/kv-node/src/crc.rs:27-33 | for every polynomial with its top bit set, different messages of equal length whose bits agree outside some 32 consecutive ones, byte-aligned or not, have different checksums |
| `Crc.Crc32DetectsBursts` | crates/kv-node/src/crc.rs:27-33 | the same for the store's own polynomial |
| `Crc.EmptyChecksum` | crates/kv-node/src/crc.rs:27-33 | the empty message has checksum zero |
| `Crc.Residue` | crates/kv-node/src/crc.rs:27-33 | a message followed by its own checksum has the same checksum whatever the message |
| `Crc.LeadingZeroDetected` | crates/kv-node/src/crc.rs:27-33 | a zero byte put in front of any message changes its checksum |
| `Crc.Crc32DetectsDamagedBytes` | crates/kv-node/src/crc.rs:27-33 | in particular any damage to at most four consecutive bytes is detected |

## Left out

- Membership change, learners, retirement, advertisements and group envelopes: the voter configuration is one fixed stable or joint set, and the membership guard on a candidate (`may_vote_for`) is an arbitrary choice per message. Configuration-suffix validation of a payload is therefore absent.
- Log compaction, the snapshot transfer protocol of the core, and restoring the applied watermark at start: a node's log starts at index one and a restarted node applies again from its log.
- ReadIndex, leader hints, contact rounds and CheckQuorum timing: ticks are free choices (an election timeout, a heartbeat, a lapse of the leader's window may happen at any time); reads never change the log.
- Machine integers: terms, log indices and counters are unbounded naturals. The program's own limit checks are kept (a campaign, an election, a new leader or a proposal that would reach the 64-bit maximum is refused), saturating and wrapping arithmetic is not.
- Liveness under loss, delay and competing candidates: elections, catching up and commitment are proved to succeed when the messages concerned are delivered and answered; timers, fairness and split votes are not modelled.
- RaftNode.RaftNode.AdvanceCommit: the model stops applying at the end of the log instead of panicking; the invariant shows that this bound is never reached.
- Handling of append replies, client proposals and message dispatch has no imperative twin; the pure handlers in `RaftCore` are what the run theorems are about.
- Text of JSON and of hashes: histories are typed values, the JSON parser and writer of the store's metadata, headers and records are arbitrary functions (the round trip assumes that the parser inverts the writer), and SHA-256 is an arbitrary function. Field types and unknown fields are thus not checked.
- Order of map iteration: `Export` lists entries in no stated order where the program lists them sorted, `Check` takes the keys in any order, and clients marked together are answered in any order.
- HistoryCheck.Check: the optional reduction after FAIL and the statistics in the report are not part of it; `Counterexample` models the reduction by itself. Attempt lists in witnesses are omitted.
- StoreRecovery.Reopen: identity binding, migration between identities and the branch that reinstalls a newer snapshot into the engine are not modelled; the log is whole.
- Installing a received snapshot into the store and the application, and the status query after a group's commit.
- Engines and files: a storage engine is a row map with a watermark whose transactions succeed or fail as the environment decides; the receiver's file is a byte sequence with the same kind of failures.
- Administrative requests and reads in the driver, and the refusal of requests still queued outside it at shutdown. Snapshot effects concern waiting clients in `DriverResponses`, but the core in `DriverCore` emits none, having no snapshots.
- Address policy: which addresses are admissible destinations and how they are canonicalised are arbitrary functions; DNS, timeouts and listener parsing are not modelled.
- The HTTP server and client, the TCP transport and its framing of peer messages, the shard service, and the experiment scripts other than the history checker.
