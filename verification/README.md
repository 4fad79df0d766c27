# iron-consensus verification

A Dafny model of the parts of this workspace whose correctness is hard to see by
reading one function: the Raft, Paxos, two-phase and three-phase commit state
machines, the write-ahead log with the runtime that sits on it, the bounded
deduplication table, and the deterministic network used to drive them.

`dafny verify dfyconfig.toml` checks the whole project.

## How it is organised

Every component has the same four layers.

1. *What one call means.* Each handler is a function from the old state and the
   arguments to the new state and the answer, with the branches, limits and
   error cases of the Rust code.
2. *The object.* Each Rust struct whose methods update fields is a class with
   those fields. Its methods, loops included, are proved to leave exactly the
   state and answer that the function describes.
3. *What every run keeps.* The functions are composed into a state machine, an
   invariant is proved to survive every event, and the promises of the component
   follow for every run of any length.
4. *What is answered.* Each reply is characterised without the function that
   computes it: by the packet and the log, by the answers given before, by the
   device, or by the verdict of the participant asked.

| files | component |
|---|---|
| `core.dfy` | shared types, majorities of a finite membership, the order on node names |
| `raft_node.dfy`, `raft_cluster.dfy` | Raft node; cluster over an unreliable network |
| `raft_election.dfy` | which clusters can elect a leader |
| `raft_answers.dfy` | what a node answers to each packet, and whose log a packet describes |
| `wal_format.dfy`, `wal_reader.dfy` | binary frame; strict scanner as the inverse of the encoder |
| `wal_disk.dfy`, `wal_scanner.dfy` | the file with its synchronized length; scan and torn-tail repair on it |
| `wal_session.dfy`, `wal_writer.dfy` | writing session: sync policies, poisoning, replay |
| `wal_durability.dfy` | the log over any number of sessions, restarts and power losses |
| `wal_reports.dfy` | when a durability report can be trusted, exactly and by what a caller can see |
| `wal_faults.dfy`, `wal_scan_answers.dfy` | which error a scan reports; what it answers for any file and device fault |
| `wal_answers.dfy` | what the writer answers, and how far that can be relied on |
| `runtime.dfy`, `runtime_answers.dfy` | record before effects; every action performed |
| `dedup.dfy`, `dedup_laws.dfy`, `dedup_table.dfy` | dedup as an ordered list; its laws; map, queue and byte counter refining it |
| `dedup_answers.dfy` | every answer of the table in terms of the answers before it |
| `two_phase.dfy`, `three_phase.dfy` | atomic commit |
| `two_phase_answers.dfy`, `three_phase_answers.dfy` | who says what and on whose verdict; which outcomes are still possible |
| `paxos.dfy` | promise discipline, quorums behind Accept and Decision |
| `paxos_votes.dfy` | when the majority behind a Decision accepted exactly it |
| `paxos_answers.dfy` | what a node answers to each message, and where accepted values come from |
| `network.dfy`, `network_answers.dfy` | event queue and simulated network; what each call answers |

Modelling choices that hold throughout:

* A network is the set of every packet ever returned by a handler. A packet may
  be delivered any number of times, in any order, or never, so loss, duplication
  and reordering need no events of their own.
* Machine integers are unbounded numbers with the checked overflow branches of
  the source written out.
* The checksum is a function parameter. Every theorem about the log holds for
  any function, hence for CRC32C.
* A file is its bytes together with how many of them are synchronized. A power
  loss keeps any prefix at least that long. Device failures, and how far a failing
  write gets, are arguments of the operation.
* Sequence numbers start at 1, so "no record yet" is 0.

## What was found

`FileWal::open` reports `durable_through` from its scan without synchronizing
the file (`crates/iron-wal/src/writer.rs:139-140`), while the documentation of the
accessor says "confirmed through `sync_data`" (`writer.rs:161`). The model follows the
code. `ReopenOverstatesDurability` gives a run in which a reopened writer reports a
record durable and a power loss then removes it. When the report is right is proved
exactly, three times over:

* `OpenReportsDurableIff`: right after an open, exactly when the file held nothing
  unsynchronized or had a torn tail, whose repair synchronizes it.
* `ReportedSurvivesIff`: in every reachable state with a writer, the reported records
  survive every continuation exactly when they are among the synchronized ones.
* `LeavesSettledIff` and `ReopenRightIff`: in terms of what a caller sees, dropping an
  unpoisoned writer and reopening the log is safe exactly when the writer's
  `durable_through` equals its `last_lsn`.

`CleanExitDurability` turns this into a rule: if writers are only dropped in that
state, as after a successful flush or under the Always policy (`CleanWhen`), a record
once reported durable survives everything. `PowerLossDurability` and
`PowerLossKeepsReported` cover writers that end only by power loss.

`SimulatedNetwork::release_reordered_at` loses messages when it fails
(`crates/iron-testkit/src/network.rs:180-184`). For a tick already past it schedules
nothing and every message held for that tick is gone; when the sequence numbers run
out, those held first are gone (`ReleaseAccounts`). `LateReleaseLoses` is a run in
which a message is lost. `ReleaseConservesIff` gives the exact condition, which a
caller can check before the call: nothing is held for the tick, or the tick is not
past and enough sequence numbers are left. `CopiesConservedIff` lifts this to runs:
every copy is accounted for at every moment if and only if every call was made under
its condition.

A three-phase coordinator in PreCommit can still reach Committed, by some
continuation, if and only if no participant has aborted (`CommitReachableIff`). So a
participant that votes and then times out blocks for good a coordinator that its vote
still brings to PreCommit (`BlockedForever`), and that state is reachable
(`BlockIsReachable`). Participants in PreCommit are blocked with it, under the same
exact condition (`ParticipantCommitIff`). The source announces the outcome with
`PartitionMayBlock`.

Paxos votes are counted per slot and not per ballot
(`crates/iron-multipaxos/src/lib.rs:249-251`). A proposer that up to a round has
asked for one ballot and value only, for a slot, decides it on a majority that
accepted exactly these, whatever it asks for later (`SingleAskExact`). If it asked
for something else before, or in the same round, votes for one may decide the other:
`MixedVotes` builds such a run in which the proposer alone accepts what is decided.
`ExactMajorityIff` puts both halves together for every membership and any two asks:
the majority is always exact if and only if the two are one, the proposer is the only
member, or the other ask comes in a later round. What holds without condition is that
every voter accepted some value for the slot from this proposer, in that round or an
earlier one (`DecisionHasVoters`), and that the value decided was proposed, and asked
for under that very ballot (`OnlyProposedDecided`).

A Raft cluster of one never has a leader. `LeaderPossibleIff` shows that this is the
only exception: with two members or more, some run elects one.

## Main results

Each is stated for every run, input or cut point, and has its row below.

* Raft: `ElectionSafety`, `LogMatching`, `LeaderLogIsProposals`, `FollowerAppend`,
  `UpToDateExtends`, `SupporterExtended`, `PacketsAreTrue`, `LogShape`, `LeaderPossibleIff`.
* Write-ahead log: `ScanInvertsEncode`, `TornTailExact`, `CutKeepsWholeFrames`,
  `TruncateKeepsWholeFrames`, `SessionAlways`, `SecuredForever`, `DurableForever`,
  `CrashRecovery`, `OpenReportsDurableIff`, `ReportedSurvivesIff`, `ReopenRightIff`,
  `CleanExitDurability`, `OutcomeIsDurable`, `FlushedIsDurable`, `ScanFailsExactly`.
* Runtime: `NoEffectWithoutRecord`, `EffectSurvivesCrash`, `EveryActionPerformed`.
* Deduplication: the methods of `DedupTable` refine the ordered list; `RunLaw`,
  `ReplayIsExact`, `OrderIsAdmission`, `ReservationsStay`, `RecoveryClosedForm`,
  `BeginAnswers` and its like for the other calls.
* Atomic commit: both `Atomicity` lemmas, `CommitSeparation`, `DecisionIsVerdict`,
  `CommitIsVerdict`, both `CommitReachableIff` lemmas, `CommitPossibleIff`,
  `EveryoneFinishes`.
* Paxos: `PromiseDiscipline`, `AcceptHasQuorum`, `DecisionHasVoters`,
  `ExactMajorityIff`, `OnlyProposedDecided`, `ProposerLearnsHighest`,
  `AcceptedHasSource`.
* Simulated network: `DeliveriesIncrease`, `CopiesConservedIff`,
  `ReleaseConservesIff`, `ReleaseReverses`, `ConsumingDecidesOnce`.

## Model

Constructors, and setters that assign one field, have contracts but no row.

| member | source | states |
|---|---|---|
| Quorums.MajoritiesIntersect | crates/iron-raft/src/lib.rs:359-361 | Two sets of at least `majority()` members have a member in common, for every membership. |
| RaftNodes.RaftNode.Create | crates/iron-raft/src/lib.rs:87-110 | Construction succeeds exactly for a membership that contains the node and a nonzero timeout. |
| RaftNodes.RaftNode.Tick | crates/iron-raft/src/lib.rs:134-169 | The whole new state and reply of a tick: heartbeats from a leader, an election with a self-vote on timeout, and both counter overflows with the elapsed time already advanced in the second. |
| RaftNodes.RaftNode.Propose | crates/iron-raft/src/lib.rs:171-182 | Only a leader takes a command; the whole new state and the packets sent. |
| RaftNodes.RaftNode.Receive | crates/iron-raft/src/lib.rs:184-220 | Every message reaches its handler with its fields; the whole new state and reply. |
| RaftNodes.RaftNode.OnRequestVote | crates/iron-raft/src/lib.rs:222-248 | The vote answered, and the state kept of it, after adopting a higher term. |
| RaftNodes.RaftNode.OnVote | crates/iron-raft/src/lib.rs:250-270 | A candidate counts granted votes of its own term and becomes leader on a majority; anything else leaves it unchanged or steps it down. |
| RaftNodes.RaftNode.OnAppend | crates/iron-raft/src/lib.rs:273-315 | The follower's log, commit index and reply; a candidate does not step down on an append of its own term. |
| RaftNodes.RaftNode.Splice | crates/iron-raft/src/lib.rs:294-302 | The truncate-and-push loop leaves the closed form `Merge`: the old log if it agrees with every entry, else everything before the first disagreement followed by the rest of the entries. |
| RaftNodes.Agreement | crates/iron-raft/src/lib.rs:294-302 | The count returned is where the first disagreement in term or length lies: all entries before it agree, and it does not. |
| RaftNodes.RaftNode.OnAppendResponse | crates/iron-raft/src/lib.rs:317-337 | The acknowledgement set, next index and commit index after a response, as the code counts them. |
| RaftNodes.RaftNode.HeartbeatPackets | crates/iron-raft/src/lib.rs:339-358 | The packets sent: one for every other member, in ascending order of names, each carrying the whole log behind index 0. |
| RaftNodes.RaftNode.ToPeers | crates/iron-raft/src/lib.rs:155-168 | The traversal of the ordered members builds exactly the broadcast of a message. |
| RaftNodes.BroadcastInOrder | crates/iron-raft/src/lib.rs:339-358 | A broadcast addresses each other member once, in strictly ascending order of names. |
| RaftNodes.RaftNode.StepDown | crates/iron-raft/src/lib.rs:370-376 | Adopting a term forgets the vote and the votes collected and keeps the log. |
| RaftSafety.ElectionSafety | crates/iron-raft/src/lib.rs:134-270 | Over a whole run, two nodes that lead the same term, at the same moment or at different ones, are the same node. |
| RaftSafety.LeaderAppendOnly | crates/iron-raft/src/lib.rs:171-315 | Between any two moments at which a node leads the same term, its later log extends its earlier one. |
| RaftSafety.LeaderLogIsProposals | crates/iron-raft/src/lib.rs:171-315 | Between two such moments the leader's log grows by exactly the commands proposed at it, in order and under that term, whatever was delivered meanwhile. |
| RaftSafety.LogMatching | crates/iron-raft/src/lib.rs:171-358 | In every reachable state, two logs held by nodes or carried in AppendEntries packets that have the same term at an index are identical up to it, commands included. |
| RaftSafety.LogShape | crates/iron-raft/src/lib.rs:283-334 | In every reachable state every log's terms are non-decreasing and at most the node's term, and its commit index is within the log. |
| RaftSafety.FollowerAppend | crates/iron-raft/src/lib.rs:283-305 | A delivered append that is not stale leaves exactly the leader's entries, or the old log when that already extends them. |
| RaftSafety.AppendIdempotent | crates/iron-raft/src/lib.rs:283-305 | Delivering an append again, or a late one of the same term with no more entries, changes no log. |
| RaftSafety.UpToDateIsTotal | crates/iron-raft/src/lib.rs:362-369 | The voting rule is a total preorder on logs by last term and length, and a prefix never beats its extension. |
| RaftSafety.UpToDateExtends | crates/iron-raft/src/lib.rs:222-248 | In a reachable state, of two logs ending in the same term the rule calls a candidate's up to date if and only if it extends the voter's. |
| RaftSafety.LoneNodeNeverLeads | crates/iron-raft/src/lib.rs:264-268 | A cluster of one node has no leader in any run, because only a received vote promotes. |
| RaftElection.LeaderPossibleIff | crates/iron-raft/src/lib.rs:134-270 | A cluster has a leader in some run if and only if it has at least two members. |
| RaftElection.NextVote | crates/iron-raft/src/lib.rs:222-270 | A request that is on its way to a fresh node, delivered and answered, adds its vote, and the candidate leads or keeps campaigning. |
| RaftElection.WinElection | crates/iron-raft/src/lib.rs:222-270 | A campaign in term 1 among fresh nodes can be continued to a win. |
| RaftSafety.OneQuorumPerTerm | crates/iron-raft/src/lib.rs:222-248 | Two candidates supported by majorities of the vote history of one term are the same candidate. |
| RaftSafety.WinnerIsFirst | crates/iron-raft/src/lib.rs:264-268 | A candidate that reaches a majority leads a term that nobody has led before. |
| RaftSafety.SourcedMatch | crates/iron-raft/src/lib.rs:171-182 | Logs whose entries each come, with everything before them, from the leader of their term agree wherever their terms agree. |
| RaftSafety.MergeFullLog | crates/iron-raft/src/lib.rs:294-302 | On such logs the replacement loop leaves the longer of the two when one extends the other, and the sender's otherwise. |
| RaftSafety.StepKeepsInv | crates/iron-raft/src/lib.rs:134-337 | An event that meets its handler's obligations keeps the cluster invariant and only extends the history of votes and reigns. |
| RaftSafety.RunKeepsInv | crates/iron-raft/src/lib.rs:134-337 | The cluster invariant holds after every run. |
| RaftSafety.RunExtends | crates/iron-raft/src/lib.rs:134-337 | No later event changes a vote, the leader of a term, or an entry of its log. |
| RaftAnswers.VoteAnswer | crates/iron-raft/src/lib.rs:222-248 | A vote is granted if and only if the request's term is not stale, no one else has the vote of that term, and the candidate's last term exceeds that of the voter's last entry or equals it with at least its length; what is answered and kept otherwise. |
| RaftAnswers.SupporterExtended | crates/iron-raft/src/lib.rs:222-248 | Over every run, whoever is granted a vote had, at the moment it asked, a log not behind the voter's; if both end in the same term, it extended the voter's. |
| RaftAnswers.AppendAnswer | crates/iron-raft/src/lib.rs:273-315 | An append succeeds if and only if its term is not stale and the log has the entry before; then the log holds its terms after an unchanged beginning, the answer names the whole length, and the commit index is the leader's or the end of the log. |
| RaftAnswers.VoteCounted | crates/iron-raft/src/lib.rs:250-270 | A delivered vote makes a leader exactly when it is granted, of the candidate's term, and completes a majority; the new leader starts its next indexes behind its log. |
| RaftAnswers.ResponseCounted | crates/iron-raft/src/lib.rs:317-337 | A leader's commit index moves exactly when a majority has acknowledged, to the index reported or the end of its log; any other response changes nothing. |
| RaftAnswers.HigherTerm | crates/iron-raft/src/lib.rs:222-337 | Whatever carries a higher term leaves the node a follower in it; a vote or response is then otherwise ignored. |
| RaftAnswers.LeaderSpeaks | crates/iron-raft/src/lib.rs:134-268 | A leader that ticks, proposes or has just won sends exactly every other member its whole log. |
| RaftAnswers.ProposeAnswer | crates/iron-raft/src/lib.rs:171-182 | Only a leader takes a command, as one last entry of its term, and then counts only itself. |
| RaftAnswers.TickAnswer | crates/iron-raft/src/lib.rs:134-169 | A node stands for the next term, voting for itself and asking every other member, exactly when its timeout is reached; only an exhausted counter fails. |
| RaftAnswers.ConstructionAnswers | crates/iron-raft/src/lib.rs:87-110 | Which memberships and timeouts are refused, and that a new node is a follower in term 0 with nothing voted, logged or committed. |
| RaftAnswers.PacketsAreTrue | crates/iron-raft/src/lib.rs:134-358 | Every packet ever sent describes its sender truly just after some event of the run: its term, its whole log or its length and last term, its vote, or the length it acknowledged. |
| RaftAnswers.MergeHolds | crates/iron-raft/src/lib.rs:294-302 | After the replacement loop the log begins as before and then carries the terms of all the entries. |
| BigEndian.DecodeEncode | crates/iron-wal/src/format.rs:183-207 | Reading back a big-endian integer of any width gives the value written, when it fits. |
| BigEndian.EncodeDecode | crates/iron-wal/src/format.rs:183-207 | Writing what was read gives back the same bytes. |
| WalFormat.FillFrame | crates/iron-wal/src/format.rs:28-57 | The in-place encoder fills a zeroed buffer to exactly the frame of the record and refuses exactly the payloads whose frame length does not fit in 32 bits. |
| WalFormat.DecodeEncodedHeader | crates/iron-wal/src/format.rs:28-134 | Decoding an encoded header gives back every field. |
| WalFormat.EncodeDecodedHeader | crates/iron-wal/src/format.rs:59-134 | A header that decodes is byte for byte the encoding of its fields, and these are in range. |
| WalScan.HeadOfFrame | crates/iron-wal/src/reader.rs:29-96 | An encoded frame with the expected number is accepted as its record whatever follows it. |
| WalScan.FrameOfHead | crates/iron-wal/src/reader.rs:29-96 | A frame that the scanner accepts is the encoding of the record returned, under the next sequence number. |
| WalScan.HeadTorn | crates/iron-wal/src/reader.rs:30-72 | A remainder counts as torn if and only if it is shorter than a header or its valid header declares a frame past the end. |
| WalScan.ParseEncoded | crates/iron-wal/src/reader.rs:24-102 | Encoded frames in front of any remainder are returned first, and scanning goes on with the remainder. |
| WalScan.EncodeParsed | crates/iron-wal/src/reader.rs:24-102 | Whatever a scan accepts accounts for every byte of the file: encoded frames, then a torn tail exactly when reported. |
| WalScan.ScanInvertsEncode | crates/iron-wal/src/reader.rs:29-101 | A scan succeeds without repair and returns given records if and only if the file is the encoding of those records numbered from 1, within the payload bound. |
| WalScan.TornTailExact | crates/iron-wal/src/reader.rs:30-72 | A torn tail is reported at an offset if and only if the file is whole frames up to there followed by a torn tail. |
| WalScan.ParseCut | crates/iron-wal/src/reader.rs:29-72 | Cutting a scannable file anywhere leaves a scannable file with exactly the records whose frames fit. |
| WalScan.CutKeepsWholeFrames | crates/iron-wal/src/reader.rs:29-72 | At every cut point of every valid log, exactly the whole frames before the cut are kept, and the result is clean if and only if the cut lies between frames. |
| WalScan.LooserBound | crates/iron-wal/src/reader.rs:47-53 | A file that scans under a payload bound scans to the same result under any larger one. |
| WalScanner.RepairTail | crates/iron-wal/src/reader.rs:105-132 | The file and result after repair, for both policies and for a failing truncate or sync. |
| WalScanner.ReadFrame | crates/iron-wal/src/reader.rs:30-93 | One turn of the loop, with all its error cases in order and a failing header or payload read among them. |
| WalScanner.Scan | crates/iron-wal/src/reader.rs:13-102 | The scanning loop returns what the recursive description of the file's bytes says, touches the file only to repair it, and reports a failing read only if no earlier frame has ended the scan. |
| WalScanner.TruncateKeepsWholeFrames | crates/iron-wal/src/reader.rs:105-132 | Truncate leaves exactly the whole frames, synchronized; a second scan finds the same records and nothing to repair; the bytes dropped hold no complete frame. |
| WalScanner.ScanPreserves | crates/iron-wal/src/reader.rs:13-132 | A scan changes nothing, under Reject in particular, unless it cuts a torn tail, and never synchronizes more when it fails. |
| WalDisk.Disk.WriteAt | crates/iron-wal/src/writer.rs:194-200 | Seek and write: which bytes are overwritten, how far a failing write gets, and that success means every byte was taken. |
| WalDisk.Write | crates/iron-wal/src/writer.rs:194-200 | A write at the end of the file appends and leaves the synchronized bytes synchronized. |
| WalSession.OpenStartsSession | crates/iron-wal/src/writer.rs:129-145 | Every successful open starts a session whose file is the encoding of exactly the whole frames found. |
| WalSession.AppendKeepsSession | crates/iron-wal/src/writer.rs:181-226 | A successful append adds exactly the new record under the next number and keeps the sync window; a failed one either changed nothing or poisoned the writer, and the file still scans. |
| WalSession.AppendFrame | crates/iron-wal/src/writer.rs:193-200 | A frame behind an encoded log makes an encoded log with one more record, and a frame cut short anywhere leaves a file that still scans. |
| WalSession.SyncKeepsSession | crates/iron-wal/src/writer.rs:272-280 | A sync changes no byte, poisons exactly when it fails, and otherwise leaves nothing unsynchronized. |
| WalSession.ReplayReturnsSession | crates/iron-wal/src/writer.rs:250-262 | Replay on an unpoisoned writer succeeds unless the sync or a read it performs fails, returns exactly the session's records, and leaves all of them durable. |
| WalWriter.FileWal.Open | crates/iron-wal/src/writer.rs:102-146 | The writer and file after opening, for an unavailable directory or file, a lock held elsewhere, a failing synchronization of a new file or its directory, and every scan outcome; a writer returned satisfies the session invariant. |
| WalWriter.FileWal.Append | crates/iron-wal/src/writer.rs:181-226 | The writer, file and answer after an append at `valid_length`, for every failure; a success extends the contents by the record; the session invariant is kept. |
| WalWriter.FileWal.Flush | crates/iron-wal/src/writer.rs:235-239 | A barrier changes no contents and keeps the session invariant. |
| WalWriter.FileWal.ReplayAll | crates/iron-wal/src/writer.rs:250-262 | The records returned are the contents, numbered from 1. |
| WalWriter.FileWal.SyncNow | crates/iron-wal/src/writer.rs:272-280 | The durable frontier moves to the last record, or the writer is poisoned and the frontier stays. |
| WalDurability.StepSafe | crates/iron-wal/src/writer.rs:102-280 | No operation, failure, restart or power loss loses or changes a synchronized record. |
| WalDurability.RepairKeepsSecured | crates/iron-wal/src/reader.rs:120-124 | Cutting a torn tail loses no synchronized record, whether or not the cut itself was synchronized. |
| WalDurability.SecuredForever | crates/iron-wal/src/writer.rs:102-280 | A record that was once synchronized is at the same position with the same bytes in every later file of the run. |
| WalDurability.SessionAlways | crates/iron-wal/src/writer.rs:181-280 | In every run, an unpoisoned writer's file is the encoding of records 1 to `last_lsn` with length `valid_length`, and the unsynchronized window is zero under Always and below the batch size under Batch. |
| WalDurability.OpenReportsDurableIff | crates/iron-wal/src/writer.rs:136-145 | No power loss can remove a record that open reports durable if and only if the opened file was fully synchronized or torn. |
| WalDurability.ReopenOverstatesDurability | crates/iron-wal/src/writer.rs:136-145 | A run in which a reopened writer reports a record durable that a power loss then removes. |
| WalDurability.CutBeforeEnd | crates/iron-wal/src/reader.rs:29-72 | A proper prefix of a valid log holds fewer whole records. |
| WalDurability.HonestRun | crates/iron-wal/src/writer.rs:137-280 | When every open finds a settled file, the reported frontier is always within the synchronized records. |
| WalDurability.DurableForever | crates/iron-wal/src/writer.rs:102-280 | Then every record ever reported durable is unchanged in every later file, over sessions, restarts, poisoning and power losses. |
| WalDurability.PowerLossLeavesSynced | crates/iron-wal/src/reader.rs:105-132 | When writers end only by power loss, a closed log is fully synchronized, also after opens that fail. |
| WalDurability.PowerLossDurability | crates/iron-wal/src/writer.rs:102-280 | Hence over such runs a record once reported durable survives with no further condition. |
| WalDurability.RecoverFrom | crates/iron-wal/src/writer.rs:129-146 | Reopening with Truncate after any power loss succeeds with a valid session on a prefix of the records that covers all synchronized ones. |
| WalDurability.CrashRecovery | crates/iron-wal/src/writer.rs:102-146 | At any moment of any run, losing power and reopening with Truncate recovers exactly records 1 to k, k between the number synchronized and the number written. |
| WalDurability.CrashKeepsReported | crates/iron-wal/src/writer.rs:102-146 | With settled opens, k is also at least what the lost writer had reported durable. |
| WalDurability.PowerLossKeepsReported | crates/iron-wal/src/writer.rs:102-146 | When writers end only by power loss, k is at least what had been reported durable with no further condition. |
| WalReports.ReportedSurvivesIff | crates/iron-wal/src/writer.rs:161-165 | In every reachable state with a writer, the records it reports durable survive every continuation if and only if they are among the synchronized ones. |
| WalReports.RunFrontier | crates/iron-wal/src/writer.rs:181-280 | When every open found a settled file, an unpoisoned writer has synchronized exactly the records it reports. |
| WalReports.LeavesSettledIff | crates/iron-wal/src/writer.rs:154-165 | Then an unpoisoned writer leaves a settled file if and only if `durable_through` equals `last_lsn`. |
| WalReports.ReopenRightIff | crates/iron-wal/src/writer.rs:136-145 | Then dropping an unpoisoned writer and reopening reports only records that no power loss can take away if and only if `durable_through` equalled `last_lsn`. |
| WalReports.CleanExitsSettle | crates/iron-wal/src/writer.rs:102-280 | If writers are only dropped unpoisoned and with `durable_through` equal to `last_lsn`, every open finds a settled file. |
| WalReports.CleanExitDurability | crates/iron-wal/src/writer.rs:102-280 | Hence over such runs a record once reported durable is unchanged in every later file. |
| WalReports.CleanWhen | crates/iron-wal/src/writer.rs:215-239 | A successful flush brings an unpoisoned writer to that state, and the Always policy keeps it there. |
| WalAnswers.AppendAnswers | crates/iron-wal/src/writer.rs:181-226 | An append succeeds if and only if the writer is not poisoned, the record fits, numbers are left, and the device takes the frame and the synchronization that is due; each failure has its own error. |
| WalAnswers.AppendReports | crates/iron-wal/src/writer.rs:212-226 | A successful append answers the number of the new record and the durable frontier, which moves to that number exactly when a synchronization was due, and otherwise stays with the synchronized bytes. |
| WalAnswers.FlushAnswers | crates/iron-wal/src/writer.rs:235-239 | A flush fails exactly when poisoned or the device fails; otherwise it answers the last record, and every byte is synchronized. |
| WalAnswers.OutcomeIsDurable | crates/iron-wal/src/writer.rs:181-226 | Over every run whose opens found settled files, an append's record is in the file under the number answered, and all records up to the durable frontier answered are synchronized and unchanged in every later file. |
| WalAnswers.FlushedIsDurable | crates/iron-wal/src/writer.rs:235-239 | Over every run, all records up to the number a flush answers, which are all there are, are synchronized and unchanged in every later file. |
| WalAnswers.StoppedAnswers | crates/iron-wal/src/writer.rs:102-128 | Replay and open report what stopped them, and only a lock held elsewhere is reported as such. |
| WalFaults.ScanFailsExactly | crates/iron-wal/src/reader.rs:24-102 | A scan fails with an error if and only if the file is whole frames followed by a frame whose first failing check, in the source's order, has that error with the offset and sequence number reached. |
| WalFaults.HeaderFault | crates/iron-wal/src/format.rs:59-134 | A header is refused with the error of the first of its seven checks that fails. |
| WalFaults.HeadFault | crates/iron-wal/src/reader.rs:43-84 | A frame is refused with the error of the first check that fails, header, limit, payload and sequence number in this order. |
| WalFaults.HeadPasses | crates/iron-wal/src/reader.rs:43-84 | A frame that passes every check is whole or reaches past the end of the file. |
| WalFaults.GoldenFrame | crates/iron-wal/src/format.rs:225-233 | The frame of the source's own example, byte for byte, up to its two checksums. |
| WalFaults.EncodeAnswers | crates/iron-wal/src/format.rs:28-42 | A payload is refused, with its length and the largest one possible, exactly when its frame is longer than 32 bits can say. |
| WalScanAnswers.CleanAnswers | crates/iron-wal/src/reader.rs:13-102 | The scan of an encoded log answers its records, unless a fault strikes within two reads for each. |
| WalScanAnswers.TornAnswers | crates/iron-wal/src/reader.rs:105-132 | The scan of a torn file: refused with its exact extent under Reject; under Truncate cut to its whole frames, synchronized and so reported, or failed by the cut or its synchronization. |
| WalScanAnswers.FaultyAnswers | crates/iron-wal/src/reader.rs:24-102 | The scan of a file with a faulty frame leaves it untouched and answers the first failing check, unless a fault strikes before that is read. |
| WalScanAnswers.FramesRead | crates/iron-wal/src/reader.rs:41-82 | Every whole frame takes two reads. |
| WalScanAnswers.FaultTakes | crates/iron-wal/src/reader.rs:41-83 | A payload is read only behind a header without fault, within the limits. |
| WalScanAnswers.OpenRefusesFault | crates/iron-wal/src/writer.rs:129-146 | Opening refuses a faulty file with the scan's answer and leaves it untouched. |
| WalScanAnswers.OpenOfTorn | crates/iron-wal/src/writer.rs:129-146 | Opening a torn file: refused with its exact extent under Reject; under Truncate a writer behind the whole frames, all durable. |
| Runtime.NodeRuntime.Recover | crates/iron-runtime/src/lib.rs:61-77 | Recovery hands the protocol exactly what replay returned and performs no action. |
| Runtime.NodeRuntime.Handle | crates/iron-runtime/src/lib.rs:81-84 | A protocol error changes nothing; otherwise the log, the actions performed and the answer of the transition. |
| Runtime.NodeRuntime.Commit | crates/iron-runtime/src/lib.rs:86-114 | Actions without a record are refused; no action is attempted unless append and flush both succeeded. |
| Runtime.NodeRuntime.Perform | crates/iron-runtime/src/lib.rs:100-113 | Actions are attempted in order up to and including the first that fails. |
| RuntimeSafety.CommittedIsBacked | crates/iron-runtime/src/lib.rs:91-99 | When append and flush both succeed, the transition's record is the last of the synchronized records, at the number the append returned. |
| RuntimeSafety.HandledKeepsInv | crates/iron-runtime/src/lib.rs:81-114 | Whatever fails while an event is handled, every effect performed so far has its record synchronized. |
| RuntimeSafety.RunInv | crates/iron-runtime/src/lib.rs:61-114 | The same over every run of events, recoveries, opens, restarts, device failures and power losses. |
| RuntimeSafety.NoEffectWithoutRecord | crates/iron-runtime/src/lib.rs:61-114 | Whenever recovery later succeeds, it hands the protocol the record of every effect ever performed, at the same number with the same bytes. |
| RuntimeSafety.EffectSurvivesCrash | crates/iron-runtime/src/lib.rs:61-114 | Losing power at any moment of any run, reopening with Truncate and recovering does succeed, and hands over the record of every effect ever performed. |
| RuntimeAnswers.HandledExactly | crates/iron-runtime/src/lib.rs:86-114 | With a record, the effects are exactly the actions, in order and under the number the append returned: all of them if and only if the answer is Ok, up to and including the failing one when an effect fails, none when the log fails. |
| RuntimeAnswers.EveryActionPerformed | crates/iron-runtime/src/lib.rs:81-114 | Over every run, an event that answers Ok adds exactly its actions to the trace, in order, under the number of its record, which is the last in the log and above those of all earlier effects. |
| DedupTables.DedupTable.Reserve | crates/iron-core/src/dedup.rs:145-190 | `begin` on map, queue and counter does what the ordered list does, and keeps them consistent and within both bounds. |
| DedupTables.DedupTable.TrimEntries | crates/iron-core/src/dedup.rs:171-175 | The entry-bound eviction loop terminates with the list's result. |
| DedupTables.DedupTable.Insert | crates/iron-core/src/dedup.rs:177-188 | A new reservation goes last under the next sequence number. |
| DedupTables.DedupTable.Store | crates/iron-core/src/dedup.rs:198-253 | `complete` does what the ordered list does; its total-limit error path is unreachable. |
| DedupTables.DedupTable.TrimBytes | crates/iron-core/src/dedup.rs:228-245 | The byte-bound eviction loop terminates with the list's result and never touches the key being completed. |
| DedupTables.DedupTable.Fill | crates/iron-core/src/dedup.rs:247-252 | The outcome is stored in place and the byte counter follows. |
| DedupTables.DedupTable.Cancel | crates/iron-core/src/dedup.rs:256-283 | `abort` does what the ordered list does, and keeps map, queue and counter consistent. |
| DedupTables.DedupTable.FindQueued | crates/iron-core/src/dedup.rs:274-277 | A key in the map is found in the queue, at the position it has in the list. |
| DedupTables.DedupTable.RestoreCompleted | crates/iron-core/src/dedup.rs:290-315 | `restore_completed` does what the ordered list does, for every combination of answers. |
| DedupTables.DedupTable.EvictOldest | crates/iron-core/src/dedup.rs:337-364 | Exactly the first completed entry of the list other than the excluded one goes, if there is one; reservations and the excluded key are untouched. |
| DedupTables.DedupTable.FindOldest | crates/iron-core/src/dedup.rs:338-346 | The queue position found is that of the oldest evictable entry. |
| DedupTables.DedupTable.DropAt | crates/iron-core/src/dedup.rs:350-362 | Queue, map and byte counter lose the same entry. |
| DedupTables.LinkedSize | crates/iron-core/src/dedup.rs:119-126 | Map and queue that agree have the same size, so the entry bound may be checked on the map. |
| DedupTables.Lookup | crates/iron-core/src/dedup.rs:119-126 | A key is in the map exactly when the list has it, with the same fingerprint and state. |
| DedupTables.UnlinkAt | crates/iron-core/src/dedup.rs:350-357 | Removing a queue position with its map entry keeps both agreeing and removes that one item of the list. |
| DedupTables.LinkNew | crates/iron-core/src/dedup.rs:177-188 | Adding a key under a fresh number keeps both agreeing and appends to the list. |
| DedupTables.LinkFinished | crates/iron-core/src/dedup.rs:247-250 | Completing an entry keeps both agreeing and its place in the list. |
| DedupLaws.BeginLaw | crates/iron-core/src/dedup.rs:140-190 | A listed key changes nothing; admission evicts only completed entries and keeps order; Full is returned if and only if every slot is in flight, and changes nothing. |
| DedupLaws.CompleteLaw | crates/iron-core/src/dedup.rs:192-253 | Completion succeeds if and only if the key is reserved under this fingerprint and the outcome is within its bound; the only error is the per-outcome one; failures change nothing; success moves no entry. |
| DedupLaws.AbortLaw | crates/iron-core/src/dedup.rs:255-283 | Abort succeeds if and only if the key is reserved under this fingerprint, and then removes exactly that entry. |
| DedupLaws.RestoreLaw | crates/iron-core/src/dedup.rs:285-315 | An oversized outcome fails if and only if the key is admitted, and then leaves it reserved; other non-restoring answers change nothing. |
| DedupLaws.MakeSpaceLaw | crates/iron-core/src/dedup.rs:228-245 | Evicting other completed entries always makes room for an individually valid outcome. |
| DedupLaws.AllInFlight | crates/iron-core/src/dedup.rs:337-349 | Nothing can be evicted if and only if every entry is in flight. |
| DedupLaws.SpaceKeepsReservation | crates/iron-core/src/dedup.rs:228-249 | The eviction before a completion leaves the reservation it completes. |
| DedupLaws.RunLaw | crates/iron-core/src/dedup.rs:145-315 | Over every run both bounds hold, and each entry is exactly what the answers given so far say about its key. |
| DedupLaws.ReplayIsExact | crates/iron-core/src/dedup.rs:155-161 | Replay returns exactly the bytes completed since the key's last admission, under the fingerprint of that completion. |
| DedupLaws.ReservationsStay | crates/iron-core/src/dedup.rs:142-143 | No call for another key evicts or changes a reservation. |
| DedupLaws.OrderIsAdmission | crates/iron-core/src/dedup.rs:116-118 | Over every run the list is strictly in the order of last admissions: lookups, completions and evictions refresh nothing. |
| DedupLaws.RecoveryClosedForm | crates/iron-core/src/dedup.rs:285-315 | Restoring any list of distinct keys with individually valid outcomes into an empty table keeps exactly the longest suffix that satisfies both bounds, in order. |
| DedupAnswers.BeginAnswers | crates/iron-core/src/dedup.rs:145-190 | Over every run, a listed key is answered in flight, replayed or in conflict exactly when the earlier answers reserved it under this fingerprint, completed it under it with those bytes, or used another; an unlisted one is refused exactly by the bounds. |
| DedupAnswers.CompleteAnswers | crates/iron-core/src/dedup.rs:198-253 | Over every run, completion is done exactly for a key reserved under this fingerprint with an outcome that fits, and each refusal has its own cause in the earlier answers. |
| DedupAnswers.AbortAnswers | crates/iron-core/src/dedup.rs:256-283 | The same for abort. |
| DedupAnswers.RestoreAnswers | crates/iron-core/src/dedup.rs:290-315 | The same for restoring: present exactly when the same bytes were completed under the same fingerprint, a conflict when others were. |
| DedupAnswers.SequenceCounts | crates/iron-core/src/dedup.rs:177-188 | Sequence numbers are spent on admissions only, one each. |
| TwoPhase.CoordinatorNode.Create | crates/iron-2pc/src/lib.rs:68-79 | Construction fails exactly for an empty set of participants. |
| TwoPhase.CoordinatorNode.Start | crates/iron-2pc/src/lib.rs:81-87 | Voting starts once, from Idle only. |
| TwoPhase.CoordinatorNode.OnPrepared | crates/iron-2pc/src/lib.rs:89-105 | The state and order after a prepared vote, with both refusals in order. |
| TwoPhase.CoordinatorNode.OnVoteAbort | crates/iron-2pc/src/lib.rs:107-117 | The state and order after an abort vote, with both refusals in order. |
| TwoPhase.ParticipantNode.OnPrepare | crates/iron-2pc/src/lib.rs:152-168 | A participant votes once; later requests repeat its state. |
| TwoPhase.ParticipantNode.OnCommit | crates/iron-2pc/src/lib.rs:169-175 | Only a prepared participant commits. |
| TwoPhase.ParticipantNode.OnAbort | crates/iron-2pc/src/lib.rs:176-182 | Only a committed participant refuses to abort. |
| TwoPhaseSafety.NextKeepsInv | crates/iron-2pc/src/lib.rs:81-182 | Every event keeps the invariant tying votes, orders in flight and phases together. |
| TwoPhaseSafety.RunInv | crates/iron-2pc/src/lib.rs:81-182 | The invariant holds after every run with lost, duplicated and reordered messages. |
| TwoPhaseSafety.DecisionsAreFinal | crates/iron-2pc/src/lib.rs:96-117 | No later event changes a decision or a participant's outcome. |
| TwoPhaseSafety.Atomicity | crates/iron-2pc/src/lib.rs:81-182 | If a participant is Committed at any moment, none is Aborted at any moment, the decision is Commit, and every participant has voted Prepared. |
| TwoPhaseAnswers.RunTidy | crates/iron-2pc/src/lib.rs:81-182 | In every reachable state the orders in the network are exactly those the coordinator's phase calls for, one for every member, and every participant has said exactly what its phase means. |
| TwoPhaseAnswers.VoteIsVerdict | crates/iron-2pc/src/lib.rs:152-168 | Over every run, a participant has voted Prepared only after being asked while it could commit, and to abort only after being asked while it could not. |
| TwoPhaseAnswers.DecisionIsVerdict | crates/iron-2pc/src/lib.rs:89-117 | Commit means that every participant was asked and could commit; Abort means that one was asked and could not. |
| TwoPhaseAnswers.FirstAnswer | crates/iron-2pc/src/lib.rs:152-168 | A participant first asked answers its verdict at once and for good: after a refusal it is Aborted in every continuation. |
| TwoPhaseAnswers.CommitReachableIff | crates/iron-2pc/src/lib.rs:81-168 | An undecided coordinator can still decide Commit, by some continuation, if and only if no participant has aborted. |
| TwoPhaseAnswers.EveryoneFinishes | crates/iron-2pc/src/lib.rs:169-182 | Once a decision is taken, some continuation brings every participant to it. |
| TwoPhaseAnswers.CoordinatorRefuses | crates/iron-2pc/src/lib.rs:81-117 | Which calls the coordinator refuses, with which error, and that a refusal changes nothing. |
| TwoPhaseAnswers.ParticipantRefuses | crates/iron-2pc/src/lib.rs:152-182 | Which orders a participant refuses, and that asked again it repeats its state. |
| TwoPhaseAnswers.ConstructionAnswers | crates/iron-2pc/src/lib.rs:68-79 | Only an empty set of participants is refused; a new coordinator is idle without votes. |
| ThreePhase.CoordinatorNode.Create | crates/iron-3pc/src/lib.rs:51-62 | Construction fails exactly for an empty set of participants. |
| ThreePhase.CoordinatorNode.Start | crates/iron-3pc/src/lib.rs:63-69 | Voting starts once, from Idle only. |
| ThreePhase.CoordinatorNode.CountPrepared | crates/iron-3pc/src/lib.rs:70-84 | The state and order after a prepared vote, with both refusals in order. |
| ThreePhase.CoordinatorNode.CountPreCommitted | crates/iron-3pc/src/lib.rs:85-99 | The state and order after a PreCommit acknowledgement, with both refusals in order. |
| ThreePhase.CoordinatorNode.Timeout | crates/iron-3pc/src/lib.rs:100-109 | A timeout aborts while preparing, reports a possible block in PreCommit, and is refused elsewhere. |
| ThreePhase.ParticipantNode.AnswerPrepare | crates/iron-3pc/src/lib.rs:126-137 | A participant votes once. |
| ThreePhase.ParticipantNode.AnswerPreCommit | crates/iron-3pc/src/lib.rs:138-144 | Only a prepared participant enters PreCommit. |
| ThreePhase.ParticipantNode.AnswerCommit | crates/iron-3pc/src/lib.rs:145-151 | Only a participant in PreCommit commits. |
| ThreePhase.ParticipantNode.Timeout | crates/iron-3pc/src/lib.rs:152-161 | A timeout aborts after a vote, reports a possible block in PreCommit, and is refused elsewhere. |
| ThreePhaseSafety.NextKeepsInv | crates/iron-3pc/src/lib.rs:63-161 | Every event, timeouts included, keeps the invariant tying votes, acknowledgements, orders in flight and phases together. |
| ThreePhaseSafety.RunInv | crates/iron-3pc/src/lib.rs:63-161 | The invariant holds after every run. |
| ThreePhaseSafety.CommitSeparation | crates/iron-3pc/src/lib.rs:63-161 | Whenever anyone is Committed, every participant is in PreCommit or Committed and has voted, so a commit coexists with no abort and no undecided participant. |
| ThreePhaseSafety.AbortSeparation | crates/iron-3pc/src/lib.rs:100-109 | When the coordinator has aborted, no participant is past its vote. |
| ThreePhaseSafety.OutcomesAreFinal | crates/iron-3pc/src/lib.rs:63-161 | Committed and Aborted are never left, and no node falls back behind PreCommit. |
| ThreePhaseSafety.Atomicity | crates/iron-3pc/src/lib.rs:63-161 | A commit anywhere at one moment of a run excludes an abort anywhere at every other moment. |
| ThreePhaseSafety.BlockedForever | crates/iron-3pc/src/lib.rs:100-109 | Once a participant has aborted while the coordinator is in PreCommit, the coordinator stays there in every continuation and its timeout reports a possible block. |
| ThreePhaseSafety.FinishCommit | crates/iron-3pc/src/lib.rs:85-99 | From PreCommit with no participant aborted, delivering packets already sent brings the coordinator to Committed. |
| ThreePhaseSafety.CommitReachableIff | crates/iron-3pc/src/lib.rs:85-161 | In every reachable state with the coordinator in PreCommit, some continuation reaches Committed if and only if no participant has aborted. |
| ThreePhaseSafety.ParticipantBlockedForever | crates/iron-3pc/src/lib.rs:152-161 | Once anyone has aborted, a participant in PreCommit stays there in every continuation and its timeout reports a possible block. |
| ThreePhaseSafety.ParticipantCommitIff | crates/iron-3pc/src/lib.rs:145-161 | In every reachable state, a participant in PreCommit reaches Committed in some continuation if and only if no participant has aborted. |
| ThreePhaseSafety.BlockIsReachable | crates/iron-3pc/src/lib.rs:152-161 | A run reaches that state: a vote is sent, its sender times out, and the vote arrives. |
| ThreePhaseAnswers.RunTidy | crates/iron-3pc/src/lib.rs:63-161 | In every reachable state the orders in the network are exactly those the coordinator's phase calls for, and every participant has said what its phase means. |
| ThreePhaseAnswers.EverythingHasACause | crates/iron-3pc/src/lib.rs:100-161 | A vote is cast only by a participant asked while it could commit; a participant aborts only by its own refusal or timeout, the coordinator only by its timeout. |
| ThreePhaseAnswers.CommitIsVerdict | crates/iron-3pc/src/lib.rs:70-99 | A coordinator past the vote has had every participant asked while it could commit. |
| ThreePhaseAnswers.FirstAnswer | crates/iron-3pc/src/lib.rs:126-137 | A participant first asked answers its verdict at once and for good: after a refusal it is Aborted in every continuation. |
| ThreePhaseAnswers.CommitPossibleIff | crates/iron-3pc/src/lib.rs:63-161 | In every reachable state a commit can still be reached, by some continuation, if and only if nobody has aborted. |
| ThreePhaseAnswers.CoordinatorRefuses | crates/iron-3pc/src/lib.rs:63-109 | Which calls the coordinator refuses, with which error, that a refusal changes nothing, and that its timeout aborts and orders the abort exactly while votes are missing. |
| ThreePhaseAnswers.ParticipantRefuses | crates/iron-3pc/src/lib.rs:126-161 | Which orders a participant refuses, and that its timeout aborts only between its vote and PreCommit. |
| ThreePhaseAnswers.ConstructionAnswers | crates/iron-3pc/src/lib.rs:51-62 | Only an empty set of participants is refused; a new coordinator is idle without votes. |
| Names.NamesOrdered | crates/iron-multipaxos/src/lib.rs:9-13 | The derived order on proposer names is total and strict. |
| Names.NamesTransitive | crates/iron-multipaxos/src/lib.rs:9-13 | The derived order on proposer names is transitive. |
| Names.InOrder | crates/iron-multipaxos/src/lib.rs:132-142 | Traversing an ordered set meets each of its names once, in strictly ascending order. |
| Ballots.BallotsOrdered | crates/iron-multipaxos/src/lib.rs:9-13 | Of two ballots, one is below the other exactly when the other is not at most it. |
| Ballots.AtMostTransitive | crates/iron-multipaxos/src/lib.rs:9-13 | The order on ballots is transitive. |
| PaxosNodes.PaxosNode.Create | crates/iron-multipaxos/src/lib.rs:75-92 | Construction succeeds exactly for a membership that contains the node. |
| PaxosNodes.PaxosNode.StartRound | crates/iron-multipaxos/src/lib.rs:105-124 | A new round counts only the proposer's own promise and asks every other member; overflow changes nothing. |
| PaxosNodes.PaxosNode.Propose | crates/iron-multipaxos/src/lib.rs:125-143 | A proposal changes no state and is refused without a majority of promises or for slot 0. |
| PaxosNodes.PaxosNode.RestoreAccepted | crates/iron-multipaxos/src/lib.rs:147-159 | The state after restoring one accepted value; slot 0 is refused. |
| PaxosNodes.PaxosNode.Receive | crates/iron-multipaxos/src/lib.rs:160-238 | The state and reply for every message kind. |
| PaxosNodes.PaxosNode.OnPromise | crates/iron-multipaxos/src/lib.rs:193-213 | The loop over reported values leaves their merge into the accepted map; promises for another ballot change nothing. |
| PaxosNodes.PaxosNode.OnAccepted | crates/iron-multipaxos/src/lib.rs:239-265 | The votes of the slot, and the decision sent to every member at a majority. |
| PaxosNodes.PaxosNode.ToEveryone | crates/iron-multipaxos/src/lib.rs:132-142 | The traversal of the ordered members addresses a message to each of them. |
| PaxosNodes.AddressedInOrder | crates/iron-multipaxos/src/lib.rs:113-142 | Packets to all members, and to all but one, are in strictly ascending order of names. |
| PaxosNodes.PaxosNode.MergeInto | crates/iron-multipaxos/src/lib.rs:204-210 | One reported value replaces the stored one only under a higher ballot. |
| PaxosNodes.MergeKeepsHighest | crates/iron-multipaxos/src/lib.rs:203-211 | After any report every slot holds a stored or reported proposal of the highest ballot among all of them, and no other slot appears. |
| PaxosNodes.ListedIsExact | crates/iron-multipaxos/src/lib.rs:185-191 | Listing accepted values in slot order leaves none out and adds none. |
| PaxosSafety.PromiseRises | crates/iron-multipaxos/src/lib.rs:176-238 | No event lowers what an acceptor has promised. |
| PaxosSafety.RunInv | crates/iron-multipaxos/src/lib.rs:105-265 | Over every run, promises and votes counted by a proposer are backed by packets its acceptors sent. |
| PaxosSafety.PromiseDiscipline | crates/iron-multipaxos/src/lib.rs:176-238 | An acceptor that has sent Promise or Accepted for a ballot never later sends either for a lower one (section 2.2, P1a, of "Paxos Made Simple"). |
| PaxosSafety.AcceptHasQuorum | crates/iron-multipaxos/src/lib.rs:105-143 | Behind every Accept in the network stands a majority, each of whose members is the ballot's proposer or has promised that ballot to it and has promised at least it ever since. |
| PaxosSafety.DecisionHasVoters | crates/iron-multipaxos/src/lib.rs:239-265 | Behind every Decision stands a majority of members that each accepted a value for its slot from the deciding proposer, in that round or an earlier one. |
| PaxosSafety.AcceptWasProposed | crates/iron-multipaxos/src/lib.rs:125-143 | Every Accept in the network carries a value that its sender was asked to propose in this run. |
| PaxosSafety.OnlyProposedDecided | crates/iron-multipaxos/src/lib.rs:125-265 | Only a proposed value is accepted or decided: it was given to the ballot's proposer in this run (section 2.1 of "Paxos Made Simple"), which asked for it under that very ballot. |
| PaxosSafety.PromiseReportsAccepted | crates/iron-multipaxos/src/lib.rs:176-192 | Over every run, a Promise reports exactly what its sender has accepted at the moment of sending, each value under its own slot. |
| PaxosSafety.ProposerLearnsHighest | crates/iron-multipaxos/src/lib.rs:193-213 | In every reachable state, taking a Promise leaves the proposer with a proposal of the highest ballot among its own and those reported, in every slot. |
| PaxosAnswers.PrepareAnswer | crates/iron-multipaxos/src/lib.rs:176-192 | A Prepare is promised, and answered with everything accepted, if and only if its ballot is at least the one promised. |
| PaxosAnswers.AcceptAnswer | crates/iron-multipaxos/src/lib.rs:214-238 | An Accept is taken under the same condition: the value is stored under the ballot, no other slot changes, and the ballot's proposer is told. |
| PaxosAnswers.PromiseAnswer | crates/iron-multipaxos/src/lib.rs:193-213 | A Promise counts for the current ballot only; every slot then holds a stored or reported proposal that no other one of the slot exceeds. |
| PaxosAnswers.AcceptedAnswer | crates/iron-multipaxos/src/lib.rs:239-265 | An Accepted counts for the current ballot only, and the Decision goes to every member exactly when the votes of the slot are a majority. |
| PaxosAnswers.DecisionAnswer | crates/iron-multipaxos/src/lib.rs:171-174 | A Decision is learnt whatever was promised, in its slot only. |
| PaxosAnswers.StartAnswer | crates/iron-multipaxos/src/lib.rs:105-124 | A round starts under the next ballot of the same proposer with its own promise only and asks every other member; an exhausted counter changes nothing. |
| PaxosAnswers.ProposeAnswer | crates/iron-multipaxos/src/lib.rs:125-143 | Every member is asked under the current ballot exactly when the slot is not 0 and a majority has promised. |
| PaxosAnswers.RestoreAnswer | crates/iron-multipaxos/src/lib.rs:147-159 | A slot takes a restored proposal exactly when it is empty or holds a lower ballot. |
| PaxosAnswers.ConstructionAnswers | crates/iron-multipaxos/src/lib.rs:75-92 | Only a membership without the node is refused; a new node is in round 0 of its own name with nothing promised, accepted or counted. |
| PaxosAnswers.AcceptedHasSource | crates/iron-multipaxos/src/lib.rs:147-238 | Over every run, every value held as accepted or reported in a Promise was restored from storage or given to its ballot's proposer. |
| PaxosVotes.SingleAskExact | crates/iron-multipaxos/src/lib.rs:239-265 | A proposer that up to a round has sent Accepts for one ballot and value only, for a slot, decides it on a majority that accepted exactly these, for every membership and whatever it asks for later. |
| PaxosVotes.DecisionHasExactVoter | crates/iron-multipaxos/src/lib.rs:239-265 | Behind every Decision at least one member has accepted exactly its ballot and value. |
| PaxosVotes.MixedVotes | crates/iron-multipaxos/src/lib.rs:249-265 | For any membership of two or more and any two asks of one proposer for a slot, a run in which all votes but one are for the first and the second is decided. |
| PaxosVotes.ExactMajorityIff | crates/iron-multipaxos/src/lib.rs:239-265 | Over all runs of any membership in which a proposer, up to its second ballot, asks only for two given ballots and values of a slot, its Decision of the second always rests on a majority that accepted exactly that, if and only if the two are the same, the proposer is the only member, or the other ballot is of a later round. |
| Drivers.EventQueue.PushAt | crates/iron-testkit/src/driver.rs:93-109 | The queue after scheduling, in (tick, sequence) order; the past and an exhausted counter are refused without change. |
| Drivers.EventQueue.PushAfter | crates/iron-testkit/src/driver.rs:116-119 | The same relative to the clock, with the clock overflow refused. |
| Drivers.EventQueue.Pop | crates/iron-testkit/src/driver.rs:124-134 | The first event leaves the queue and sets the clock. |
| Drivers.InsertMembers | crates/iron-testkit/src/driver.rs:106 | Insertion into the ordered queue adds exactly the new event. |
| Drivers.InsertSorted | crates/iron-testkit/src/driver.rs:106 | Insertion keeps the queue strictly ordered when the sequence number is fresh. |
| Drivers.ScheduleKeepsTimely | crates/iron-testkit/src/driver.rs:93-109 | Scheduling keeps everything queued behind everything already popped. |
| Drivers.PopKeepsTimely | crates/iron-testkit/src/driver.rs:124-134 | Popping never fails, returns something strictly after all earlier pops, and never moves the clock back. |
| Drivers.ScheduleListEvents | crates/iron-testkit/src/network.rs:182-184 | Scheduling a list queues exactly a prefix of it, none for a past tick and otherwise as many as there are sequence numbers left, and succeeds if and only if that is all. |
| Drivers.ScheduleListOrder | crates/iron-testkit/src/network.rs:182-184 | A list scheduled at one tick takes consecutive sequence numbers in list order, and loses nothing queued. |
| Networks.SimulatedNetwork.SendEnvelope | crates/iron-testkit/src/network.rs:107-162 | The network and answer after a send, for every rule action and every failure, including what a failing send has already changed. |
| Networks.SimulatedNetwork.MatchRule | crates/iron-testkit/src/fault.rs:87-95 | The first applicable rule decides and only it is used up. |
| Networks.SimulatedNetwork.Enqueue | crates/iron-testkit/src/network.rs:132-140 | Copies are queued one by one until done or refused. |
| Networks.SimulatedNetwork.ReleaseReorderedAt | crates/iron-testkit/src/network.rs:170-186 | The network and answer after a release, including one that fails part-way. |
| Networks.SimulatedNetwork.TakeHeld | crates/iron-testkit/src/network.rs:171-180 | The held list is split by tick and both parts keep their order. |
| Networks.SimulatedNetwork.ScheduleReversed | crates/iron-testkit/src/network.rs:182-185 | The loop schedules from the last held message to the first. |
| Networks.SimulatedNetwork.PopDeliverable | crates/iron-testkit/src/network.rs:194-201 | The loop returns the first copy that is not blocked at its delivery instant. |
| NetworkSafety.PopLaw | crates/iron-testkit/src/network.rs:194-201 | A pop never fails, and everything it takes comes after everything taken before, in order. |
| NetworkSafety.PopReturnsReachable | crates/iron-testkit/src/network.rs:188-208 | The copy returned goes to a node that is up over an uncut direction, every copy passed over did not, and nothing in front of it is left. |
| NetworkSafety.DeliveriesIncrease | crates/iron-testkit/src/network.rs:107-201 | Over any interleaving of sends, releases, pops and control changes, failing ones included, returned (tick, sequence) pairs strictly increase and the clock never goes back. |
| NetworkSafety.ConsumingDecidesOnce | crates/iron-testkit/src/fault.rs:75-95 | Over a whole run a consuming rule decides at most one send. |
| NetworkSafety.SendLands | crates/iron-testkit/src/network.rs:126-144 | The copies of an accepted attempt are queued at the current tick plus the delay of the deciding rule, under the next sequence numbers, and nothing queued is lost. |
| NetworkSafety.SendConservesIff | crates/iron-testkit/src/network.rs:107-162 | A send puts exactly the copies of an accepted attempt in the queue or among the held messages, unless discarded at once, and nothing of a refused one, if and only if it does not run out of sequence numbers half-way through its duplicates. |
| NetworkSafety.ReleaseAccounts | crates/iron-testkit/src/network.rs:170-186 | Where every released message goes: the last held are queued as far as possible, the others are gone, and for a past tick that is all of them. |
| NetworkSafety.ReleaseConservesIff | crates/iron-testkit/src/network.rs:170-186 | A release succeeds, and loses no message, if and only if nothing is held for the tick, or the tick is not past and enough sequence numbers are left. |
| NetworkSafety.LateReleaseLoses | crates/iron-testkit/src/network.rs:180-184 | A run in which a release for a past tick loses a held message. |
| NetworkSafety.ReleaseReverses | crates/iron-testkit/src/network.rs:164-186 | Messages held for a tick are queued in reverse hold order under consecutive sequence numbers. |
| NetworkSafety.NextConservesIff | crates/iron-testkit/src/network.rs:107-201 | From a state that accounts for every copy, an event leads to another such state if and only if it is made under its condition. |
| NetworkSafety.CopiesConservedIff | crates/iron-testkit/src/network.rs:107-201 | Over a run, each accepted copy is in exactly one of queued, held, returned or discarded at every moment if and only if every call was made under its condition. |
| NetworkSafety.CopiesConserved | crates/iron-testkit/src/network.rs:107-201 | In particular this holds as long as every send and release succeeds. |
| NetworkAnswers.MatchesExactly | crates/iron-testkit/src/fault.rs:20-38 | A rule meets an attempt exactly when everything the rule names is as named. |
| NetworkAnswers.SendAnswer | crates/iron-testkit/src/network.rs:107-131 | Only an exhausted ordinal leaves an attempt unnumbered; partitions, crashes and drops accept it with no copies and touch nothing else. |
| NetworkAnswers.HoldAnswer | crates/iron-testkit/src/network.rs:145-155 | A reordered message is held last, for exactly the tick its rule names, and a past tick is refused. |
| NetworkAnswers.QueueAnswer | crates/iron-testkit/src/network.rs:126-144 | How many copies an accepted attempt reports under no rule, a duplicate or a delay, and which counter a failure names. |
| NetworkAnswers.ReleaseAnswer | crates/iron-testkit/src/network.rs:170-186 | A release answers how many messages were held for the tick or the first scheduling error, and keeps the others held in order. |
| NetworkAnswers.ScheduleAnswer | crates/iron-testkit/src/driver.rs:93-119 | Scheduling refuses the past, then an exhausted counter, and otherwise adds exactly the event under the next number. |
| NetworkAnswers.PopAnswer | crates/iron-testkit/src/driver.rs:124-134 | Popping takes exactly the first event and sets the clock to its tick. |
| NetworkAnswers.AttemptsAreNumbered | crates/iron-testkit/src/network.rs:107-113 | Over every run, attempts are numbered from 1 whatever becomes of them. |

## Left out

- RaftSafety.LogShape: says of commitment only that the commit index stays within the log. State Machine Safety, Leader Completeness and commit monotonicity are not claimed (`crates/iron-raft/src/lib.rs:303`, `lib.rs:312`, `lib.rs:329-334`).
- Raft restarts and liveness: a node's state survives the whole run, as the source has no restart function.
- PaxosSafety.DecisionHasVoters: says nothing of the Decisions of different proposers. That one value is chosen per slot is not claimed (`crates/iron-multipaxos/src/lib.rs:111-112`, `lib.rs:125-143`).
- WalDurability.CrashRecovery: a power loss keeps a prefix of the file; pages reordered or zeroed by the device are not modelled, nor is a truncation undone after its own sync failed.
- WalWriter.FileWal.Open: whether a new file and its directory entry survive a power loss during creation; the model starts from a file that exists.
- WalWriter.FileWal.Append: the overflow of `valid_length` cannot occur, as a file is at most 2^63-1 bytes long, and has no branch.
- WalScanner.Scan: the record counter is the last sequence number and has no overflow branch of its own; `decode_schema_version` cannot fail after the header check and has no branch.
- The computation of CRC32C, which is a parameter; `GoldenFrame` gives the bytes of the source's own example up to the two checksums.
- Runtime.NodeRuntime.Handle: the protocol is any transition for any event, so agreement of its memory with the log after a failed append is not covered; asynchronous execution, the transport adapter and unknown action kinds are not modelled. Zero record kinds are excluded by type on both sides, so the conversion errors have no branch.
- DedupTables.DedupTable.Reserve: keys and fingerprints are compared and never computed; the hashing behind them is not modelled.
- Networks.SimulatedNetwork.SendEnvelope: an envelope has only the fields that rules and routing look at, and a body.
- `Driver::retain`, the seeded scenarios and the asynchronous transport of the test kit.
- Two-phase and three-phase commit: persistence and recovery of decisions, which the source leaves to the caller. A coordinator has no handler for acknowledgements and a three-phase participant none for an abort order, so delivering these changes nothing.
- The gRPC transport, Protobuf and Serde forms, URL and configuration validation beyond the numeric bounds, identifier grammars, error texts and the binaries, which are thin wrappers or single checks.
