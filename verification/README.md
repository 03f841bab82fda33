# neo4r: a verified model

neo4r is a sharded property-graph database. Each shard is replicated by Raft, its graph is a
deterministic state machine over commands, and the graph is kept in an indexed key-value store.
This project models these three parts and the formats between them, and proves what they are for.
Every statement below is a theorem of the model; `dafny verify dfyconfig.toml` checks the whole project.

## The parts

**Raft** (`Membership`, `RaftState`, `RaftCore`, `RaftNode`, `RaftProtocol`, `RaftActions`,
`RaftFrame`, `RaftShape`, `RaftCluster`, `RaftSimulation`, `RaftSafety`, `RaftAnswers`, `RaftWitnesses`).
`RaftCore.dfy` is the server as a class whose methods are proved equal to the functions of
`RaftState.dfy`. `RaftCluster.dfy` runs any number of such servers over a network that may lose,
repeat and reorder messages, with compaction, snapshot installs and restarts. Every run is followed
by a full-log protocol with ghost history (`RaftProtocol.dfy`, `RaftActions.dfy`); the safety
theorems are proved there and carried back in `RaftSafety.dfy`. `RaftAnswers.dfy` says what each call
answers and changes in terms of log, snapshot and votes alone.

**Graph** (`Graph`, `GraphInvariant`, `GraphMeaning`, `GraphOrder`, `GraphState`, `GraphStore`, `GraphClean`,
`GraphBatch`, `GraphWitnesses`, `KvGraphStore`, `Keys`, `KeyOrder`, `ByteStore`, `GraphRepair`, `ByteBatch`,
`Snapshot`, `SnapshotFile`, `Partition`). The in-memory graph is the specification; `GraphMeaning.dfy` ties it to
the bare command log. The key-value store refines it, first with structured index keys, then with the
byte keys of the source.

**Formats and small protocols** (`Codec`, `CommandCodec`, `CodecPrefix`, `CodecSound`, `Utf8`, `LogCodec`, `CodecIo`,
`SegmentedLog`, `RowText`, `RowCodec`, `QueryRows`, `Proposals`, `PeerCycle`).

## Premises of the cluster runs

The source leaves these to its callers, so the step relation states them:

- An append request is a contiguous slice of its sender's log behind a known entry, and its commit
  index is at most the sender's and at most the last index it carries. The server itself checks
  neither (`crates/neo4r-db/src/raft.rs:552-559`); `RaftWitnesses.CommitCanDrop` shows what a hole does.
- A leader records a match index for a peer only up to what a current-term request that the peer
  accepted covers. The answer carries the peer's own last index instead
  (`crates/neo4r-db/src/raft.rs:565`); `RaftWitnesses.MatchIndexOverstates` shows the difference.
- A snapshot is installed only where the receiver's entry at the boundary, if any, has the snapshot's
  term. The code keeps the suffix without looking (`crates/neo4r-db/src/raft.rs:592-596`);
  `RaftWitnesses.StaleSuffixGrantsVote` shows why it matters and `RaftWitnesses.StaleVoteExactly`
  exactly when.
- A server compacts at one of its own entries, forward. `RaftNode.CompactionShapeExactly` shows that
  this is exactly what keeps the log's shape.
- Terms and indexes stay below the largest u64; `RaftWitnesses.TwoLeadersAtSaturation` shows why.
- All servers have one membership, fixed for the run. It may be a joint one.
- A restart finds the saved term, vote, log and snapshot, and any commit index up to the one it had.

## Where the code does not keep a promise

Each case has a witness and the exact condition under which the promise holds.

- The commit index can fall after malformed requests: `RaftNode.CommitDropsExactly`.
- Creating a node under an id that relationships already point at (adoption) leaves the store's
  invariant report unclean: `GraphClean.ApplyCleanExactly`; the reloaded snapshot then differs:
  `Snapshot.ReloadExactly`.
- A batch that re-creates a relationship id can differ from single commands:
  `GraphBatch.BatchEqualsSequenceExactly`.
- Some rows do not survive the text encoding: `QueryRows.RowsExactly`.
- The cycle check refuses some pointers that would close no cycle: those whose chain comes to a
  self-pointing server without meeting the one being registered, and in checked runs no others:
  `PeerCycle.FalseAlarmInRuns`. `PeerCycle.SelfPointerRefused` is such a run.
- V1 log entries of some very large shard ids are taken for a newer layout: `LogCodec.V1RoundTrip`.

## Modelling choices

- Floating-point numbers are bit patterns. Values then compare as the source's `ValueKey` does.
- Strings are their UTF-8 bytes; string order is byte order, as in Rust.
- Unsigned integers are bounded subset types and saturating additions are written out.
- Hash map iteration order, where the source's result depends on it only through a sorted list or a
  set, is replaced by that list or set.
- The key-value store is a map with an atomic batch write.

## Model

| member | source | states |
|---|---|---|
| RaftSafety.StateMachineSafety | crates/neo4r-db/src/raft.rs:353-382 | In every run, at any two moments, two servers whose commit indexes cover k and which still hold an entry at k hold the same entry |
| RaftSafety.ElectionSafety | crates/neo4r-db/src/raft.rs:271-341 | In every run, two leaders of one term, seen at any two moments, are the same server; restarts from the saved term and vote included |
| RaftSafety.LogMatchingInRuns | crates/neo4r-db/src/raft.rs:418-569 | In every run, equal terms at index k on two servers make their entries equal at every index up to k that both still hold |
| RaftSafety.LeadersKeepCommitted | crates/neo4r-db/src/raft.rs:906-909 | In every run, an entry committed anywhere is in the log of every leader of that or a later term, unless under its snapshot |
| RaftSafety.CommittedIsHeld | crates/neo4r-db/src/raft.rs:827-838 | In every run each log is exactly the indices after its snapshot, with snapshot <= commit <= last, and every committed index above the snapshot is held |
| RaftSafety.MirrorRun | crates/neo4r-db/src/raft.rs:418-603 | Every run of RaftCore servers, compaction, installs and restarts included, is matched step by step by the full-log protocol whose invariant is proved |
| RaftSafety.FollowEvent | crates/neo4r-db/src/raft.rs:271-694 | Every single event (timeout, vote, append, reply, client command, compaction, snapshot, restart) has a matching protocol move that keeps the invariant |
| RaftProtocol.LeaderCompleteness | crates/neo4r-db/src/raft.rs:353-382 | What a quorum acknowledged in term t is a prefix-agreeing part of the log of every later leader; strong induction over terms |
| RaftProtocol.LogMatching | crates/neo4r-db/src/raft.rs:464-514 | Two logs made only of slices of leader logs agree up to any index where their terms agree |
| RaftProtocol.WinnerHolds | crates/neo4r-db/src/raft.rs:906-909 | A voter that holds a chosen prefix and finds the candidate up to date has voted for a candidate that holds it too |
| RaftProtocol.CommittedAgree | crates/neo4r-db/src/raft.rs:840-884 | Two committed prefixes, each known in some term, agree as far as both reach |
| RaftActions.CampaignKeepsInv | crates/neo4r-db/src/raft.rs:271-285 | Starting an election keeps the protocol invariant |
| RaftActions.CastVoteKeepsInv | crates/neo4r-db/src/raft.rs:353-382 | Granting a vote to an up-to-date candidate of the own term keeps the protocol invariant |
| RaftActions.WinKeepsInv | crates/neo4r-db/src/raft.rs:321-341 | Becoming leader on a quorum of votes keeps the protocol invariant, and the term had no leader before |
| RaftActions.ProposeKeepsInv | crates/neo4r-db/src/raft.rs:625-641 | A leader's own append keeps the protocol invariant |
| RaftActions.AcceptKeepsInv | crates/neo4r-db/src/raft.rs:496-559 | Accepting a faithful append request keeps the protocol invariant and never disagrees with committed entries |
| RaftActions.CutKeepsInv | crates/neo4r-db/src/raft.rs:464-481 | Cutting a conflicting suffix above the commit index keeps the protocol invariant |
| RaftActions.QuorumMatchIsChosen | crates/neo4r-db/src/raft.rs:840-884 | A current-term entry matched by a quorum is chosen, which is what the commit rule relies on |
| RaftWitnesses.TwoLeadersAtSaturation | crates/neo4r-db/src/raft.rs:271-285 | At the largest u64 term election safety fails: two leaders of one term |
| RaftWitnesses.StaleSuffixGrantsVote | crates/neo4r-db/src/raft.rs:592-596 | An installed snapshot whose term disagrees at the boundary leaves a suffix behind on which a stale candidate gets a vote |
| RaftWitnesses.StaleVoteExactly | crates/neo4r-db/src/raft.rs:571-602 | After an install some candidate behind the snapshot term can get a vote exactly when the retained suffix is not empty and ends in an older term |
| RaftWitnesses.AgreeingSnapshotRefusesStaleVote | crates/neo4r-db/src/raft.rs:571-602 | With an agreeing boundary no candidate behind the snapshot's term gets a vote after any install |
| RaftWitnesses.MatchIndexOverstates | crates/neo4r-db/src/raft.rs:561-568 | Recording the answered match index instead of the acknowledged one commits an entry the follower does not hold |
| Membership.QuorumsIntersect | crates/neo4r-db/src/raft/membership.rs:59-65 | Two quorums of one membership, joint or not, share a voter |
| Membership.JointPhasesOverlap | crates/neo4r-db/src/raft/membership.rs:75-88 | Quorums of the old and the joint, and of the joint and the new configuration, always meet |
| Membership.SingleChangeOverlap | crates/neo4r-db/src/raft/membership.rs:90-125 | Adding or removing one voter keeps old and new quorums overlapping |
| Membership.MajoritiesMeet | crates/neo4r-db/src/raft/membership.rs:127-129 | Two sets that together outnumber a third share a member in it |
| Membership.QuorumExactly | crates/neo4r-db/src/raft/membership.rs:59-65 | A quorum is more than half of the voters, in a joint phase of both halves |
| Membership.ChangesMean | crates/neo4r-db/src/raft/membership.rs:75-125 | Who votes and who is a member after adding, removing, entering and finalizing |
| RaftNode.CommittedStability | crates/neo4r-db/src/raft.rs:464-514 | Over every history of calls, malformed requests included, an entry at or below the commit index is never replaced or removed except under a snapshot |
| RaftNode.CommitDropsExactly | crates/neo4r-db/src/raft.rs:418-569 | An append lowers the commit index exactly when the request is current, names the entry before it, meets no entry of another term in the log or in itself, asks for a higher commit, and log, snapshot and request all end below the current commit index; all of it can be read off state and request |
| RaftNode.PassesExactly | crates/neo4r-db/src/raft.rs:496-550 | A batch that ends at or below the commit index passes the entry loop exactly when it agrees with the log and with itself |
| RaftNode.OtherCallsNeverDrop | crates/neo4r-db/src/raft.rs:571-694 | No call other than append lowers the commit index |
| RaftNode.SnapshotCommittedAlways | crates/neo4r-db/src/raft.rs:604-623 | Over every history the snapshot stays at or below the commit index and every log entry at or above the snapshot index |
| RaftNode.OpenSnapshotCommitted | crates/neo4r-db/src/raft.rs:190-219 | Opening, whatever the stored log, snapshot and commit index, starts with the snapshot committed |
| RaftNode.ShapeOverHistory | crates/neo4r-db/src/raft.rs:418-677 | Over every history of contiguous requests and forward compactions the log is exactly snapshot+1..last with snapshot <= commit <= last, and commit never falls |
| RaftNode.CompactionShapeExactly | crates/neo4r-db/src/raft.rs:604-623 | A successful compaction keeps that shape exactly when it does not move the snapshot backwards |
| RaftNode.AdvanceOnlyToEligible | crates/neo4r-db/src/raft.rs:840-884 | A leader's commit index moves only to a current-term entry matched by a quorum, and nothing else changes |
| RaftNode.AdvanceMissesNothing | crates/neo4r-db/src/raft.rs:840-884 | With match indexes up to last and ascending terms no larger eligible index is left uncommitted |
| RaftNode.LocalEntryStands | crates/neo4r-db/src/raft.rs:625-641 | A leader's append puts the command at the next index in its own term and leaves every other index as it reads |
| RaftAnswers.VoteExactly | crates/neo4r-db/src/raft.rs:353-382 | A vote is granted exactly when the request's term is not older, the server is in an older term, has not voted or voted for this candidate, and (last term, last index) is lexicographically at least the end of the server's log or snapshot; the answer carries the larger term |
| RaftAnswers.MostCompleteExists | crates/neo4r-db/src/raft.rs:906-909 | Of any servers, one has a log that every other would vote for |
| RaftAnswers.MostCompleteGetsVotes | crates/neo4r-db/src/raft.rs:271-382 | Such a server, timing out in a term no one is ahead of, gets every vote |
| RaftAnswers.LeadsExactly | crates/neo4r-db/src/raft.rs:321-341 | A candidate that recorded any answers leads exactly when its own and the granted votes are a quorum, and otherwise holds exactly those votes |
| RaftAnswers.ElectionDecides | crates/neo4r-db/src/raft.rs:271-341 | A whole election asks with the end of the log for the next term and is won exactly by a quorum |
| RaftAnswers.OtherAnswers | crates/neo4r-db/src/raft.rs:321-332 | An answer of a later term makes the server a follower of it without a vote; an old one, or one to no candidate, changes nothing |
| RaftAnswers.OldRequestRefused | crates/neo4r-db/src/raft.rs:422-431 | An old append is answered with the server's term and last index and changes nothing |
| RaftAnswers.MissingPreviousRefused | crates/neo4r-db/src/raft.rs:438-453 | Without the previous entry the answer asks for one past the last index, with no conflict term |
| RaftAnswers.CommittedPreviousRefused | crates/neo4r-db/src/raft.rs:496-505 | A previous entry of another term at or below commit is named with its term and nothing is cut |
| RaftAnswers.ConflictingPreviousRefused | crates/neo4r-db/src/raft.rs:506-523 | Above commit the answer names that term and the index of its first entry, and the log is cut before the previous index |
| RaftAnswers.EarlyExit | crates/neo4r-db/src/raft.rs:526-549 | The entry loop ends early only with an error on a foreign entry, or with a refusal that names an entry of the batch and the other term held at its index at or below commit |
| RaftAnswers.FitsExactly | crates/neo4r-db/src/raft.rs:526-551 | An ascending batch passes the loop exactly when every entry is of the shard and meets no other term at or below commit |
| RaftAnswers.AppendSucceedsExactly | crates/neo4r-db/src/raft.rs:418-569 | An append of ascending entries succeeds exactly when it is current, its previous entry is held and its entries fit; then every entry is held, commit follows the leader's up to the end of the log, and the answer names that end |
| RaftAnswers.AppendLocalCommits | crates/neo4r-db/src/raft.rs:625-641 | After a leader's append nothing committable is left uncommitted, and the new entry is committed at once exactly when the leader alone is a quorum |
| RaftAnswers.AppendExistingCommits | crates/neo4r-db/src/raft.rs:643-677 | A given entry is taken exactly when it continues the log in the leader's term; then the same holds |
| RaftAnswers.RecordMatchCommits | crates/neo4r-db/src/raft.rs:679-698 | A match is recorded exactly for a member by a leader, nothing committable stays behind, and the answer is the commit index |
| RaftAnswers.CompactExactly | crates/neo4r-db/src/raft.rs:604-623 | A compaction succeeds exactly for the own shard up to the commit index and removes exactly the entries it covers |
| RaftAnswers.InstallExactly | crates/neo4r-db/src/raft.rs:571-602 | What every install answers and leaves: refused when old, an error on a foreign shard, never moving a snapshot back |
| RaftAnswers.OpenExactly | crates/neo4r-db/src/raft.rs:135-219 | Opening succeeds exactly for a member with log and snapshot of the shard; the commit index is the stored one, bounded by the largest stored index and raised to the snapshot |
| RaftWitnesses.CommitCanDrop | crates/neo4r-db/src/raft.rs:552-559 | Three accepted requests, one with a hole, take the commit index from 3 down to 1 |
| RaftState.QuorumIndexUnique | crates/neo4r-db/src/raft.rs:844-873 | There is one largest index matched by a quorum |
| RaftCoreModel.RaftCore.FindQuorumIndex | crates/neo4r-db/src/raft.rs:844-873 | The descending scan over the sorted match indexes finds the largest index matched by a quorum, or 0 |
| RaftCoreModel.SortedMatches | crates/neo4r-db/src/raft.rs:844-855 | The collected match values are descending and hold exactly the voters' values |
| RaftCoreModel.RaftCore.OpenWithMembership | crates/neo4r-db/src/raft.rs:135-165 | A server that is no member is refused; otherwise it is a follower with an empty log, commit index 0 and the saved term and vote |
| RaftCoreModel.RaftCore.OpenWithLogAndSnapshot | crates/neo4r-db/src/raft.rs:190-219 | Opening with a stored log sorts it, drops what the snapshot covers and bounds the commit index, or refuses a foreign shard |
| RaftCoreModel.RaftCore.StartElection | crates/neo4r-db/src/raft.rs:271-285 | The whole state and request after a timeout |
| RaftCoreModel.RaftCore.BecomeLeader | crates/neo4r-db/src/raft.rs:296-304 | The whole state after becoming leader |
| RaftCoreModel.RaftCore.RecordVoteResponse | crates/neo4r-db/src/raft.rs:321-341 | The whole state after a vote answer, stale, foreign and refused ones included |
| RaftCoreModel.RaftCore.RequestVote | crates/neo4r-db/src/raft.rs:353-382 | The whole state and answer to a vote request |
| RaftCoreModel.RaftCore.AppendEntries | crates/neo4r-db/src/raft.rs:418-569 | The whole state and answer to an append request, errors and early exits included |
| RaftCoreModel.RaftCore.TakeEntries | crates/neo4r-db/src/raft.rs:496-568 | The loop over the entries: skip, conflict, cut and push, then the commit bound and the answer |
| RaftCoreModel.RaftCore.InstallSnapshot | crates/neo4r-db/src/raft.rs:571-602 | The whole state and answer to a snapshot install |
| RaftCoreModel.RaftCore.CompactLogToSnapshot | crates/neo4r-db/src/raft.rs:604-623 | The whole state after a compaction, or its error |
| RaftCoreModel.RaftCore.AppendLocalEntry | crates/neo4r-db/src/raft.rs:625-641 | The whole state after a leader's own append, or the not-leader error |
| RaftCoreModel.RaftCore.AppendExistingLocalEntry | crates/neo4r-db/src/raft.rs:643-677 | The whole state after appending a given entry, or one of its four errors |
| RaftCoreModel.RaftCore.RecordReplicationMatch | crates/neo4r-db/src/raft.rs:679-698 | The whole state after recording a match, or its errors |
| RaftCoreModel.RaftCore.AdvanceLeaderCommitIndex | crates/neo4r-db/src/raft.rs:840-884 | Only the commit index changes, to what the quorum index allows |
| RaftCoreModel.RaftCore.StepDown | crates/neo4r-db/src/raft.rs:796-807 | The whole state after stepping down |
| RaftCoreModel.RaftCore.TruncateFrom | crates/neo4r-db/src/raft.rs:827-833 | Entries from the index on are gone and the commit index is bounded |
| GraphInvariant.ApplyKeepsInv | crates/neo4r-core/src/graph.rs:196-431 | Every command keeps the graph invariant (endpoints, adjacency, typed adjacency, label and property indexes), and a failing command changes nothing |
| GraphInvariant.ReachableInv | crates/neo4r-core/src/graph.rs:196-231 | Every graph reachable by any command list satisfies the invariant |
| GraphInvariant.DropNodeSucceeds | crates/neo4r-core/src/graph.rs:399-422 | Deleting a node never stops halfway, self-loops included, and removes exactly the relationships listed at it |
| GraphInvariant.DropRelsSucceeds | crates/neo4r-core/src/graph.rs:383-397 | Deleting a list of distinct present relationships removes exactly those and nothing else |
| GraphMeaning.NodesMean | crates/neo4r-core/src/graph.rs:233-358 | After every accepted log each node exists and has a label or property exactly as the commands, read on their own, say |
| GraphMeaning.RelationshipsMean | crates/neo4r-core/src/graph.rs:252-397 | The same for the ends, types and properties of relationships and for whether their targets list them: deleting the source, or a target that was local when the relationship was created, deletes it; adoption included |
| GraphMeaning.AcceptedExactly | crates/neo4r-core/src/graph.rs:196-431 | After every accepted log a command is accepted exactly when the commands before it, read on their own, allow it, and is refused with the error they give |
| GraphMeaning.LabelListsMean | crates/neo4r-core/src/graph.rs:332-358 | Label lists come out in the order the log built them: created, added at the end, removed in place |
| GraphOrder.AdjacencyInOrder | crates/neo4r-core/src/graph.rs:252-422 | After every accepted log all four adjacency lists of a node are in order of creation |
| GraphOrder.CountersMean | crates/neo4r-core/src/graph.rs:233-291 | The id counters are what the log alone gives |
| GraphOrder.CountersTight | crates/neo4r-core/src/graph.rs:233-291 | They lie above every created id and no higher than needed |
| GraphStateModel.GraphState.Apply | crates/neo4r-core/src/graph.rs:196-231 | The class keeps its invariant, ends in the state the specification gives, and in the old one on every error |
| GraphStateModel.GraphState.CreateNode | crates/neo4r-core/src/graph.rs:233-250 | The whole new state, or the error |
| GraphStateModel.GraphState.CreateRelationship | crates/neo4r-core/src/graph.rs:252-291 | The whole new state, or the first of its three errors |
| GraphStateModel.GraphState.UpsertBoundaryNode | crates/neo4r-core/src/graph.rs:293-308 | The whole new state: old index entries out, new ones in |
| GraphStateModel.GraphState.UpdateNode | crates/neo4r-core/src/graph.rs:310-358 | The whole new state after a property or label command |
| GraphStateModel.GraphState.UpdateRelationship | crates/neo4r-core/src/graph.rs:360-381 | The whole new state after a relationship property command |
| GraphStateModel.GraphState.DeleteRelationship | crates/neo4r-core/src/graph.rs:383-397 | The whole new state, or the error |
| GraphStateModel.GraphState.DeleteNode | crates/neo4r-core/src/graph.rs:399-422 | The loop over relationships and the removal of the node give the specified state |
| GraphStateModel.GraphState.IndexNode | crates/neo4r-core/src/graph.rs:448-467 | The nested loops enter the node under exactly its labels and label properties |
| GraphStateModel.GraphState.RemoveNodeIndex | crates/neo4r-core/src/graph.rs:469-483 | The nested loops take the node out of exactly those |
| GraphStore.ReplayRefines | crates/neo4r-storage/src/graph_store.rs:37-72 | After every command list the graph accepts, the key-value store holds the same records and exactly the index keys of the graph's indexes and lists |
| GraphStore.ApplyRefines | crates/neo4r-storage/src/graph_store.rs:37-72 | One accepted command keeps that agreement |
| GraphStore.NodeReadsAgree | crates/neo4r-storage/src/graph_store.rs:229-257 | Label, label-property and boundary reads return the same ids from both |
| GraphStore.AdjacencyReadsAgree | crates/neo4r-storage/src/graph_store.rs:259-281 | Outgoing, incoming and typed reads return the same ids from both |
| GraphStore.FetchNeverMisses | crates/neo4r-storage/src/graph_store.rs:820-831 | Fetching the scanned relationships never meets a missing record |
| GraphStore.MissingIsNothing | crates/neo4r-storage/src/graph_store.rs:524-692 | A command on a record that is not there leaves the store alone |
| GraphClean.ApplyCleanExactly | crates/neo4r-storage/src/graph_store.rs:283-293 | An accepted command keeps verify_invariants clean exactly when it does not create a node some relationship already points at |
| GraphClean.ReplayClean | crates/neo4r-storage/src/graph_store.rs:86-93 | From a clean store, command lists without such creations end clean |
| GraphClean.AcceptsAgree | crates/neo4r-core/src/graph.rs:196-231 | What the graph accepts can be decided on the store's records |
| GraphClean.ScansAreExact | crates/neo4r-storage/src/graph_store.rs:675-692 | In a clean store the two scans of a local node find exactly the relationships that end at it |
| GraphBatch.BatchEqualsSequenceExactly | crates/neo4r-storage/src/graph_store.rs:74-84 | From a clean store, over accepted commands without adoption, the batch leaves the store of one-by-one application exactly when every relationship that a node deletion finds under a stale listing is gone at some later point anyway |
| GraphBatch.BatchLosesExactly | crates/neo4r-storage/src/graph_store.rs:295-428 | Whatever the batch holds, it leaves a clean store with the records of one-by-one application except the lost relationships |
| GraphBatch.LostExactly | crates/neo4r-storage/src/graph_store.rs:694-723 | A relationship is lost exactly when some node deletion met it under a stale listing and it stayed from then on |
| GraphBatch.EveryPrefixExactly | crates/neo4r-storage/src/graph_store.rs:74-84 | Batch and one-by-one agree after every prefix exactly when nothing is ever met under a stale listing |
| ByteBatch.BytesEqualExactly | crates/neo4r-storage/src/graph_store.rs:74-84 | On bytes: writing the batch or the single commands leaves the same byte map exactly when nothing is lost |
| ByteBatch.RepresentedOnce | crates/neo4r-storage/src/kv.rs:71-85 | A byte map is determined by the structured store it represents |
| GraphBatch.BatchEqualsSequence | crates/neo4r-storage/src/graph_store.rs:295-428 | If no relationship id of the old store is created again, the batch leaves exactly the store of one-by-one application |
| GraphBatch.StepEqualsExactly | crates/neo4r-storage/src/graph_store.rs:295-428 | One staged command equals the direct one exactly when it meets no stale listing |
| GraphBatch.StepTracks | crates/neo4r-storage/src/graph_store.rs:725-752 | The staged maps over the old store always give the current records |
| GraphWitnesses.RevivalBreaksBatch | crates/neo4r-storage/src/graph_store.rs:704-717 | Deleting and re-creating a relationship id in one batch loses it; one by one it survives |
| GraphWitnesses.AdoptionBreaksBatch | crates/neo4r-storage/src/graph_store.rs:694-723 | From a clean store, commands accepted in turn, one of which creates a node under a boundary id, make the batch delete a relationship that one-by-one application keeps |
| KvGraphStoreModel.KvGraphStore.Apply | crates/neo4r-storage/src/graph_store.rs:37-72 | The store after a command is the specified one, missing records included |
| KvGraphStoreModel.KvGraphStore.ApplyIntoBatch | crates/neo4r-storage/src/graph_store.rs:295-428 | The write batch and the staged maps after a command are the specified ones |
| KvGraphStoreModel.KvGraphStore.ApplyBatch | crates/neo4r-storage/src/graph_store.rs:74-84 | The loop over the commands and one atomic write give the specified batch result |
| KvGraphStoreModel.KvGraphStore.DeleteNodeStaged | crates/neo4r-storage/src/graph_store.rs:694-723 | The staged node deletion collects old keys and staged relationships and drops them |
| KvGraphStoreModel.KvGraphStore.DropListedStaged | crates/neo4r-storage/src/graph_store.rs:649-673 | The loop deletes, in batch and staged map, exactly the listed relationships that are present |
| KvGraphStoreModel.KvGraphStore.DropListed | crates/neo4r-storage/src/graph_store.rs:625-647 | The loop deletes exactly the listed relationships that are present |
| KvGraphStoreModel.WriteBatch.AddNodeKeys | crates/neo4r-storage/src/graph_store.rs:754-784 | The nested loops write or delete exactly the index keys of a node |
| KvGraphStoreModel.WriteBatch.AddBoundaryKeys | crates/neo4r-storage/src/graph_store.rs:786-818 | The nested loops write or delete exactly the index keys of a boundary node |
| KvGraphStoreModel.WriteBatch.AddDropRel | crates/neo4r-storage/src/graph_store.rs:625-647 | A relationship deletion writes exactly its record and four key deletions |
| Keys.KeyBytesUnique | crates/neo4r-storage/src/graph_store.rs:985-1136 | Key bytes determine the key: injective over all record and index families |
| Keys.ValueBytesUnique | crates/neo4r-storage/src/graph_store.rs:1138-1180 | Value-key bytes are equal only for equal values, nested maps included |
| Keys.ScanExact | crates/neo4r-storage/src/graph_store.rs:1009-1117 | A key starts with a scan prefix exactly when it belongs to that label, value, node or type |
| Keys.FamilyScanExact | crates/neo4r-storage/src/graph_store.rs:1053-1063 | A family prefix is found on exactly the keys of that family |
| Keys.IdFromKey | crates/neo4r-storage/src/graph_store.rs:978-983 | The last eight bytes of an index key give back its id |
| KeyOrder.KeysByIdOrder | crates/neo4r-storage/src/graph_store.rs:1119-1130 | Keys of one scan or one record family are ordered by id |
| KeyOrder.ScanAscends | crates/neo4r-storage/src/graph_store.rs:969-983 | So an ordered scan of one index prefix returns ascending ids |
| ByteStore.BatchLifts | crates/neo4r-storage/src/kv.rs:71-85 | Writing an encoded batch to the byte store is the structured write |
| ByteStore.ScanLifts | crates/neo4r-storage/src/graph_store.rs:969-983 | A prefix scan of the byte store finds an id exactly when the structured store has such a key |
| ByteStore.NodeReadsBack | crates/neo4r-storage/src/graph_store.rs:920-931 | A node record is present in bytes exactly when it is in the store, and decodes to it |
| ByteStore.PrefixContiguous | crates/neo4r-storage/src/kv.rs:87-94 | In byte order, what lies between a prefix and a key with that prefix has it too |
| ByteStore.MemoryKvStore.WriteBatch | crates/neo4r-storage/src/kv.rs:71-85 | The loop applies all writes in order |
| ByteStore.MemoryKvStore.ScanPrefix | crates/neo4r-storage/src/kv.rs:87-94 | The range-and-take-while loop returns, in order, exactly the keys with the prefix |
| GraphRepair.RepairIsClean | crates/neo4r-storage/src/graph_store.rs:95-110 | From any store with decodable records, repair gives a clean store, leaves every record untouched and is idempotent |
| GraphRepair.CleanLifts | crates/neo4r-storage/src/graph_store.rs:86-93 | verify_invariants on bytes is clean exactly when the structured store is |
| GraphRepair.SameExpected | crates/neo4r-storage/src/graph_store.rs:112-173 | The expected index keys depend on the records alone |
| GraphRepair.RepairIndexes | crates/neo4r-storage/src/graph_store.rs:95-110 | The method writes that repair in one batch and returns the report from before; a store with an unreadable record is refused and left alone |
| GraphRepair.VerifyInvariants | crates/neo4r-storage/src/graph_store.rs:86-93 | The report lists exactly the missing and the unexpected index keys, is empty exactly on clean stores, and is refused on unreadable records |
| ByteBatch.RepairRepresents | crates/neo4r-storage/src/graph_store.rs:95-110 | Repair turns the bytes of any store into those of the clean store with the same records |
| Snapshot.SnapshotPlusSuffix | crates/neo4r-storage/src/snapshot.rs:136-208 | Loading a snapshot of any log prefix that leaves relationships listed at their local targets and applying any suffix matches full replay in records, index answers and acceptance of every further command |
| Snapshot.SnapshotSuffixExactly | crates/neo4r-storage/src/snapshot.rs:136-208 | For a given prefix that holds for every suffix exactly when the prefix leaves every relationship with a local target listed there |
| Snapshot.NoAdoptionReloads | crates/neo4r-storage/src/snapshot.rs:136-208 | It holds for every prefix without adoption |
| Snapshot.ReloadExactly | crates/neo4r-storage/src/snapshot.rs:136-208 | Loading always succeeds, and gives an equal graph up to list order and counters exactly when every relationship with a local target is listed there |
| Snapshot.AlikeStep | crates/neo4r-core/src/graph.rs:196-231 | Graphs equal up to list order and counters accept the same commands and stay so |
| Snapshot.AlikeReplay | crates/neo4r-core/src/graph.rs:196-231 | The same over every command list |
| Snapshot.LoadRebuilds | crates/neo4r-storage/src/snapshot.rs:150-208 | The saved commands rebuild exactly the saved records |
| Snapshot.SectionsAscend | crates/neo4r-storage/src/snapshot.rs:60-103 | Sections are written in ascending order of id |
| Snapshot.NoAdoptionListed | crates/neo4r-core/src/graph.rs:233-291 | Without adoption every relationship with a local target stays listed there |
| Snapshot.AdoptionBreaksReload | crates/neo4r-core/src/graph.rs:270-277 | A four-command log, accepted throughout, after which the reloaded graph answers differently |
| SnapshotFile.SnapshotRoundTrip | crates/neo4r-storage/src/snapshot.rs:42-208 | Loading the bytes of a saved snapshot gives its position and the rebuilt graph |
| SnapshotFile.LoadedIsReplay | crates/neo4r-storage/src/snapshot.rs:136-208 | Whatever bytes load, the graph is the replay of accepted node creations, then boundary nodes, then relationships, of a file for this shard |
| SnapshotFile.OtherShardRefused | crates/neo4r-storage/src/snapshot.rs:143-150 | A snapshot of another shard is refused |
| SnapshotFile.Save | crates/neo4r-storage/src/snapshot.rs:42-111 | The written bytes are the specified file, or an error exactly when a section or command is too long for its length field |
| SnapshotFile.Load | crates/neo4r-storage/src/snapshot.rs:136-208 | The reading loops give the specified result, wrong shard, wrong command kind and trailing bytes included, and a loaded graph satisfies the invariant |
| SnapshotFile.WriteSection | crates/neo4r-storage/src/snapshot.rs:55-103 | A section is written exactly, and refused exactly when a length does not fit |
| SnapshotFile.ReadSection | crates/neo4r-storage/src/snapshot.rs:155-205 | The loop reads, checks and applies every command of a section |
| Partition.GroupedEqualsInOrder | crates/neo4r-storage/src/partition.rs:132-150 | Grouping commands by partition and applying each group as a batch equals in-order application across partitions, when no group re-creates a relationship of its partition |
| Partition.GroupedExactly | crates/neo4r-storage/src/partition.rs:132-150 | The two are equal exactly when no partition loses a relationship |
| Partition.InOrderIsPerPartition | crates/neo4r-storage/src/partition.rs:128-130 | In-order routing gives each partition exactly its own commands in order |
| Partition.NewPlacement | crates/neo4r-storage/src/partition.rs:22-49 | A placement exists exactly for a positive partition count, and then every shard goes to its id modulo that count |
| Partition.WithAssignment | crates/neo4r-storage/src/partition.rs:34-42 | An assignment is accepted exactly below the partition count, moves that shard and no other |
| Partition.PartitionedGraphStore.Apply | crates/neo4r-storage/src/partition.rs:128-130 | Exactly the shard's partition changes, by that command |
| Partition.PartitionedGraphStore.Group | crates/neo4r-storage/src/partition.rs:133-139 | The grouping loop gives each partition its commands in order |
| Partition.PartitionedGraphStore.ApplyBatch | crates/neo4r-storage/src/partition.rs:132-150 | The partitions end in the grouped result |
| CommandCodec.CommandRoundTrip | crates/neo4r-storage/src/codec.rs:31-225 | Decoding inverts encoding for every command with lengths below 2^32, nested maps and routing tables included |
| CommandCodec.ExtensionRejected | crates/neo4r-storage/src/codec.rs:386-392 | Any bytes behind an encoded command are refused as trailing |
| CodecPrefix.PrefixRejected | crates/neo4r-storage/src/codec.rs:489-501 | Every strict prefix of an encoded command is refused |
| CodecPrefix.CommandSame | crates/neo4r-storage/src/codec.rs:147-225 | A successful parse of a prefix is the parse of the whole |
| CodecSound.DecodedReadsBack | crates/neo4r-storage/src/codec.rs:147-225 | Whatever bytes decode, the command has valid text and fitting lengths throughout and reads back from its own encoding |
| Utf8.ValidExactly | crates/neo4r-storage/src/codec.rs:413-418 | The text check accepts exactly the UTF-8 encodings of sequences of Unicode scalar values |
| LogCodec.V3RoundTrip | crates/neo4r-storage/src/codec.rs:131-145 | Decoding inverts encoding for current log entries |
| LogCodec.V2RoundTrip | crates/neo4r-storage/src/codec.rs:260-272 | V2 entries decode to their fields, with no origin or configuration version |
| LogCodec.V1RoundTrip | crates/neo4r-storage/src/codec.rs:227-283 | V1 entries decode to their fields, with zero timestamp, exactly when the shard id does not begin with the bytes of a newer marker |
| LogCodec.NoMagic | crates/neo4r-storage/src/codec.rs:227-236 | No shard id below 2^56 does |
| LogCodec.SomeShardMarked | crates/neo4r-storage/src/codec.rs:227-236 | Some shard id does, so its V1 entries are misread |
| CodecIo.Writer.WriteCommand | crates/neo4r-storage/src/codec.rs:31-129 | The writer appends exactly the command's encoding |
| CodecIo.Writer.WriteValue | crates/neo4r-storage/src/codec.rs:343-374 | The recursive value writer appends exactly the value's encoding |
| CodecIo.Writer.WriteRoutingTable | crates/neo4r-storage/src/codec.rs:324-341 | The loops append exactly the routing table's encoding |
| CodecIo.Writer.WriteLogEntry | crates/neo4r-storage/src/codec.rs:131-145 | The writer appends exactly the entry's V3 encoding |
| CodecIo.Reader.ReadExact | crates/neo4r-storage/src/codec.rs:489-501 | Reading past the end is refused; otherwise the slice is returned and the position moves behind it |
| CodecIo.Reader.ReadString | crates/neo4r-storage/src/codec.rs:413-418 | Text is read with its UTF-8 check |
| CodecIo.Reader.ReadValue | crates/neo4r-storage/src/codec.rs:440-458 | The recursive reader computes the specified parse and position, errors included |
| CodecIo.Reader.ReadRoutingTable | crates/neo4r-storage/src/codec.rs:460-487 | The loops compute the specified parse and position |
| CodecIo.Reader.Decode | crates/neo4r-storage/src/codec.rs:147-225 | The reader decodes as specified, trailing bytes refused |
| CodecIo.Reader.DecodeEntry | crates/neo4r-storage/src/codec.rs:227-283 | The reader decodes all three entry versions as specified |
| SegmentedLog.ReplayFromIsFilter | crates/neo4r-storage/src/log.rs:224-247 | Replaying from s is replaying everything and keeping indices from s on, in the same order |
| SegmentedLog.TruncateExactly | crates/neo4r-storage/src/log.rs:256-284 | Truncating at i leaves exactly the entries below i, in order, each in its segment |
| SegmentedLog.CompactionIsInvisible | crates/neo4r-storage/src/log.rs:286-306 | Deleting every compaction candidate before r leaves replay from r unchanged |
| SegmentedLog.CandidateExactly | crates/neo4r-storage/src/log.rs:286-306 | A segment file is a candidate exactly when every index that belongs in it lies before the retained one, in another segment |
| SegmentedLog.SurvivesExactly | crates/neo4r-storage/src/log.rs:286-306 | An entry survives the deletion of all candidates exactly when it is not before the retained index's segment |
| SegmentedLog.SegmentMonotone | crates/neo4r-storage/src/log.rs:327-333 | Segment starts never fall as indices rise |
| SegmentedLog.SegmentStart | crates/neo4r-storage/src/log.rs:327-333 | A segment starts at or below its indices, less than a segment away, and at 0 only for 0 |
| SegmentedLog.SegmentExactly | crates/neo4r-storage/src/log.rs:327-333 | The start of an index is the one multiple of the segment size plus one at or below it and less than a segment away |
| SegmentedLog.FileRoundTrip | crates/neo4r-storage/src/log.rs:336-439 | Under either file header the frames of a segment file read back as the entries written |
| SegmentedLog.MixedFileReads | crates/neo4r-storage/src/log.rs:224-247 | A file with either header reads as the entries of its payloads, old and new entry layouts mixed |
| SegmentedLog.ForeignEntryStops | crates/neo4r-storage/src/log.rs:229-241 | A foreign entry anywhere in a file ends the replay with an error |
| SegmentedLog.SegmentedShardLog.AppendEntry | crates/neo4r-storage/src/log.rs:202-212 | A foreign entry is refused, an oversized one is refused without an entry, and every other goes to the end of its segment |
| SegmentedLog.SegmentedShardLog.ReadSegment | crates/neo4r-storage/src/log.rs:229-244 | One file: a foreign entry stops the replay, otherwise exactly the entries from the start index on are returned in order |
| SegmentedLog.SegmentedShardLog.ReplayEntriesFrom | crates/neo4r-storage/src/log.rs:224-247 | The loop over segment files returns the filtered replay |
| SegmentedLog.SegmentedShardLog.TruncateFrom | crates/neo4r-storage/src/log.rs:256-284 | The rebuild loop leaves exactly the entries below the index |
| SegmentedLog.SegmentedShardLog.CompactionCandidates | crates/neo4r-storage/src/log.rs:286-306 | The returned segments are exactly those in which nothing that belongs there is retained, and can go without changing replay from the retained index |
| QueryRows.RowsExactly | crates/neo4r-protocol/src/lib.rs:196-208 | Rows come back as they were exactly when no property or map holds a vector of two or more numbers, no node or boundary node has the label list [""], and the result is not one empty row |
| QueryRows.RowsBack | crates/neo4r-protocol/src/lib.rs:196-208 | For all rows: what decoding the encoding gives, refusal and the two altered cases included |
| QueryRows.QueryValueBack | crates/neo4r-protocol/src/lib.rs:449-529 | For every scalar, node, boundary node and relationship: what decoding its text gives |
| QueryRows.RowBack | crates/neo4r-protocol/src/lib.rs:416-447 | For every row: what decoding its text gives; no row text contains a bar |
| QueryRows.LabelsBack | crates/neo4r-protocol/src/lib.rs:670-689 | Labels come back, except that a single empty label becomes none |
| QueryRows.DecodeQueryRow | crates/neo4r-protocol/src/lib.rs:433-447 | The loop over the cells computes the specified row or refusal |
| QueryRows.DecodeProperties | crates/neo4r-protocol/src/lib.rs:377-391 | The loop over the entries computes the specified properties or refusal |
| RowCodec.PropertiesExactly | crates/neo4r-protocol/src/lib.rs:364-391 | Properties come back exactly when no vector of two or more numbers stands among them at any depth, and are refused otherwise |
| RowCodec.ValueBack | crates/neo4r-protocol/src/lib.rs:531-595 | Every value outside properties comes back unless such a vector stands inside it; then it is refused |
| RowCodec.SpreadingFails | crates/neo4r-protocol/src/lib.rs:364-391 | One such vector anywhere among the properties makes the whole list unreadable |
| RowText.HexRoundTrip | crates/neo4r-protocol/src/lib.rs:393-414 | Hex decoding inverts hex encoding |
| RowText.HexEncode | crates/neo4r-protocol/src/lib.rs:393-401 | The loop writes two digits per byte |
| RowText.HexDecode | crates/neo4r-protocol/src/lib.rs:403-414 | The loop decodes pairs of digits and refuses odd lengths and other characters |
| RowText.SignedRoundTrip | crates/neo4r-protocol/src/lib.rs:557-560 | Decimal integers come back, the smallest i64 included |
| Proposals.CommittedIndicesUnique | crates/neo4r-db/src/consensus.rs:91-199 | Over every interleaving of allocations, publications, rollbacks and appends, two committed proposals never share an index |
| Proposals.CommitBelowNext | crates/neo4r-db/src/consensus.rs:137-183 | Over every interleaving the commit index stays below the next index and never falls |
| Proposals.CommittedStays | crates/neo4r-db/src/consensus.rs:137-147 | A committed proposal keeps its index for good |
| Proposals.StepKeepsInv | crates/neo4r-db/src/consensus.rs:91-183 | Every step keeps the allocation invariant |
| Proposals.SaturationRepeats | crates/neo4r-db/src/consensus.rs:91-118 | Two allocations in a row give one index exactly at the largest u64 |
| Proposals.RollbackExactly | crates/neo4r-db/src/consensus.rs:120-135 | An index is given back exactly when it was the last taken, in this term, and is not committed |
| Proposals.CommitRaises | crates/neo4r-db/src/consensus.rs:137-147 | A commit raises term, next and commit index just as far as the entry needs |
| Proposals.AppendExactly | crates/neo4r-db/src/consensus.rs:149-184 | An append is refused, changing nothing, exactly when its term is older or its index leaves a gap; otherwise commit reaches it and next moves by one exactly when it was met |
| Proposals.CommittedWasCarried | crates/neo4r-db/src/consensus.rs:149-184 | Over every run of appends every index up to the commit index was carried by an accepted append |
| Proposals.StaticPrimaryShardReplication.AllocateEntry | crates/neo4r-db/src/consensus.rs:91-118 | Refused off the primary; otherwise the next index is taken |
| Proposals.StaticPrimaryShardReplication.RollbackProposal | crates/neo4r-db/src/consensus.rs:120-135 | The index is given back only if nothing was allocated or committed behind it |
| Proposals.StaticPrimaryShardReplication.MarkEntryCommitted | crates/neo4r-db/src/consensus.rs:137-147 | Term, next and commit index become the larger values |
| Proposals.StaticPrimaryShardReplication.AppendReplicated | crates/neo4r-db/src/consensus.rs:149-184 | Old terms and gaps are refused; no other shard changes |
| Proposals.StaticPrimaryShardReplication.Propose | crates/neo4r-db/src/consensus.rs:187-199 | A proposal alone commits its index when published and leaves the shard as it was when not |
| PeerCycle.WouldCreateCycle | crates/neo4r-server/src/peer_store.rs:359-389 | Terminates, and is true exactly when the pointer is another server and its chain reaches the server or revisits one |
| PeerCycle.RunAcyclic | crates/neo4r-server/src/peer_store.rs:315-338 | Over every run of checked registrations and unregistrations the pointer graph has no cycle longer than a self-loop |
| PeerCycle.RegisterKeepsAcyclic | crates/neo4r-server/src/peer_store.rs:315-326 | A registration the check allows creates no cycle |
| PeerCycle.RegisterAcyclicExactly | crates/neo4r-server/src/peer_store.rs:315-326 | Registering a pointer in a graph without cycles keeps it so exactly when the pointer's chain does not reach the server, or it is a self-pointer |
| PeerCycle.ReturnsExactly | crates/neo4r-server/src/peer_store.rs:372-388 | Without cycles the walk returns true exactly when the chain reaches the server or comes to a server that points at itself |
| PeerCycle.FalseAlarmExactly | crates/neo4r-server/src/peer_store.rs:359-389 | Without cycles the check refuses a pointer that would close none exactly when its chain comes to a self-pointing server without meeting the one being registered |
| PeerCycle.FalseAlarmInRuns | crates/neo4r-server/src/peer_store.rs:359-389 | The same in every state of every checked run |
| PeerCycle.SelfPointerRefused | crates/neo4r-server/src/peer_store.rs:359-389 | One checked registration, of a self-pointer, after which the check refuses a harmless pointer to it |
| PeerCycle.ValidateRecord | crates/neo4r-server/src/peer_store.rs:509-524 | The loop accepts a record exactly when its four text fields are non-empty and free of tab and line characters |
| PeerCycle.UnregisterKeepsAcyclic | crates/neo4r-server/src/peer_store.rs:328-338 | An unregistration creates none |
| PeerCycle.ReplicationPeerIdentityStore.Register | crates/neo4r-server/src/peer_store.rs:315-326 | An invalid record is refused and changes nothing; a valid one replaces exactly the server's identity, and an acyclic store stays so exactly when the pointer's chain does not reach the server |
| PeerCycle.ReplicationPeerIdentityStore.Unregister | crates/neo4r-server/src/peer_store.rs:328-338 | Exactly the server's identity goes, and an acyclic store stays so |
| PeerCycle.ReplicationPeerIdentityStore.ChecksCycle | crates/neo4r-server/src/peer_store.rs:359-389 | The check on the stored pointers answers as specified |

## Left out

- Leader leases, the read index and wall-clock time: they depend on real clocks.
- Bootstrap leadership, leader transfer and pre-vote: they bypass or only precede the elections modelled here.
- Membership changes during a run: quorum overlap of the phases is proved, runs have a fixed membership.
- Errors of saving term and vote: a save either happens with the call or the call did not happen.
- Transports, the replication pump, retries, metrics and snapshot chunking.
- RocksDB, fsync, rename and the directory swap of a log truncation: no crash atomicity is claimed.
- The hybrid clock: entry timestamps are data.
- Cypher parsing and execution, vector search, web, authentication, tenants, CLI and SDKs.
- The simple file stores (checkpoint, commit, cluster, catalog, membership, transaction): easy repeats of the codec results.
- Frames, query payloads, result paging and the command-line value text of the wire protocol.
- Error messages: errors are kinds, without their text.
- The storage error of a read that meets a record that does not decode: reads are modelled on decodable records.
- Vectors and maps longer than 2^32: the length field is modelled with its truncation and the round trips exclude them.
- SegmentedLog.SegmentedShardLog.TruncateFrom: the intermediate directory and its swap are one assignment.
- Proposals.StaticPrimaryShardReplication.Propose: the publisher's answer is a parameter, and the entry is its term and index.
- PeerCycle.ReplicationPeerIdentityStore.Register: the file behind the store and its errors are not modelled.
