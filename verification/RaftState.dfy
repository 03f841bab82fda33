/**
 * The state of one Raft group on one server and what each `RaftCore` operation does to it,
 * as functions from state to state. The class in RaftCore.dfy is proved against these.
 */
module RaftState {
  import opened Basics
  import opened Model
  import opened Membership

  datatype Role = Follower | Candidate | Leader

  datatype SnapshotMeta = SnapshotMeta(shardId: ShardId, lastTerm: Term, lastIndex: LogIndex)

  datatype Server = Server(
    id: ServerId,
    shard: ShardId,
    term: Term,
    votedFor: Option<ServerId>,
    log: seq<LogEntry>,
    snapshot: Option<SnapshotMeta>,
    commit: LogIndex,
    role: Role,
    leaderId: Option<ServerId>,
    membership: Membership,
    matches: map<ServerId, LogIndex>,
    votes: set<ServerId>)

  datatype VoteRequest = VoteRequest(term: Term, candidate: ServerId, lastIndex: LogIndex, lastTerm: Term)
  datatype VoteResponse = VoteResponse(term: Term, granted: bool)
  datatype AppendRequest = AppendRequest(
    term: Term, leader: ServerId, prevIndex: LogIndex, prevTerm: Term,
    entries: seq<LogEntry>, leaderCommit: LogIndex)
  datatype AppendResponse = AppendResponse(
    term: Term, success: bool, matchIndex: LogIndex,
    conflictIndex: Option<LogIndex>, conflictTerm: Option<Term>)
  datatype SnapshotRequest = SnapshotRequest(term: Term, leader: ServerId, meta: SnapshotMeta)
  datatype SnapshotResponse = SnapshotResponse(term: Term, success: bool, lastIncluded: LogIndex)

  datatype RaftError =
    | WrongShard
    | NotLeader
    | NotMember
    | UncommittedSnapshot
    | UnexpectedIndex
    | TermConflict

  // ----- Reads -----

  /** The first entry carrying index `i`, as `iter().find(..)`. */
  function EntryAt(log: seq<LogEntry>, i: LogIndex): (r: Option<LogEntry>)
    ensures r.Some? ==> r.value.index == i
  {
    if log == [] then None
    else if log[0].index == i then Some(log[0])
    else EntryAt(log[1..], i)
  }

  /** The index of the first entry of term `t`. */
  function FirstOfTerm(log: seq<LogEntry>, t: Term): Option<LogIndex> {
    if log == [] then None
    else if log[0].term == t then Some(log[0].index)
    else FirstOfTerm(log[1..], t)
  }

  function SnapIndex(s: Server): LogIndex {
    if s.snapshot.Some? then s.snapshot.value.lastIndex else 0
  }

  function SnapTerm(s: Server): Term {
    if s.snapshot.Some? then s.snapshot.value.lastTerm else 0
  }

  function LastIndex(s: Server): LogIndex {
    if s.log == [] then SnapIndex(s) else s.log[|s.log| - 1].index
  }

  function LastTerm(s: Server): Term {
    if s.log == [] then SnapTerm(s) else s.log[|s.log| - 1].term
  }

  /** A log ending in (`index`, `term`) is at least as complete as this server's. */
  predicate LogUpToDate(s: Server, index: LogIndex, term: Term) {
    term > LastTerm(s) || (term == LastTerm(s) && index >= LastIndex(s))
  }

  // ----- Log surgery -----

  /** Keep the entries with index below `i`, in order. */
  function Below(log: seq<LogEntry>, i: LogIndex): seq<LogEntry> {
    if log == [] then []
    else (if log[0].index < i then [log[0]] else []) + Below(log[1..], i)
  }

  /** Keep the entries with index above `i`, in order. */
  function Above(log: seq<LogEntry>, i: LogIndex): seq<LogEntry> {
    if log == [] then []
    else (if log[0].index > i then [log[0]] else []) + Above(log[1..], i)
  }

  /** Insert behind every entry whose index is not larger: the stable insertion step. */
  function InsertByIndex(sorted: seq<LogEntry>, e: LogEntry): seq<LogEntry> {
    if sorted == [] || sorted[|sorted| - 1].index <= e.index then sorted + [e]
    else InsertByIndex(sorted[..|sorted| - 1], e) + [sorted[|sorted| - 1]]
  }

  /** `sort_by_key(|e| e.index)`: a stable sort. */
  function SortByIndex(log: seq<LogEntry>): seq<LogEntry> {
    if log == [] then [] else InsertByIndex(SortByIndex(log[..|log| - 1]), log[|log| - 1])
  }

  /** Drop the suffix from index `i`; the commit index follows but never below the snapshot. */
  function TruncateFrom(s: Server, i: LogIndex): Server {
    s.(log := Below(s.log, i), commit := Max(Min(s.commit, SatDec(i)), SnapIndex(s)))
  }

  // ----- Elections -----

  function StepDown(s: Server, term: Term): Server {
    var quiet := s.(role := Follower, leaderId := None, votes := {});
    if term > s.term then quiet.(term := term, votedFor := None) else quiet
  }

  function StartElection(s: Server): (Server, VoteRequest) {
    var c := s.(role := Candidate, leaderId := None, term := SatInc(s.term),
                votedFor := Some(s.id), votes := {s.id});
    (c, VoteRequest(c.term, c.id, LastIndex(c), LastTerm(c)))
  }

  function BecomeLeader(s: Server): Server {
    s.(role := Leader, leaderId := Some(s.id), votes := {}, matches := map[s.id := LastIndex(s)])
  }

  function RecordVote(s: Server, voter: ServerId, resp: VoteResponse): (Server, bool) {
    if resp.term > s.term then (StepDown(s, resp.term), false)
    else if s.role != Candidate || resp.term != s.term then (s, false)
    else
      var counted := if resp.granted then s.(votes := s.votes + {voter}) else s;
      if HasQuorum(s.membership, counted.votes) then (BecomeLeader(counted), true)
      else (counted, false)
  }

  function RequestVote(s: Server, req: VoteRequest): (Server, VoteResponse) {
    if req.term < s.term then (s, VoteResponse(s.term, false))
    else
      var s1 := if req.term > s.term then StepDown(s, req.term) else s;
      var granted := (s1.votedFor.None? || s1.votedFor == Some(req.candidate))
                     && LogUpToDate(s1, req.lastIndex, req.lastTerm);
      var s2 := if granted then s1.(votedFor := Some(req.candidate)) else s1;
      (s2, VoteResponse(s2.term, granted))
  }

  // ----- Replication: follower side -----

  type AppendOutcome = Result<AppendResponse, RaftError>

  function Refusal(s: Server, index: Option<LogIndex>, term: Option<Term>): AppendOutcome {
    Ok(AppendResponse(s.term, false, LastIndex(s), index, term))
  }

  /**
   * Take the request's entries one by one. The second component is the early
   * return of the loop, if it takes one.
   */
  function Absorb(s: Server, entries: seq<LogEntry>): (Server, Option<AppendOutcome>)
    decreases |entries|
  {
    if entries == [] then (s, None)
    else
      var e := entries[0];
      if e.shardId != s.shard then (s, Some(Err(WrongShard)))
      else if e.index <= SnapIndex(s) then Absorb(s, entries[1..])
      else
        match EntryAt(s.log, e.index)
        case None => Absorb(s.(log := s.log + [e]), entries[1..])
        case Some(existing) =>
          if existing.term == e.term then Absorb(s, entries[1..])
          else if e.index <= s.commit then (s, Some(Refusal(s, Some(e.index), Some(existing.term))))
          else
            var cut := TruncateFrom(s, e.index);
            Absorb(cut.(log := cut.log + [e]), entries[1..])
  }

  /** After the loop: sort, follow the leader's commit index, acknowledge. */
  function Settle(s: Server, leaderCommit: LogIndex): (Server, AppendOutcome) {
    var sorted := s.(log := SortByIndex(s.log));
    var done := if leaderCommit > s.commit
                then sorted.(commit := Min(leaderCommit, LastIndex(sorted))) else sorted;
    (done, Ok(AppendResponse(done.term, true, LastIndex(done), None, None)))
  }

  function AbsorbAll(s: Server, req: AppendRequest): (Server, AppendOutcome) {
    var (s1, early) := Absorb(s, req.entries);
    if early.Some? then (s1, early.value) else Settle(s1, req.leaderCommit)
  }

  /** Adopt the sender as leader of its term. */
  function Follow(s: Server, term: Term, leader: ServerId): Server {
    (if term > s.term || s.role != Follower then StepDown(s, term) else s).(leaderId := Some(leader))
  }

  function AppendEntries(s: Server, req: AppendRequest): (Server, AppendOutcome) {
    if req.term < s.term then
      (s, Refusal(s, Some(SatInc(LastIndex(s))), Some(s.term)))
    else
      var f := Follow(s, req.term, req.leader);
      if req.prevIndex == 0 then AbsorbAll(f, req)
      else
        match EntryAt(f.log, req.prevIndex)
        case None =>
          if req.prevIndex == SnapIndex(f) && req.prevTerm == SnapTerm(f) then AbsorbAll(f, req)
          else (f, Refusal(f, Some(SatInc(LastIndex(f))), None))
        case Some(previous) =>
          if previous.term == req.prevTerm then AbsorbAll(f, req)
          else if req.prevIndex <= f.commit then
            (f, Refusal(f, Some(req.prevIndex), Some(previous.term)))
          else
            var cut := TruncateFrom(f, req.prevIndex);
            var first := FirstOfTerm(f.log, previous.term);
            (cut, Refusal(cut, Some(if first.Some? then first.value else req.prevIndex), Some(previous.term)))
  }

  // ----- Snapshots -----

  function Compacted(s: Server, meta: SnapshotMeta): Server {
    s.(snapshot := Some(meta), log := Above(s.log, meta.lastIndex))
  }

  function InstallSnapshot(s: Server, req: SnapshotRequest): (Server, Result<SnapshotResponse, RaftError>) {
    if req.term < s.term then (s, Ok(SnapshotResponse(s.term, false, SnapIndex(s))))
    else if req.meta.shardId != s.shard then (s, Err(WrongShard))
    else
      var f := Follow(s, req.term, req.leader);
      var done := if req.meta.lastIndex >= SnapIndex(f)
                  then Compacted(f, req.meta).(commit := Max(f.commit, req.meta.lastIndex)) else f;
      (done, Ok(SnapshotResponse(done.term, true, SnapIndex(done))))
  }

  function CompactTo(s: Server, meta: SnapshotMeta): (Server, Result<(), RaftError>) {
    if meta.shardId != s.shard then (s, Err(WrongShard))
    else if meta.lastIndex > s.commit then (s, Err(UncommittedSnapshot))
    else (Compacted(s, meta), Ok(()))
  }

  // ----- Replication: leader side -----

  /** The voters whose recorded match index reaches `i`; a missing record counts as zero. */
  function MatchedVoters(s: Server, i: LogIndex): set<ServerId> {
    set v | v in AllVoters(s.membership) && GetOr(s.matches, v, 0) >= i
  }

  /** `q` is the largest index that a quorum of voters has matched, or zero if there is none. */
  ghost predicate IsQuorumIndex(s: Server, q: LogIndex) {
    && (q == 0 || HasQuorum(s.membership, MatchedVoters(s, q)))
    && forall i: LogIndex :: i > q ==> !HasQuorum(s.membership, MatchedVoters(s, i))
  }

  ghost function QuorumIndex(s: Server): (q: LogIndex)
    ensures IsQuorumIndex(s, q)
  {
    QuorumIndexExists(s, U64_MAX);
    var q: LogIndex :| IsQuorumIndex(s, q);
    q
  }

  lemma {:induction false} QuorumIndexExists(s: Server, n: LogIndex)
    requires forall i: LogIndex :: i > n ==> !HasQuorum(s.membership, MatchedVoters(s, i))
    ensures exists q: LogIndex :: IsQuorumIndex(s, q)
    decreases n
  {
    if n == 0 || HasQuorum(s.membership, MatchedVoters(s, n)) {
      assert IsQuorumIndex(s, n);
    } else {
      QuorumIndexExists(s, n - 1);
    }
  }

  lemma QuorumIndexUnique(s: Server, q: LogIndex)
    requires IsQuorumIndex(s, q)
    ensures QuorumIndex(s) == q
  {
    var r := QuorumIndex(s);
    assert q > 0 ==> HasQuorum(s.membership, MatchedVoters(s, q));
    assert r > 0 ==> HasQuorum(s.membership, MatchedVoters(s, r));
  }

  /** Commit the quorum index if it moves forward and its entry is of the current term. */
  ghost function AdvanceCommit(s: Server): Server {
    if s.role != Leader then s
    else
      var q := QuorumIndex(s);
      if q <= s.commit then s
      else
        match EntryAt(s.log, q)
        case Some(e) => if e.term == s.term then s.(commit := q) else s
        case None => s
  }

  ghost function Pushed(s: Server, e: LogEntry): Server {
    AdvanceCommit(s.(log := s.log + [e], matches := s.matches[s.id := e.index]))
  }

  ghost function AppendLocal(s: Server, command: Command): (Server, Result<LogEntry, RaftError>) {
    if s.role != Leader then (s, Err(NotLeader))
    else
      var e := PlainEntry(s.shard, s.term, SatInc(LastIndex(s)), command);
      (Pushed(s, e), Ok(e))
  }

  ghost function AppendExisting(s: Server, e: LogEntry): (Server, Result<LogEntry, RaftError>) {
    if s.role != Leader then (s, Err(NotLeader))
    else if e.shardId != s.shard then (s, Err(WrongShard))
    else if e.index != SatInc(LastIndex(s)) then (s, Err(UnexpectedIndex))
    else if e.term != s.term then (s, Err(TermConflict))
    else (Pushed(s, e), Ok(e))
  }

  ghost function RecordMatch(s: Server, server: ServerId, index: LogIndex): (Server, Result<LogIndex, RaftError>) {
    if s.role != Leader then (s, Err(NotLeader))
    else if !IsMember(s.membership, server) then (s, Err(NotMember))
    else
      var s1 := AdvanceCommit(s.(matches := s.matches[server := index]));
      (s1, Ok(s1.commit))
  }

  // ----- Opening -----

  /** A restart: durable term, vote, log and snapshot; everything else starts over. */
  function Open(
    id: ServerId, shard: ShardId, membership: Membership, term: Term, votedFor: Option<ServerId>,
    log: seq<LogEntry>, snapshot: Option<SnapshotMeta>, commit: LogIndex): Result<Server, RaftError>
  {
    if !IsMember(membership, id) then Err(NotMember)
    else if exists e :: e in log && e.shardId != shard then Err(WrongShard)
    else
      var sorted := Server(id, shard, term, votedFor, SortByIndex(log), None, 0, Follower, None,
                           membership, map[], {});
      var s := sorted.(commit := Min(commit, LastIndex(sorted)));
      match snapshot
      case None => Ok(s)
      case Some(meta) =>
        if meta.shardId != shard then Err(WrongShard)
        else Ok(Compacted(s, meta).(commit := Max(s.commit, meta.lastIndex)))
  }
}
