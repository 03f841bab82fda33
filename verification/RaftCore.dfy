/** The mutable Raft state of one shard on one server, proved against RaftState. */
module RaftCoreModel {
  import opened Basics
  import opened Model
  import opened Membership
  import opened RaftState

  /** The recorded match index of every voter, largest first. */
  ghost predicate Descending(values: seq<LogIndex>) {
    forall i, j :: 0 <= i < j < |values| ==> values[i] >= values[j]
  }

  /** Exactly the values recorded for `voters`, a missing record counting as zero. */
  ghost predicate ValuesOf(values: seq<LogIndex>, voters: set<ServerId>, matches: map<ServerId, LogIndex>) {
    && (forall v :: v in voters ==> GetOr(matches, v, 0) in values)
    && (forall x :: x in values ==> exists v :: v in voters && GetOr(matches, v, 0) == x)
  }

  /** Put `x` before the first value that is smaller. */
  method InsertDescending(values: seq<LogIndex>, x: LogIndex) returns (r: seq<LogIndex>)
    requires Descending(values)
    ensures Descending(r) && forall y :: y in r <==> y == x || y in values
  {
    var i := 0;
    while i < |values| && values[i] >= x
      invariant 0 <= i <= |values|
      invariant forall j :: 0 <= j < i ==> values[j] >= x
    {
      i := i + 1;
    }
    r := values[..i] + [x] + values[i..];
    InsertedOrder(values, x, i, r);
    InsertedElements(values, x, i, r);
  }

  ghost predicate Inserted(values: seq<LogIndex>, x: LogIndex, i: nat, r: seq<LogIndex>) {
    && i <= |values| && |r| == |values| + 1 && r[i] == x
    && (forall j :: 0 <= j < i ==> r[j] == values[j])
    && (forall j :: i < j < |r| ==> r[j] == values[j - 1])
  }

  lemma InsertedOrder(values: seq<LogIndex>, x: LogIndex, i: nat, r: seq<LogIndex>)
    requires Descending(values) && Inserted(values, x, i, r)
    requires (i > 0 ==> values[i - 1] >= x) && (i < |values| ==> values[i] < x)
    ensures Descending(r)
  {
  }

  lemma InsertedElements(values: seq<LogIndex>, x: LogIndex, i: nat, r: seq<LogIndex>)
    requires Inserted(values, x, i, r)
    ensures forall y :: y in r <==> y == x || y in values
  {
    forall y | y in values
      ensures y in r
    {
      var j :| 0 <= j < |values| && values[j] == y;
      assert r[if j < i then j else j + 1] == y;
    }
  }

  method SortedMatches(voters: set<ServerId>, matches: map<ServerId, LogIndex>) returns (values: seq<LogIndex>)
    ensures Descending(values) && ValuesOf(values, voters, matches)
  {
    values := [];
    var todo := voters;
    while todo != {}
      invariant todo <= voters && Descending(values) && ValuesOf(values, voters - todo, matches)
      decreases |todo|
    {
      var v :| v in todo;
      var x, before, done := GetOr(matches, v, 0), values, voters - todo;
      values := InsertDescending(values, x);
      todo := todo - {v};
      ValuesOfInsert(before, values, done, v, matches);
      assert voters - todo == done + {v};
    }
    assert voters - todo == voters;
  }

  lemma ValuesOfInsert(before: seq<LogIndex>, after: seq<LogIndex>, voters: set<ServerId>, v: ServerId,
      matches: map<ServerId, LogIndex>)
    requires ValuesOf(before, voters, matches) && forall y :: y in after <==> y == GetOr(matches, v, 0) || y in before
    ensures ValuesOf(after, voters + {v}, matches)
  {
    var x := GetOr(matches, v, 0);
    forall y | y in after
      ensures exists w :: w in voters + {v} && GetOr(matches, w, 0) == y
    {
      if y in before {
        var w :| w in voters && GetOr(matches, w, 0) == y;
        assert w in voters + {v};
      } else {
        assert y == x && v in voters + {v};
      }
    }
  }

  /** The smallest listed value that still reaches `i`. */
  lemma {:induction false} SmallestReaching(values: seq<LogIndex>, i: LogIndex, x: LogIndex) returns (y: LogIndex)
    requires x in values && x >= i
    ensures y in values && y >= i
    ensures forall z :: z in values && z >= i ==> z >= y
    decreases |values|
  {
    var rest := values[1..];
    assert forall z :: z in values <==> z == values[0] || z in rest;
    if exists z :: z in rest && z >= i {
      var z :| z in rest && z >= i;
      y := SmallestReaching(rest, i, z);
      if i <= values[0] < y { y := values[0]; }
    } else {
      y := x;
    }
  }

  /** No quorum at any listed value above `q` means no quorum at any index above `q`. */
  lemma NoQuorumBetween(s: Server, values: seq<LogIndex>, q: LogIndex, i: LogIndex)
    requires ValuesOf(values, AllVoters(s.membership), s.matches)
    requires forall x :: x in values && x > q ==> !HasQuorum(s.membership, MatchedVoters(s, x))
    requires i > q
    ensures !HasQuorum(s.membership, MatchedVoters(s, i))
  {
    var above := MatchedVoters(s, i);
    if HasQuorum(s.membership, above) {
      QuorumGrows(s.membership, above, above);
      var v :| v in above;
      var y := SmallestReaching(values, i, GetOr(s.matches, v, 0));
      QuorumGrows(s.membership, above, MatchedVoters(s, y));
    }
  }

  lemma ScannedAbove(s: Server, values: seq<LogIndex>, k: nat, q: LogIndex, x: LogIndex)
    requires Descending(values) && k <= |values| && x in values && x > q
    requires forall j :: 0 <= j < k ==> !HasQuorum(s.membership, MatchedVoters(s, values[j]))
    requires k < |values| ==> q == values[k]
    ensures !HasQuorum(s.membership, MatchedVoters(s, x))
  {
    var j :| 0 <= j < |values| && values[j] == x;
    assert j < k;
  }

  /** The first value of a descending list that a quorum reaches is the quorum index. */
  lemma ScanFinds(s: Server, values: seq<LogIndex>, k: nat, q: LogIndex)
    requires Descending(values) && ValuesOf(values, AllVoters(s.membership), s.matches) && k <= |values|
    requires forall j :: 0 <= j < k ==> !HasQuorum(s.membership, MatchedVoters(s, values[j]))
    requires if k == |values| then q == 0 else q == values[k] && HasQuorum(s.membership, MatchedVoters(s, q))
    ensures IsQuorumIndex(s, q)
  {
    forall x | x in values && x > q
      ensures !HasQuorum(s.membership, MatchedVoters(s, x))
    {
      ScannedAbove(s, values, k, q, x);
    }
    forall i: LogIndex | i > q
      ensures !HasQuorum(s.membership, MatchedVoters(s, i))
    {
      NoQuorumBetween(s, values, q, i);
    }
  }

  class RaftCore {
    const id: ServerId
    const shard: ShardId
    var term: Term
    var votedFor: Option<ServerId>
    var log: seq<LogEntry>
    var snapshot: Option<SnapshotMeta>
    var commit: LogIndex
    var role: Role
    var leaderId: Option<ServerId>
    var membership: Membership
    var matches: map<ServerId, LogIndex>
    var votes: set<ServerId>

    function State(): Server
      reads this
    {
      Server(id, shard, term, votedFor, log, snapshot, commit, role, leaderId, membership, matches, votes)
    }

    constructor (id: ServerId, shard: ShardId, membership: Membership, term: Term, votedFor: Option<ServerId>)
      ensures State() == Server(id, shard, term, votedFor, [], None, 0, Follower, None, membership, map[], {})
    {
      this.id, this.shard, this.membership := id, shard, membership;
      this.term, this.votedFor := term, votedFor;
      log, snapshot, commit := [], None, 0;
      role, leaderId, matches, votes := Follower, None, map[], {};
    }

    /** A fresh server on the saved term and vote; one that is no member is refused. */
    static method OpenWithMembership(
      id: ServerId, shard: ShardId, membership: Membership, term: Term, votedFor: Option<ServerId>)
      returns (r: Result<RaftCore, RaftError>)
      ensures match Open(id, shard, membership, term, votedFor, [], None, 0)
              case Err(e) => r == Err(e)
              case Ok(s) => r.Ok? && fresh(r.value) && r.value.State() == s
    {
      if !IsMember(membership, id) {
        return Err(NotMember);
      }
      var raft := new RaftCore(id, shard, membership, term, votedFor);
      r := Ok(raft);
    }

    /** A restart from durable state; a foreign entry or snapshot is refused. */
    static method OpenWithLogAndSnapshot(
      id: ServerId, shard: ShardId, membership: Membership, term: Term, votedFor: Option<ServerId>,
      entries: seq<LogEntry>, meta: Option<SnapshotMeta>, commit: LogIndex)
      returns (r: Result<RaftCore, RaftError>)
      ensures match Open(id, shard, membership, term, votedFor, entries, meta, commit)
              case Err(e) => r == Err(e)
              case Ok(s) => r.Ok? && fresh(r.value) && r.value.State() == s
    {
      var created := OpenWithMembership(id, shard, membership, term, votedFor);
      if created.Err? {
        return created;
      }
      var raft := created.value;
      ghost var blank := raft.State();
      for i := 0 to |entries|
        invariant fresh(raft) && raft.State() == blank.(log := entries[..i])
        invariant forall j :: 0 <= j < i ==> entries[j].shardId == shard
      {
        if entries[i].shardId != shard {
          return Err(WrongShard);
        }
        raft.log := raft.log + [entries[i]];
      }
      assert entries[..|entries|] == entries;
      raft.log := SortByIndex(raft.log);
      raft.commit := Min(commit, LastIndex(raft.State()));
      if meta.Some? {
        if meta.value.shardId != shard {
          return Err(WrongShard);
        }
        raft.snapshot := meta;
        raft.log := Above(raft.log, meta.value.lastIndex);
        raft.commit := Max(raft.commit, SnapIndex(raft.State()));
      }
      r := Ok(raft);
    }

    // ----- Elections -----

    method StepDown(newTerm: Term)
      modifies this
      ensures State() == RaftState.StepDown(old(State()), newTerm)
    {
      role, leaderId, votes := Follower, None, {};
      if newTerm > term {
        term, votedFor := newTerm, None;
      }
    }

    method StartElection() returns (request: VoteRequest)
      modifies this
      ensures (State(), request) == RaftState.StartElection(old(State()))
    {
      role, leaderId := Candidate, None;
      term, votedFor := SatInc(term), Some(id);
      votes := {id};
      request := VoteRequest(term, id, LastIndex(State()), LastTerm(State()));
    }

    method BecomeLeader()
      modifies this
      ensures State() == RaftState.BecomeLeader(old(State()))
    {
      role, leaderId, votes := Leader, Some(id), {};
      matches := map[id := LastIndex(State())];
    }

    method RecordVoteResponse(voter: ServerId, response: VoteResponse) returns (won: bool)
      modifies this
      ensures (State(), won) == RecordVote(old(State()), voter, response)
    {
      if response.term > term {
        StepDown(response.term);
        return false;
      }
      if role != Candidate || response.term != term {
        return false;
      }
      if response.granted {
        votes := votes + {voter};
      }
      won := HasQuorum(membership, votes);
      if won {
        BecomeLeader();
      }
    }

    method RequestVote(request: VoteRequest) returns (response: VoteResponse)
      modifies this
      ensures (State(), response) == RaftState.RequestVote(old(State()), request)
    {
      if request.term < term {
        return VoteResponse(term, false);
      }
      if request.term > term {
        StepDown(request.term);
      }
      var canVote := votedFor.None? || votedFor == Some(request.candidate);
      var granted := canVote && LogUpToDate(State(), request.lastIndex, request.lastTerm);
      if granted {
        votedFor := Some(request.candidate);
      }
      response := VoteResponse(term, granted);
    }

    // ----- Replication: follower side -----

    method TruncateFrom(index: LogIndex)
      modifies this`log, this`commit
      ensures State() == RaftState.TruncateFrom(old(State()), index)
    {
      log := Below(log, index);
      commit := Max(Min(commit, SatDec(index)), SnapIndex(State()));
    }

    /** The loop that `append_entries` runs on both of its accepting paths, and what follows it. */
    method TakeEntries(request: AppendRequest) returns (outcome: AppendOutcome)
      modifies this`log, this`commit
      ensures (State(), outcome) == AbsorbAll(old(State()), request)
    {
      var i := 0;
      while i < |request.entries|
        invariant 0 <= i <= |request.entries|
        invariant Absorb(old(State()), request.entries) == Absorb(State(), request.entries[i..])
        invariant AllButLogUnchanged(old(State()), State())
      {
        var e := request.entries[i];
        assert request.entries[i..][0] == e && request.entries[i..][1..] == request.entries[i + 1..];
        if e.shardId != shard {
          return Err(WrongShard);
        }
        if e.index > SnapIndex(State()) {
          var existing := EntryAt(log, e.index);
          if existing.None? {
            log := log + [e];
          } else if existing.value.term != e.term {
            if e.index <= commit {
              return Refusal(State(), Some(e.index), Some(existing.value.term));
            }
            TruncateFrom(e.index);
            log := log + [e];
          }
        }
        i := i + 1;
      }
      assert request.entries[i..] == [];
      log := SortByIndex(log);
      if request.leaderCommit > commit {
        commit := Min(request.leaderCommit, LastIndex(State()));
      }
      outcome := Ok(AppendResponse(term, true, LastIndex(State()), None, None));
    }

    static ghost predicate AllButLogUnchanged(s: Server, s': Server) {
      s' == s.(log := s'.log, commit := s'.commit)
    }

    method AppendEntries(request: AppendRequest) returns (outcome: AppendOutcome)
      modifies this
      ensures (State(), outcome) == RaftState.AppendEntries(old(State()), request)
    {
      if request.term < term {
        return Refusal(State(), Some(SatInc(LastIndex(State()))), Some(term));
      }
      if request.term > term || role != Follower {
        StepDown(request.term);
      }
      leaderId := Some(request.leader);
      if request.prevIndex > 0 {
        var previous := EntryAt(log, request.prevIndex);
        if previous.None? {
          if !(request.prevIndex == SnapIndex(State()) && request.prevTerm == SnapTerm(State())) {
            return Refusal(State(), Some(SatInc(LastIndex(State()))), None);
          }
        } else if previous.value.term != request.prevTerm {
          var conflictTerm := previous.value.term;
          if request.prevIndex <= commit {
            return Refusal(State(), Some(request.prevIndex), Some(conflictTerm));
          }
          var first := FirstOfTerm(log, conflictTerm);
          TruncateFrom(request.prevIndex);
          return Refusal(State(), Some(if first.Some? then first.value else request.prevIndex), Some(conflictTerm));
        }
      }
      outcome := TakeEntries(request);
    }

    // ----- Snapshots -----

    method InstallSnapshot(request: SnapshotRequest) returns (outcome: Result<SnapshotResponse, RaftError>)
      modifies this
      ensures (State(), outcome) == RaftState.InstallSnapshot(old(State()), request)
    {
      if request.term < term {
        return Ok(SnapshotResponse(term, false, SnapIndex(State())));
      }
      if request.meta.shardId != shard {
        return Err(WrongShard);
      }
      if request.term > term || role != Follower {
        StepDown(request.term);
      }
      leaderId := Some(request.leader);
      if request.meta.lastIndex >= SnapIndex(State()) {
        snapshot := Some(request.meta);
        log := Above(log, SnapIndex(State()));
        commit := Max(commit, SnapIndex(State()));
      }
      outcome := Ok(SnapshotResponse(term, true, SnapIndex(State())));
    }

    method CompactLogToSnapshot(meta: SnapshotMeta) returns (outcome: Result<(), RaftError>)
      modifies this
      ensures (State(), outcome) == CompactTo(old(State()), meta)
    {
      if meta.shardId != shard {
        return Err(WrongShard);
      }
      if meta.lastIndex > commit {
        return Err(UncommittedSnapshot);
      }
      snapshot := Some(meta);
      log := Above(log, SnapIndex(State()));
      outcome := Ok(());
    }

    // ----- Replication: leader side -----

    /** The descending scan over recorded matches: it stops at the largest quorum index. */
    method FindQuorumIndex() returns (quorumIndex: LogIndex)
      ensures IsQuorumIndex(State(), quorumIndex)
    {
      var matched := SortedMatches(AllVoters(membership), matches);
      var k := 0;
      while k < |matched|
        invariant 0 <= k <= |matched|
        invariant forall j :: 0 <= j < k ==> !HasQuorum(membership, MatchedVoters(State(), matched[j]))
      {
        if HasQuorum(membership, MatchedVoters(State(), matched[k])) {
          break;
        }
        k := k + 1;
      }
      quorumIndex := if k < |matched| then matched[k] else 0;
      ScanFinds(State(), matched, k, quorumIndex);
    }

    method AdvanceLeaderCommitIndex()
      modifies this`commit
      ensures State() == AdvanceCommit(old(State()))
    {
      if role != Leader {
        return;
      }
      var quorumIndex := FindQuorumIndex();
      QuorumIndexUnique(State(), quorumIndex);
      if quorumIndex <= commit {
        return;
      }
      var entry := EntryAt(log, quorumIndex);
      if entry.Some? && entry.value.term == term {
        commit := quorumIndex;
      }
    }

    method AppendLocalEntry(command: Command) returns (outcome: Result<LogEntry, RaftError>)
      modifies this
      ensures (State(), outcome) == AppendLocal(old(State()), command)
    {
      if role != Leader {
        return Err(NotLeader);
      }
      var entry := PlainEntry(shard, term, SatInc(LastIndex(State())), command);
      log := log + [entry];
      matches := matches[id := entry.index];
      AdvanceLeaderCommitIndex();
      outcome := Ok(entry);
    }

    method AppendExistingLocalEntry(entry: LogEntry) returns (outcome: Result<LogEntry, RaftError>)
      modifies this
      ensures (State(), outcome) == AppendExisting(old(State()), entry)
    {
      if role != Leader {
        return Err(NotLeader);
      }
      if entry.shardId != shard {
        return Err(WrongShard);
      }
      if entry.index != SatInc(LastIndex(State())) {
        return Err(UnexpectedIndex);
      }
      if entry.term != term {
        return Err(TermConflict);
      }
      log := log + [entry];
      matches := matches[id := entry.index];
      AdvanceLeaderCommitIndex();
      outcome := Ok(entry);
    }

    method RecordReplicationMatch(server: ServerId, matchIndex: LogIndex) returns (outcome: Result<LogIndex, RaftError>)
      modifies this
      ensures (State(), outcome) == RecordMatch(old(State()), server, matchIndex)
    {
      if role != Leader {
        return Err(NotLeader);
      }
      if !IsMember(membership, server) {
        return Err(NotMember);
      }
      matches := matches[server := matchIndex];
      AdvanceLeaderCommitIndex();
      outcome := Ok(commit);
    }
  }
}
