/** Every event of a RaftCore cluster is a chain of protocol moves. */
module RaftSimulation {
  import opened Basics
  import opened Model
  import opened Membership
  import opened RaftState
  import opened RaftShape
  import opened RaftProtocol
  import opened RaftActions
  import opened RaftCluster

  /** The standing situation: server `s` is mirrored as peer `i` of a good protocol state. */
  ghost predicate At(p: Proto, shard: ShardId, i: ServerId, s: Server) {
    && Inv(p) && OneShard(p, shard) && i in p.peers
    && s.id == i && s.membership == p.members && s.shard == shard && Mirrors(s, p.peers[i])
  }

  /** The protocol can follow the server from `s` to `s'`, sending `sent`. */
  ghost predicate Follows'(p: Proto, shard: ShardId, i: ServerId, s': Server, sent: set<Message>, p': Proto) {
    Continues(p, p', shard, i) && At(p', shard, i, s') && sent <= p'.msgs
  }

  lemma Chain(a: Proto, b: Proto, c: Proto, shard: ShardId, i: ServerId, s': Server, sent: set<Message>, s'': Server,
      sent': set<Message>)
    requires Follows'(a, shard, i, s', sent, b) && Follows'(b, shard, i, s'', sent', c)
    ensures Follows'(a, shard, i, s'', sent + sent', c)
  {
    ContinuesTrans(a, b, c, shard, i);
  }

  lemma CommittedWeaker(p: Proto, term: Term, log: Log, c: nat, term': Term, c': nat)
    requires Committed(p, term, log, c) && term <= term' && c' <= c
    ensures Committed(p, term', log, c')
  {
    if c' > 0 {
      var t: Term, k: nat :| CoveredBy(p, term, log, c, t, k);
      assert CoveredBy(p, term', log, c', t, k);
    }
  }

  /** Moves that leave the log alone. */
  lemma FollowQuiet(p: Proto, shard: ShardId, i: ServerId, s: Server, q: Peer, sent: set<Message>, s': Server)
    requires At(p, shard, i, s) && QuietChange(p, i, q) && (forall m :: m in sent ==> MsgOk(p, m))
    requires s'.id == i && s'.membership == p.members && s'.shard == shard && Mirrors(s', q)
    ensures Follows'(p, shard, i, s', sent, Quiet(p, i, q, sent))
  {
    QuietKeepsInv(p, i, q, sent);
  }

  // ----- Stepping down -----

  ghost function Down(q: Peer, term: Term): Peer {
    if term > q.term then q.(term := term, vote := None, role := Follower, votes := {})
    else q.(role := Follower, votes := {})
  }

  lemma FollowStepDown(p: Proto, shard: ShardId, i: ServerId, s: Server, term: Term) returns (p': Proto)
    requires At(p, shard, i, s)
    ensures Follows'(p, shard, i, StepDown(s, term), {}, p')
  {
    var q := Down(p.peers[i], term);
    assert CommitOk(p, i);
    CommittedWeaker(p, p.peers[i].term, q.log, q.commit, q.term, q.commit);
    p' := Quiet(p, i, q, {});
    FollowQuiet(p, shard, i, s, q, {}, StepDown(s, term));
  }

  lemma FollowSame(p: Proto, shard: ShardId, i: ServerId, s: Server, s': Server)
    requires At(p, shard, i, s) && s' == s.(leaderId := s'.leaderId)
    ensures Follows'(p, shard, i, s', {}, p)
  {
    ContinuesRefl(p, shard, i);
  }

  lemma FollowLeader(p: Proto, shard: ShardId, i: ServerId, s: Server, term: Term, leader: ServerId) returns (p': Proto)
    requires At(p, shard, i, s) && term >= s.term
    ensures Follows'(p, shard, i, Follow(s, term, leader), {}, p')
    ensures p'.peers[i].role == Follower && p'.peers[i].term == term && p'.lead == p.lead && p'.msgs == p.msgs
    ensures p'.peers[i].log == p.peers[i].log && p'.peers[i].commit == p.peers[i].commit
  {
    var s' := Follow(s, term, leader);
    if term > s.term || s.role != Follower {
      var q := Down(p.peers[i], term);
      assert CommitOk(p, i);
      CommittedWeaker(p, p.peers[i].term, q.log, q.commit, q.term, q.commit);
      p' := Quiet(p, i, q, {});
      FollowQuiet(p, shard, i, s, q, {}, s');
    } else {
      p' := p;
      FollowSame(p, shard, i, s, s');
    }
  }

  // ----- Elections -----

  lemma FollowTimeout(p: Proto, shard: ShardId, i: ServerId, s: Server) returns (p': Proto)
    requires At(p, shard, i, s) && s.term < U64_MAX
    ensures Follows'(p, shard, i, StartElection(s).0, {AskVote(StartElection(s).1)}, p')
  {
    MirrorReads(p, i, s);
    p' := Campaign(p, i, s.term + 1);
    CampaignKeepsInv(p, i, s.term + 1);
  }

  lemma FollowGrant(p: Proto, shard: ShardId, i: ServerId, s: Server, ask: VoteRequest) returns (p': Proto)
    requires At(p, shard, i, s) && AskVote(ask) in p.msgs && ask.term == s.term
    requires s.votedFor.None? || s.votedFor == Some(ask.candidate)
    requires LogUpToDate(s, ask.lastIndex, ask.lastTerm)
    ensures Follows'(p, shard, i, s.(votedFor := Some(ask.candidate)), {VoteReply(i, ask.candidate, s.term, true)}, p')
  {
    MirrorReads(p, i, s);
    p' := CastVote(p, i, ask.candidate);
    CastVoteKeepsInv(p, i, ask);
    assert Continues(p, p', shard, i);
  }

  lemma FollowVoteRequest(p: Proto, shard: ShardId, i: ServerId, s: Server, ask: VoteRequest) returns (p': Proto)
    requires At(p, shard, i, s) && AskVote(ask) in p.msgs
    ensures var (s', resp) := RequestVote(s, ask);
            Follows'(p, shard, i, s', {VoteReply(i, ask.candidate, resp.term, resp.granted)}, p')
  {
    var (s', resp) := RequestVote(s, ask);
    var sent := {VoteReply(i, ask.candidate, resp.term, resp.granted)};
    var p1, s1 := p, s;
    if ask.term > s.term {
      p1 := FollowStepDown(p, shard, i, s, ask.term);
      s1 := StepDown(s, ask.term);
    } else {
      FollowSame(p, shard, i, s, s);
    }
    if resp.granted {
      p' := FollowGrant(p1, shard, i, s1, ask);
    } else {
      p' := FollowSend(p1, shard, i, s1, VoteReply(i, ask.candidate, resp.term, false));
    }
    Chain(p, p1, p', shard, i, s1, {}, s', sent);
    assert {} + sent == sent;
  }

  lemma FollowCount(p: Proto, shard: ShardId, i: ServerId, s: Server, voter: ServerId) returns (p': Proto)
    requires At(p, shard, i, s) && s.role == Candidate && Supported(p, s.term, voter, i)
    ensures Follows'(p, shard, i, s.(votes := s.votes + {voter}), {}, p')
  {
    var q := p.peers[i].(votes := s.votes + {voter});
    assert CommitOk(p, i) && CandidateOk(p, i);
    forall v | v in q.votes
      ensures Supported(p, q.term, v, i)
    {
      assert v in p.peers[i].votes ==> Supported(p, p.peers[i].term, v, i);
    }
    p' := Quiet(p, i, q, {});
    FollowQuiet(p, shard, i, s, q, {}, s.(votes := s.votes + {voter}));
  }

  lemma FollowWin(p: Proto, shard: ShardId, i: ServerId, s: Server) returns (p': Proto)
    requires At(p, shard, i, s) && s.role == Candidate && HasQuorum(s.membership, s.votes)
    ensures Follows'(p, shard, i, BecomeLeader(s), {}, p')
  {
    MirrorReads(p, i, s);
    p' := Win(p, i);
    WinKeepsInv(p, i);
    assert Continues(p, p', shard, i);
  }

  lemma FollowVoteReply(p: Proto, shard: ShardId, i: ServerId, s: Server, voter: ServerId, term: Term, granted: bool)
    returns (p': Proto)
    requires At(p, shard, i, s) && VoteReply(voter, i, term, granted) in p.msgs
    ensures Follows'(p, shard, i, RecordVote(s, voter, VoteResponse(term, granted)).0, {}, p')
  {
    if term > s.term {
      p' := FollowStepDown(p, shard, i, s, term);
    } else if s.role != Candidate || term != s.term {
      FollowSame(p, shard, i, s, s);
      p' := p;
    } else {
      var p1, counted := p, s;
      if granted {
        assert MsgOk(p, VoteReply(voter, i, term, granted));
        p1 := FollowCount(p, shard, i, s, voter);
        counted := s.(votes := s.votes + {voter});
      } else {
        FollowSame(p, shard, i, s, s);
      }
      p' := p1;
      if HasQuorum(s.membership, counted.votes) {
        p' := FollowWin(p1, shard, i, counted);
        Chain(p, p1, p', shard, i, counted, {}, BecomeLeader(counted), {});
      }
    }
  }

  // ----- The leader's side of replication -----

  lemma FollowAdvance(p: Proto, shard: ShardId, i: ServerId, s: Server) returns (p': Proto)
    requires At(p, shard, i, s)
    ensures Follows'(p, shard, i, AdvanceCommit(s), {}, p')
  {
    var s' := AdvanceCommit(s);
    if s'.commit == s.commit {
      assert s' == s;
      FollowSame(p, shard, i, s, s);
      p' := p;
    } else {
      var k := QuorumIndex(s);
      MirrorEntry(p, i, s, k);
      var q := p.peers[i].(commit := k);
      QuorumMatchIsChosen(p, i, MatchedVoters(s, k), k);
      assert LeaderOk(p, i);
      p' := Quiet(p, i, q, {});
      FollowQuiet(p, shard, i, s, q, {}, s');
    }
  }

  lemma FollowPush(p: Proto, shard: ShardId, i: ServerId, s: Server, e: LogEntry) returns (p': Proto)
    requires At(p, shard, i, s) && s.role == Leader
    requires e.shardId == shard && e.term == s.term && e.index == LastIndex(s) + 1
    ensures Follows'(p, shard, i, Pushed(s, e), {}, p')
  {
    var s1 := s.(log := s.log + [e], matches := s.matches[s.id := e.index]);
    MirrorReads(p, i, s);
    assert LeaderOk(p, i);
    var p1 := Propose(p, i, e);
    ProposeKeepsInv(p, i, e);
    assert AllOfShard(p.peers[i].log, shard);
    assert Continues(p, p1, shard, i);
    assert Mirrors(s1, p1.peers[i]);
    p' := FollowAdvance(p1, shard, i, s1);
    Chain(p, p1, p', shard, i, s1, {}, Pushed(s, e), {});
  }

  lemma FollowMatch(p: Proto, shard: ShardId, i: ServerId, s: Server, follower: ServerId, upTo: nat, index: LogIndex)
    returns (p': Proto)
    requires At(p, shard, i, s) && AppendReply(follower, s.term, upTo) in p.msgs && index <= upTo
    ensures Follows'(p, shard, i, RecordMatch(s, follower, index).0, {}, p')
  {
    if s.role != Leader || !IsMember(s.membership, follower) {
      FollowSame(p, shard, i, s, s);
      p' := p;
    } else {
      var s1 := s.(matches := s.matches[follower := index]);
      var q := p.peers[i].(matched := s1.matches);
      assert LeaderOk(p, i) && CommitOk(p, i) && MsgOk(p, AppendReply(follower, s.term, upTo));
      forall v | v in q.matched && q.matched[v] > 0
        ensures Acked(p, v, q.term, q.matched[v])
      {
        assert v != follower ==> Acked(p, v, q.term, p.peers[i].matched[v]);
      }
      var p1 := Quiet(p, i, q, {});
      FollowQuiet(p, shard, i, s, q, {}, s1);
      p' := FollowAdvance(p1, shard, i, s1);
      Chain(p, p1, p', shard, i, s1, {}, AdvanceCommit(s1), {});
    }
  }

  /** Sending a truthful message changes nothing else. */
  lemma FollowSend(p: Proto, shard: ShardId, i: ServerId, s: Server, m: Message) returns (p': Proto)
    requires At(p, shard, i, s) && MsgOk(p, m)
    ensures Follows'(p, shard, i, s, {m}, p')
    ensures p'.lead == p.lead && p'.peers[i] == p.peers[i]
  {
    var q := p.peers[i];
    assert CommitOk(p, i) && CandidateOk(p, i) && LeaderOk(p, i);
    p' := Quiet(p, i, q, {m});
    FollowQuiet(p, shard, i, s, q, {m}, s);
  }

  lemma FaithfulSlice(s: Server, whole: Log, r: AppendRequest)
    requires FaithfulAppend(s, r) && SnapIndex(s) <= |whole| && s.log == whole[SnapIndex(s)..]
    requires SnapTerm(s) == (if SnapIndex(s) == 0 then 0 else whole[SnapIndex(s) - 1].term)
    ensures r.prevIndex + |r.entries| <= |whole|
    ensures forall j :: 0 <= j < |r.entries| ==> r.entries[j] == whole[r.prevIndex + j]
    ensures r.prevIndex > 0 ==> r.prevTerm == whole[r.prevIndex - 1].term
  {
  }

  lemma FaithfulIsTrue(p: Proto, shard: ShardId, i: ServerId, s: Server, r: AppendRequest)
    requires At(p, shard, i, s) && s.role == Leader && FaithfulAppend(s, r)
    ensures MsgOk(p, Append(r))
  {
    assert LeaderOk(p, i) && CommitOk(p, i);
    FaithfulSlice(s, p.peers[i].log, r);
    CommittedWeaker(p, s.term, p.peers[i].log, s.commit, s.term, r.leaderCommit);
  }

  lemma SnapshotIsTrue(p: Proto, shard: ShardId, i: ServerId, s: Server)
    requires At(p, shard, i, s) && s.role == Leader && s.snapshot.Some? && SnapIndex(s) > 0
    ensures MsgOk(p, Install(SnapshotRequest(s.term, s.id, s.snapshot.value)))
  {
    assert LeaderOk(p, i) && CommitOk(p, i);
    CommittedWeaker(p, s.term, p.peers[i].log, s.commit, s.term, SnapIndex(s));
  }

  // ----- The follower's side of replication -----

  /** The loop of `append_entries` leaves exactly the leader's prefix, or more of it. */
  lemma {:induction false} MergeTakes(lead: map<Term, Log>, log: Log, leader: Log, base: nat, n: nat, m: nat)
    requires LogOk(lead, log) && LogOk(lead, leader)
    requires base <= |log| && n <= m <= |leader| && Agree(log, leader, n)
    requires base <= n || Agree(log, leader, base)
    ensures n <= |log| && Merged(log[base..], base, n, leader[n..m]) == Taken(log, leader, m)[base..]
    decreases m - n
  {
    var es := leader[n..m];
    if n < m {
      assert es[0] == leader[n] && es[1..] == leader[n + 1..m];
      if n < base {
        MergeTakes(lead, log, leader, base, n + 1, m);
      } else if n < |log| && log[n].term == leader[n].term {
        LogMatching(lead, log, leader, n);
        assert log[base..][n - base] == log[n];
        MergeTakes(lead, log, leader, base, n + 1, m);
      } else {
        assert n < |log| ==> log[base..][n - base] == log[n];
        assert !Agree(leader, log, m);
        assert log[base..][..n - base] == leader[..m][base..n];
        assert leader[..m][base..] == leader[..m][base..n] + es;
      }
    } else {
      assert Agree(leader, log, m);
    }
  }

  /** A committed index never conflicts with the leader of the same or a later term. */
  lemma {:induction false} NoCommittedConflict(log: Log, leader: Log, base: nat, commit: nat, n: nat, m: nat)
    requires base <= |log| && n <= m <= |leader| && Agree(log, leader, commit)
    ensures !HitsCommitted(log[base..], base, commit, n, leader[n..m])
    decreases m - n
  {
    var es := leader[n..m];
    if n < m {
      assert es[0] == leader[n] && es[1..] == leader[n + 1..m];
      if n < base || (n < |log| && log[n].term == leader[n].term) {
        NoCommittedConflict(log, leader, base, commit, n + 1, m);
      }
      assert base <= n < |log| ==> log[base..][n - base] == log[n];
    }
  }

  /** The loop, on a log that meets the leader's at position `n` and wherever it is committed. */
  lemma AbsorbTakes(lead: map<Term, Log>, log: Log, leader: Log, s: Server, es: Log, n: nat, m: nat)
    requires LogOk(lead, log) && LogOk(lead, leader) && n <= m <= |leader| && es == leader[n..m]
    requires SnapIndex(s) <= s.commit && SnapIndex(s) <= |log| && s.log == log[SnapIndex(s)..]
    requires Contiguous(s.log, SnapIndex(s)) && Batch(es, n, s.shard)
    requires Agree(log, leader, n) && Agree(log, leader, s.commit)
    ensures SnapIndex(s) <= |Taken(log, leader, m)|
    ensures Absorb(s, es) == (s.(log := Taken(log, leader, m)[SnapIndex(s)..]), None)
  {
    NoCommittedConflict(log, leader, SnapIndex(s), s.commit, n, m);
    AbsorbMerges(s, n, es);
    MergeTakes(lead, log, leader, SnapIndex(s), n, m);
  }

  lemma SettleTaken(s: Server, taken: Log, leaderCommit: LogIndex)
    requires Contiguous(taken, 0) && SnapIndex(s) <= |taken| && leaderCommit <= |taken|
    ensures var (s', out) := Settle(s.(log := taken[SnapIndex(s)..]), leaderCommit);
            && s' == s.(log := taken[SnapIndex(s)..], commit := Max(s.commit, leaderCommit))
            && out.Ok? && out.value.success && out.value.term == s.term
  {
    var s1 := s.(log := taken[SnapIndex(s)..]);
    SortContiguous(s1.log, SnapIndex(s));
    assert LastIndex(s1) == |taken|;
  }

  lemma AbsorbAllTakes(lead: map<Term, Log>, log: Log, leader: Log, s: Server, r: AppendRequest, m: nat)
    requires LogOk(lead, log) && LogOk(lead, leader) && m == r.prevIndex + |r.entries| <= |leader|
    requires r.entries == leader[r.prevIndex..m] && r.leaderCommit <= m
    requires SnapIndex(s) <= s.commit && SnapIndex(s) <= |log| && s.log == log[SnapIndex(s)..]
    requires Contiguous(s.log, SnapIndex(s)) && Batch(r.entries, r.prevIndex, s.shard)
    requires Agree(log, leader, r.prevIndex) && Agree(log, leader, s.commit)
    ensures SnapIndex(s) <= |Taken(log, leader, m)|
    ensures AbsorbAll(s, r).0 ==
            s.(log := Taken(log, leader, m)[SnapIndex(s)..], commit := Max(s.commit, r.leaderCommit))
    ensures AbsorbAll(s, r).1.Ok? && AbsorbAll(s, r).1.value.success && AbsorbAll(s, r).1.value.term == s.term
  {
    var taken := Taken(log, leader, m);
    AbsorbTakes(lead, log, leader, s, r.entries, r.prevIndex, m);
    if taken != log { LogOkPrefix(lead, leader, taken); }
    OkContiguous(lead, taken);
    SettleTaken(s, taken, r.leaderCommit);
  }

  lemma OkContiguous(lead: map<Term, Log>, log: Log)
    requires LogOk(lead, log)
    ensures Contiguous(log, 0)
  {
    forall j | 0 <= j < |log|
      ensures log[j].index == j + 1
    {
      assert Follows(lead, log, j);
    }
  }

  /** A request's batch is a slice of its leader's log, and the follower's commit agrees with it. */
  lemma AppendFacts(p: Proto, shard: ShardId, i: ServerId, s: Server, r: AppendRequest)
    requires At(p, shard, i, s) && r.term == s.term && MsgOk(p, Append(r))
    ensures LogOk(p.lead, p.peers[i].log) && LogOk(p.lead, p.lead[r.term])
    ensures Contiguous(s.log, SnapIndex(s)) && Batch(r.entries, r.prevIndex, shard)
    ensures r.entries == p.lead[r.term][r.prevIndex..r.prevIndex + |r.entries|]
    ensures Agree(p.peers[i].log, p.lead[r.term], s.commit)
  {
    MirrorReads(p, i, s);
    assert PeerLogOk(p, i) && LeadLogOk(p, r.term) && CommitOk(p, i);
    LeaderHasCommitted(p, s.term, p.peers[i].log, s.commit, r.term);
    assert r.entries == p.lead[r.term][r.prevIndex..r.prevIndex + |r.entries|];
    LeadBatch(p, shard, r.term, r.prevIndex, r.prevIndex + |r.entries|);
  }

  /** What the accepting branch of `append_entries` amounts to. */
  lemma AcceptedState(p: Proto, shard: ShardId, i: ServerId, s: Server, r: AppendRequest)
    requires At(p, shard, i, s) && r.term == s.term && MsgOk(p, Append(r))
    requires Agree(p.peers[i].log, p.lead[r.term], r.prevIndex)
    ensures var taken := Taken(p.peers[i].log, p.lead[r.term], r.prevIndex + |r.entries|);
            && SnapIndex(s) <= |taken|
            && AbsorbAll(s, r).0 == s.(log := taken[SnapIndex(s)..], commit := Max(s.commit, r.leaderCommit))
            && AbsorbAll(s, r).1.Ok? && AbsorbAll(s, r).1.value.success && AbsorbAll(s, r).1.value.term == r.term
  {
    AppendFacts(p, shard, i, s, r);
    AbsorbAllTakes(p.lead, p.peers[i].log, p.lead[r.term], s, r, r.prevIndex + |r.entries|);
  }

  lemma FollowTaken(p: Proto, shard: ShardId, i: ServerId, s: Server, r: AppendRequest) returns (p': Proto)
    requires At(p, shard, i, s) && s.role == Follower && Append(r) in p.msgs && r.term == s.term
    requires MsgOk(p, Append(r))
    requires SnapIndex(s) <= |Taken(p.peers[i].log, p.lead[r.term], r.prevIndex + |r.entries|)|
    ensures var taken := Taken(p.peers[i].log, p.lead[r.term], r.prevIndex + |r.entries|);
            Follows'(p, shard, i, s.(log := taken[SnapIndex(s)..], commit := Max(s.commit, r.leaderCommit)),
                     {AppendReply(i, r.term, r.prevIndex + |r.entries|)}, p')
    ensures p'.peers[i].log == Taken(p.peers[i].log, p.lead[r.term], r.prevIndex + |r.entries|)
  {
    p' := Accept(p, i, r);
    AcceptKeepsInv(p, i, r);
    TakenOk(p, i, r.term, r.prevIndex + |r.entries|);
    assert AllOfShard(p.lead[r.term], shard);
    assert Continues(p, p', shard, i);
  }

  lemma FollowAccept(p: Proto, shard: ShardId, i: ServerId, s: Server, r: AppendRequest) returns (p': Proto)
    requires At(p, shard, i, s) && s.role == Follower && Append(r) in p.msgs && r.term == s.term
    requires MsgOk(p, Append(r)) && Agree(p.peers[i].log, p.lead[r.term], r.prevIndex)
    ensures AbsorbAll(s, r).1.Ok? && AbsorbAll(s, r).1.value.success && AbsorbAll(s, r).1.value.term == r.term
    ensures Follows'(p, shard, i, AbsorbAll(s, r).0, {AppendReply(i, r.term, r.prevIndex + |r.entries|)}, p')
  {
    AcceptedState(p, shard, i, s, r);
    p' := FollowTaken(p, shard, i, s, r);
  }

  lemma LeadBatch(p: Proto, shard: ShardId, t: Term, n: nat, m: nat)
    requires LogsInv(p) && OneShard(p, shard) && t in p.lead && n <= m <= |p.lead[t]|
    ensures Batch(p.lead[t][n..m], n, shard)
  {
    assert LeadLogOk(p, t) && AllOfShard(p.lead[t], shard);
    var es := p.lead[t][n..m];
    forall j | 0 <= j < |es|
      ensures es[j].index == n + j + 1 && es[j].shardId == shard
    {
      assert Follows(p.lead, p.lead[t], n + j);
    }
  }

  lemma MirrorCut(s: Server, q: Peer, n: nat)
    requires Mirrors(s, q) && Contiguous(s.log, SnapIndex(s)) && s.commit <= n < |q.log| && n < U64_MAX
    ensures Mirrors(TruncateFrom(s, n + 1), q.(log := q.log[..n]))
  {
    TruncateContiguous(s, n + 1);
    assert q.log[SnapIndex(s)..][..n - SnapIndex(s)] == q.log[..n][SnapIndex(s)..];
  }

  /** The previous entry conflicts beyond the commit index: the suffix goes. */
  lemma FollowCut(p: Proto, shard: ShardId, i: ServerId, s: Server, r: AppendRequest) returns (p': Proto)
    requires At(p, shard, i, s) && s.role == Follower && r.term == s.term && MsgOk(p, Append(r))
    requires EntryAt(s.log, r.prevIndex).Some? && EntryAt(s.log, r.prevIndex).value.term != r.prevTerm
    requires r.prevIndex > s.commit
    ensures Follows'(p, shard, i, TruncateFrom(s, r.prevIndex), {}, p')
  {
    var n := r.prevIndex - 1;
    MirrorReads(p, i, s);
    MirrorEntry(p, i, s, r.prevIndex);
    MirrorCut(s, p.peers[i], n);
    p' := Cut(p, i, n);
    CutKeepsInv(p, i, n, r.term);
    assert AllOfShard(p.peers[i].log, shard);
    assert Continues(p, p', shard, i);
  }

  /** The consistency check passed: up to the previous entry the log is the leader's. */
  lemma PreviousAgrees(p: Proto, shard: ShardId, i: ServerId, s: Server, r: AppendRequest)
    requires At(p, shard, i, s) && r.term == s.term && MsgOk(p, Append(r))
    requires r.prevIndex == 0
             || (EntryAt(s.log, r.prevIndex).Some? && EntryAt(s.log, r.prevIndex).value.term == r.prevTerm)
             || r.prevIndex == SnapIndex(s)
    ensures r.prevIndex <= |p.peers[i].log| && Agree(p.peers[i].log, p.lead[r.term], r.prevIndex)
  {
    var log := p.peers[i].log;
    assert PeerLogOk(p, i) && LeadLogOk(p, r.term) && CommitOk(p, i);
    if r.prevIndex == SnapIndex(s) {
      LeaderHasCommitted(p, s.term, log, s.commit, r.term);
    } else if r.prevIndex > 0 {
      MirrorEntry(p, i, s, r.prevIndex);
      LogMatching(p.lead, log, p.lead[r.term], r.prevIndex - 1);
    }
  }

  lemma FollowAppend(p: Proto, shard: ShardId, i: ServerId, s: Server, r: AppendRequest) returns (p': Proto)
    requires At(p, shard, i, s) && Append(r) in p.msgs
    ensures var (s', out) := AppendEntries(s, r);
            Follows'(p, shard, i, s',
                     if out.Ok? && out.value.success
                     then {AppendReply(i, out.value.term, r.prevIndex + |r.entries|)} else {}, p')
  {
    var (s', out) := AppendEntries(s, r);
    if r.term < s.term {
      FollowSame(p, shard, i, s, s);
      p' := p;
    } else {
      var f := Follow(s, r.term, r.leader);
      var p1 := FollowLeader(p, shard, i, s, r.term, r.leader);
      assert MsgOk(p1, Append(r));
      var previous := EntryAt(f.log, r.prevIndex);
      if r.prevIndex > 0 && previous.Some? && previous.value.term != r.prevTerm {
        p' := p1;
        if r.prevIndex > f.commit {
          p' := FollowCut(p1, shard, i, f, r);
          Chain(p, p1, p', shard, i, f, {}, s', {});
        }
      } else if r.prevIndex > 0 && previous.None? && !(r.prevIndex == SnapIndex(f) && r.prevTerm == SnapTerm(f)) {
        p' := p1;
      } else {
        PreviousAgrees(p1, shard, i, f, r);
        p' := FollowAccept(p1, shard, i, f, r);
        var sent := {AppendReply(i, r.term, r.prevIndex + |r.entries|)};
        Chain(p, p1, p', shard, i, f, {}, s', sent);
        assert {} + sent == sent;
      }
    }
  }

  // ----- Snapshots and restarts -----

  lemma MirrorCompact(s: Server, q: Peer, meta: SnapshotMeta)
    requires Mirrors(s, q) && Contiguous(s.log, SnapIndex(s)) && |s.log| == |q.log| - SnapIndex(s)
    requires SnapIndex(s) <= meta.lastIndex <= |q.log| && meta.lastIndex <= s.commit
    requires meta.lastTerm == (if meta.lastIndex == 0 then 0 else q.log[meta.lastIndex - 1].term)
    ensures Mirrors(Compacted(s, meta), q)
  {
    AboveOfWhole(q.log, SnapIndex(s), meta.lastIndex);
  }

  lemma AboveOfWhole(whole: Log, base: nat, k: LogIndex)
    requires base <= k <= |whole| && Contiguous(whole[base..], base)
    ensures Above(whole[base..], k) == whole[k..]
  {
    AboveContiguous(whole[base..], base, k);
    assert whole[base..][k - base..] == whole[k..];
  }

  lemma FollowCompact(p: Proto, shard: ShardId, i: ServerId, s: Server, meta: SnapshotMeta)
    requires At(p, shard, i, s) && meta.lastIndex > SnapIndex(s)
    requires EntryAt(s.log, meta.lastIndex).Some? && EntryAt(s.log, meta.lastIndex).value.term == meta.lastTerm
    ensures Follows'(p, shard, i, CompactTo(s, meta).0, {}, p)
  {
    MirrorReads(p, i, s);
    MirrorEntry(p, i, s, meta.lastIndex);
    if meta.shardId == s.shard && meta.lastIndex <= s.commit {
      MirrorCompact(s, p.peers[i], meta);
    }
    ContinuesRefl(p, shard, i);
  }

  /** A snapshot stands for an append request that carries the whole prefix it covers. */
  ghost function AsAppend(p: Proto, r: SnapshotRequest): AppendRequest
    requires r.term in p.lead && r.meta.lastIndex <= |p.lead[r.term]|
  {
    AppendRequest(r.term, r.leader, 0, 0, p.lead[r.term][..r.meta.lastIndex], r.meta.lastIndex)
  }

  /** Below the boundary both logs are the leader's; above it the follower keeps its suffix. */
  lemma SnapshotSuffix(lead: map<Term, Log>, log: Log, leader: Log, base: nat, k: LogIndex)
    requires LogOk(lead, log) && LogOk(lead, leader) && base <= k <= |leader| && base <= |log|
    requires k <= |log| ==> Agree(leader, log, k)
    ensures k <= |Taken(log, leader, k)| && Agree(leader, Taken(log, leader, k), k)
    ensures Above(Taken(log, leader, k)[base..], k) == Above(log[base..], k)
  {
    var taken := Taken(log, leader, k);
    if taken != log {
      OkContiguous(lead, log);
      OkContiguous(lead, leader);
      AboveContiguous(log[base..], base, k);
      AboveContiguous(taken[base..], base, k);
    }
  }

  lemma BoundaryMeets(p: Proto, shard: ShardId, i: ServerId, s: Server, r: SnapshotRequest)
    requires At(p, shard, i, s) && MsgOk(p, Install(r)) && r.term == s.term
    requires r.meta.lastIndex >= SnapIndex(s) && BoundaryAgrees(s, r.meta)
    requires r.meta.lastIndex <= |p.peers[i].log|
    ensures Agree(p.lead[r.term], p.peers[i].log, r.meta.lastIndex)
  {
    var log, leader, k := p.peers[i].log, p.lead[r.term], r.meta.lastIndex;
    assert PeerLogOk(p, i) && LeadLogOk(p, r.term) && CommitOk(p, i);
    if k == SnapIndex(s) {
      LeaderHasCommitted(p, s.term, log, s.commit, r.term);
    } else {
      MirrorReads(p, i, s);
      MirrorEntry(p, i, s, k);
      LogMatching(p.lead, log, leader, k - 1);
    }
  }

  /** Once the log holds the covered prefix, cutting it off is an ordinary compaction. */
  lemma FollowPrefix(p: Proto, shard: ShardId, i: ServerId, s: Server, meta: SnapshotMeta)
    requires At(p, shard, i, s) && SnapIndex(s) <= meta.lastIndex <= s.commit && 0 < meta.lastIndex
    requires meta.lastIndex <= |p.peers[i].log| && p.peers[i].log[meta.lastIndex - 1].term == meta.lastTerm
    ensures Follows'(p, shard, i, Compacted(s, meta), {}, p)
  {
    MirrorReads(p, i, s);
    MirrorCompact(s, p.peers[i], meta);
    ContinuesRefl(p, shard, i);
  }

  lemma InstallFacts(p: Proto, shard: ShardId, i: ServerId, s: Server, r: SnapshotRequest)
    requires At(p, shard, i, s) && MsgOk(p, Install(r)) && r.term == s.term
    requires r.meta.lastIndex >= SnapIndex(s) && BoundaryAgrees(s, r.meta)
    ensures var taken := Taken(p.peers[i].log, p.lead[r.term], r.meta.lastIndex);
            && r.meta.lastIndex <= |taken| && taken[r.meta.lastIndex - 1].term == r.meta.lastTerm
            && Above(taken[SnapIndex(s)..], r.meta.lastIndex) == Above(s.log, r.meta.lastIndex)
  {
    if r.meta.lastIndex <= |p.peers[i].log| { BoundaryMeets(p, shard, i, s, r); }
    assert PeerLogOk(p, i) && LeadLogOk(p, r.term);
    SnapshotSuffix(p.lead, p.peers[i].log, p.lead[r.term], SnapIndex(s), r.meta.lastIndex);
  }

  /** The covered prefix arrives as if appended, then the boundary moves. */
  lemma FollowInstalledAs(p: Proto, shard: ShardId, i: ServerId, s: Server, a: AppendRequest, meta: SnapshotMeta,
      taken: Log)
    returns (p': Proto)
    requires At(p, shard, i, s) && s.role == Follower && Append(a) in p.msgs && MsgOk(p, Append(a)) && a.term == s.term
    requires a.prevIndex == 0 && |a.entries| == a.leaderCommit == meta.lastIndex
    requires taken == Taken(p.peers[i].log, p.lead[a.term], meta.lastIndex)
    requires 0 < meta.lastIndex <= |taken| && SnapIndex(s) <= meta.lastIndex
    requires taken[meta.lastIndex - 1].term == meta.lastTerm
    ensures var s1 := s.(log := taken[SnapIndex(s)..], commit := Max(s.commit, meta.lastIndex));
            Follows'(p, shard, i, Compacted(s1, meta), {}, p')
  {
    var s1 := s.(log := taken[SnapIndex(s)..], commit := Max(s.commit, meta.lastIndex));
    p' := FollowTaken(p, shard, i, s, a);
    FollowPrefix(p', shard, i, s1, meta);
  }

  lemma FollowInstalled(p: Proto, shard: ShardId, i: ServerId, s: Server, r: SnapshotRequest) returns (p': Proto)
    requires At(p, shard, i, s) && s.role == Follower && MsgOk(p, Install(r)) && r.term == s.term
    requires r.meta.lastIndex >= SnapIndex(s) && BoundaryAgrees(s, r.meta)
    ensures Follows'(p, shard, i, Compacted(s, r.meta).(commit := Max(s.commit, r.meta.lastIndex)), {}, p')
  {
    hide Mirrors, Committed, BoundaryAgrees, Taken, Above, OneShard;
    var a := AsAppend(p, r);
    InstallFacts(p, shard, i, s, r);
    var p1 := FollowSend(p, shard, i, s, Append(a));
    assert MsgOk(p1, Append(a));
    var taken := Taken(p.peers[i].log, p.lead[r.term], r.meta.lastIndex);
    p' := FollowInstalledAs(p1, shard, i, s, a, r.meta, taken);
    ContinuesTrans(p, p1, p', shard, i);
  }

  lemma FollowInstall(p: Proto, shard: ShardId, i: ServerId, s: Server, r: SnapshotRequest) returns (p': Proto)
    requires At(p, shard, i, s) && Install(r) in p.msgs && BoundaryAgrees(s, r.meta)
    ensures Follows'(p, shard, i, InstallSnapshot(s, r).0, {}, p')
  {
    if r.term < s.term || r.meta.shardId != s.shard {
      FollowSame(p, shard, i, s, s);
      p' := p;
    } else {
      var f := Follow(s, r.term, r.leader);
      var p1 := FollowLeader(p, shard, i, s, r.term, r.leader);
      p' := p1;
      if r.meta.lastIndex >= SnapIndex(f) {
        assert MsgOk(p1, Install(r));
        p' := FollowInstalled(p1, shard, i, f, r);
        Chain(p, p1, p', shard, i, f, {}, InstallSnapshot(s, r).0, {});
      }
    }
  }

  /** Opening on what a well-shaped server left behind gives it back as a follower. */
  lemma Reopened(s: Server, commit: LogIndex, s': Server)
    requires Contiguous(s.log, SnapIndex(s)) && commit <= s.commit
    requires Open(s.id, s.shard, s.membership, s.term, s.votedFor, s.log, s.snapshot, commit) == Ok(s')
    ensures s' == s.(commit := s'.commit, role := Follower, leaderId := None, matches := map[], votes := {})
    ensures SnapIndex(s) <= s'.commit <= Max(SnapIndex(s), s.commit)
  {
    SortContiguous(s.log, SnapIndex(s));
    if s.snapshot.Some? { AllAbove(s.log, SnapIndex(s)); }
  }

  lemma FollowRestart(p: Proto, shard: ShardId, i: ServerId, s: Server, commit: LogIndex,
      s': Server) returns (p': Proto)
    requires At(p, shard, i, s) && commit <= s.commit
    requires Open(s.id, s.shard, s.membership, s.term, s.votedFor, s.log, s.snapshot, commit) == Ok(s')
    ensures Follows'(p, shard, i, s', {}, p')
  {
    hide Open, Committed;
    MirrorReads(p, i, s);
    Reopened(s, commit, s');
    var q := p.peers[i].(role := Follower, votes := {}, matched := map[], commit := s'.commit);
    assert CommitOk(p, i);
    CommittedWeaker(p, s.term, q.log, s.commit, s.term, s'.commit);
    p' := Quiet(p, i, q, {});
    FollowQuiet(p, shard, i, s, q, {}, s');
  }
}
