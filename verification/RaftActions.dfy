/**
 * The moves of the protocol over full logs, and that each keeps the cluster invariant.
 * The steps of RaftCore are later shown to be compositions of these.
 */
module RaftActions {
  import opened Basics
  import opened Model
  import opened Membership
  import opened RaftState
  import opened RaftProtocol
  import opened RaftFrame

  // ----- Moves that touch no log, vote or acknowledgement -----

  ghost predicate QuietChange(p: Proto, i: ServerId, q: Peer) {
    && i in p.peers
    && q.log == p.peers[i].log && q.term >= p.peers[i].term
    && (q.term == p.peers[i].term ==> q.vote == p.peers[i].vote)
    && (q.role == Candidate ==>
          && p.peers[i].role == Candidate && q.term == p.peers[i].term
          && forall s {:trigger Supported(p, q.term, s, i)} :: s in q.votes ==> Supported(p, q.term, s, i))
    && (q.role == Leader ==>
          p.peers[i].role == Leader && q.term == p.peers[i].term && MatchOk(p, q))
    && Committed(p, q.term, q.log, q.commit)
  }

  ghost function Quiet(p: Proto, i: ServerId, q: Peer, sent: set<Message>): Proto {
    p.(peers := p.peers[i := q], msgs := p.msgs + sent)
  }

  lemma SameLead(p: Proto, p': Proto)
    requires p'.lead == p.lead
    ensures LeadGrows(p.lead, p'.lead)
  {
    forall t | t in p.lead
      ensures LeadExtends(p.lead, p'.lead, t)
    {
    }
  }

  lemma QuietKeepsInv(p: Proto, i: ServerId, q: Peer, sent: set<Message>)
    requires Inv(p) && QuietChange(p, i, q)
    requires forall m :: m in sent ==> MsgOk(p, m)
    ensures Inv(Quiet(p, i, q, sent)) && Extends(p, Quiet(p, i, q, sent))
  {
    var p' := Quiet(p, i, q, sent);
    SameLead(p, p');
    assert Step(p, p', i);
    assert PeerLogOk(p, i) && LeaderOk(p, i);
    assert PeerLogOk(p', i);
    LogsFrame(p, p', i);
    VotesFrame(p, p', i);
    if q.role == Candidate {
      forall s | s in q.votes
        ensures Supported(p', q.term, s, i)
      {
        assert Supported(p, q.term, s, i);
        GrowSupported(p, p', q.term, s, i);
      }
    }
    CandidatesFrame(p, p', i);
    ElectionsFrame(p, p', i);
    if q.role == Leader {
      forall s | s in q.matched && q.matched[s] > 0
        ensures Acked(p', s, q.term, q.matched[s])
      {
        assert Acked(p, s, q.term, q.matched[s]);
      }
      assert MatchOk(p', q);
    }
    assert LeaderOk(p', i);
    LeadersFrame(p, p', i);
    AcksFrame(p, p', i);
    VotesHeldFrame(p, p', i);
    GrowCommitted(p, p', q.term, q.log, q.term, q.log, q.commit);
    CommitsFrame(p, p', i);
    MessagesFrame(p, p', i);
  }

  // ----- Elections -----

  /** `i` stands for the next term and votes for itself. */
  ghost function Campaign(p: Proto, i: ServerId, t: Term): Proto
    requires i in p.peers && |p.peers[i].log| <= U64_MAX
  {
    var old_ := p.peers[i];
    p.(peers := p.peers[i := old_.(term := t, vote := Some(i), role := Candidate, votes := {i})],
       votes := p.votes + {Vote(t, i, i, old_.log, t in p.lead)},
       msgs := p.msgs + {AskVote(VoteRequest(t, i, |old_.log|, TermOfLast(old_.log)))})
  }

  lemma CampaignKeepsInv(p: Proto, i: ServerId, t: Term)
    requires Inv(p) && i in p.peers && t == p.peers[i].term + 1
    requires |p.peers[i].log| <= U64_MAX
    ensures Inv(Campaign(p, i, t)) && Extends(p, Campaign(p, i, t))
  {
    var p' := Campaign(p, i, t);
    var v := Vote(t, i, i, p.peers[i].log, t in p.lead);
    SameLead(p, p');
    assert Step(p, p', i);
    assert PeerLogOk(p, i);
    LogsFrame(p, p', i);
    forall w | w in p.votes
      ensures SameBallot(v, w)
    {
      assert VoteOk(p, w);
    }
    VotesFrame(p, p', i);
    assert Supported(p', t, i, i);
    CandidatesFrame(p, p', i);
    ElectionsFrame(p, p', i);
    LeadersFrame(p, p', i);
    AcksFrame(p, p', i);
    VotesHeldFrame(p, p', i);
    assert CommitOk(p, i);
    GrowCommitted(p, p', p.peers[i].term, p.peers[i].log, t, p.peers[i].log, p.peers[i].commit);
    CommitsFrame(p, p', i);
    MessagesFrame(p, p', i);
  }

  /** `i` grants its vote of the current term to `c`. */
  ghost function CastVote(p: Proto, i: ServerId, c: ServerId): Proto
    requires i in p.peers
  {
    var old_ := p.peers[i];
    p.(peers := p.peers[i := old_.(vote := Some(c))],
       votes := p.votes + {Vote(old_.term, i, c, old_.log, old_.term in p.lead)},
       msgs := p.msgs + {VoteReply(i, c, old_.term, true)})
  }

  lemma CastVoteKeepsInv(p: Proto, i: ServerId, r: VoteRequest)
    requires Inv(p) && i in p.peers && AskVote(r) in p.msgs
    requires r.term == p.peers[i].term
    requires p.peers[i].vote.None? || p.peers[i].vote == Some(r.candidate)
    requires r.lastTerm > TermOfLast(p.peers[i].log)
             || (r.lastTerm == TermOfLast(p.peers[i].log) && r.lastIndex >= |p.peers[i].log|)
    ensures Inv(CastVote(p, i, r.candidate)) && Extends(p, CastVote(p, i, r.candidate))
  {
    var p' := CastVote(p, i, r.candidate);
    var q := p.peers[i];
    var v := Vote(q.term, i, r.candidate, q.log, q.term in p.lead);
    SameLead(p, p');
    assert Step(p, p', i);
    assert PeerLogOk(p, i) && MsgOk(p, AskVote(r));
    assert PeerLogOk(p', i);
    LogsFrame(p, p', i);
    forall w | w in p.votes
      ensures SameBallot(v, w)
    {
      assert VoteOk(p, w);
    }
    VotesFrame(p, p', i);
    assert CandidateOk(p, i);
    if q.role == Candidate {
      forall s | s in q.votes
        ensures Supported(p', q.term, s, i)
      {
        assert Supported(p, q.term, s, i);
        GrowSupported(p, p', q.term, s, i);
      }
    }
    CandidatesFrame(p, p', i);
    ElectionsFrame(p, p', i);
    assert LeaderOk(p, i);
    if q.role == Leader { MatchGrows(p, p', q, p'.peers[i]); }
    LeadersFrame(p, p', i);
    AcksFrame(p, p', i);
    VotesHeldFrame(p, p', i);
    assert CommitOk(p, i);
    GrowCommitted(p, p', q.term, q.log, q.term, q.log, q.commit);
    CommitsFrame(p, p', i);
    assert Supported(p', q.term, i, r.candidate);
    MessagesFrame(p, p', i);
  }

  lemma MatchGrows(p: Proto, p': Proto, q: Peer, q': Peer)
    requires MatchOk(p, q) && p.acks <= p'.acks && q'.matched == q.matched && q'.term == q.term
    ensures MatchOk(p', q')
  {
    forall s | s in q.matched && q.matched[s] > 0
      ensures Acked(p', s, q.term, q.matched[s])
    {
      assert Acked(p, s, q.term, q.matched[s]);
    }
  }

  /** `i` has a quorum of votes and starts leading its term. */
  ghost function Win(p: Proto, i: ServerId): Proto
    requires i in p.peers && |p.peers[i].log| <= U64_MAX
  {
    var old_ := p.peers[i];
    p.(peers := p.peers[i := old_.(role := Leader, votes := {}, matched := map[i := |old_.log|])],
       lead := p.lead[old_.term := old_.log],
       elect := p.elect[old_.term := Election(i, old_.votes, old_.log)],
       acks := p.acks + {Ack(old_.term, i, |old_.log|)})
  }

  lemma OneBallot(p: Proto, v: Vote, w: Vote)
    requires VoteInv(p) && v in p.votes && w in p.votes && v.voter == w.voter && v.term == w.term
    ensures v.candidate == w.candidate
  {
    assert SameBallot(v, w);
  }

  /** A candidate with a quorum is the first winner of its term. */
  lemma FirstWinner(p: Proto, i: ServerId)
    requires Inv(p) && i in p.peers
    requires p.peers[i].role == Candidate && HasQuorum(p.members, p.peers[i].votes)
    ensures p.peers[i].term !in p.lead
  {
    var t := p.peers[i].term;
    if t in p.lead {
      assert ElectionOk(p, t) && CandidateOk(p, i);
      var s := QuorumsIntersect(p.members, p.peers[i].votes, p.elect[t].voters);
      assert Supported(p, t, s, i) && Backed(p, t, s);
      var v :| v in p.votes && v.term == t && v.voter == s && v.candidate == i;
      var w :| w in p.votes && w.term == t && w.voter == s && w.candidate == p.elect[t].leader
               && !w.late && UpToDate(p.elect[t].log, w.log);
      OneBallot(p, v, w);
      assert false;
    }
  }

  lemma NewLead(a: map<Term, Log>, t: Term, log: Log)
    requires t !in a
    ensures LeadGrows(a, a[t := log])
  {
    forall u | u in a
      ensures LeadExtends(a, a[t := log], u)
    {
    }
  }

  lemma WinnerElection(p: Proto, i: ServerId)
    requires Inv(p) && i in p.peers && |p.peers[i].log| <= U64_MAX
    requires p.peers[i].role == Candidate && HasQuorum(p.members, p.peers[i].votes)
    requires p.peers[i].term !in p.lead
    ensures ElectionOk(Win(p, i), p.peers[i].term)
  {
    var p' := Win(p, i);
    var t, log := p.peers[i].term, p.peers[i].log;
    assert CandidateOk(p, i) && PeerLogOk(p, i);
    forall j | 0 <= j < |log|
      ensures log[j].term < t
    {
      assert Follows(p.lead, log, j);
    }
    forall s | s in p'.elect[t].voters
      ensures Backed(p', t, s)
    {
      assert Supported(p, t, s, i);
      var v :| v in p.votes && v.term == t && v.voter == s && v.candidate == i;
      assert VoteOk(p, v);
    }
  }

  lemma WinKeepsInv(p: Proto, i: ServerId)
    requires Inv(p) && i in p.peers && |p.peers[i].log| <= U64_MAX
    requires p.peers[i].role == Candidate && HasQuorum(p.members, p.peers[i].votes)
    ensures Inv(Win(p, i)) && Extends(p, Win(p, i))
  {
    var p' := Win(p, i);
    var q := p.peers[i];
    FirstWinner(p, i);
    NewLead(p.lead, q.term, q.log);
    assert Step(p, p', i);
    assert PeerLogOk(p, i);
    GrowLogOk(p.lead, p'.lead, q.log);
    assert PeerLogOk(p', i) && LeadLogOk(p', q.term);
    LogsFrame(p, p', i);
    VotesFrame(p, p', i);
    CandidatesFrame(p, p', i);
    WinnerElection(p, i);
    ElectionsFrame(p, p', i);
    assert MatchOk(p', p'.peers[i]) by {
      assert Ack(q.term, i, |q.log|) in p'.acks;
      assert Acked(p', i, q.term, |q.log|);
    }
    LeadersFrame(p, p', i);
    AcksFrame(p, p', i);
    VotesHeldFrame(p, p', i);
    assert CommitOk(p, i);
    GrowCommitted(p, p', q.term, q.log, q.term, q.log, q.commit);
    CommitsFrame(p, p', i);
    MessagesFrame(p, p', i);
  }

  // ----- Replication -----

  /** The leader `i` appends an entry of its term. */
  ghost function Propose(p: Proto, i: ServerId, e: LogEntry): Proto
    requires i in p.peers
  {
    var old_ := p.peers[i];
    p.(peers := p.peers[i := old_.(log := old_.log + [e], matched := old_.matched[i := e.index])],
       lead := p.lead[old_.term := old_.log + [e]],
       acks := p.acks + {Ack(old_.term, i, |old_.log| + 1)})
  }

  lemma ProposedLead(p: Proto, i: ServerId, e: LogEntry)
    requires LogsInv(p) && i in p.peers && LeaderOk(p, i) && p.peers[i].role == Leader
    requires e.term == p.peers[i].term && e.index == |p.peers[i].log| + 1
    ensures LeadGrows(p.lead, Propose(p, i, e).lead)
    ensures LogOk(Propose(p, i, e).lead, p.peers[i].log + [e])
  {
    var t, log := p.peers[i].term, p.peers[i].log;
    var lead' := Propose(p, i, e).lead;
    forall u | u in p.lead
      ensures LeadExtends(p.lead, lead', u)
    {
    }
    assert PeerLogOk(p, i);
    GrowLogOk(p.lead, lead', log);
    var log' := log + [e];
    forall j | 0 <= j < |log'|
      ensures Follows(lead', log', j)
    {
      if j < |log| { assert Follows(lead', log, j); }
    }
  }

  lemma ProposeKeepsInv(p: Proto, i: ServerId, e: LogEntry)
    requires Inv(p) && i in p.peers && p.peers[i].role == Leader
    requires e.term == p.peers[i].term && e.index == |p.peers[i].log| + 1
    ensures Inv(Propose(p, i, e)) && Extends(p, Propose(p, i, e))
  {
    var p' := Propose(p, i, e);
    var q, q' := p.peers[i], p'.peers[i];
    assert LeaderOk(p, i) && PeerLogOk(p, i);
    ProposedLead(p, i, e);
    assert Step(p, p', i);
    assert PeerLogOk(p', i) && LeadLogOk(p', q.term);
    LogsFrame(p, p', i);
    VotesFrame(p, p', i);
    CandidatesFrame(p, p', i);
    ElectionsFrame(p, p', i);
    forall s | s in q'.matched && q'.matched[s] > 0
      ensures Acked(p', s, q'.term, q'.matched[s])
    {
      if s == i {
        assert Ack(q.term, i, |q.log| + 1) in p'.acks;
      } else {
        assert Acked(p, s, q.term, q.matched[s]);
      }
    }
    LeadersFrame(p, p', i);
    AcksFrame(p, p', i);
    VotesHeldFrame(p, p', i);
    assert CommitOk(p, i);
    GrowCommitted(p, p', q.term, q.log, q.term, q'.log, q.commit);
    CommitsFrame(p, p', i);
    MessagesFrame(p, p', i);
  }

  /** What a follower's log becomes when it takes the first `n` entries of the leader's log. */
  ghost function Taken(log: Log, leader: Log, n: nat): Log
    requires n <= |leader|
  {
    if Agree(leader, log, n) then log else leader[..n]
  }

  ghost function Accept(p: Proto, i: ServerId, r: AppendRequest): Proto
    requires i in p.peers && r.term in p.lead && r.prevIndex + |r.entries| <= |p.lead[r.term]|
  {
    var old_ := p.peers[i];
    var n := r.prevIndex + |r.entries|;
    var c := if r.leaderCommit > old_.commit then r.leaderCommit else old_.commit;
    p.(peers := p.peers[i := old_.(log := Taken(old_.log, p.lead[r.term], n), commit := c)],
       acks := p.acks + {Ack(r.term, i, n)},
       msgs := p.msgs + {AppendReply(i, r.term, n)})
  }

  lemma TakenOk(p: Proto, i: ServerId, t: Term, n: nat)
    requires Inv(p) && i in p.peers && p.peers[i].term == t && t in p.lead && n <= |p.lead[t]|
    ensures LogOk(p.lead, Taken(p.peers[i].log, p.lead[t], n))
    ensures TermsAtMost(Taken(p.peers[i].log, p.lead[t], n), t)
    ensures Agree(p.lead[t], Taken(p.peers[i].log, p.lead[t], n), n)
    ensures Agree(p.peers[i].log, Taken(p.peers[i].log, p.lead[t], n), p.peers[i].commit)
  {
    var log := p.peers[i].log;
    assert PeerLogOk(p, i) && LeadLogOk(p, t) && CommitOk(p, i);
    LogOkPrefix(p.lead, p.lead[t], p.lead[t][..n]);
    LeaderHasCommitted(p, t, log, p.peers[i].commit, t);
  }

  lemma AcceptKeepsInv(p: Proto, i: ServerId, r: AppendRequest)
    requires Inv(p) && i in p.peers && Append(r) in p.msgs && MsgOk(p, Append(r))
    requires r.term == p.peers[i].term && p.peers[i].role == Follower
    ensures Inv(Accept(p, i, r)) && Extends(p, Accept(p, i, r))
  {
    var p' := Accept(p, i, r);
    var q, q' := p.peers[i], p'.peers[i];
    var n := r.prevIndex + |r.entries|;
    SameLead(p, p');
    assert Step(p, p', i);
    TakenOk(p, i, r.term, n);
    assert PeerLogOk(p', i);
    LogsFrame(p, p', i);
    VotesFrame(p, p', i);
    CandidatesFrame(p, p', i);
    ElectionsFrame(p, p', i);
    LeadersFrame(p, p', i);
    forall a, k: nat | a in p.acks && AckOk(p, a)
      ensures StillHeld(p, p', i, a, k)
    {
      if a.server == i && k <= a.upTo && Kept(p.lead, a.term, k, q'.term) && Agree(p.lead[a.term], q.log, k) {
        assert Agree(p.lead[a.term], p.lead[r.term], k);
      }
    }
    AcksFrame(p, p', i);
    VotesHeldFrame(p, p', i);
    assert CommitOk(p, i);
    if r.leaderCommit > q.commit {
      GrowCommitted(p, p', r.term, p.lead[r.term], r.term, q'.log, r.leaderCommit);
    } else {
      GrowCommitted(p, p', q.term, q.log, q.term, q'.log, q.commit);
    }
    CommitsFrame(p, p', i);
    assert Acked(p', i, r.term, n);
    MessagesFrame(p, p', i);
  }

  /** A follower drops the entries from a position where it differs from the leader. */
  ghost function Cut(p: Proto, i: ServerId, n: nat): Proto
    requires i in p.peers && n <= |p.peers[i].log|
  {
    p.(peers := p.peers[i := p.peers[i].(log := p.peers[i].log[..n])])
  }

  lemma CutKeepsInv(p: Proto, i: ServerId, n: nat, t: Term)
    requires Inv(p) && i in p.peers && p.peers[i].term == t && p.peers[i].role == Follower
    requires t in p.lead && n < |p.peers[i].log| && n < |p.lead[t]|
    requires p.peers[i].log[n].term != p.lead[t][n].term && p.peers[i].commit <= n
    ensures Inv(Cut(p, i, n)) && Extends(p, Cut(p, i, n))
  {
    var p' := Cut(p, i, n);
    var q, q' := p.peers[i], p'.peers[i];
    SameLead(p, p');
    assert Step(p, p', i);
    assert PeerLogOk(p, i);
    LogOkPrefix(p.lead, q.log, q'.log);
    assert PeerLogOk(p', i);
    LogsFrame(p, p', i);
    VotesFrame(p, p', i);
    CandidatesFrame(p, p', i);
    ElectionsFrame(p, p', i);
    LeadersFrame(p, p', i);
    forall a, k: nat | a in p.acks && AckOk(p, a)
      ensures StillHeld(p, p', i, a, k)
    {
      if a.server == i && k <= a.upTo && Kept(p.lead, a.term, k, q'.term) && Agree(p.lead[a.term], q.log, k) {
        assert Agree(p.lead[a.term], p.lead[t], k);
      }
    }
    AcksFrame(p, p', i);
    VotesHeldFrame(p, p', i);
    assert CommitOk(p, i);
    GrowCommitted(p, p', q.term, q.log, q.term, q'.log, q.commit);
    CommitsFrame(p, p', i);
    MessagesFrame(p, p', i);
  }

  /** A leader that counts a quorum of match records at an entry of its own term has it chosen. */
  lemma QuorumMatchIsChosen(p: Proto, i: ServerId, q: set<ServerId>, k: LogIndex)
    requires Inv(p) && i in p.peers && p.peers[i].role == Leader
    requires 0 < k <= |p.peers[i].log| && p.peers[i].log[k - 1].term == p.peers[i].term
    requires HasQuorum(p.members, q)
    requires forall s :: s in q ==> GetOr(p.peers[i].matched, s, 0) >= k
    ensures Chosen(p, p.peers[i].term, k)
    ensures Committed(p, p.peers[i].term, p.peers[i].log, k)
  {
    var t := p.peers[i].term;
    assert LeaderOk(p, i);
    forall s | s in q
      ensures Acked(p, s, t, k)
    {
      assert Acked(p, s, t, p.peers[i].matched[s]);
    }
    assert AckedByAll(p, q, t, k);
    assert CoveredBy(p, t, p.peers[i].log, k, t, k);
  }
}
