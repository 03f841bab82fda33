/** How one server's step carries each part of the cluster invariant over. */
module RaftFrame {
  import opened Basics
  import opened Model
  import opened RaftState
  import opened RaftProtocol

  /** Leaders' logs only get longer, and only by entries of their own term. */
  ghost predicate LeadGrows(a: map<Term, Log>, b: map<Term, Log>) {
    forall t {:trigger LeadExtends(a, b, t)} :: t in a ==> LeadExtends(a, b, t)
  }

  ghost predicate LeadExtends(a: map<Term, Log>, b: map<Term, Log>, t: Term)
    requires t in a
  {
    t in b && Agree(a[t], b[t], |a[t]|) && forall j :: |a[t]| <= j < |b[t]| ==> b[t][j].term == t
  }

  /** The recorded history only grows. */
  ghost predicate Extends(p: Proto, p': Proto) {
    && p'.members == p.members && LeadGrows(p.lead, p'.lead) && p.acks <= p'.acks
    && forall t {:trigger SameElection(p, p', t)} :: t in p.elect ==> SameElection(p, p', t)
  }

  ghost predicate SameElection(p: Proto, p': Proto, t: Term)
    requires t in p.elect
  {
    t in p'.elect && p'.elect[t] == p.elect[t]
  }

  /** The history only grows, and of the servers only `i` changes. */
  ghost predicate Step(p: Proto, p': Proto, i: ServerId) {
    && Extends(p, p')
    && i in p.peers && i in p'.peers && p'.peers == p.peers[i := p'.peers[i]]
    && p.peers[i].term <= p'.peers[i].term
    && p.votes <= p'.votes && p.msgs <= p'.msgs
  }

  /** `i` is a candidate afterwards only if it just became one in a new term or already was one. */
  ghost predicate CandidacyKept(p: Proto, p': Proto, i: ServerId)
    requires Step(p, p', i)
  {
    p'.peers[i].role == Candidate ==>
      || p.peers[i].term < p'.peers[i].term
      || (p.peers[i].role == Candidate && p'.peers[i].log == p.peers[i].log)
  }

  // ----- Growth -----

  lemma GrowLogOk(a: map<Term, Log>, b: map<Term, Log>, log: Log)
    requires LeadGrows(a, b) && LogOk(a, log)
    ensures LogOk(b, log)
  {
    forall i | 0 <= i < |log|
      ensures Follows(b, log, i)
    {
      assert Follows(a, log, i);
      assert LeadExtends(a, b, log[i].term);
    }
  }

  lemma GrowKept(a: map<Term, Log>, b: map<Term, Log>, t: Term, k: nat, upTo: int)
    requires LeadGrows(a, b) && t in a && k <= |a[t]| && TermsAtMost(a[t], t)
    requires t in b && k <= |b[t]| && Kept(b, t, k, upTo)
    ensures Kept(a, t, k, upTo)
  {
    forall u | u in a && t < u <= upTo
      ensures Agree(a[t], a[u], k)
    {
      assert LeadExtends(a, b, t) && LeadExtends(a, b, u);
      assert Agree(b[t], b[u], k);
      assert k > 0 ==> b[u][k - 1] == b[t][k - 1] && b[t][k - 1].term <= t;
      assert k <= |a[u]|;
    }
  }

  lemma ExtendsTrans(a: Proto, b: Proto, c: Proto)
    requires Extends(a, b) && Extends(b, c)
    ensures Extends(a, c)
  {
    forall t | t in a.elect
      ensures SameElection(a, c, t)
    {
      assert SameElection(a, b, t) && SameElection(b, c, t);
    }
    forall t | t in a.lead
      ensures LeadExtends(a.lead, c.lead, t)
    {
      assert LeadExtends(a.lead, b.lead, t) && LeadExtends(b.lead, c.lead, t);
    }
  }

  lemma GrowChosen(p: Proto, p': Proto, t: Term, k: nat)
    requires Extends(p, p') && Chosen(p, t, k)
    ensures Chosen(p', t, k) && t in p.lead && Agree(p.lead[t], p'.lead[t], |p.lead[t]|)
  {
    assert LeadExtends(p.lead, p'.lead, t);
    var q :| AckedByAll(p, q, t, k);
    forall s | s in q
      ensures Acked(p', s, t, k)
    {
      assert Acked(p, s, t, k);
    }
    assert AckedByAll(p', q, t, k);
  }

  lemma GrowCommitted(p: Proto, p': Proto, term: Term, log: Log, term': Term, log': Log, c: nat)
    requires Extends(p, p') && Committed(p, term, log, c)
    requires term <= term' && Agree(log, log', c)
    ensures Committed(p', term', log', c)
  {
    if c > 0 {
      var t: Term, k: nat :| CoveredBy(p, term, log, c, t, k);
      GrowChosen(p, p', t, k);
      assert CoveredBy(p', term', log', c, t, k);
    }
  }

  lemma GrowSupported(p: Proto, p': Proto, t: Term, voter: ServerId, candidate: ServerId)
    requires p.votes <= p'.votes && Supported(p, t, voter, candidate)
    ensures Supported(p', t, voter, candidate)
  {
  }

  // ----- One part of the invariant at a time -----

  lemma LogsFrame(p: Proto, p': Proto, i: ServerId)
    requires LogsInv(p) && Step(p, p', i)
    requires PeerLogOk(p', i)
    requires forall t :: t in p'.lead && (t !in p.lead || p'.lead[t] != p.lead[t]) ==> LeadLogOk(p', t)
    requires forall v :: v in p'.votes && v !in p.votes ==> VoteLogOk(p', v)
    ensures LogsInv(p')
  {
    forall j | j in p'.peers
      ensures PeerLogOk(p', j)
    {
      if j != i {
        assert PeerLogOk(p, j);
        GrowLogOk(p.lead, p'.lead, p.peers[j].log);
      }
    }
    forall t | t in p'.lead
      ensures LeadLogOk(p', t)
    {
      if t in p.lead && p'.lead[t] == p.lead[t] {
        assert LeadLogOk(p, t);
        GrowLogOk(p.lead, p'.lead, p.lead[t]);
      }
    }
    forall v | v in p'.votes
      ensures VoteLogOk(p', v)
    {
      if v in p.votes {
        assert VoteLogOk(p, v);
        GrowLogOk(p.lead, p'.lead, v.log);
      }
    }
  }

  lemma VotesFrame(p: Proto, p': Proto, i: ServerId)
    requires VoteInv(p) && Step(p, p', i) && CandidacyKept(p, p', i)
    requires p'.peers[i].term == p.peers[i].term && p.peers[i].vote.Some? ==>
               p'.peers[i].vote == p.peers[i].vote
    requires forall v :: v in p'.votes && v !in p.votes ==> VoteOk(p', v)
    requires forall v, w :: v in p'.votes && v !in p.votes && w in p'.votes ==> SameBallot(v, w)
    ensures VoteInv(p')
  {
    forall v | v in p'.votes
      ensures VoteOk(p', v)
    {
      if v in p.votes {
        assert VoteOk(p, v);
        if v.late { assert LeadExtends(p.lead, p'.lead, v.term); }
      }
    }
    forall v, w | v in p'.votes && w in p'.votes
      ensures SameBallot(v, w)
    {
      if v in p.votes && w in p.votes {
        assert SameBallot(v, w);
      } else if v in p.votes {
        assert SameBallot(w, v);
      }
    }
  }

  lemma CandidatesFrame(p: Proto, p': Proto, i: ServerId)
    requires CandidateInv(p) && Step(p, p', i) && CandidateOk(p', i)
    ensures CandidateInv(p')
  {
    forall j | j in p'.peers
      ensures CandidateOk(p', j)
    {
      if j != i {
        assert CandidateOk(p, j);
        if p.peers[j].role == Candidate {
          forall s | s in p.peers[j].votes
            ensures Supported(p', p'.peers[j].term, s, j)
          {
            assert Supported(p, p.peers[j].term, s, j);
            GrowSupported(p, p', p.peers[j].term, s, j);
          }
        }
      }
    }
  }

  lemma ElectionsFrame(p: Proto, p': Proto, i: ServerId)
    requires ElectInv(p) && Step(p, p', i) && CandidacyKept(p, p', i)
    requires p'.elect.Keys == p'.lead.Keys
    requires forall t :: t in p.elect ==> t in p'.elect && p'.elect[t] == p.elect[t]
    requires forall t :: t in p'.elect && t !in p.elect ==> ElectionOk(p', t)
    ensures ElectInv(p')
  {
    forall t | t in p'.elect
      ensures ElectionOk(p', t)
    {
      if t in p.elect {
        assert ElectionOk(p, t);
        assert LeadExtends(p.lead, p'.lead, t);
        forall s | s in p'.elect[t].voters
          ensures Backed(p', t, s)
        {
          assert Backed(p, t, s);
        }
      }
    }
  }

  lemma LeadersFrame(p: Proto, p': Proto, i: ServerId)
    requires LeaderInv(p) && Step(p, p', i) && LeaderOk(p', i)
    requires forall t :: t in p.elect ==> t in p'.elect && p'.elect[t] == p.elect[t]
    requires forall t :: t in p.lead && t in p.elect && p.elect[t].leader != i ==>
               t in p'.lead && p'.lead[t] == p.lead[t]
    ensures LeaderInv(p')
  {
    forall j | j in p'.peers
      ensures LeaderOk(p', j)
    {
      if j != i {
        assert LeaderOk(p, j);
        var q := p.peers[j];
        if q.role == Leader {
          forall s | s in q.matched && q.matched[s] > 0
            ensures Acked(p', s, q.term, q.matched[s])
          {
            assert Acked(p, s, q.term, q.matched[s]);
          }
          assert MatchOk(p', p'.peers[j]);
        }
      }
    }
  }

  /** `i` still holds what it acknowledged earlier, as far as every later leader does. */
  ghost predicate StillHeld(p: Proto, p': Proto, i: ServerId, a: Ack, k: nat)
    requires Step(p, p', i) && AckOk(p, a)
  {
    a.server == i && k <= a.upTo && Kept(p.lead, a.term, k, p'.peers[i].term)
    && Agree(p.lead[a.term], p.peers[i].log, k) ==>
      Agree(p.lead[a.term], p'.peers[i].log, k)
  }

  lemma AcksFrame(p: Proto, p': Proto, i: ServerId)
    requires LogsInv(p) && AckInv(p) && Step(p, p', i)
    requires forall a, k: nat {:trigger StillHeld(p, p', i, a, k)} ::
               a in p.acks && AckOk(p, a) ==> StillHeld(p, p', i, a, k)
    requires forall a :: a in p'.acks && a !in p.acks ==>
               AckOk(p', a) && forall k: nat {:trigger AckHeld(p', a, k)} :: AckHeld(p', a, k)
    ensures AckInv(p')
  {
    forall a | a in p'.acks
      ensures AckOk(p', a) && forall k: nat {:trigger AckHeld(p', a, k)} :: AckHeld(p', a, k)
    {
      if a in p.acks {
        assert AckOk(p, a);
        assert LeadExtends(p.lead, p'.lead, a.term) && LeadLogOk(p, a.term);
        forall k: nat
          ensures AckHeld(p', a, k)
        {
          if k <= a.upTo && Kept(p'.lead, a.term, k, p'.peers[a.server].term) {
            GrowKept(p.lead, p'.lead, a.term, k, p'.peers[a.server].term);
            assert Kept(p.lead, a.term, k, p.peers[a.server].term);
            assert AckHeld(p, a, k);
            assert StillHeld(p, p', i, a, k);
          }
        }
      }
    }
  }

  lemma VotesHeldFrame(p: Proto, p': Proto, i: ServerId)
    requires LogsInv(p) && VoteInv(p') && AckInv(p) && VoteHeldInv(p) && AckInv(p') && Step(p, p', i)
    requires forall a :: a in p'.acks && a !in p.acks ==>
               a.server == i && a.term == p'.peers[i].term
    requires forall v :: v in p'.votes && v !in p.votes && !v.late ==>
               v.voter == i && v.term == p'.peers[i].term && v.log == p.peers[i].log && v.term !in p.lead
    ensures VoteHeldInv(p')
  {
    forall v, a, k: nat | v in p'.votes && a in p'.acks
      ensures AckOk(p', a) && VoteHeld(p', v, a, k)
    {
      assert AckOk(p', a) && VoteOk(p', v);
      if !v.late && v.voter == a.server && a.term < v.term && k <= a.upTo
         && Kept(p'.lead, a.term, k, v.term - 1) {
        assert a in p.acks;
        assert AckOk(p, a) && LeadExtends(p.lead, p'.lead, a.term) && LeadLogOk(p, a.term);
        GrowKept(p.lead, p'.lead, a.term, k, v.term - 1);
        if v in p.votes {
          assert VoteHeld(p, v, a, k);
        } else {
          assert Kept(p.lead, a.term, k, p.peers[i].term);
          assert AckHeld(p, a, k);
        }
      }
    }
  }

  lemma CommitsFrame(p: Proto, p': Proto, i: ServerId)
    requires CommitInv(p) && Step(p, p', i) && CommitOk(p', i)
    ensures CommitInv(p')
  {
    forall j | j in p'.peers
      ensures CommitOk(p', j)
    {
      if j != i {
        assert CommitOk(p, j);
        var q := p.peers[j];
        GrowCommitted(p, p', q.term, q.log, q.term, q.log, q.commit);
      }
    }
  }

  lemma GrowMessage(p: Proto, p': Proto, i: ServerId, m: Message)
    requires Step(p, p', i) && CandidacyKept(p, p', i) && MsgOk(p, m)
    ensures MsgOk(p', m)
  {
    match m
    case AskVote(r) =>
    case VoteReply(voter, candidate, term, granted) =>
      if granted { GrowSupported(p, p', term, voter, candidate); }
    case Append(r) =>
      assert LeadExtends(p.lead, p'.lead, r.term);
      GrowCommitted(p, p', r.term, p.lead[r.term], r.term, p'.lead[r.term], r.leaderCommit);
    case AppendReply(follower, term, upTo) =>
    case Install(r) =>
      assert LeadExtends(p.lead, p'.lead, r.term);
      GrowCommitted(p, p', r.term, p.lead[r.term], r.term, p'.lead[r.term], r.meta.lastIndex);
  }

  lemma MessagesFrame(p: Proto, p': Proto, i: ServerId)
    requires MsgInv(p) && Step(p, p', i) && CandidacyKept(p, p', i)
    requires forall m :: m in p'.msgs && m !in p.msgs ==> MsgOk(p, m) || MsgOk(p', m)
    ensures MsgInv(p')
  {
    forall m | m in p'.msgs
      ensures MsgOk(p', m)
    {
      if m in p.msgs || MsgOk(p, m) {
        assert MsgOk(p, m);
        GrowMessage(p, p', i, m);
      }
    }
  }
}
