/**
 * The safety argument for a cluster, over full logs and a recorded history.
 *
 * `lead[t]` is the log of the leader of term `t` as it stood when that leader last extended
 * it. Every log in the system is pieced together from prefixes of these, which gives Log
 * Matching directly; votes remember the voter's log, acknowledgements remember how much of
 * `lead[t]` a server had taken in term `t`, and leader completeness follows by induction on
 * terms without any further invariant about overwritten entries.
 */
module RaftProtocol {
  import opened Basics
  import opened Model
  import opened Membership
  import opened RaftState

  type Log = seq<LogEntry>

  /** One server seen with its whole log, compacted entries included. */
  datatype Peer = Peer(
    term: Term, vote: Option<ServerId>, role: Role, log: Log, commit: nat,
    votes: set<ServerId>, matched: map<ServerId, LogIndex>)

  /** A granted vote, with the voter's log at that moment. `late` votes follow the election. */
  datatype Vote = Vote(term: Term, voter: ServerId, candidate: ServerId, log: Log, late: bool)

  /** While in `term`, `server` held the first `upTo` entries of that term's leader. */
  datatype Ack = Ack(term: Term, server: ServerId, upTo: nat)

  datatype Election = Election(leader: ServerId, voters: set<ServerId>, log: Log)

  datatype Message =
    | AskVote(req: VoteRequest)
    | VoteReply(voter: ServerId, candidate: ServerId, term: Term, granted: bool)
    | Append(append: AppendRequest)
    | AppendReply(follower: ServerId, term: Term, upTo: nat)
    | Install(install: SnapshotRequest)

  datatype Proto = Proto(
    members: Membership,
    peers: map<ServerId, Peer>,
    msgs: set<Message>,
    lead: map<Term, Log>,
    elect: map<Term, Election>,
    votes: set<Vote>,
    acks: set<Ack>)

  // ----- Vocabulary -----

  function TermOfLast(log: Log): Term {
    if log == [] then 0 else log[|log| - 1].term
  }

  /** `a` may win a vote from a server whose log is `b`. */
  predicate UpToDate(a: Log, b: Log) {
    TermOfLast(a) > TermOfLast(b) || (TermOfLast(a) == TermOfLast(b) && |a| >= |b|)
  }

  ghost predicate TermsAtMost(log: Log, t: Term) {
    forall i :: 0 <= i < |log| ==> log[i].term <= t
  }

  /** The logs share their first `n` entries. */
  ghost predicate Agree(a: Log, b: Log, n: nat) {
    n <= |a| && n <= |b| && forall j :: 0 <= j < n ==> a[j] == b[j]
  }

  /** Entry `i` sits at its own index, behind exactly the entries its leader had there. */
  ghost predicate Follows(lead: map<Term, Log>, log: Log, i: nat)
    requires i < |log|
  {
    log[i].index == i + 1 && log[i].term in lead && Agree(log, lead[log[i].term], i + 1)
  }

  ghost predicate LogOk(lead: map<Term, Log>, log: Log) {
    forall i {:trigger Follows(lead, log, i)} :: 0 <= i < |log| ==> Follows(lead, log, i)
  }

  ghost predicate Acked(p: Proto, server: ServerId, t: Term, k: nat) {
    exists n :: n >= k && Ack(t, server, n) in p.acks
  }

  /** A quorum acknowledged the first `k` entries of term `t`'s leader, the last one of term `t`. */
  ghost predicate Chosen(p: Proto, t: Term, k: nat) {
    && t in p.lead && 0 < k <= |p.lead[t]| && p.lead[t][k - 1].term == t
    && exists q :: AckedByAll(p, q, t, k)
  }

  ghost predicate AckedByAll(p: Proto, q: set<ServerId>, t: Term, k: nat) {
    HasQuorum(p.members, q) && forall s {:trigger Acked(p, s, t, k)} :: s in q ==> Acked(p, s, t, k)
  }

  /** Every leader of a term in (`t`, `upTo`] holds the first `k` entries of leader `t`. */
  ghost predicate Kept(lead: map<Term, Log>, t: Term, k: nat, upTo: int)
    requires t in lead && k <= |lead[t]|
  {
    forall u {:trigger Agree(lead[t], lead[u], k)} :: u in lead && t < u <= upTo ==> Agree(lead[t], lead[u], k)
  }

  /** The first `c` entries of `log` are covered by something chosen no later than `term`. */
  ghost predicate Committed(p: Proto, term: Term, log: Log, c: nat) {
    c <= |log| && (c == 0 || exists t, k :: CoveredBy(p, term, log, c, t, k))
  }

  ghost predicate CoveredBy(p: Proto, term: Term, log: Log, c: nat, t: Term, k: nat) {
    Chosen(p, t, k) && t <= term && c <= k && Agree(p.lead[t], log, c)
  }

  // ----- The invariant -----

  // Each quantifier below is triggered only by the name of its own body, so that a proof
  // sees exactly the instances it mentions.

  ghost predicate LogsInv(p: Proto) {
    && (forall i {:trigger PeerLogOk(p, i)} :: i in p.peers ==> PeerLogOk(p, i))
    && (forall t {:trigger LeadLogOk(p, t)} :: t in p.lead ==> LeadLogOk(p, t))
    && (forall v {:trigger VoteLogOk(p, v)} :: v in p.votes ==> VoteLogOk(p, v))
  }

  ghost predicate PeerLogOk(p: Proto, i: ServerId)
    requires i in p.peers
  {
    LogOk(p.lead, p.peers[i].log) && TermsAtMost(p.peers[i].log, p.peers[i].term)
  }

  ghost predicate LeadLogOk(p: Proto, t: Term)
    requires t in p.lead
  {
    LogOk(p.lead, p.lead[t]) && TermsAtMost(p.lead[t], t)
  }

  ghost predicate VoteLogOk(p: Proto, v: Vote) {
    LogOk(p.lead, v.log)
  }

  ghost predicate VoteOk(p: Proto, v: Vote) {
    && v.voter in p.peers && v.candidate in p.peers
    && v.term <= p.peers[v.voter].term && v.term <= p.peers[v.candidate].term
    && (v.term == p.peers[v.voter].term ==> p.peers[v.voter].vote == Some(v.candidate))
    && (v.late ==> v.term in p.lead)
    && (v.term == p.peers[v.candidate].term && p.peers[v.candidate].role == Candidate ==>
          UpToDate(p.peers[v.candidate].log, v.log))
  }

  ghost predicate VoteInv(p: Proto) {
    && (forall v {:trigger VoteOk(p, v)} :: v in p.votes ==> VoteOk(p, v))
    && (forall v, w {:trigger SameBallot(v, w)} :: v in p.votes && w in p.votes ==> SameBallot(v, w))
  }

  /** A voter backs one candidate per term. */
  ghost predicate SameBallot(v: Vote, w: Vote) {
    v.voter == w.voter && v.term == w.term ==> v.candidate == w.candidate
  }

  ghost predicate Supported(p: Proto, t: Term, voter: ServerId, candidate: ServerId) {
    exists v :: v in p.votes && v.term == t && v.voter == voter && v.candidate == candidate
  }

  ghost predicate CandidateInv(p: Proto) {
    forall i {:trigger CandidateOk(p, i)} :: i in p.peers ==> CandidateOk(p, i)
  }

  ghost predicate CandidateOk(p: Proto, i: ServerId)
    requires i in p.peers
  {
    p.peers[i].role == Candidate ==>
      forall s {:trigger Supported(p, p.peers[i].term, s, i)} ::
        s in p.peers[i].votes ==> Supported(p, p.peers[i].term, s, i)
  }

  /** The voter `s` helped elect the leader of `t`, on a log no longer than the leader's. */
  ghost predicate Backed(p: Proto, t: Term, s: ServerId)
    requires t in p.elect
  {
    exists v :: v in p.votes && v.term == t && v.voter == s && v.candidate == p.elect[t].leader
                && !v.late && UpToDate(p.elect[t].log, v.log)
  }

  ghost predicate ElectionOk(p: Proto, t: Term)
    requires t in p.elect && t in p.lead
  {
    && HasQuorum(p.members, p.elect[t].voters)
    && Agree(p.elect[t].log, p.lead[t], |p.elect[t].log|)
    && (forall i :: 0 <= i < |p.elect[t].log| ==> p.elect[t].log[i].term < t)
    && p.elect[t].leader in p.peers
    && t <= p.peers[p.elect[t].leader].term
    && (t == p.peers[p.elect[t].leader].term ==> p.peers[p.elect[t].leader].role != Candidate)
    && (forall s {:trigger Backed(p, t, s)} :: s in p.elect[t].voters ==> Backed(p, t, s))
  }

  ghost predicate ElectInv(p: Proto) {
    p.elect.Keys == p.lead.Keys && forall t {:trigger ElectionOk(p, t)} :: t in p.elect ==> ElectionOk(p, t)
  }

  ghost predicate LeaderOk(p: Proto, i: ServerId)
    requires i in p.peers
  {
    p.peers[i].role == Leader ==>
      && p.peers[i].term in p.lead && p.peers[i].term in p.elect
      && p.elect[p.peers[i].term].leader == i
      && p.lead[p.peers[i].term] == p.peers[i].log
      && MatchOk(p, p.peers[i])
  }

  /** A leader's match records are backed by acknowledgements of its own term. */
  ghost predicate MatchOk(p: Proto, q: Peer) {
    forall s {:trigger q.matched[s]} :: s in q.matched && q.matched[s] > 0 ==> Acked(p, s, q.term, q.matched[s])
  }

  ghost predicate LeaderInv(p: Proto) {
    forall i {:trigger LeaderOk(p, i)} :: i in p.peers ==> LeaderOk(p, i)
  }

  ghost predicate AckOk(p: Proto, a: Ack) {
    && a.term in p.lead && a.upTo <= |p.lead[a.term]|
    && a.server in p.peers && a.term <= p.peers[a.server].term
  }

  /** Unless some later leader already lost it, the server still holds what it acknowledged. */
  ghost predicate AckHeld(p: Proto, a: Ack, k: nat)
    requires AckOk(p, a)
  {
    k <= a.upTo && Kept(p.lead, a.term, k, p.peers[a.server].term) ==>
      Agree(p.lead[a.term], p.peers[a.server].log, k)
  }

  ghost predicate AckInv(p: Proto) {
    forall a {:trigger AckOk(p, a)} :: a in p.acks ==>
      AckOk(p, a) && forall k: nat {:trigger AckHeld(p, a, k)} :: AckHeld(p, a, k)
  }

  /** The same, as of the moment of an earlier vote. */
  ghost predicate VoteHeld(p: Proto, v: Vote, a: Ack, k: nat)
    requires AckOk(p, a)
  {
    !v.late && v.voter == a.server && a.term < v.term && k <= a.upTo
    && Kept(p.lead, a.term, k, v.term - 1) ==>
      Agree(p.lead[a.term], v.log, k)
  }

  ghost predicate VoteHeldInv(p: Proto) {
    forall v, a, k: nat {:trigger VoteHeld(p, v, a, k)} :: v in p.votes && a in p.acks ==>
      AckOk(p, a) && VoteHeld(p, v, a, k)
  }

  ghost predicate CommitInv(p: Proto) {
    forall i {:trigger CommitOk(p, i)} :: i in p.peers ==> CommitOk(p, i)
  }

  ghost predicate CommitOk(p: Proto, i: ServerId)
    requires i in p.peers
  {
    Committed(p, p.peers[i].term, p.peers[i].log, p.peers[i].commit)
  }

  ghost predicate MsgOk(p: Proto, m: Message) {
    match m
    case AskVote(r) =>
      && r.candidate in p.peers && r.term <= p.peers[r.candidate].term
      && (r.term == p.peers[r.candidate].term && p.peers[r.candidate].role == Candidate ==>
            r.lastIndex == |p.peers[r.candidate].log| && r.lastTerm == TermOfLast(p.peers[r.candidate].log))
    case VoteReply(voter, candidate, term, granted) =>
      granted ==> Supported(p, term, voter, candidate)
    case Append(r) =>
      && r.term in p.lead
      && r.prevIndex + |r.entries| <= |p.lead[r.term]|
      && (forall j :: 0 <= j < |r.entries| ==> r.entries[j] == p.lead[r.term][r.prevIndex + j])
      && (r.prevIndex > 0 ==> r.prevTerm == p.lead[r.term][r.prevIndex - 1].term)
      && r.leaderCommit <= r.prevIndex + |r.entries|
      && Committed(p, r.term, p.lead[r.term], r.leaderCommit)
    case AppendReply(follower, term, upTo) =>
      Acked(p, follower, term, upTo)
    case Install(r) =>
      && r.term in p.lead
      && 0 < r.meta.lastIndex <= |p.lead[r.term]|
      && r.meta.lastTerm == p.lead[r.term][r.meta.lastIndex - 1].term
      && Committed(p, r.term, p.lead[r.term], r.meta.lastIndex)
  }

  ghost predicate MsgInv(p: Proto) {
    forall m {:trigger MsgOk(p, m)} :: m in p.msgs ==> MsgOk(p, m)
  }

  ghost predicate Inv(p: Proto) {
    && LogsInv(p) && VoteInv(p) && CandidateInv(p) && ElectInv(p) && LeaderInv(p)
    && AckInv(p) && VoteHeldInv(p) && CommitInv(p) && MsgInv(p)
  }

  // ----- What the invariant means -----

  /** Log Matching: equal terms at an index make the logs equal up to it. */
  lemma LogMatching(lead: map<Term, Log>, a: Log, b: Log, i: nat)
    requires LogOk(lead, a) && LogOk(lead, b)
    requires i < |a| && i < |b| && a[i].term == b[i].term
    ensures Agree(a, b, i + 1)
  {
    assert Follows(lead, a, i) && Follows(lead, b, i);
  }

  /** Terms never decrease along a log. */
  lemma TermsSorted(p: Proto, log: Log, i: nat, j: nat)
    requires LogsInv(p) && LogOk(p.lead, log) && i <= j < |log|
    ensures log[i].term <= log[j].term
  {
    assert Follows(p.lead, log, j);
    assert LeadLogOk(p, log[j].term);
    assert p.lead[log[j].term][i] == log[i];
  }

  lemma LogOkPrefix(lead: map<Term, Log>, log: Log, cut: Log)
    requires LogOk(lead, log) && Agree(cut, log, |cut|)
    ensures LogOk(lead, cut)
  {
    forall i | 0 <= i < |cut|
      ensures Follows(lead, cut, i)
    {
      assert Follows(lead, log, i);
    }
  }

  /** An election winner's log holds whatever a backer held that reaches an entry of term `t`. */
  lemma WinnerHolds(p: Proto, t: Term, k: nat, t': Term, v: Vote)
    requires LogsInv(p) && ElectInv(p)
    requires Chosen(p, t, k) && t < t' && t' in p.lead
    requires Kept(p.lead, t, k, t' - 1)
    requires v in p.votes && UpToDate(p.elect[t'].log, v.log)
    requires Agree(p.lead[t], v.log, k)
    ensures Agree(p.lead[t], p.lead[t'], k)
  {
    var e := p.elect[t'].log;
    assert ElectionOk(p, t') && LeadLogOk(p, t') && VoteLogOk(p, v);
    LogOkPrefix(p.lead, p.lead[t'], e);
    var last := v.log[|v.log| - 1];
    TermsSorted(p, v.log, k - 1, |v.log| - 1);
    assert last.term >= t;
    var tau := TermOfLast(e);
    if tau == last.term {
      assert Follows(p.lead, e, |e| - 1) && Follows(p.lead, v.log, |v.log| - 1);
    } else {
      assert Follows(p.lead, e, |e| - 1);
      assert t < tau <= t' - 1;
      assert Agree(p.lead[t], p.lead[tau], k);
      assert LeadLogOk(p, tau);
      if |e| < k {
        TermsSorted(p, p.lead[tau], |e| - 1, k - 1);
        assert false;
      }
    }
  }

  /** Leader Completeness: what is chosen in term `t` is in the log of every later leader. */
  lemma {:induction false} LeaderCompleteness(p: Proto, t: Term, k: nat, t': Term)
    requires Inv(p) && Chosen(p, t, k) && t < t' && t' in p.lead
    ensures Agree(p.lead[t], p.lead[t'], k)
    decreases t'
  {
    forall u | u in p.lead && t < u <= t' - 1
      ensures Agree(p.lead[t], p.lead[u], k)
    {
      LeaderCompleteness(p, t, k, u);
    }
    var q :| AckedByAll(p, q, t, k);
    assert ElectionOk(p, t');
    var s := QuorumsIntersect(p.members, q, p.elect[t'].voters);
    assert Acked(p, s, t, k) && Backed(p, t', s);
    var n :| n >= k && Ack(t, s, n) in p.acks;
    var v :| v in p.votes && v.term == t' && v.voter == s && v.candidate == p.elect[t'].leader
             && !v.late && UpToDate(p.elect[t'].log, v.log);
    assert VoteHeld(p, v, Ack(t, s, n), k);
    WinnerHolds(p, t, k, t', v);
  }

  /** Two committed prefixes agree wherever both reach. */
  lemma CommittedAgree(p: Proto, ta: Term, a: Log, ca: nat, tb: Term, b: Log, cb: nat, n: nat)
    requires Inv(p) && Committed(p, ta, a, ca) && Committed(p, tb, b, cb)
    requires n <= ca && n <= cb
    ensures Agree(a, b, n)
  {
    if n > 0 {
      var t: Term, k: nat :| CoveredBy(p, ta, a, ca, t, k);
      var u: Term, m: nat :| CoveredBy(p, tb, b, cb, u, m);
      if t < u { LeaderCompleteness(p, t, k, u); }
      if u < t { LeaderCompleteness(p, u, m, t); }
      assert Agree(p.lead[t], p.lead[u], n);
    }
  }

  /** What a server has committed is in the log of the leader of its term or a later one. */
  lemma LeaderHasCommitted(p: Proto, term: Term, log: Log, c: nat, t: Term)
    requires Inv(p) && Committed(p, term, log, c) && term <= t && t in p.lead
    ensures Agree(log, p.lead[t], c)
  {
    if c > 0 {
      var u: Term, k: nat :| CoveredBy(p, term, log, c, u, k);
      if u < t { LeaderCompleteness(p, u, k, t); }
    }
  }
}
