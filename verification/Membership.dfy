/** Voter sets of a Raft group, plain or joint, and why any two quorums meet. */
module Membership {
  import opened Basics
  import opened Model

  datatype Membership = Membership(
    voters: set<ServerId>, outgoing: Option<set<ServerId>>, learners: set<ServerId>)

  predicate HasMajority(voters: set<ServerId>, matched: set<ServerId>) {
    |matched * voters| >= |voters| / 2 + 1
  }

  predicate HasQuorum(m: Membership, matched: set<ServerId>) {
    HasMajority(m.voters, matched)
    && (m.outgoing.Some? ==> HasMajority(m.outgoing.value, matched))
  }

  function AllVoters(m: Membership): set<ServerId> {
    m.voters + (if m.outgoing.Some? then m.outgoing.value else {})
  }

  predicate IsVoter(m: Membership, server: ServerId) {
    server in AllVoters(m)
  }

  predicate IsMember(m: Membership, server: ServerId) {
    IsVoter(m, server) || server in m.learners
  }

  /** Entering joint consensus keeps the old voters as the outgoing half. */
  function EnterJoint(m: Membership, next: set<ServerId>): (r: Result<Membership, ()>)
    ensures r.Ok? <==> next != {}
  {
    if next == {} then Err(()) else Ok(m.(outgoing := Some(m.voters), voters := next))
  }

  function FinalizeJoint(m: Membership): Membership {
    m.(outgoing := None)
  }

  function AddVoter(m: Membership, server: ServerId): Membership {
    m.(learners := m.learners - {server}, voters := m.voters + {server})
  }

  function RemoveVoter(m: Membership, server: ServerId): (r: Result<Membership, ()>)
    ensures r.Ok? <==> m.voters != {server}
  {
    if |m.voters| == 1 && server in m.voters then
      SingletonSet(m.voters, server);
      Err(())
    else
      Ok(m.(voters := m.voters - {server}, learners := m.learners - {server}))
  }

  lemma SingletonSet(s: set<ServerId>, x: ServerId)
    requires |s| == 1 && x in s
    ensures s == {x}
  {
    assert |s - {x}| == 0;
  }

  /** Two sets that are each larger than half of `u` share an element of `u`. */
  lemma MajoritiesMeet(u: set<ServerId>, a: set<ServerId>, b: set<ServerId>) returns (w: ServerId)
    requires |a * u| + |b * u| > |u|
    ensures w in a && w in b && w in u
  {
    var x, y := a * u, b * u;
    if x * y == {} {
      assert |x + y| == |x| + |y|;
      SubsetSize(x + y, u);
      assert false;
    }
    w :| w in x * y;
  }

  lemma SubsetSize(a: set<ServerId>, b: set<ServerId>)
    requires a <= b
    ensures |a| <= |b|
  {
    assert b == a + (b - a);
  }

  /** Any two quorums of one membership, joint or not, have a voter in common. */
  lemma QuorumsIntersect(m: Membership, a: set<ServerId>, b: set<ServerId>) returns (w: ServerId)
    requires HasQuorum(m, a) && HasQuorum(m, b)
    ensures w in a && w in b && w in m.voters
  {
    w := MajoritiesMeet(m.voters, a, b);
  }

  /** Across a joint change no quorum of a phase misses a quorum of the next phase. */
  lemma JointPhasesOverlap(old_: Membership, next: set<ServerId>, a: set<ServerId>, b: set<ServerId>, c: set<ServerId>)
    requires old_.outgoing.None? && next != {}
    requires HasQuorum(old_, a)
    requires HasQuorum(EnterJoint(old_, next).value, b)
    requires HasQuorum(FinalizeJoint(EnterJoint(old_, next).value), c)
    ensures a * b != {} && b * c != {}
  {
    var x := MajoritiesMeet(old_.voters, a, b);
    var y := MajoritiesMeet(next, b, c);
    assert x in a * b && y in b * c;
  }

  /** Adding or removing one voter outside a joint phase also keeps quorums overlapping. */
  lemma SingleChangeOverlap(m: Membership, server: ServerId, a: set<ServerId>, b: set<ServerId>)
    requires m.outgoing.None? && HasQuorum(m, a)
    requires HasQuorum(AddVoter(m, server), b)
             || (RemoveVoter(m, server).Ok? && HasQuorum(RemoveVoter(m, server).value, b))
    ensures a * b != {}
  {
    var v := m.voters;
    var big := v + {server};
    var small := v - {server};
    SubsetSize(a * v, a * big);
    SubsetSize(b * small, b * v);
    assert |small| <= |v| <= |big| <= |small| + 1 by {
      assert big == small + {server};
      SubsetSize(small, v);
      SubsetSize(v, big);
    }
    var w: ServerId;
    if HasQuorum(AddVoter(m, server), b) {
      w := MajoritiesMeet(big, a, b);
    } else {
      w := MajoritiesMeet(v, a, b);
    }
    assert w in a * b;
  }

  /** More acknowledgements never lose a quorum, and none at all never make one. */
  lemma QuorumGrows(m: Membership, a: set<ServerId>, b: set<ServerId>)
    requires a <= b && HasQuorum(m, a)
    ensures HasQuorum(m, b) && a != {}
  {
    SubsetSize(a * m.voters, b * m.voters);
    if m.outgoing.Some? { SubsetSize(a * m.outgoing.value, b * m.outgoing.value); }
    assert {} * m.voters == {};
  }

  /** A quorum is more than half of the voters, and in a joint phase more than half of both halves. */
  lemma QuorumExactly(m: Membership, a: set<ServerId>)
    ensures HasQuorum(m, a) <==>
            && 2 * |a * m.voters| > |m.voters|
            && (m.outgoing.Some? ==> 2 * |a * m.outgoing.value| > |m.outgoing.value|)
  {
  }

  /** Who votes after a change, and what happens to learners. */
  lemma ChangesMean(m: Membership, server: ServerId, next: set<ServerId>, x: ServerId)
    ensures IsVoter(AddVoter(m, server), x) <==> x == server || IsVoter(m, x)
    ensures IsMember(AddVoter(m, server), x) <==> x == server || IsMember(m, x)
    ensures var r := RemoveVoter(m, server);
            r.Ok? && m.outgoing.None? ==> (IsMember(r.value, x) <==> x != server && IsMember(m, x))
    ensures next != {} ==> (IsVoter(EnterJoint(m, next).value, x) <==> x in next || x in m.voters)
    ensures next != {} ==> FinalizeJoint(EnterJoint(m, next).value) == m.(voters := next, outgoing := None)
  {
  }
}
