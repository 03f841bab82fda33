/** Concrete states showing that the premises of the cluster and node theorems are needed. */
module RaftWitnesses {
  import opened Basics
  import opened Model
  import opened Membership
  import opened RaftState
  import opened RaftShape
  import opened RaftCluster
  import opened RaftNode

  const THREE := Membership({1, 2, 3}, None, {})

  function E(term: Term, index: LogIndex): LogEntry {
    PlainEntry(0, term, index, DeleteNode(index))
  }

  function Opened(id: ServerId, term: Term): Server {
    Server(id, 0, term, None, [], None, 0, Follower, None, THREE, map[], {})
  }

  function Holding(log: seq<LogEntry>, commit: LogIndex): Server {
    Opened(1, 1).(leaderId := Some(2), log := log, commit := commit)
  }

  lemma AbsorbHole()
    ensures Absorb(Holding([], 0), [E(1, 1), E(1, 5)]) == (Holding([E(1, 1), E(1, 5)], 0), None)
  {
    var one, two := Holding([E(1, 1)], 0), Holding([E(1, 1), E(1, 5)], 0);
    assert [E(1, 1), E(1, 5)][1..] == [E(1, 5)];
    assert EntryAt(one.log, 5) == None by { EntryAtContiguous(one.log, 0, 5); }
    assert one.log + [E(1, 5)] == two.log;
    assert Absorb(two, []) == (two, None);
    assert Absorb(one, [E(1, 5)]) == (two, None) by { assert [E(1, 5)][1..] == []; }
    assert [] + [E(1, 1)] == one.log;
  }

  lemma HoleAccepted()
    ensures AppendEntries(Opened(1, 1), AppendRequest(1, 2, 0, 0, [E(1, 1), E(1, 5)], 3)).0
            == Holding([E(1, 1), E(1, 5)], 3)
  {
    AbsorbHole();
    var log := [E(1, 1), E(1, 5)];
    assert log[..1] == [E(1, 1)];
    SortContiguous([E(1, 1)], 0);
    assert SortByIndex(log) == [E(1, 1)] + [E(1, 5)] == log;
  }

  lemma HoleCut()
    ensures AppendEntries(Holding([E(1, 1), E(1, 5)], 3), AppendRequest(1, 2, 5, 9, [], 3)).0
            == Holding([E(1, 1)], 3)
  {
    var log := [E(1, 1), E(1, 5)];
    assert log[1..] == [E(1, 5)] && [E(1, 5)][1..] == [];
    assert Below([E(1, 5)], 5) == [];
    assert Below(log, 5) == [E(1, 1)];
    assert EntryAt(log, 5) == EntryAt([E(1, 5)], 5);
  }

  /** A request with a hole, a cut and a heartbeat: the commit index goes 3, 3, 1. */
  lemma CommitCanDrop(ss: seq<Server>)
    requires |ss| == 4 && ss[0] == Opened(1, 1)
    requires ss[1] == AppendEntries(ss[0], AppendRequest(1, 2, 0, 0, [E(1, 1), E(1, 5)], 3)).0
    requires ss[2] == AppendEntries(ss[1], AppendRequest(1, 2, 5, 9, [], 3)).0
    requires ss[3] == AppendEntries(ss[2], AppendRequest(1, 2, 1, 1, [], 10)).0
    ensures ss[1].commit == 3 && ss[2].commit == 3 && ss[3].commit == 1
  {
    HoleAccepted();
    HoleCut();
    SortContiguous([E(1, 1)], 0);
  }

  lemma PairIsQuorum(a: ServerId, b: ServerId)
    requires a in THREE.voters && b in THREE.voters && a != b
    ensures HasQuorum(THREE, {a, b}) && HasQuorum(THREE, {a} + {b})
  {
    assert {a, b} * THREE.voters == {a, b} && {a} + {b} == {a, b};
  }

  /**
   * At the largest term an election does not open a new term, so a server votes twice in it
   * and the term gets two leaders, 1 and 3.
   */
  lemma TwoLeadersAtSaturation()
    ensures var (c1, ask1) := StartElection(Opened(1, U64_MAX));
            var (v3, yes3) := RequestVote(Opened(3, U64_MAX), ask1);
            var (l1, won1) := RecordVote(c1, 3, yes3);
            var (c3, ask3) := StartElection(v3);
            var (v2, yes2) := RequestVote(Opened(2, U64_MAX), ask3);
            var (l3, won3) := RecordVote(c3, 2, yes2);
            won1 && won3 && l1.role == Leader && l3.role == Leader && l1.term == l3.term && l1.id != l3.id
  {
    PairIsQuorum(1, 3);
    PairIsQuorum(3, 2);
  }

  /**
   * A follower with a stale suffix installs a committed snapshot of term 2, keeps the suffix,
   * and then grants its vote to a candidate whose last term is 1, so whose log lacks the
   * snapshot's last entry.
   */
  lemma StaleSuffixGrantsVote(s: Server, meta: SnapshotMeta)
    requires s == Opened(2, 3).(log := [E(1, 1), E(1, 2), E(1, 3)], commit := 1)
    requires meta == SnapshotMeta(0, 2, 2)
    ensures Shaped(s) && !BoundaryAgrees(s, meta)
    ensures var s' := InstallSnapshot(s, SnapshotRequest(3, 1, meta)).0;
            && s'.commit == 2 && SnapTerm(s') == 2
            && RequestVote(s', VoteRequest(4, 3, 4, 1)).1.granted
  {
    EntryAtContiguous(s.log, 0, 2);
    AboveContiguous(s.log, 0, 2);
  }

  /** The installed snapshot leaves a suffix behind that ends in an older term. */
  predicate LeavesOldSuffix(s: Server, meta: SnapshotMeta) {
    var kept := Above(s.log, meta.lastIndex);
    kept != [] && kept[|kept| - 1].term < meta.lastTerm
  }

  /**
   * After an install some candidate behind the snapshot's term can get a vote exactly when the
   * retained suffix is not empty and ends in an older term.
   */
  lemma StaleVoteExactly(s: Server, r: SnapshotRequest)
    requires r.term >= s.term && r.meta.shardId == s.shard && r.meta.lastIndex >= SnapIndex(s)
    ensures LeavesOldSuffix(s, r.meta) <==>
            exists ask: VoteRequest ::
              ask.lastTerm < r.meta.lastTerm && RequestVote(InstallSnapshot(s, r).0, ask).1.granted
  {
    hide Above;
    var s' := InstallSnapshot(s, r).0;
    if LeavesOldSuffix(s, r.meta) {
      var candidate := if s'.votedFor.Some? then s'.votedFor.value else 0;
      var ask := VoteRequest(s'.term, candidate, LastIndex(s'), LastTerm(s'));
      assert ask.lastTerm < r.meta.lastTerm && RequestVote(s', ask).1.granted;
    }
  }

  /** When the boundary agrees no such vote is granted: the candidate's last term reaches the snapshot's. */
  lemma AgreeingSnapshotRefusesStaleVote(s: Server, r: SnapshotRequest, ask: VoteRequest)
    requires Shaped(s) && TermsAscend(s.log) && BoundaryAgrees(s, r.meta)
    requires InstallSnapshot(s, r).1.Ok? && r.meta.lastIndex > SnapIndex(s)
    requires r.term >= s.term && ask.lastTerm < r.meta.lastTerm
    ensures !RequestVote(InstallSnapshot(s, r).0, ask).1.granted
  {
    var k, base := r.meta.lastIndex, SnapIndex(s);
    AboveContiguous(s.log, base, k);
    EntryAtContiguous(s.log, base, k);
    if k < base + |s.log| {
      assert s.log[k - base - 1].term <= s.log[|s.log| - 1].term;
    }
  }

  /**
   * `match_index` is the follower's own last index, not what the request covered. Recording it
   * commits index 2 on the leader although the follower holds another entry there.
   */
  lemma MatchIndexOverstates(leader: Server, follower: Server)
    requires leader == BecomeLeader(Opened(1, 2).(log := [E(1, 1), E(2, 2)]))
    requires follower == Opened(2, 2).(log := [E(1, 1), E(1, 2)])
    ensures var (f', out) := AppendEntries(follower, AppendRequest(2, 1, 1, 1, [], 0));
            && out.Ok? && out.value.success && out.value.matchIndex == 2
            && RecordMatch(leader, 2, out.value.matchIndex).0.commit == 2
            && EntryAt(f'.log, 2) == Some(E(1, 2)) && EntryAt(leader.log, 2) == Some(E(2, 2))
  {
    StaleFollowerAnswers(follower);
    EntryAtContiguous(leader.log, 0, 2);
    OverstatedQuorum(leader);
  }

  lemma StaleFollowerAnswers(follower: Server)
    requires follower == Opened(2, 2).(log := [E(1, 1), E(1, 2)])
    ensures var (f', out) := AppendEntries(follower, AppendRequest(2, 1, 1, 1, [], 0));
            && out.Ok? && out.value.success && out.value.matchIndex == 2 && EntryAt(f'.log, 2) == Some(E(1, 2))
  {
    EntryAtContiguous(follower.log, 0, 1);
    EntryAtContiguous(follower.log, 0, 2);
    SortContiguous(follower.log, 0);
  }

  lemma OverstatedQuorum(leader: Server)
    requires leader == BecomeLeader(Opened(1, 2).(log := [E(1, 1), E(2, 2)]))
    ensures QuorumIndex(leader.(matches := leader.matches[2 := 2])) == 2
  {
    var s1 := leader.(matches := leader.matches[2 := 2]);
    assert MatchedVoters(s1, 2) == {1, 2};
    PairIsQuorum(1, 2);
    forall i: LogIndex | i > 2
      ensures !HasQuorum(THREE, MatchedVoters(s1, i))
    {
      assert MatchedVoters(s1, i) == {};
    }
    QuorumIndexUnique(s1, 2);
  }
}
