/** Safety of every run of a RaftCore cluster, stated on the servers themselves. */
module RaftSafety {
  import opened Basics
  import opened Model
  import opened Membership
  import opened RaftState
  import opened RaftShape
  import opened RaftProtocol
  import opened RaftFrame
  import opened RaftActions
  import opened RaftCluster
  import opened RaftSimulation

  lemma FollowEvent(p: Proto, shard: ShardId, s: Server, msgs: set<Message>, ev: Event, s': Server, sent: set<Message>)
    returns (p': Proto)
    requires At(p, shard, ev.i, s) && msgs <= p.msgs && Fires(s, msgs, ev, s', sent)
    ensures Follows'(p, shard, ev.i, s', sent, p')
  {
    match ev
    case Timeout(i) => p' := FollowTimeout(p, shard, i, s);
    case GetVoteRequest(i, ask) => p' := FollowVoteRequest(p, shard, i, s, ask);
    case GetVoteReply(i, voter, term, granted) => p' := FollowVoteReply(p, shard, i, s, voter, term, granted);
    case ClientCommand(i, command) =>
      if s.role == Leader {
        p' := FollowPush(p, shard, i, s, PlainEntry(s.shard, s.term, SatInc(LastIndex(s)), command));
      } else {
        FollowSame(p, shard, i, s, s);
        p' := p;
      }
    case ClientEntry(i, entry) =>
      if AppendExisting(s, entry).1.Ok? {
        p' := FollowPush(p, shard, i, s, entry);
      } else {
        FollowSame(p, shard, i, s, s);
        p' := p;
      }
    case SendAppend(i, r) =>
      FaithfulIsTrue(p, shard, i, s, r);
      p' := FollowSend(p, shard, i, s, Append(r));
    case GetAppend(i, r) => p' := FollowAppend(p, shard, i, s, r);
    case GetAppendReply(i, follower, upTo, index) => p' := FollowMatch(p, shard, i, s, follower, upTo, index);
    case Compact(i, meta) =>
      FollowCompact(p, shard, i, s, meta);
      p' := p;
    case SendSnapshot(i) =>
      SnapshotIsTrue(p, shard, i, s);
      p' := FollowSend(p, shard, i, s, Install(SnapshotRequest(s.term, s.id, s.snapshot.value)));
    case GetSnapshot(i, install) => p' := FollowInstall(p, shard, i, s, install);
    case Restart(i, commit) => p' := FollowRestart(p, shard, i, s, commit, s');
  }

  lemma FollowNext(c: Cluster, c': Cluster, p: Proto, shard: ShardId) returns (p': Proto)
    requires Simulates(c, p, shard) && Next(c, c')
    ensures Simulates(c', p', shard) && Extends(p, p')
  {
    var ev, s', sent :| NextBy(c, c', ev, s', sent);
    var s := c.servers[ev.i];
    assert ServerOk(c, p, shard, ev.i);
    p' := FollowEvent(p, shard, s, c.msgs, ev, s', sent);
    SimulatesNext(c, p, shard, ev.i, s', sent, p');
  }

  lemma FollowInitial(c: Cluster, members: Membership, shard: ShardId) returns (p: Proto)
    requires Initial(c, members, shard)
    ensures Simulates(c, p, shard)
  {
    var fresh_ := Peer(0, None, Follower, [], 0, {}, map[]);
    p := Proto(members, map i | i in c.servers :: fresh_, {}, map[], map[], {}, {});
    forall i | i in c.servers
      ensures ServerOk(c, p, shard, i)
    {
    }
    assert LogsInv(p) && VoteInv(p) && CandidateInv(p) && ElectInv(p) && LeaderInv(p);
    assert AckInv(p) && VoteHeldInv(p) && CommitInv(p) && MsgInv(p);
  }

  /** The protocol states that mirror a run, each extending the ones before it. */
  ghost predicate Mirror(cs: seq<Cluster>, ps: seq<Proto>, shard: ShardId) {
    && |ps| == |cs|
    && (forall n :: 0 <= n < |cs| ==> Simulates(cs[n], ps[n], shard))
    && (forall m, n :: 0 <= m <= n < |cs| ==> Extends(ps[m], ps[n]))
  }

  lemma {:induction false} MirrorRun(cs: seq<Cluster>, members: Membership, shard: ShardId) returns (ps: seq<Proto>)
    requires Run(cs, members, shard)
    ensures Mirror(cs, ps, shard)
    decreases |cs|
  {
    if |cs| == 1 {
      var p := FollowInitial(cs[0], members, shard);
      SameLead(p, p);
      ps := [p];
    } else {
      var front := cs[..|cs| - 1];
      var n := |cs| - 2;
      assert Next(cs[n], cs[n + 1]);
      RunPrefix(cs, members, shard);
      var qs := MirrorRun(front, members, shard);
      var last := qs[|qs| - 1];
      var p := FollowNext(front[|front| - 1], cs[|cs| - 1], last, shard);
      ps := qs + [p];
      SameLead(p, p);
      forall m, n | 0 <= m <= n < |cs|
        ensures Extends(ps[m], ps[n])
      {
        if m < n == |cs| - 1 { ExtendsTrans(qs[m], last, p); }
      }
    }
  }

  lemma RunPrefix(cs: seq<Cluster>, members: Membership, shard: ShardId)
    requires Run(cs, members, shard) && |cs| > 1
    ensures Run(cs[..|cs| - 1], members, shard)
  {
    var front := cs[..|cs| - 1];
    forall n | 0 <= n < |front| - 1
      ensures Next(front[n], front[n + 1])
    {
      assert Next(cs[n], cs[n + 1]);
    }
  }

  // ----- The theorems -----

  /** Election Safety: over the whole of any run, a term has at most one leader. */
  lemma ElectionSafety(
    cs: seq<Cluster>, members: Membership, shard: ShardId, m: nat, i: ServerId, n: nat, j: ServerId)
    requires Run(cs, members, shard) && m <= n < |cs| && i in cs[m].servers && j in cs[n].servers
    requires cs[m].servers[i].role == Leader && cs[n].servers[j].role == Leader
    requires cs[m].servers[i].term == cs[n].servers[j].term
    ensures i == j
  {
    var ps := MirrorRun(cs, members, shard);
    assert ServerOk(cs[m], ps[m], shard, i) && ServerOk(cs[n], ps[n], shard, j);
    assert LeaderOk(ps[m], i) && LeaderOk(ps[n], j);
    assert Extends(ps[m], ps[n]);
    assert SameElection(ps[m], ps[n], cs[m].servers[i].term);
  }

  /**
   * Log Matching: if two servers hold entries of one term at index `k`, these are the same
   * entry, and so are the entries they both still hold at every smaller index.
   */
  lemma LogMatchingInRuns(
    cs: seq<Cluster>, members: Membership, shard: ShardId, n: nat, i: ServerId, j: ServerId, k: LogIndex, m: LogIndex)
    requires Run(cs, members, shard) && n < |cs| && i in cs[n].servers && j in cs[n].servers
    requires var a := EntryAt(cs[n].servers[i].log, k);
             var b := EntryAt(cs[n].servers[j].log, k);
             a.Some? && b.Some? && a.value.term == b.value.term
    requires m <= k && EntryAt(cs[n].servers[i].log, m).Some? && EntryAt(cs[n].servers[j].log, m).Some?
    ensures EntryAt(cs[n].servers[i].log, m) == EntryAt(cs[n].servers[j].log, m)
  {
    var ps := MirrorRun(cs, members, shard);
    var p := ps[n];
    assert ServerOk(cs[n], p, shard, i) && ServerOk(cs[n], p, shard, j);
    MirrorEntry(p, i, cs[n].servers[i], k);
    MirrorEntry(p, j, cs[n].servers[j], k);
    MirrorEntry(p, i, cs[n].servers[i], m);
    MirrorEntry(p, j, cs[n].servers[j], m);
    assert PeerLogOk(p, i) && PeerLogOk(p, j);
    LogMatching(p.lead, p.peers[i].log, p.peers[j].log, k - 1);
  }

  /** Everything at or below a server's commit index is in its log or under its snapshot. */
  lemma CommittedIsHeld(cs: seq<Cluster>, members: Membership, shard: ShardId, n: nat, i: ServerId, k: LogIndex)
    requires Run(cs, members, shard) && n < |cs| && i in cs[n].servers
    ensures Shaped(cs[n].servers[i])
    ensures SnapIndex(cs[n].servers[i]) < k <= cs[n].servers[i].commit ==> EntryAt(cs[n].servers[i].log, k).Some?
  {
    var ps := MirrorRun(cs, members, shard);
    assert ServerOk(cs[n], ps[n], shard, i) && CommitOk(ps[n], i);
    MirrorReads(ps[n], i, cs[n].servers[i]);
    MirrorEntry(ps[n], i, cs[n].servers[i], k);
  }

  /**
   * State Machine Safety: whatever server `i` has committed at index `k` at moment `m`, no
   * server ever, earlier or later, commits a different entry there.
   */
  lemma StateMachineSafety(
    cs: seq<Cluster>, members: Membership, shard: ShardId,
    m: nat, i: ServerId, n: nat, j: ServerId, k: LogIndex)
    requires Run(cs, members, shard) && m <= n < |cs| && i in cs[m].servers && j in cs[n].servers
    requires k <= cs[m].servers[i].commit && k <= cs[n].servers[j].commit
    requires EntryAt(cs[m].servers[i].log, k).Some? && EntryAt(cs[n].servers[j].log, k).Some?
    ensures EntryAt(cs[m].servers[i].log, k) == EntryAt(cs[n].servers[j].log, k)
  {
    var ps := MirrorRun(cs, members, shard);
    assert ServerOk(cs[m], ps[m], shard, i) && ServerOk(cs[n], ps[n], shard, j);
    MirrorEntry(ps[m], i, cs[m].servers[i], k);
    MirrorEntry(ps[n], j, cs[n].servers[j], k);
    assert CommitOk(ps[m], i) && CommitOk(ps[n], j);
    assert Extends(ps[m], ps[n]);
    var a, b := ps[m].peers[i], ps[n].peers[j];
    GrowCommitted(ps[m], ps[n], a.term, a.log, a.term, a.log, a.commit);
    CommittedAgree(ps[n], a.term, a.log, a.commit, b.term, b.log, b.commit, k);
  }

  /**
   * Leader Completeness: an entry committed by a server of some term is in the log of every
   * later leader of that term or a higher one, unless compacted away there.
   */
  lemma LeadersKeepCommitted(
    cs: seq<Cluster>, members: Membership, shard: ShardId,
    m: nat, i: ServerId, n: nat, j: ServerId, k: LogIndex)
    requires Run(cs, members, shard) && m <= n < |cs| && i in cs[m].servers && j in cs[n].servers
    requires k <= cs[m].servers[i].commit && EntryAt(cs[m].servers[i].log, k).Some?
    requires cs[n].servers[j].role == Leader && cs[n].servers[j].term >= cs[m].servers[i].term
    requires k > SnapIndex(cs[n].servers[j])
    ensures EntryAt(cs[n].servers[j].log, k) == EntryAt(cs[m].servers[i].log, k)
  {
    var ps := MirrorRun(cs, members, shard);
    assert ServerOk(cs[m], ps[m], shard, i) && ServerOk(cs[n], ps[n], shard, j);
    MirrorEntry(ps[m], i, cs[m].servers[i], k);
    MirrorEntry(ps[n], j, cs[n].servers[j], k);
    assert CommitOk(ps[m], i) && LeaderOk(ps[n], j);
    assert Extends(ps[m], ps[n]);
    var a, b := ps[m].peers[i], ps[n].peers[j];
    GrowCommitted(ps[m], ps[n], a.term, a.log, a.term, a.log, a.commit);
    LeaderHasCommitted(ps[n], a.term, a.log, a.commit, b.term);
  }
}
