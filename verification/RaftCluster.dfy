/**
 * A cluster of RaftCore servers and a network that may lose, repeat and reorder messages.
 * Every run is mirrored by the full-log protocol of RaftProtocol, so its safety carries over.
 */
module RaftCluster {
  import opened Basics
  import opened Model
  import opened Membership
  import opened RaftState
  import opened RaftShape
  import opened RaftProtocol
  import opened RaftFrame
  import opened RaftActions

  datatype Cluster = Cluster(servers: map<ServerId, Server>, msgs: set<Message>)

  datatype Event =
    | Timeout(i: ServerId)
    | GetVoteRequest(i: ServerId, ask: VoteRequest)
    | GetVoteReply(i: ServerId, voter: ServerId, term: Term, granted: bool)
    | ClientCommand(i: ServerId, command: Command)
    | ClientEntry(i: ServerId, entry: LogEntry)
    | SendAppend(i: ServerId, r: AppendRequest)
    | GetAppend(i: ServerId, r: AppendRequest)
    | GetAppendReply(i: ServerId, follower: ServerId, upTo: nat, index: LogIndex)
    | Compact(i: ServerId, meta: SnapshotMeta)
    | SendSnapshot(i: ServerId)
    | GetSnapshot(i: ServerId, install: SnapshotRequest)
    | Restart(i: ServerId, commit: LogIndex)

  /** A request that tells the truth about its sender's log: a slice behind a known entry. */
  ghost predicate FaithfulAppend(s: Server, r: AppendRequest) {
    var base := SnapIndex(s);
    && r.term == s.term && r.leader == s.id
    && base <= r.prevIndex <= base + |s.log|
    && (r.prevIndex > base ==> r.prevTerm == s.log[r.prevIndex - base - 1].term)
    && (r.prevIndex == base ==> r.prevTerm == SnapTerm(s))
    && r.prevIndex + |r.entries| <= base + |s.log|
    && (forall j :: 0 <= j < |r.entries| ==> r.entries[j] == s.log[r.prevIndex - base + j])
    && r.leaderCommit <= s.commit && r.leaderCommit <= r.prevIndex + |r.entries|
  }

  /** The receiver's entry at the snapshot boundary, if it has one, is the snapshot's. */
  predicate BoundaryAgrees(s: Server, meta: SnapshotMeta) {
    meta.lastIndex > SnapIndex(s) && meta.lastIndex <= LastIndex(s) ==>
      EntryAt(s.log, meta.lastIndex).Some? && EntryAt(s.log, meta.lastIndex).value.term == meta.lastTerm
  }

  /** Server `ev.i` takes the event and ends in the returned state; the set is what it sends. */
  ghost predicate Fires(s: Server, msgs: set<Message>, ev: Event, s': Server, sent: set<Message>) {
    match ev
    case Timeout(_) =>
      var (t, req) := StartElection(s);
      s.term < U64_MAX && s' == t && sent == {AskVote(req)}
    case GetVoteRequest(_, ask) =>
      var (t, resp) := RequestVote(s, ask);
      AskVote(ask) in msgs && s' == t && sent == {VoteReply(s.id, ask.candidate, resp.term, resp.granted)}
    case GetVoteReply(_, voter, term, granted) =>
      VoteReply(voter, s.id, term, granted) in msgs
      && s' == RecordVote(s, voter, VoteResponse(term, granted)).0 && sent == {}
    case ClientCommand(_, command) =>
      LastIndex(s) < U64_MAX && s' == AppendLocal(s, command).0 && sent == {}
    case ClientEntry(_, entry) =>
      LastIndex(s) < U64_MAX && s' == AppendExisting(s, entry).0 && sent == {}
    case SendAppend(_, r) =>
      s.role == Leader && FaithfulAppend(s, r) && s' == s && sent == {Append(r)}
    case GetAppend(_, r) =>
      var (t, out) := AppendEntries(s, r);
      Append(r) in msgs && s' == t
      && sent == if out.Ok? && out.value.success
                 then {AppendReply(s.id, out.value.term, r.prevIndex + |r.entries|)} else {}
    case GetAppendReply(_, follower, upTo, index) =>
      AppendReply(follower, s.term, upTo) in msgs && index <= upTo
      && s' == RecordMatch(s, follower, index).0 && sent == {}
    case Compact(_, meta) =>
      meta.lastIndex > SnapIndex(s) && EntryAt(s.log, meta.lastIndex).Some?
      && EntryAt(s.log, meta.lastIndex).value.term == meta.lastTerm
      && s' == CompactTo(s, meta).0 && sent == {}
    case SendSnapshot(_) =>
      s.role == Leader && s.snapshot.Some? && SnapIndex(s) > 0 && s' == s
      && sent == {Install(SnapshotRequest(s.term, s.id, s.snapshot.value))}
    case GetSnapshot(_, install) =>
      Install(install) in msgs && BoundaryAgrees(s, install.meta)
      && s' == InstallSnapshot(s, install).0 && sent == {}
    case Restart(_, commit) =>
      commit <= s.commit && sent == {}
      && Open(s.id, s.shard, s.membership, s.term, s.votedFor, s.log, s.snapshot, commit) == Ok(s')
  }

  ghost predicate Next(c: Cluster, c': Cluster) {
    exists ev, s', sent :: NextBy(c, c', ev, s', sent)
  }

  ghost predicate NextBy(c: Cluster, c': Cluster, ev: Event, s': Server, sent: set<Message>) {
    && ev.i in c.servers && Fires(c.servers[ev.i], c.msgs, ev, s', sent)
    && c' == Cluster(c.servers[ev.i := s'], c.msgs + sent)
  }

  /** All servers freshly opened on empty stores, with one membership and one shard. */
  ghost predicate Initial(c: Cluster, members: Membership, shard: ShardId) {
    && c.msgs == {}
    && forall i :: i in c.servers ==>
         Open(i, shard, members, 0, None, [], None, 0) == Ok(c.servers[i])
  }

  ghost predicate Run(cs: seq<Cluster>, members: Membership, shard: ShardId) {
    && cs != [] && Initial(cs[0], members, shard)
    && forall n {:trigger Next(cs[n], cs[n + 1])} :: 0 <= n < |cs| - 1 ==> Next(cs[n], cs[n + 1])
  }

  // ----- The mirror -----

  /** `q` is server `s` seen with its whole log. */
  ghost predicate Mirrors(s: Server, q: Peer) {
    && s.term == q.term && s.votedFor == q.vote && s.role == q.role && s.commit == q.commit
    && (s.role == Candidate ==> s.votes == q.votes)
    && (s.role == Leader ==> s.matches == q.matched)
    && SnapIndex(s) <= s.commit && SnapIndex(s) <= |q.log| && s.log == q.log[SnapIndex(s)..]
    && SnapTerm(s) == (if SnapIndex(s) == 0 then 0 else q.log[SnapIndex(s) - 1].term)
  }

  ghost predicate AllOfShard(log: Log, shard: ShardId) {
    forall j :: 0 <= j < |log| ==> log[j].shardId == shard
  }

  ghost predicate OneShard(p: Proto, shard: ShardId) {
    && (forall i {:trigger AllOfShard(p.peers[i].log, shard)} :: i in p.peers ==> AllOfShard(p.peers[i].log, shard))
    && (forall t {:trigger AllOfShard(p.lead[t], shard)} :: t in p.lead ==> AllOfShard(p.lead[t], shard))
  }

  ghost predicate ServerOk(c: Cluster, p: Proto, shard: ShardId, i: ServerId)
    requires i in c.servers && i in p.peers
  {
    var s := c.servers[i];
    s.id == i && s.membership == p.members && s.shard == shard && Mirrors(s, p.peers[i])
  }

  ghost predicate Simulates(c: Cluster, p: Proto, shard: ShardId) {
    && Inv(p) && OneShard(p, shard)
    && c.servers.Keys == p.peers.Keys && c.msgs <= p.msgs
    && forall i {:trigger ServerOk(c, p, shard, i)} :: i in c.servers ==> ServerOk(c, p, shard, i)
  }

  /** `p'` continues `p` by moves of server `i` alone. */
  ghost predicate Continues(p: Proto, p': Proto, shard: ShardId, i: ServerId) {
    && Inv(p') && OneShard(p', shard) && Extends(p, p')
    && i in p.peers && i in p'.peers && p'.peers == p.peers[i := p'.peers[i]]
    && p.msgs <= p'.msgs
  }

  lemma SimulatesNext(c: Cluster, p: Proto, shard: ShardId, i: ServerId, s': Server, sent: set<Message>, p': Proto)
    requires Simulates(c, p, shard) && Continues(p, p', shard, i) && sent <= p'.msgs
    requires s'.id == i && s'.membership == p.members && s'.shard == shard && Mirrors(s', p'.peers[i])
    ensures Simulates(Cluster(c.servers[i := s'], c.msgs + sent), p', shard)
  {
    var c' := Cluster(c.servers[i := s'], c.msgs + sent);
    forall j | j in c'.servers
      ensures ServerOk(c', p', shard, j)
    {
      if j != i { assert ServerOk(c, p, shard, j); }
    }
  }

  lemma ContinuesTrans(a: Proto, b: Proto, c: Proto, shard: ShardId, i: ServerId)
    requires Continues(a, b, shard, i) && Continues(b, c, shard, i)
    ensures Continues(a, c, shard, i)
  {
    ExtendsTrans(a, b, c);
  }

  lemma ContinuesRefl(p: Proto, shard: ShardId, i: ServerId)
    requires Inv(p) && OneShard(p, shard) && i in p.peers
    ensures Continues(p, p, shard, i)
  {
    SameLead(p, p);
    assert p.peers == p.peers[i := p.peers[i]];
  }

  // ----- Reading a mirrored server -----

  /** A mirrored log sits at its own indices, and its ends are the ends of the whole log. */
  lemma MirrorReads(p: Proto, i: ServerId, s: Server)
    requires LogsInv(p) && i in p.peers && Mirrors(s, p.peers[i])
    ensures Contiguous(p.peers[i].log, 0) && Contiguous(s.log, SnapIndex(s))
    ensures LastIndex(s) == |p.peers[i].log| && LastTerm(s) == TermOfLast(p.peers[i].log)
    ensures |s.log| == |p.peers[i].log| - SnapIndex(s)
  {
    var log := p.peers[i].log;
    assert PeerLogOk(p, i);
    forall j | 0 <= j < |log|
      ensures log[j].index == j + 1
    {
      assert Follows(p.lead, log, j);
    }
  }

  lemma MirrorEntry(p: Proto, i: ServerId, s: Server, n: LogIndex)
    requires LogsInv(p) && i in p.peers && Mirrors(s, p.peers[i])
    ensures EntryAt(s.log, n) ==
            if SnapIndex(s) < n <= |p.peers[i].log| then Some(p.peers[i].log[n - 1]) else None
  {
    MirrorReads(p, i, s);
    EntryAtContiguous(s.log, SnapIndex(s), n);
  }
}
