/**
 * What one RaftCore keeps over every sequence of calls, whatever the requests contain:
 * committed entries stay, the snapshot never overtakes the commit index, and, for orderly
 * requests, the log has no holes. Also when exactly the commit index can go down.
 */
module RaftNode {
  import opened Basics
  import opened Model
  import opened Membership
  import opened RaftState
  import opened RaftShape

  datatype Call =
    | CallElection
    | CallVote(ask: VoteRequest)
    | CallVoteReply(voter: ServerId, reply: VoteResponse)
    | CallLead
    | CallAppend(append: AppendRequest)
    | CallInstall(install: SnapshotRequest)
    | CallCompact(meta: SnapshotMeta)
    | CallLocal(command: Command)
    | CallExisting(entry: LogEntry)
    | CallMatch(server: ServerId, index: LogIndex)

  ghost function Do(s: Server, c: Call): Server {
    match c
    case CallElection => StartElection(s).0
    case CallVote(ask) => RequestVote(s, ask).0
    case CallVoteReply(voter, reply) => RecordVote(s, voter, reply).0
    case CallLead => BecomeLeader(s)
    case CallAppend(append) => AppendEntries(s, append).0
    case CallInstall(install) => InstallSnapshot(s, install).0
    case CallCompact(meta) => CompactTo(s, meta).0
    case CallLocal(command) => AppendLocal(s, command).0
    case CallExisting(entry) => AppendExisting(s, entry).0
    case CallMatch(server, index) => RecordMatch(s, server, index).0
  }

  /** The states of a node over a sequence of calls. */
  ghost predicate History(ss: seq<Server>, calls: seq<Call>) {
    |ss| == |calls| + 1 && forall n :: 0 <= n < |calls| ==> ss[n + 1] == Do(ss[n], calls[n])
  }

  // ----- Searching a log that is cut, extended or sorted -----

  lemma {:induction false} EntryAtAppend(log: seq<LogEntry>, e: LogEntry, k: LogIndex)
    ensures EntryAt(log + [e], k) ==
            if EntryAt(log, k).Some? then EntryAt(log, k) else if e.index == k then Some(e) else None
  {
    if log == [] {
      assert log + [e] == [e];
    } else {
      assert (log + [e])[1..] == log[1..] + [e];
      EntryAtAppend(log[1..], e, k);
    }
  }

  lemma {:induction false} EntryAtBelow(log: seq<LogEntry>, i: LogIndex, k: LogIndex)
    requires k < i
    ensures EntryAt(Below(log, i), k) == EntryAt(log, k)
  {
    if log != [] {
      EntryAtBelow(log[1..], i, k);
      if log[0].index < i {
        assert Below(log, i) == [log[0]] + Below(log[1..], i);
        assert Below(log, i)[1..] == Below(log[1..], i);
      } else {
        assert Below(log, i) == Below(log[1..], i);
      }
    }
  }

  lemma {:induction false} EntryAtAbove(log: seq<LogEntry>, i: LogIndex, k: LogIndex)
    requires k > i
    ensures EntryAt(Above(log, i), k) == EntryAt(log, k)
  {
    if log != [] {
      EntryAtAbove(log[1..], i, k);
      if log[0].index > i {
        assert Above(log, i) == [log[0]] + Above(log[1..], i);
        assert Above(log, i)[1..] == Above(log[1..], i);
      } else {
        assert Above(log, i) == Above(log[1..], i);
      }
    }
  }

  lemma {:induction false} EntryAtInsert(log: seq<LogEntry>, e: LogEntry, k: LogIndex)
    ensures EntryAt(InsertByIndex(log, e), k) == EntryAt(log + [e], k)
  {
    EntryAtAppend(log, e, k);
    if log != [] && log[|log| - 1].index > e.index {
      var front, last := log[..|log| - 1], log[|log| - 1];
      EntryAtInsert(front, e, k);
      EntryAtAppend(front, e, k);
      EntryAtAppend(InsertByIndex(front, e), last, k);
      EntryAtAppend(front, last, k);
      assert log == front + [last];
    }
  }

  /** A stable sort leaves the first entry of each index first. */
  lemma {:induction false} EntryAtSort(log: seq<LogEntry>, k: LogIndex)
    ensures EntryAt(SortByIndex(log), k) == EntryAt(log, k)
  {
    if log != [] {
      var front, last := log[..|log| - 1], log[|log| - 1];
      EntryAtSort(front, k);
      EntryAtInsert(SortByIndex(front), last, k);
      EntryAtAppend(SortByIndex(front), last, k);
      EntryAtAppend(front, last, k);
      assert log == front + [last];
    }
  }

  // ----- Committed entries stay -----

  /** `e` is the entry at `k` and `k` is committed. */
  ghost predicate Fixed(s: Server, k: LogIndex, e: LogEntry) {
    k <= s.commit && EntryAt(s.log, k) == Some(e)
  }

  lemma {:induction false} AbsorbKeepsFixed(s: Server, es: seq<LogEntry>, k: LogIndex, e: LogEntry)
    requires Fixed(s, k, e)
    ensures Fixed(Absorb(s, es).0, k, e)
    decreases |es|
  {
    if es != [] && es[0].shardId == s.shard {
      var x := es[0];
      var old_ := EntryAt(s.log, x.index);
      if x.index <= SnapIndex(s) || (old_.Some? && old_.value.term == x.term) {
        AbsorbKeepsFixed(s, es[1..], k, e);
      } else if old_.None? {
        EntryAtAppend(s.log, x, k);
        AbsorbKeepsFixed(s.(log := s.log + [x]), es[1..], k, e);
      } else if x.index > s.commit {
        var cut := TruncateFrom(s, x.index);
        EntryAtBelow(s.log, x.index, k);
        EntryAtAppend(cut.log, x, k);
        AbsorbKeepsFixed(cut.(log := cut.log + [x]), es[1..], k, e);
      }
    }
  }

  /** The commit index may drop to the end of the log, but never under an entry that is there. */
  lemma SettleKeepsFixed(s: Server, leaderCommit: LogIndex, k: LogIndex, e: LogEntry)
    requires Fixed(s, k, e)
    ensures Fixed(Settle(s, leaderCommit).0, k, e)
  {
    EntryAtSort(s.log, k);
    SortLast(s.log);
    EntryIndex(s.log, k);
  }

  lemma {:induction false} EntryIndex(log: seq<LogEntry>, k: LogIndex)
    requires EntryAt(log, k).Some?
    ensures exists j :: 0 <= j < |log| && log[j].index == k
  {
    if log[0].index != k {
      EntryIndex(log[1..], k);
      var j :| 0 <= j < |log[1..]| && log[1..][j].index == k;
      assert log[j + 1].index == k;
    }
  }

  /** Sorting puts a largest index last. */
  lemma {:induction false} SortLast(log: seq<LogEntry>)
    ensures |SortByIndex(log)| == |log|
    ensures log != [] ==>
              && (forall j :: 0 <= j < |log| ==> log[j].index <= SortByIndex(log)[|log| - 1].index)
              && (exists j :: 0 <= j < |log| && log[j].index == SortByIndex(log)[|log| - 1].index)
  {
    if log != [] {
      var front, last := log[..|log| - 1], log[|log| - 1];
      SortLast(front);
      InsertLast(SortByIndex(front), last);
      if front != [] && SortByIndex(front)[|front| - 1].index > last.index {
        var j :| 0 <= j < |front| && front[j].index == SortByIndex(front)[|front| - 1].index;
        assert log[j].index == front[j].index;
      }
    }
  }

  lemma {:induction false} InsertLast(log: seq<LogEntry>, e: LogEntry)
    ensures |InsertByIndex(log, e)| == |log| + 1
    ensures InsertByIndex(log, e)[|log|].index ==
            if log != [] && log[|log| - 1].index > e.index then log[|log| - 1].index else e.index
  {
    if log != [] && log[|log| - 1].index > e.index {
      InsertLast(log[..|log| - 1], e);
    }
  }

  /** One call, with any arguments, keeps every committed entry or moves it under the snapshot. */
  lemma CallKeepsFixed(s: Server, c: Call, k: LogIndex, e: LogEntry)
    requires Fixed(s, k, e)
    ensures Fixed(Do(s, c), k, e) || k <= SnapIndex(Do(s, c))
  {
    match c
    case CallAppend(r) => AppendKeepsFixed(s, r, k, e);
    case CallInstall(r) =>
      if k > r.meta.lastIndex { EntryAtAbove(s.log, r.meta.lastIndex, k); }
    case CallCompact(meta) =>
      if k > meta.lastIndex { EntryAtAbove(s.log, meta.lastIndex, k); }
    case CallLocal(command) =>
      EntryAtAppend(s.log, PlainEntry(s.shard, s.term, SatInc(LastIndex(s)), command), k);
    case CallExisting(entry) => EntryAtAppend(s.log, entry, k);
    case _ =>
  }

  lemma AppendKeepsFixed(s: Server, r: AppendRequest, k: LogIndex, e: LogEntry)
    requires Fixed(s, k, e)
    ensures Fixed(AppendEntries(s, r).0, k, e)
  {
    var f := Follow(s, r.term, r.leader);
    AbsorbKeepsFixed(f, r.entries, k, e);
    var s1 := Absorb(f, r.entries).0;
    SettleKeepsFixed(s1, r.leaderCommit, k, e);
    if r.prevIndex > f.commit { EntryAtBelow(f.log, r.prevIndex, k); }
  }

  /**
   * Committed stability over any sequence of calls with any arguments: an entry present at a
   * committed index is still that entry, still committed, until a snapshot covers it.
   */
  lemma {:induction false} CommittedStability(ss: seq<Server>, calls: seq<Call>, m: nat, n: nat, k: LogIndex,
      e: LogEntry)
    requires History(ss, calls) && m <= n < |ss| && Fixed(ss[m], k, e)
    ensures Fixed(ss[n], k, e) || exists x :: m < x <= n && k <= SnapIndex(ss[x])
    decreases n
  {
    if n > m {
      CommittedStability(ss, calls, m, n - 1, k, e);
      if Fixed(ss[n - 1], k, e) {
        assert ss[n - 1 + 1] == Do(ss[n - 1], calls[n - 1]);
        CallKeepsFixed(ss[n - 1], calls[n - 1], k, e);
      }
    }
  }

  // ----- When the commit index goes down -----

  ghost predicate AllBelow(log: seq<LogEntry>, i: nat) {
    forall j :: 0 <= j < |log| ==> log[j].index < i
  }

  /** Kept by every call: the snapshot is committed, and nothing retained lies before it. */
  ghost predicate SnapshotCommitted(s: Server) {
    SnapIndex(s) <= s.commit && AllFrom(s.log, SnapIndex(s))
  }

  /** Entries of `log` all reach `i`. */
  ghost predicate AllFrom(log: seq<LogEntry>, i: nat) {
    forall j :: 0 <= j < |log| ==> log[j].index >= i
  }

  lemma AllFromSubset(log: seq<LogEntry>, some: seq<LogEntry>, i: nat)
    requires AllFrom(log, i) && forall x :: x in some ==> x in log
    ensures AllFrom(some, i)
  {
    forall j | 0 <= j < |some|
      ensures some[j].index >= i
    {
      assert some[j] in log;
    }
  }

  lemma BelowKeepsFrom(log: seq<LogEntry>, c: LogIndex, i: nat)
    requires AllFrom(log, i)
    ensures AllFrom(Below(log, c), i)
  {
    forall x | x in Below(log, c)
      ensures x in log
    {
      BelowOf(log, c, x);
    }
    AllFromSubset(log, Below(log, c), i);
  }

  lemma AboveIsFrom(log: seq<LogEntry>, c: LogIndex)
    ensures AllFrom(Above(log, c), c)
  {
    forall j | 0 <= j < |Above(log, c)|
      ensures Above(log, c)[j].index >= c
    {
      AboveOf(log, c, Above(log, c)[j]);
    }
  }

  lemma {:induction false} InsertKeepsFrom(log: seq<LogEntry>, e: LogEntry, i: nat)
    requires AllFrom(log, i) && e.index >= i
    ensures AllFrom(InsertByIndex(log, e), i)
  {
    if log != [] && log[|log| - 1].index > e.index {
      InsertKeepsFrom(log[..|log| - 1], e, i);
    }
  }

  lemma {:induction false} SortKeepsFrom(log: seq<LogEntry>, i: nat)
    requires AllFrom(log, i)
    ensures AllFrom(SortByIndex(log), i)
  {
    if log != [] {
      SortKeepsFrom(log[..|log| - 1], i);
      InsertKeepsFrom(SortByIndex(log[..|log| - 1]), log[|log| - 1], i);
    }
  }

  lemma {:induction false} AbsorbKeepsSnapshot(s: Server, es: seq<LogEntry>)
    requires SnapshotCommitted(s)
    ensures SnapshotCommitted(Absorb(s, es).0) && Absorb(s, es).0.snapshot == s.snapshot
    decreases |es|
  {
    if es != [] && es[0].shardId == s.shard {
      var x := es[0];
      var old_ := EntryAt(s.log, x.index);
      if x.index <= SnapIndex(s) || (old_.Some? && old_.value.term == x.term) {
        AbsorbKeepsSnapshot(s, es[1..]);
      } else if old_.None? {
        AbsorbKeepsSnapshot(s.(log := s.log + [x]), es[1..]);
      } else if x.index > s.commit {
        BelowKeepsFrom(s.log, x.index, SnapIndex(s));
        var cut := TruncateFrom(s, x.index);
        AbsorbKeepsSnapshot(cut.(log := cut.log + [x]), es[1..]);
      }
    }
  }

  lemma SettleKeepsSnapshot(s: Server, leaderCommit: LogIndex)
    requires SnapshotCommitted(s)
    ensures SnapshotCommitted(Settle(s, leaderCommit).0)
  {
    SortKeepsFrom(s.log, SnapIndex(s));
  }

  lemma AppendKeepsSnapshot(s: Server, r: AppendRequest)
    requires SnapshotCommitted(s)
    ensures SnapshotCommitted(AppendEntries(s, r).0)
  {
    var f := Follow(s, r.term, r.leader);
    AbsorbKeepsSnapshot(f, r.entries);
    SettleKeepsSnapshot(Absorb(f, r.entries).0, r.leaderCommit);
    BelowKeepsFrom(f.log, r.prevIndex, SnapIndex(f));
  }

  lemma CompactKeepsSnapshot(s: Server, meta: SnapshotMeta)
    requires SnapshotCommitted(s)
    ensures SnapshotCommitted(CompactTo(s, meta).0)
  {
    AboveIsFrom(s.log, meta.lastIndex);
  }

  lemma InstallKeepsSnapshot(s: Server, r: SnapshotRequest)
    requires SnapshotCommitted(s)
    ensures SnapshotCommitted(InstallSnapshot(s, r).0)
  {
    AboveIsFrom(s.log, r.meta.lastIndex);
  }

  lemma LeaderCallKeepsSnapshot(s: Server, c: Call)
    requires SnapshotCommitted(s) && (c.CallLocal? || c.CallExisting? || c.CallMatch?)
    ensures SnapshotCommitted(Do(s, c))
  {
    hide IsQuorumIndex, QuorumIndex;
  }

  /** The snapshot never overtakes the commit index, whatever is called. */
  lemma CallKeepsSnapshot(s: Server, c: Call)
    requires SnapshotCommitted(s)
    ensures SnapshotCommitted(Do(s, c))
  {
    hide AppendEntries, InstallSnapshot, CompactTo, AppendLocal, AppendExisting, RecordMatch;
    match c
    case CallAppend(r) => AppendKeepsSnapshot(s, r);
    case CallInstall(r) => InstallKeepsSnapshot(s, r);
    case CallCompact(meta) => CompactKeepsSnapshot(s, meta);
    case CallLocal(_) => LeaderCallKeepsSnapshot(s, c);
    case CallExisting(_) => LeaderCallKeepsSnapshot(s, c);
    case CallMatch(_, _) => LeaderCallKeepsSnapshot(s, c);
    case _ =>
  }

  /** It holds of every opened node, hence at every moment of every history. */
  lemma OpenSnapshotCommitted(
    id: ServerId, shard: ShardId, membership: Membership, term: Term, votedFor: Option<ServerId>,
    log: seq<LogEntry>, snapshot: Option<SnapshotMeta>, commit: LogIndex)
    requires Open(id, shard, membership, term, votedFor, log, snapshot, commit).Ok?
    ensures SnapshotCommitted(Open(id, shard, membership, term, votedFor, log, snapshot, commit).value)
  {
    if snapshot.Some? { AboveIsFrom(SortByIndex(log), snapshot.value.lastIndex); }
  }

  lemma {:induction false} SnapshotCommittedAlways(ss: seq<Server>, calls: seq<Call>, n: nat)
    requires History(ss, calls) && SnapshotCommitted(ss[0]) && n < |ss|
    ensures SnapshotCommitted(ss[n])
  {
    if n > 0 {
      SnapshotCommittedAlways(ss, calls, n - 1);
      assert ss[n - 1 + 1] == Do(ss[n - 1], calls[n - 1]);
      CallKeepsSnapshot(ss[n - 1], calls[n - 1]);
    }
  }

  lemma {:induction false} BelowOf(log: seq<LogEntry>, i: LogIndex, x: LogEntry)
    ensures x in Below(log, i) <==> x in log && x.index < i
  {
    if log != [] {
      BelowOf(log[1..], i, x);
      assert x in log <==> x == log[0] || x in log[1..];
    }
  }

  lemma {:induction false} AboveOf(log: seq<LogEntry>, i: LogIndex, x: LogEntry)
    ensures x in Above(log, i) <==> x in log && x.index > i
  {
    if log != [] {
      AboveOf(log[1..], i, x);
      assert x in log <==> x == log[0] || x in log[1..];
    }
  }

  /** After a clean pass the log ends below the commit index iff it did and the batch does. */
  lemma {:induction false} AbsorbBelow(s: Server, es: seq<LogEntry>)
    requires SnapIndex(s) <= s.commit && Absorb(s, es).1.None?
    ensures var s' := Absorb(s, es).0;
            && s'.commit == s.commit && s'.snapshot == s.snapshot
            && (AllBelow(s'.log, s.commit) <==>
                  AllBelow(s.log, s.commit) && forall j :: 0 <= j < |es| ==>
                      es[j].index < s.commit || es[j].index <= SnapIndex(s))
    decreases |es|
  {
    if es != [] {
      var x := es[0];
      var next := AbsorbOne(s, x);
      AbsorbBelowOne(s, x);
      AbsorbBelow(next, es[1..]);
      assert forall j :: 0 <= j < |es| - 1 ==> es[1..][j] == es[j + 1];
    }
  }

  /** What one round of the loop does when it does not return early. */
  ghost function AbsorbOne(s: Server, x: LogEntry): Server {
    if x.index <= SnapIndex(s) then s
    else match EntryAt(s.log, x.index)
      case None => s.(log := s.log + [x])
      case Some(old_) =>
        if old_.term == x.term then s
        else
          var cut := TruncateFrom(s, x.index);
          cut.(log := cut.log + [x])
  }

  lemma AbsorbBelowOne(s: Server, x: LogEntry)
    requires SnapIndex(s) <= s.commit
    requires x.index <= SnapIndex(s) || EntryAt(s.log, x.index).None?
             || EntryAt(s.log, x.index).value.term == x.term || x.index > s.commit
    ensures var s' := AbsorbOne(s, x);
            && s'.commit == s.commit && s'.snapshot == s.snapshot && s'.shard == s.shard
            && (AllBelow(s'.log, s.commit) <==>
                  AllBelow(s.log, s.commit) && (x.index < s.commit || x.index <= SnapIndex(s)))
  {
    var s' := AbsorbOne(s, x);
    if x.index > SnapIndex(s) {
      var old_ := EntryAt(s.log, x.index);
      if old_.None? {
        assert s'.log[..|s.log|] == s.log && s'.log[|s.log|] == x;
      } else if old_.value.term == x.term {
        EntryIndex(s.log, x.index);
      } else {
        assert s'.log[|s'.log| - 1] == x;
        EntryIndex(s.log, x.index);
      }
    }
  }

  /** The gap that lets the commit index drop: everything known ends before it. */
  ghost predicate EndsBeforeCommit(s: Server, r: AppendRequest) {
    && r.leaderCommit > s.commit
    && SnapIndex(s) < s.commit && AllBelow(s.log, s.commit) && AllBelow(r.entries, s.commit)
  }

  lemma SettleDrops(s: Server, leaderCommit: LogIndex)
    requires SnapIndex(s) <= s.commit
    ensures Settle(s, leaderCommit).0.commit < s.commit <==>
            leaderCommit > s.commit && AllBelow(s.log, s.commit) && (s.log == [] ==> SnapIndex(s) < s.commit)
  {
    SortLast(s.log);
  }

  /** An early return never acknowledges and never moves the commit index. */
  lemma {:induction false} AbsorbEarly(s: Server, es: seq<LogEntry>)
    requires SnapIndex(s) <= s.commit && Absorb(s, es).1.Some?
    ensures Absorb(s, es).0.commit == s.commit
    ensures Absorb(s, es).1.value.Ok? ==> !Absorb(s, es).1.value.value.success
    decreases |es|
  {
    if es[0].shardId == s.shard && (es[0].index <= SnapIndex(s) || EntryAt(s.log, es[0].index).None?
         || EntryAt(s.log, es[0].index).value.term == es[0].term || es[0].index > s.commit) {
      AbsorbBelowOne(s, es[0]);
      AbsorbEarly(AbsorbOne(s, es[0]), es[1..]);
    }
  }

  /** No entry is foreign, meets a held entry of another term, or meets one in the batch itself. */
  ghost predicate Agrees(s: Server, es: seq<LogEntry>) {
    && (forall j :: 0 <= j < |es| ==> es[j].shardId == s.shard && (SnapIndex(s) < es[j].index ==> MeetsNone(s, es[j])))
    && (forall i, j :: 0 <= i < j < |es| && SnapIndex(s) < es[i].index == es[j].index ==> es[i].term == es[j].term)
  }

  ghost predicate MeetsNone(s: Server, e: LogEntry) {
    EntryAt(s.log, e.index).Some? ==> EntryAt(s.log, e.index).value.term == e.term
  }

  /** Taking the first entry at a free index splits the agreement. */
  lemma AgreesPush(s: Server, es: seq<LogEntry>)
    requires es != [] && es[0].shardId == s.shard && SnapIndex(s) < es[0].index && EntryAt(s.log, es[0].index).None?
    ensures Agrees(s, es) <==> Agrees(s.(log := s.log + [es[0]]), es[1..])
  {
    var x, rest := es[0], es[1..];
    var s' := s.(log := s.log + [x]);
    forall e: LogEntry
      ensures MeetsNone(s', e) <==> if e.index == x.index then e.term == x.term else MeetsNone(s, e)
    {
      EntryAtAppend(s.log, x, e.index);
    }
    if Agrees(s', rest) {
      forall i, j | 0 <= i < j < |es| && SnapIndex(s) < es[i].index == es[j].index
        ensures es[i].term == es[j].term
      {
        assert es[j] == rest[j - 1] && (i > 0 ==> es[i] == rest[i - 1]);
        assert MeetsNone(s', rest[j - 1]);
      }
    }
    if Agrees(s, es) {
      forall j | 0 <= j < |rest| && SnapIndex(s) < rest[j].index
        ensures MeetsNone(s', rest[j])
      {
        assert rest[j] == es[j + 1];
      }
    }
  }

  lemma AgreesSkip(s: Server, es: seq<LogEntry>)
    requires es != [] && es[0].shardId == s.shard
    requires es[0].index <= SnapIndex(s)
             || (EntryAt(s.log, es[0].index).Some? && EntryAt(s.log, es[0].index).value.term == es[0].term)
    ensures Agrees(s, es) <==> Agrees(s, es[1..])
  {
    var rest := es[1..];
    if Agrees(s, rest) {
      forall j | 0 <= j < |es| && SnapIndex(s) < es[j].index
        ensures es[j].shardId == s.shard && MeetsNone(s, es[j])
      {
        if j > 0 { assert es[j] == rest[j - 1]; }
      }
      forall i, j | 0 <= i < j < |es| && SnapIndex(s) < es[i].index == es[j].index
        ensures es[i].term == es[j].term
      {
        assert es[j] == rest[j - 1] && (i > 0 ==> es[i] == rest[i - 1]);
        assert MeetsNone(s, rest[j - 1]);
      }
    }
  }

  /** A batch that ends at or below the commit index passes the loop exactly when it agrees. */
  lemma {:induction false} PassesExactly(s: Server, es: seq<LogEntry>)
    requires SnapIndex(s) <= s.commit && forall j :: 0 <= j < |es| ==> es[j].index <= s.commit
    ensures Absorb(s, es).1.None? <==> Agrees(s, es)
    decreases |es|
  {
    hide Agrees, EntryAt;
    if es == [] {
      NothingAgrees(s);
    } else if es[0].shardId != s.shard {
      AgreesFirst(s, es);
    } else if SnapIndex(s) < es[0].index && EntryAt(s.log, es[0].index).None? {
      AgreesPush(s, es);
      PassesExactly(s.(log := s.log + [es[0]]), es[1..]);
    } else if es[0].index <= SnapIndex(s) || EntryAt(s.log, es[0].index).value.term == es[0].term {
      AgreesSkip(s, es);
      PassesExactly(s, es[1..]);
    } else {
      AgreesFirst(s, es);
    }
  }

  lemma NothingAgrees(s: Server)
    ensures Agrees(s, [])
  {
  }

  lemma AgreesFirst(s: Server, es: seq<LogEntry>)
    requires es != []
    ensures Agrees(s, es) ==> es[0].shardId == s.shard && (SnapIndex(s) < es[0].index ==> MeetsNone(s, es[0]))
  {
  }

  lemma AbsorbAllDrops(s: Server, r: AppendRequest)
    requires SnapshotCommitted(s)
    ensures AbsorbAll(s, r).0.commit < s.commit <==> EndsBeforeCommit(s, r) && Agrees(s, r.entries)
  {
    hide Agrees, Settle;
    var (s1, early) := Absorb(s, r.entries);
    if early.None? {
      AbsorbBelow(s, r.entries);
      AbsorbKeepsSnapshot(s, r.entries);
      SettleDrops(s1, r.leaderCommit);
      if s1.log != [] && AllBelow(s1.log, s.commit) { assert SnapIndex(s) <= s1.log[0].index < s.commit; }
    } else {
      AbsorbEarly(s, r.entries);
    }
    if EndsBeforeCommit(s, r) { PassesExactly(s, r.entries); }
  }

  /** The entry before the batch is the one the request names, or there is none to name. */
  ghost predicate PrevOk(s: Server, r: AppendRequest) {
    || r.prevIndex == 0
    || match EntryAt(s.log, r.prevIndex)
       case Some(e) => e.term == r.prevTerm
       case None => r.prevIndex == SnapIndex(s) && r.prevTerm == SnapTerm(s)
  }

  /** The server takes every entry of a current request without a conflict. */
  ghost predicate Takes(s: Server, r: AppendRequest) {
    r.term >= s.term && PrevOk(s, r) && Agrees(s, r.entries)
  }

  /**
   * `commit_index` goes down exactly when a request that fits the log announces a later commit
   * while the log, the snapshot and the request all end before the current one.
   */
  lemma CommitDropsExactly(s: Server, r: AppendRequest)
    requires SnapshotCommitted(s)
    ensures AppendEntries(s, r).0.commit < s.commit <==> Takes(s, r) && EndsBeforeCommit(s, r)
  {
    hide AbsorbAll, Agrees, EndsBeforeCommit;
    var f := Follow(s, r.term, r.leader);
    assert SnapshotCommitted(f);
    AbsorbAllDrops(f, r);
    SameAgreement(s, f, r);
  }

  lemma SameAgreement(s: Server, f: Server, r: AppendRequest)
    requires f.log == s.log && f.snapshot == s.snapshot && f.shard == s.shard && f.commit == s.commit
    ensures Agrees(f, r.entries) <==> Agrees(s, r.entries)
    ensures EndsBeforeCommit(f, r) <==> EndsBeforeCommit(s, r)
  {
    assert forall e :: MeetsNone(f, e) <==> MeetsNone(s, e);
  }

  /** Every other call leaves the commit index where it is or moves it forward. */
  lemma OtherCallsNeverDrop(s: Server, c: Call)
    requires !c.CallAppend?
    ensures Do(s, c).commit >= s.commit
  {
  }

  // ----- Shape -----

  /** Requests carry consecutive entries, snapshots never move back, indices stay below the maximum. */
  ghost predicate Orderly(s: Server, c: Call) {
    match c
    case CallAppend(r) => Contiguous(r.entries, r.prevIndex)
    case CallCompact(meta) => meta.lastIndex >= SnapIndex(s)
    case CallLocal(_) => LastIndex(s) < U64_MAX
    case CallExisting(_) => LastIndex(s) < U64_MAX
    case _ => true
  }

  lemma {:induction false} AbsorbKeepsShape(s: Server, p: nat, es: seq<LogEntry>)
    requires Shaped(s) && Contiguous(es, p) && p <= LastIndex(s)
    ensures Shaped(Absorb(s, es).0) && Absorb(s, es).0.snapshot == s.snapshot
    decreases |es|
  {
    if es != [] && es[0].shardId == s.shard {
      var x := es[0];
      EntryAtContiguous(s.log, SnapIndex(s), x.index);
      var old_ := EntryAt(s.log, x.index);
      if x.index <= SnapIndex(s) || old_.None? || old_.value.term == x.term || x.index > s.commit {
        AbsorbOneKeepsShape(s, x);
        AbsorbKeepsShape(AbsorbOne(s, x), p + 1, es[1..]);
      }
    }
  }

  lemma AbsorbOneKeepsShape(s: Server, x: LogEntry)
    requires Shaped(s) && 0 < x.index <= LastIndex(s) + 1
    requires x.index <= SnapIndex(s) || EntryAt(s.log, x.index).None?
             || EntryAt(s.log, x.index).value.term == x.term || x.index > s.commit
    ensures Shaped(AbsorbOne(s, x)) && AbsorbOne(s, x).snapshot == s.snapshot && x.index <= LastIndex(AbsorbOne(s, x))
  {
    EntryAtContiguous(s.log, SnapIndex(s), x.index);
    if x.index > SnapIndex(s) && EntryAt(s.log, x.index).Some? && EntryAt(s.log, x.index).value.term != x.term {
      TruncateContiguous(s, x.index);
    }
  }

  lemma AbsorbAllKeepsShape(s: Server, r: AppendRequest)
    requires Shaped(s) && Contiguous(r.entries, r.prevIndex) && r.prevIndex <= LastIndex(s)
    ensures Shaped(AbsorbAll(s, r).0)
  {
    AbsorbKeepsShape(s, r.prevIndex, r.entries);
    var s1 := Absorb(s, r.entries).0;
    SortContiguous(s1.log, SnapIndex(s1));
  }

  lemma TruncateKeepsShape(s: Server, i: LogIndex)
    requires Shaped(s) && s.commit < i <= LastIndex(s)
    ensures Shaped(TruncateFrom(s, i))
  {
    TruncateContiguous(s, i);
  }

  lemma AppendKeepsShape(s: Server, r: AppendRequest)
    requires Shaped(s) && Contiguous(r.entries, r.prevIndex)
    ensures Shaped(AppendEntries(s, r).0)
  {
    var f := Follow(s, r.term, r.leader);
    EntryAtContiguous(f.log, SnapIndex(f), r.prevIndex);
    if r.prevIndex <= LastIndex(f) {
      AbsorbAllKeepsShape(f, r);
      if f.commit < r.prevIndex { TruncateKeepsShape(f, r.prevIndex); }
    }
  }

  lemma AdvanceKeepsShape(s: Server)
    requires Contiguous(s.log, SnapIndex(s)) && SnapIndex(s) <= s.commit <= LastIndex(s)
    ensures Shaped(AdvanceCommit(s))
  {
    EntryAtContiguous(s.log, SnapIndex(s), QuorumIndex(s));
  }

  lemma CompactKeepsShape(s: Server, meta: SnapshotMeta, commit: LogIndex)
    requires Shaped(s) && meta.lastIndex >= SnapIndex(s) && commit == Max(s.commit, meta.lastIndex)
    ensures Shaped(Compacted(s, meta).(commit := commit))
  {
    AboveContiguous(s.log, SnapIndex(s), meta.lastIndex);
  }

  lemma InstallKeepsShape(s: Server, r: SnapshotRequest)
    requires Shaped(s)
    ensures Shaped(InstallSnapshot(s, r).0)
  {
    if r.meta.lastIndex >= SnapIndex(s) {
      CompactKeepsShape(Follow(s, r.term, r.leader), r.meta, Max(s.commit, r.meta.lastIndex));
    }
  }

  lemma PushKeepsShape(s: Server, e: LogEntry)
    requires Shaped(s) && e.index == LastIndex(s) + 1
    ensures Shaped(Pushed(s, e))
  {
    AdvanceKeepsShape(s.(log := s.log + [e], matches := s.matches[s.id := e.index]));
  }

  lemma CallKeepsShape(s: Server, c: Call)
    requires Shaped(s) && Orderly(s, c)
    ensures Shaped(Do(s, c))
  {
    hide AppendEntries, InstallSnapshot, Pushed;
    match c
    case CallAppend(r) => AppendKeepsShape(s, r);
    case CallInstall(r) => InstallKeepsShape(s, r);
    case CallCompact(meta) =>
      if meta.lastIndex <= s.commit { CompactKeepsShape(s, meta, s.commit); }
    case CallLocal(command) =>
      PushKeepsShape(s, PlainEntry(s.shard, s.term, SatInc(LastIndex(s)), command));
    case CallExisting(e) =>
      if e.index == LastIndex(s) + 1 { PushKeepsShape(s, e); }
    case CallMatch(server, index) =>
      AdvanceKeepsShape(s.(matches := s.matches[server := index]));
    case _ =>
  }

  /**
   * Shape over any sequence of orderly calls: the log is exactly the indices from the
   * snapshot to the last one, the commit index lies between them, and it never goes down.
   */
  lemma {:induction false} ShapeOverHistory(ss: seq<Server>, calls: seq<Call>, m: nat, n: nat)
    requires History(ss, calls) && m <= n < |ss| && Shaped(ss[m])
    requires forall i :: m <= i < n ==> Orderly(ss[i], calls[i])
    ensures Shaped(ss[n]) && ss[m].commit <= ss[n].commit
    decreases n
  {
    hide Shaped, Orderly, Do;
    if n > m {
      ShapeOverHistory(ss, calls, m, n - 1);
      var s, c := ss[n - 1], calls[n - 1];
      assert ss[n - 1 + 1] == Do(s, c);
      OrderlyStep(s, c);
    }
  }

  lemma OrderlyStep(s: Server, c: Call)
    requires Shaped(s) && Orderly(s, c)
    ensures Shaped(Do(s, c)) && Do(s, c).commit >= s.commit
  {
    CallKeepsShape(s, c);
    ShapedNeverDrops(s, c);
  }

  lemma ShapedNeverDrops(s: Server, c: Call)
    requires Shaped(s)
    ensures Do(s, c).commit >= s.commit
  {
    if c.CallAppend? {
      CommitDropsExactly(s, c.append);
      if s.log != [] { assert s.log[|s.log| - 1].index >= s.commit; }
    } else {
      OtherCallsNeverDrop(s, c);
    }
  }

  /** A compaction of a well-shaped log keeps the shape exactly when it does not move back. */
  lemma CompactionShapeExactly(s: Server, meta: SnapshotMeta)
    requires Shaped(s) && CompactTo(s, meta).1.Ok?
    ensures Shaped(CompactTo(s, meta).0) <==> meta.lastIndex >= SnapIndex(s)
  {
    if meta.lastIndex >= SnapIndex(s) {
      CompactKeepsShape(s, meta, s.commit);
    } else {
      AllAbove(s.log, meta.lastIndex);
    }
  }

  // ----- The commit rule -----

  /** `i` could be committed: new, matched by a quorum, and of the current term. */
  ghost predicate Eligible(s: Server, i: LogIndex) {
    && i > s.commit && HasQuorum(s.membership, MatchedVoters(s, i))
    && EntryAt(s.log, i).Some? && EntryAt(s.log, i).value.term == s.term
  }

  /** A leader moves its commit index only to an eligible index. */
  lemma AdvanceOnlyToEligible(s: Server)
    ensures AdvanceCommit(s) == s.(commit := AdvanceCommit(s).commit)
    ensures AdvanceCommit(s).commit == s.commit || Eligible(s, AdvanceCommit(s).commit)
  {
  }

  ghost predicate TermsAscend(log: seq<LogEntry>) {
    forall i, j :: 0 <= i <= j < |log| ==> log[i].term <= log[j].term
  }

  /** With sane match records and ascending terms, no eligible index is left behind. */
  lemma AdvanceMissesNothing(s: Server, i: LogIndex)
    requires s.role == Leader && Shaped(s)
    requires forall v :: v in AllVoters(s.membership) ==> GetOr(s.matches, v, 0) <= LastIndex(s)
    requires TermsAscend(s.log) && (forall j :: 0 <= j < |s.log| ==> s.log[j].term <= s.term)
    requires Eligible(s, i)
    ensures AdvanceCommit(s).commit >= i && Eligible(s, AdvanceCommit(s).commit)
  {
    var q, base := QuorumIndex(s), SnapIndex(s);
    QuorumGrows(s.membership, MatchedVoters(s, q), MatchedVoters(s, q));
    var v :| v in MatchedVoters(s, q);
    assert i <= q <= LastIndex(s);
    EntryAtContiguous(s.log, base, i);
    EntryAtContiguous(s.log, base, q);
    assert s.log[i - base - 1].term <= s.log[q - base - 1].term;
  }

  /** A leader's own append: the command stands at the next index, and every other index reads as before. */
  lemma LocalEntryStands(s: Server, command: Command, k: LogIndex)
    requires s.role == Leader && Shaped(s) && LastIndex(s) < U64_MAX
    ensures var (s', out) := AppendLocal(s, command);
            && out.Ok? && out.value.command == command && out.value.term == s.term && out.value.shardId == s.shard
            && out.value.index == LastIndex(s) + 1 == LastIndex(s')
            && EntryAt(s'.log, k) == if k == LastIndex(s) + 1 then Some(out.value) else EntryAt(s.log, k)
  {
    var e := AppendLocal(s, command).1.value;
    AdvanceOnlyToEligible(s.(log := s.log + [e], matches := s.matches[s.id := e.index]));
    EntryAtAppend(s.log, e, k);
    EntryAtContiguous(s.log, SnapIndex(s), k);
  }
}
