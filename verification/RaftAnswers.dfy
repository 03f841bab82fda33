/** What the calls of a server answer and change, said of its log, snapshot and votes alone. */
module RaftAnswers {
  import opened Basics
  import opened Model
  import opened Membership
  import opened RaftState
  import opened RaftShape
  import opened RaftNode

  // ----- The end of a log -----

  /** Term and index of the last entry, or of the snapshot when nothing is retained. */
  function End(s: Server): (Term, LogIndex) {
    if s.log != [] then (s.log[|s.log| - 1].term, s.log[|s.log| - 1].index)
    else if s.snapshot.Some? then (s.snapshot.value.lastTerm, s.snapshot.value.lastIndex)
    else (0, 0)
  }

  /** The later term wins; in one term the longer log. */
  predicate Reaches(a: (Term, LogIndex), b: (Term, LogIndex)) {
    a.0 > b.0 || (a.0 == b.0 && a.1 >= b.1)
  }

  predicate CanVote(s: Server, r: VoteRequest) {
    r.term > s.term || (r.term == s.term && (s.votedFor == None || s.votedFor == Some(r.candidate)))
  }

  /** A vote is granted exactly to a current candidate the server may vote for and whose log reaches its own. */
  lemma VoteExactly(s: Server, r: VoteRequest)
    ensures var (s', answer) := RequestVote(s, r);
            && (answer.granted <==> CanVote(s, r) && Reaches((r.lastTerm, r.lastIndex), End(s)))
            && answer.term == s'.term == Max(s.term, r.term)
            && (s'.votedFor == if answer.granted then Some(r.candidate)
                               else if r.term > s.term then None else s.votedFor)
            && s'.log == s.log && s'.snapshot == s.snapshot && s'.commit == s.commit
            && (s'.role == if r.term > s.term then Follower else s.role)
  {
  }

  /** Of any servers, one has a log that reaches all others: elections cannot deadlock on logs. */
  lemma {:induction false} MostCompleteExists(ss: set<Server>) returns (c: Server)
    requires ss != {}
    ensures c in ss && forall s :: s in ss ==> Reaches(End(c), End(s))
  {
    c :| c in ss;
    if ss != {c} {
      var rest := ss - {c};
      assert ss == rest + {c};
      var d := MostCompleteExists(rest);
      if !Reaches(End(c), End(d)) { c := d; }
    }
  }

  /** Such a server, once it times out in a term no one is ahead of, gets every vote. */
  lemma MostCompleteGetsVotes(c: Server, s: Server)
    requires s.term <= c.term < U64_MAX && Reaches(End(c), End(s))
    ensures RequestVote(s, StartElection(c).1).1 == VoteResponse(c.term + 1, true)
  {
    VoteExactly(s, StartElection(c).1);
  }

  // ----- Counting votes -----

  datatype Ballot = Ballot(voter: ServerId, granted: bool)

  /** Record answers of the candidate's own term, one after the other. */
  function Count(s: Server, ballots: seq<Ballot>): Server {
    if ballots == [] then s
    else
      var b := ballots[|ballots| - 1];
      RecordVote(Count(s, ballots[..|ballots| - 1]), b.voter, VoteResponse(s.term, b.granted)).0
  }

  function Granted(ballots: seq<Ballot>): set<ServerId> {
    set b | b in ballots && b.granted :: b.voter
  }

  lemma GrantedStep(ballots: seq<Ballot>)
    requires ballots != []
    ensures var b := ballots[|ballots| - 1];
            Granted(ballots) == Granted(ballots[..|ballots| - 1]) + (if b.granted then {b.voter} else {})
  {
    var front, b := ballots[..|ballots| - 1], ballots[|ballots| - 1];
    assert forall x :: x in ballots <==> x in front || x == b;
  }

  lemma NothingGranted()
    ensures Granted([]) == {}
  {
  }

  /**
   * A candidate that has recorded any answers leads exactly when its own vote and the granted
   * ones are a quorum; until then it stays a candidate with exactly those votes.
   */
  lemma {:induction false} LeadsExactly(s: Server, ballots: seq<Ballot>)
    requires s.role == Candidate
    ensures var t := Count(s, ballots);
            var votes := s.votes + Granted(ballots);
            && t.term == s.term && t.membership == s.membership && t.id == s.id && t.log == s.log
            && t.snapshot == s.snapshot && t.commit == s.commit
            && (ballots != [] ==> (t.role == Leader <==> HasQuorum(s.membership, votes)))
            && (t.role == Leader ==> t.leaderId == Some(s.id) && t.matches == map[s.id := End(s).1])
            && (t.role != Leader ==> t.role == Candidate && t.votes == votes)
    decreases |ballots|
  {
    hide HasQuorum, Granted;
    if ballots == [] {
      assert Granted([]) == {} by { NothingGranted(); }
      assert s.votes + Granted(ballots) == s.votes;
    } else {
      var front, b := ballots[..|ballots| - 1], ballots[|ballots| - 1];
      LeadsExactly(s, front);
      GrantedStep(ballots);
      var before, after := s.votes + Granted(front), s.votes + Granted(ballots);
      assert after == if b.granted then before + {b.voter} else before;
      if HasQuorum(s.membership, before) { QuorumGrows(s.membership, before, after); }
    }
  }

  /**
   * Other answers elect no one: one of a later term makes the server a follower of that term without
   * a vote, and one that is old, or meets no candidate, changes nothing.
   */
  lemma OtherAnswers(s: Server, voter: ServerId, answer: VoteResponse)
    requires s.role != Candidate || answer.term != s.term
    ensures var (s', won) := RecordVote(s, voter, answer);
            && !won
            && (answer.term <= s.term ==> s' == s)
            && (answer.term > s.term ==>
                  && s'.term == answer.term && s'.role == Follower && s'.votedFor == None && s'.leaderId == None
                  && s'.log == s.log && s'.snapshot == s.snapshot && s'.commit == s.commit)
  {
  }

  // ----- Refused appends -----

  /** An old request is answered with the server's own term and changes nothing. */
  lemma OldRequestRefused(s: Server, r: AppendRequest)
    requires r.term < s.term
    ensures AppendEntries(s, r) ==
            (s, Ok(AppendResponse(s.term, false, End(s).1, Some(SatInc(End(s).1)), Some(s.term))))
  {
  }

  /** No entry of the log has index `i`. */
  predicate Nowhere(log: seq<LogEntry>, i: LogIndex) {
    forall j :: 0 <= j < |log| ==> log[j].index != i
  }

  /** Position `j` is the first with index `i`. */
  predicate FirstAt(log: seq<LogEntry>, j: nat, i: LogIndex) {
    j < |log| && log[j].index == i && forall x :: 0 <= x < j ==> log[x].index != i
  }

  lemma {:induction false} LooksUpFirst(log: seq<LogEntry>, i: LogIndex, j: nat)
    requires FirstAt(log, j, i)
    ensures EntryAt(log, i) == Some(log[j])
  {
    if j > 0 {
      assert forall x :: 0 <= x < j ==> log[1..][x] == log[x + 1];
      assert log[0].index != i;
      LooksUpFirst(log[1..], i, j - 1);
    }
  }

  lemma {:induction false} LooksUpNone(log: seq<LogEntry>, i: LogIndex)
    requires Nowhere(log, i)
    ensures EntryAt(log, i) == None
  {
    if log != [] {
      assert forall x :: 0 <= x < |log| - 1 ==> log[1..][x] == log[x + 1];
      LooksUpNone(log[1..], i);
    }
  }

  /** Without the previous entry the answer asks for what follows the last index. */
  lemma MissingPreviousRefused(s: Server, r: AppendRequest)
    requires r.term >= s.term && r.prevIndex > 0 && Nowhere(s.log, r.prevIndex)
    requires !(s.snapshot.Some? && r.prevIndex == s.snapshot.value.lastIndex && r.prevTerm == s.snapshot.value.lastTerm)
    ensures var (s', out) := AppendEntries(s, r);
            && out == Ok(AppendResponse(r.term, false, End(s).1, Some(SatInc(End(s).1)), None))
            && s'.log == s.log && s'.commit == s.commit && s'.snapshot == s.snapshot && s'.term == r.term
            && s'.role == Follower && s'.leaderId == Some(r.leader)
  {
    hide EntryAt, AbsorbAll, Nowhere, TruncateFrom;
    LooksUpNone(s.log, r.prevIndex);
  }

  /** Position `k` holds the first entry of term `t`. */
  predicate FirstOf(log: seq<LogEntry>, k: nat, t: Term) {
    k < |log| && log[k].term == t && forall x :: 0 <= x < k ==> log[x].term != t
  }

  lemma {:induction false} FirstOfTermExactly(log: seq<LogEntry>, k: nat, t: Term)
    requires FirstOf(log, k, t)
    ensures FirstOfTerm(log, t) == Some(log[k].index)
  {
    if k > 0 {
      assert forall x :: 0 <= x < k ==> log[1..][x] == log[x + 1];
      assert log[0].term != t;
      FirstOfTermExactly(log[1..], k - 1, t);
    }
  }

  /** A previous entry of another term at or below the commit index: it is named, and the log stays. */
  lemma CommittedPreviousRefused(s: Server, r: AppendRequest, j: nat)
    requires r.term >= s.term && 0 < r.prevIndex <= s.commit
    requires FirstAt(s.log, j, r.prevIndex) && s.log[j].term != r.prevTerm
    ensures var (s', out) := AppendEntries(s, r);
            && out == Ok(AppendResponse(r.term, false, End(s).1, Some(r.prevIndex), Some(s.log[j].term)))
            && s'.log == s.log && s'.commit == s.commit && s'.snapshot == s.snapshot && s'.term == r.term
            && s'.role == Follower && s'.leaderId == Some(r.leader)
  {
    hide EntryAt, AbsorbAll, FirstOfTerm, TruncateFrom;
    LooksUpFirst(s.log, r.prevIndex, j);
  }

  /**
   * Above the commit index: its term and the first index of that term are named, and the log is
   * cut to the entries before it, which the answered match index ends.
   */
  lemma ConflictingPreviousRefused(s: Server, r: AppendRequest, j: nat, k: nat)
    requires r.term >= s.term && r.prevIndex > s.commit
    requires FirstAt(s.log, j, r.prevIndex) && s.log[j].term != r.prevTerm && FirstOf(s.log, k, s.log[j].term)
    ensures var (s', out) := AppendEntries(s, r);
            && out == Ok(AppendResponse(r.term, false, End(s').1, Some(s.log[k].index), Some(s.log[j].term)))
            && s'.log == Below(s.log, r.prevIndex) && s'.snapshot == s.snapshot && s'.term == r.term
            && s'.role == Follower && s'.leaderId == Some(r.leader)
            && (SnapIndex(s) <= s.commit ==> s'.commit == s.commit)
  {
    hide EntryAt, AbsorbAll, FirstOfTerm, Below;
    LooksUpFirst(s.log, r.prevIndex, j);
    FirstOfTermExactly(s.log, k, s.log[j].term);
  }

  /** Entry `j` of the batch meets the answered index, held at or below commit with the answered term. */
  ghost predicate Collides(s: Server, es: seq<LogEntry>, j: nat, index: LogIndex, term: Term) {
    && j < |es| && es[j].index == index && SnapIndex(s) < index <= s.commit
    && EntryAt(s.log, index).Some? && EntryAt(s.log, index).value.term == term != es[j].term
  }

  ghost predicate CollidesSomewhere(s: Server, es: seq<LogEntry>, index: LogIndex, term: Term) {
    exists j: nat :: Collides(s, es, j, index, term)
  }

  lemma CollidesLater(s: Server, es: seq<LogEntry>, index: LogIndex, term: Term)
    requires es != [] && CollidesSomewhere(s, es[1..], index, term)
    ensures CollidesSomewhere(s, es, index, term)
  {
    var j: nat :| Collides(s, es[1..], j, index, term);
    assert Collides(s, es, j + 1, index, term);
  }

  /**
   * Leaving the entry loop early: either a foreign entry and an error, or a refusal that names an
   * entry of the batch and the other term held at its index, at or below the commit index.
   */
  lemma {:induction false} EarlyExit(s: Server, es: seq<LogEntry>)
    requires Absorb(s, es).1.Some?
    ensures var (s', early) := Absorb(s, es);
            match early.value
            case Err(e) => e == WrongShard && exists j :: 0 <= j < |es| && es[j].shardId != s.shard
            case Ok(a) =>
              && a.term == s.term && !a.success && a.matchIndex == End(s').1
              && a.conflictIndex.Some? && a.conflictTerm.Some?
              && CollidesSomewhere(s', es, a.conflictIndex.value, a.conflictTerm.value)
    decreases |es|
  {
    hide EntryAt, TruncateFrom, CollidesSomewhere;
    if es[0].shardId == s.shard {
      var held := EntryAt(s.log, es[0].index);
      if es[0].index > SnapIndex(s) && held.Some? && held.value.term != es[0].term && es[0].index <= s.commit {
        CollidesFirst(s, es);
      } else {
        var next := AbsorbOne(s, es[0]);
        assert next.shard == s.shard && next.term == s.term by { OneKeeps(s, es[0]); }
        EarlyExit(next, es[1..]);
        var (s', early) := Absorb(next, es[1..]);
        if early.value.Ok? {
          CollidesLater(s', es, early.value.value.conflictIndex.value, early.value.value.conflictTerm.value);
        } else {
          var j :| 0 <= j < |es[1..]| && es[1..][j].shardId != s.shard;
          assert es[j + 1].shardId != s.shard;
        }
      }
    }
  }

  lemma CollidesFirst(s: Server, es: seq<LogEntry>)
    requires es != [] && SnapIndex(s) < es[0].index <= s.commit
    requires EntryAt(s.log, es[0].index).Some? && EntryAt(s.log, es[0].index).value.term != es[0].term
    ensures CollidesSomewhere(s, es, es[0].index, EntryAt(s.log, es[0].index).value.term)
  {
    assert Collides(s, es, 0, es[0].index, EntryAt(s.log, es[0].index).value.term);
  }

  lemma OneKeeps(s: Server, x: LogEntry)
    ensures AbsorbOne(s, x).shard == s.shard && AbsorbOne(s, x).term == s.term
    ensures AbsorbOne(s, x).snapshot == s.snapshot
  {
  }

  // ----- Accepted appends -----

  predicate Ascending(es: seq<LogEntry>) {
    forall i, j :: 0 <= i < j < |es| ==> es[i].index < es[j].index
  }

  /** Every entry is of the shard, and none meets another term at or below the commit index. */
  ghost predicate Fits(s: Server, es: seq<LogEntry>) {
    forall j {:trigger FitsOne(s, es[j])} :: 0 <= j < |es| ==> FitsOne(s, es[j])
  }

  ghost predicate FitsOne(s: Server, e: LogEntry) {
    e.shardId == s.shard && (SnapIndex(s) < e.index <= s.commit ==> MeetsNone(s, e))
  }

  /** One entry changes nothing for later ones. */
  lemma OneFits(s: Server, x: LogEntry, e: LogEntry)
    requires SnapIndex(s) <= s.commit && FitsOne(s, x) && x.index < e.index
    ensures FitsOne(AbsorbOne(s, x), e) <==> FitsOne(s, e)
    ensures AbsorbOne(s, x).commit == s.commit && AbsorbOne(s, x).snapshot == s.snapshot
  {
    EntryAtAppend(s.log, x, e.index);
  }

  lemma OneCommits(s: Server, x: LogEntry)
    requires SnapIndex(s) <= s.commit && FitsOne(s, x)
    ensures var s' := AbsorbOne(s, x); s'.commit == s.commit && s'.snapshot == s.snapshot && s'.term == s.term
  {
  }

  lemma FitsTail(s: Server, es: seq<LogEntry>)
    requires SnapIndex(s) <= s.commit && Ascending(es) && es != [] && FitsOne(s, es[0])
    ensures Fits(s, es) <==> Fits(AbsorbOne(s, es[0]), es[1..])
  {
    hide FitsOne;
    var next, rest := AbsorbOne(s, es[0]), es[1..];
    forall j | 0 <= j < |rest|
      ensures FitsOne(next, rest[j]) <==> FitsOne(s, es[j + 1])
    {
      OneFits(s, es[0], es[j + 1]);
    }
    if Fits(next, rest) {
      forall j | 0 <= j < |es|
        ensures FitsOne(s, es[j])
      {
        if j > 0 { assert FitsOne(next, rest[j - 1]); }
      }
    }
    if Fits(s, es) {
      forall j | 0 <= j < |rest|
        ensures FitsOne(next, rest[j])
      {
        assert FitsOne(s, es[j + 1]);
      }
    }
  }

  /** An ascending batch passes the loop exactly when it fits, and then leaves commit and snapshot alone. */
  lemma {:induction false} FitsExactly(s: Server, es: seq<LogEntry>)
    requires SnapIndex(s) <= s.commit && Ascending(es)
    ensures Absorb(s, es).1.None? <==> Fits(s, es)
    ensures Fits(s, es) ==> var s' := Absorb(s, es).0;
                            s'.commit == s.commit && s'.snapshot == s.snapshot && s'.term == s.term
    decreases |es|
  {
    hide Fits, EntryAt, TruncateFrom;
    if es == [] {
      NothingToFit(s);
    } else if FitsOne(s, es[0]) {
      FitsTail(s, es);
      OneCommits(s, es[0]);
      FitsExactly(AbsorbOne(s, es[0]), es[1..]);
    } else {
      FirstFits(s, es);
    }
  }

  lemma NothingToFit(s: Server)
    ensures Fits(s, [])
  {
  }

  lemma FirstFits(s: Server, es: seq<LogEntry>)
    requires es != []
    ensures Fits(s, es) ==> FitsOne(s, es[0])
  {
  }

  ghost predicate HoldsTerm(log: seq<LogEntry>, i: LogIndex, t: Term) {
    EntryAt(log, i).Some? && EntryAt(log, i).value.term == t
  }

  lemma OneHolds(s: Server, x: LogEntry, i: LogIndex, t: Term)
    ensures x.index > SnapIndex(s) ==> HoldsTerm(AbsorbOne(s, x).log, x.index, x.term)
    ensures HoldsTerm(s.log, i, t) && i < x.index ==> HoldsTerm(AbsorbOne(s, x).log, i, t)
  {
    hide EntryAt;
    var cut := Below(s.log, x.index);
    EntryAtAppend(s.log, x, x.index);
    EntryAtAppend(s.log, x, i);
    EntryAtAppend(cut, x, x.index);
    EntryAtAppend(cut, x, i);
    if EntryAt(cut, x.index).Some? { CutHasNone(s.log, x.index); }
    if i < x.index { EntryAtBelow(s.log, x.index, i); }
  }

  lemma CutHasNone(log: seq<LogEntry>, i: LogIndex)
    ensures EntryAt(Below(log, i), i) == None
  {
    var cut := Below(log, i);
    forall j | 0 <= j < |cut|
      ensures cut[j].index != i
    {
      BelowOf(log, i, cut[j]);
    }
    LooksUpNone(cut, i);
  }

  /** What is held stays held while larger indices are taken. */
  lemma {:induction false} LaterKeepHeld(s: Server, es: seq<LogEntry>, i: LogIndex, t: Term)
    requires HoldsTerm(s.log, i, t) && Absorb(s, es).1.None? && forall j :: 0 <= j < |es| ==> es[j].index > i
    ensures HoldsTerm(Absorb(s, es).0.log, i, t)
    decreases |es|
  {
    hide HoldsTerm, EntryAt, TruncateFrom;
    if es != [] {
      OneHolds(s, es[0], i, t);
      assert forall j :: 0 <= j < |es| - 1 ==> es[1..][j] == es[j + 1];
      LaterKeepHeld(AbsorbOne(s, es[0]), es[1..], i, t);
    }
  }

  /** After the loop every entry of an ascending batch is held, above the snapshot. */
  lemma {:induction false} AllHeld(s: Server, es: seq<LogEntry>, j: nat)
    requires Ascending(es) && Absorb(s, es).1.None? && j < |es| && es[j].index > SnapIndex(s)
    ensures HoldsTerm(Absorb(s, es).0.log, es[j].index, es[j].term)
    decreases |es|
  {
    hide HoldsTerm, EntryAt, TruncateFrom;
    var next := AbsorbOne(s, es[0]);
    OneKeeps(s, es[0]);
    assert forall x :: 0 <= x < |es| - 1 ==> es[1..][x] == es[x + 1];
    if j == 0 {
      OneHolds(s, es[0], 0, 0);
      LaterKeepHeld(next, es[1..], es[0].index, es[0].term);
    } else {
      AllHeld(next, es[1..], j - 1);
    }
  }

  /**
   * An append of ascending entries succeeds exactly when it is current, its previous entry is held
   * and its entries fit. Then every entry is held, the commit index follows the leader's up to the
   * end of the log, and the answer names that end.
   */
  lemma AppendSucceedsExactly(s: Server, r: AppendRequest)
    requires SnapIndex(s) <= s.commit && Ascending(r.entries)
    ensures var (s', out) := AppendEntries(s, r);
            out.Ok? && out.value.success <==> r.term >= s.term && PrevOk(s, r) && Fits(s, r.entries)
    ensures var (s', out) := AppendEntries(s, r);
            out.Ok? && out.value.success ==>
              && out.value == AppendResponse(r.term, true, End(s').1, None, None)
              && s'.term == r.term && s'.role == Follower && s'.leaderId == Some(r.leader) && s'.snapshot == s.snapshot
              && s'.commit == (if r.leaderCommit > s.commit then Min(r.leaderCommit, End(s').1) else s.commit)
              && forall j :: 0 <= j < |r.entries| && r.entries[j].index > SnapIndex(s) ==>
                   HoldsTerm(s'.log, r.entries[j].index, r.entries[j].term)
  {
    hide EntryAt, Fits, Absorb, TruncateFrom, FirstOfTerm, HoldsTerm, SortByIndex, Ascending;
    var f := Follow(s, r.term, r.leader);
    SameFit(s, f, r.entries);
    FitsExactly(f, r.entries);
    if Absorb(f, r.entries).1.Some? {
      EarlyExit(f, r.entries);
    } else {
      Settled(f, r);
    }
  }

  lemma SameFit(s: Server, f: Server, es: seq<LogEntry>)
    requires f.log == s.log && f.snapshot == s.snapshot && f.shard == s.shard && f.commit == s.commit
    ensures Fits(f, es) <==> Fits(s, es)
  {
    assert forall e :: FitsOne(f, e) <==> FitsOne(s, e);
  }

  lemma Settled(f: Server, r: AppendRequest)
    requires SnapIndex(f) <= f.commit && Ascending(r.entries) && Absorb(f, r.entries).1.None?
    ensures var (s', out) := AbsorbAll(f, r);
            && out == Ok(AppendResponse(f.term, true, End(s').1, None, None))
            && s'.snapshot == f.snapshot && s'.term == f.term && s'.role == f.role && s'.leaderId == f.leaderId
            && s'.commit == (if r.leaderCommit > f.commit then Min(r.leaderCommit, End(s').1) else f.commit)
            && forall j :: 0 <= j < |r.entries| && r.entries[j].index > SnapIndex(f) ==>
                 HoldsTerm(s'.log, r.entries[j].index, r.entries[j].term)
  {
    hide EntryAt, Fits, Absorb, SortByIndex, Ascending;
    var f1 := Absorb(f, r.entries).0;
    FitsExactly(f, r.entries);
    LoopKeepsRole(f, r.entries);
    forall j | 0 <= j < |r.entries| && r.entries[j].index > SnapIndex(f)
      ensures HoldsTerm(SortByIndex(f1.log), r.entries[j].index, r.entries[j].term)
    {
      AllHeld(f, r.entries, j);
      EntryAtSort(f1.log, r.entries[j].index);
    }
  }

  lemma {:induction false} LoopKeepsRole(s: Server, es: seq<LogEntry>)
    ensures var s' := Absorb(s, es).0; s'.role == s.role && s'.leaderId == s.leaderId
    decreases |es|
  {
    hide EntryAt, Below;
    if es != [] && Absorb(s, es).0 != s { LoopKeepsRole(AbsorbOne(s, es[0]), es[1..]); }
  }

  // ----- The leader's commits -----

  /** A leader with a well-shaped log, ascending terms up to its own, and match records inside the log. */
  ghost predicate Sane(s: Server) {
    && s.role == Leader && Shaped(s) && TermsAscend(s.log)
    && (forall j :: 0 <= j < |s.log| ==> s.log[j].term <= s.term)
    && (forall v :: v in AllVoters(s.membership) ==> GetOr(s.matches, v, 0) <= LastIndex(s))
  }

  ghost predicate NothingEligible(s: Server) {
    forall i: LogIndex {:trigger Eligible(s, i)} :: !Eligible(s, i)
  }

  lemma AdvanceLeavesNothing(s: Server)
    requires Sane(s)
    ensures NothingEligible(AdvanceCommit(s))
  {
    hide EntryAt, MatchedVoters, HasQuorum;
    AdvanceOnlyToEligible(s);
    var t := AdvanceCommit(s);
    forall i: LogIndex
      ensures !Eligible(t, i)
    {
      if Eligible(t, i) {
        SameMatched(s, t, i);
        AdvanceMissesNothing(s, i);
      }
    }
  }

  lemma SameMatched(s: Server, t: Server, i: LogIndex)
    requires t.membership == s.membership && t.matches == s.matches
    ensures MatchedVoters(t, i) == MatchedVoters(s, i)
  {
  }

  /** A set and its voters form a quorum together. */
  lemma QuorumOfVoters(m: Membership, a: set<ServerId>)
    ensures HasQuorum(m, a) <==> HasQuorum(m, a * AllVoters(m))
  {
    assert (a * AllVoters(m)) * m.voters == a * m.voters;
    if m.outgoing.Some? { assert (a * AllVoters(m)) * m.outgoing.value == a * m.outgoing.value; }
  }

  lemma OnlyLeaderMatches(s: Server, e: LogEntry)
    requires Sane(s) && e.index == LastIndex(s) + 1
    ensures var s1 := s.(log := s.log + [e], matches := s.matches[s.id := e.index]);
            MatchedVoters(s1, e.index) == {s.id} * AllVoters(s.membership)
  {
  }

  lemma PushedSane(s: Server, e: LogEntry)
    requires Sane(s) && e.index == LastIndex(s) + 1 && e.term == s.term
    ensures Sane(s.(log := s.log + [e], matches := s.matches[s.id := e.index]))
    ensures EntryAt(s.log + [e], e.index) == Some(e)
  {
    EntryAtAppend(s.log, e, e.index);
    EntryAtContiguous(s.log, SnapIndex(s), e.index);
  }

  lemma PushCommits(s: Server, e: LogEntry)
    requires Sane(s) && e.index == LastIndex(s) + 1 && e.term == s.term
    ensures NothingEligible(Pushed(s, e))
    ensures Pushed(s, e).commit == e.index <==> HasQuorum(s.membership, {s.id})
  {
    hide Sane, EntryAt, MatchedVoters, HasQuorum;
    var s1 := s.(log := s.log + [e], matches := s.matches[s.id := e.index]);
    PushedSane(s, e);
    AdvanceLeavesNothing(s1);
    AdvanceOnlyToEligible(s1);
    OnlyLeaderMatches(s, e);
    QuorumOfVoters(s.membership, {s.id});
    assert s1.commit < e.index by { CommitBelow(s); }
    if HasQuorum(s.membership, {s.id}) {
      assert Eligible(s1, e.index);
      assert !Eligible(Pushed(s, e), e.index);
      SameMatched(s1, Pushed(s, e), e.index);
      CommittedWithin(s1, e);
    }
  }

  lemma CommitBelow(s: Server)
    requires Sane(s)
    ensures s.commit <= LastIndex(s)
  {
  }

  lemma CommittedWithin(s1: Server, e: LogEntry)
    requires Sane(s1) && LastIndex(s1) == e.index
    ensures AdvanceCommit(s1).commit <= e.index
  {
    AdvanceOnlyToEligible(s1);
    EntryAtContiguous(s1.log, SnapIndex(s1), AdvanceCommit(s1).commit);
  }

  /**
   * After a leader's own append nothing that could be committed is left uncommitted, and the new
   * entry is committed at once exactly when the leader alone is a quorum.
   */
  lemma AppendLocalCommits(s: Server, command: Command)
    requires Sane(s) && LastIndex(s) < U64_MAX
    ensures var (s', out) := AppendLocal(s, command);
            && out.Ok? && NothingEligible(s') && s'.matches == s.matches[s.id := out.value.index]
            && (s'.commit == out.value.index <==> HasQuorum(s.membership, {s.id}))
  {
    hide HasQuorum, Shaped, NothingEligible;
    var e := PlainEntry(s.shard, s.term, LastIndex(s) + 1, command);
    PushCommits(s, e);
    AdvanceOnlyToEligible(s.(log := s.log + [e], matches := s.matches[s.id := e.index]));
  }

  /** The same for a given entry, which is taken exactly when it continues the log in the leader's term. */
  lemma AppendExistingCommits(s: Server, e: LogEntry)
    ensures var (s', out) := AppendExisting(s, e);
            && (out.Ok? <==>
                  s.role == Leader && e.shardId == s.shard && e.term == s.term && e.index == SatInc(End(s).1))
            && (out.Err? ==> s' == s)
            && (out.Ok? ==> out.value == e && s'.log == s.log + [e] && s'.matches == s.matches[s.id := e.index])
    ensures var (s', out) := AppendExisting(s, e);
            Sane(s) && End(s).1 < U64_MAX && out.Ok? ==>
              NothingEligible(s') && (s'.commit == e.index <==> HasQuorum(s.membership, {s.id}))
  {
    hide HasQuorum, Shaped, NothingEligible;
    AdvanceOnlyToEligible(s.(log := s.log + [e], matches := s.matches[s.id := e.index]));
    if Sane(s) && End(s).1 < U64_MAX && AppendExisting(s, e).1.Ok? { PushCommits(s, e); }
  }

  /** Recording a match: the record is kept, nothing eligible stays behind, and the answer is the commit index. */
  lemma RecordMatchCommits(s: Server, server: ServerId, index: LogIndex)
    ensures var (s', out) := RecordMatch(s, server, index);
            && (out.Ok? <==> s.role == Leader && IsMember(s.membership, server))
            && (out.Err? ==> s' == s)
            && (out.Ok? ==>
                  && out.value == s'.commit >= s.commit
                  && s' == s.(matches := s.matches[server := index], commit := s'.commit))
    ensures var (s', out) := RecordMatch(s, server, index);
            out.Ok? && Sane(s) && index <= LastIndex(s) ==> NothingEligible(s')
  {
    hide HasQuorum, EntryAt, NothingEligible, MatchedVoters;
    var s1 := s.(matches := s.matches[server := index]);
    AdvanceOnlyToEligible(s1);
    if Sane(s) && index <= LastIndex(s) { AdvanceLeavesNothing(s1); }
  }

  // ----- Snapshots and opening -----

  lemma AboveReads(log: seq<LogEntry>, i: LogIndex, k: LogIndex)
    ensures EntryAt(Above(log, i), k) == if k > i then EntryAt(log, k) else None
  {
    if k > i {
      EntryAtAbove(log, i, k);
    } else {
      var rest := Above(log, i);
      forall j | 0 <= j < |rest|
        ensures rest[j].index != k
      {
        AboveOf(log, i, rest[j]);
      }
      LooksUpNone(rest, k);
    }
  }

  /** A compaction succeeds exactly for the own shard up to the commit index, and covers what it says. */
  lemma CompactExactly(s: Server, meta: SnapshotMeta, k: LogIndex)
    ensures var (s', out) := CompactTo(s, meta);
            && (out.Ok? <==> meta.shardId == s.shard && meta.lastIndex <= s.commit)
            && (out.Err? ==> s' == s)
            && (out.Ok? ==>
                  && s' == s.(snapshot := Some(meta), log := s'.log)
                  && EntryAt(s'.log, k) == if k > meta.lastIndex then EntryAt(s.log, k) else None)
  {
    hide EntryAt, Above;
    AboveReads(s.log, meta.lastIndex, k);
  }

  /** An install is refused below the server's term, fails on a foreign shard, and never moves a snapshot back. */
  lemma InstallExactly(s: Server, r: SnapshotRequest, k: LogIndex)
    ensures var (s', out) := InstallSnapshot(s, r);
            && (r.term < s.term ==> s' == s && out == Ok(SnapshotResponse(s.term, false, SnapIndex(s))))
            && (r.term >= s.term && r.meta.shardId != s.shard ==> s' == s && out == Err(WrongShard))
            && (r.term >= s.term && r.meta.shardId == s.shard ==>
                  && out == Ok(SnapshotResponse(r.term, true, Max(SnapIndex(s), r.meta.lastIndex)))
                  && s'.term == r.term && s'.role == Follower && s'.leaderId == Some(r.leader)
                  && SnapIndex(s') == Max(SnapIndex(s), r.meta.lastIndex)
                  && (r.meta.lastIndex < SnapIndex(s) ==>
                        s'.log == s.log && s'.snapshot == s.snapshot && s'.commit == s.commit)
                  && (r.meta.lastIndex >= SnapIndex(s) ==>
                        && s'.snapshot == Some(r.meta) && s'.commit == Max(s.commit, r.meta.lastIndex)
                        && EntryAt(s'.log, k) == if k > r.meta.lastIndex then EntryAt(s.log, k) else None))
  {
    hide EntryAt, Above;
    AboveReads(s.log, r.meta.lastIndex, k);
  }

  /** The largest index of the entries, or zero. */
  ghost predicate Top(log: seq<LogEntry>, top: LogIndex) {
    && (forall j :: 0 <= j < |log| ==> log[j].index <= top)
    && (if log == [] then top == 0 else exists j :: 0 <= j < |log| && log[j].index == top)
  }

  /**
   * Opening succeeds exactly for a member with a log and snapshot of its shard. The commit index is
   * the stored one, bounded by the largest stored index and raised to the snapshot.
   */
  lemma OpenExactly(
    id: ServerId, shard: ShardId, membership: Membership, term: Term, votedFor: Option<ServerId>,
    log: seq<LogEntry>, snapshot: Option<SnapshotMeta>, commit: LogIndex, top: LogIndex, k: LogIndex)
    requires Top(log, top)
    ensures var r := Open(id, shard, membership, term, votedFor, log, snapshot, commit);
            && (r.Ok? <==> IsMember(membership, id) && (forall e :: e in log ==> e.shardId == shard)
                           && (snapshot.Some? ==> snapshot.value.shardId == shard))
            && (r.Ok? ==>
                  var s := r.value;
                  && s.term == term && s.votedFor == votedFor && s.snapshot == snapshot && s.role == Follower
                  && s.leaderId == None && s.membership == membership && s.matches == map[] && s.votes == {}
                  && s.commit == Max(Min(commit, top), SnapIndex(s))
                  && EntryAt(s.log, k) == if snapshot == None || k > SnapIndex(s) then EntryAt(log, k) else None)
  {
    hide EntryAt, Above, SortByIndex;
    SortLast(log);
    EntryAtSort(log, k);
    if snapshot.Some? { AboveReads(SortByIndex(log), snapshot.value.lastIndex, k); }
  }

  /** A whole election: the next term, asked for with the end of the log, is won exactly by a quorum. */
  lemma ElectionDecides(s: Server, ballots: seq<Ballot>)
    requires s.term < U64_MAX && ballots != []
    ensures var (c, ask) := StartElection(s);
            var t := Count(c, ballots);
            && ask == VoteRequest(s.term + 1, s.id, End(s).1, End(s).0)
            && t.term == s.term + 1 && t.votedFor == Some(s.id) && t.log == s.log
            && (t.role == Leader <==> HasQuorum(s.membership, {s.id} + Granted(ballots)))
  {
    hide HasQuorum, Granted, Count;
    var c := StartElection(s).0;
    LeadsExactly(c, ballots);
    CountKeepsVote(c, ballots);
  }

  lemma {:induction false} CountKeepsVote(s: Server, ballots: seq<Ballot>)
    requires s.role == Candidate
    ensures Count(s, ballots).votedFor == s.votedFor
    decreases |ballots|
  {
    hide HasQuorum, Granted;
    if ballots != [] {
      CountKeepsVote(s, ballots[..|ballots| - 1]);
      LeadsExactly(s, ballots[..|ballots| - 1]);
    }
  }
}
