/** Logs without holes: what RaftCore's searches, cuts and merges do to them. */
module RaftShape {
  import opened Basics
  import opened Model
  import opened RaftState

  /** The log holds exactly the indices `base + 1`, `base + 2`, and so on. */
  ghost predicate Contiguous(log: seq<LogEntry>, base: nat) {
    forall j :: 0 <= j < |log| ==> log[j].index == base + j + 1
  }

  /** A well-shaped server: no holes behind the snapshot, and the commit index inside the log. */
  ghost predicate Shaped(s: Server) {
    && Contiguous(s.log, SnapIndex(s))
    && SnapIndex(s) <= s.commit <= LastIndex(s)
  }

  lemma ContiguousTail(log: seq<LogEntry>, base: nat)
    requires Contiguous(log, base) && log != []
    ensures Contiguous(log[1..], base + 1)
  {
  }

  lemma {:induction false} EntryAtContiguous(log: seq<LogEntry>, base: nat, i: LogIndex)
    requires Contiguous(log, base)
    ensures EntryAt(log, i) == if base < i <= base + |log| then Some(log[i - base - 1]) else None
    decreases |log|
  {
    if log != [] {
      ContiguousTail(log, base);
      EntryAtContiguous(log[1..], base + 1, i);
    }
  }

  lemma {:induction false} BelowContiguous(log: seq<LogEntry>, base: nat, i: LogIndex)
    requires Contiguous(log, base) && base < i <= base + |log| + 1
    ensures Below(log, i) == log[..i - base - 1]
    decreases |log|
  {
    if log != [] {
      ContiguousTail(log, base);
      if i == base + 1 {
        NothingBelow(log, i);
      } else {
        BelowContiguous(log[1..], base + 1, i);
        assert log[..i - base - 1] == [log[0]] + log[1..][..i - base - 2];
      }
    }
  }

  lemma {:induction false} NothingBelow(log: seq<LogEntry>, i: LogIndex)
    requires forall j :: 0 <= j < |log| ==> log[j].index >= i
    ensures Below(log, i) == []
    decreases |log|
  {
    if log != [] {
      NothingBelow(log[1..], i);
    }
  }

  lemma {:induction false} AllAbove(log: seq<LogEntry>, i: LogIndex)
    requires forall j :: 0 <= j < |log| ==> log[j].index > i
    ensures Above(log, i) == log
    decreases |log|
  {
    if log != [] {
      AllAbove(log[1..], i);
    }
  }

  lemma {:induction false} AboveContiguous(log: seq<LogEntry>, base: nat, i: LogIndex)
    requires Contiguous(log, base) && base <= i
    ensures Above(log, i) == if i <= base + |log| then log[i - base..] else []
    decreases |log|
  {
    if i == base {
      AllAbove(log, i);
    } else if log != [] {
      ContiguousTail(log, base);
      AboveContiguous(log[1..], base + 1, i);
    }
  }

  lemma {:induction false} SortContiguous(log: seq<LogEntry>, base: nat)
    requires Contiguous(log, base)
    ensures SortByIndex(log) == log
    decreases |log|
  {
    if log != [] {
      var front, last := log[..|log| - 1], log[|log| - 1];
      SortContiguous(front, base);
      assert SortByIndex(log) == InsertByIndex(front, last);
      assert InsertByIndex(front, last) == front + [last];
    }
  }

  // ----- Taking a contiguous batch -----

  /** The batch holds the indices `p + 1`, `p + 2`, and so on, all of shard `shard`. */
  ghost predicate Batch(es: seq<LogEntry>, p: nat, shard: ShardId) {
    Contiguous(es, p) && forall j :: 0 <= j < |es| ==> es[j].shardId == shard
  }

  /** Keep what agrees, then replace the rest by the batch. */
  ghost function Merged(log: seq<LogEntry>, base: nat, p: nat, es: seq<LogEntry>): seq<LogEntry>
    requires p <= base + |log|
    decreases |es|
  {
    if es == [] then log
    else if p < base then Merged(log, base, p + 1, es[1..])
    else if p < base + |log| && log[p - base].term == es[0].term then Merged(log, base, p + 1, es[1..])
    else log[..p - base] + es
  }

  /** The batch disagrees with the log first at an index that is already committed. */
  ghost predicate HitsCommitted(log: seq<LogEntry>, base: nat, commit: nat, p: nat, es: seq<LogEntry>)
    decreases |es|
  {
    es != [] &&
    if p < base then HitsCommitted(log, base, commit, p + 1, es[1..])
    else if p >= base + |log| then false
    else if log[p - base].term == es[0].term then HitsCommitted(log, base, commit, p + 1, es[1..])
    else p + 1 <= commit
  }

  /** Appending to the end, entry by entry. */
  lemma {:induction false} AbsorbAtEnd(s: Server, es: seq<LogEntry>)
    requires Contiguous(s.log, SnapIndex(s)) && Batch(es, SnapIndex(s) + |s.log|, s.shard)
    ensures Absorb(s, es) == (s.(log := s.log + es), None)
    decreases |es|
  {
    if es == [] {
      assert s.log + es == s.log;
    } else {
      var s1 := s.(log := s.log + [es[0]]);
      EntryAtContiguous(s.log, SnapIndex(s), es[0].index);
      ContiguousTail(es, SnapIndex(s) + |s.log|);
      AbsorbAtEnd(s1, es[1..]);
      assert s.log + [es[0]] + es[1..] == s.log + es;
    }
  }

  /** An entry below the snapshot or already held with the same term changes nothing. */
  lemma AbsorbSkips(s: Server, es: seq<LogEntry>)
    requires es != [] && es[0].shardId == s.shard
    requires es[0].index <= SnapIndex(s)
             || (EntryAt(s.log, es[0].index).Some? && EntryAt(s.log, es[0].index).value.term == es[0].term)
    ensures Absorb(s, es) == Absorb(s, es[1..])
  {
  }

  lemma Regroup(kept: seq<LogEntry>, es: seq<LogEntry>)
    requires es != []
    ensures kept + [es[0]] + es[1..] == kept + es
  {
  }

  lemma TruncateContiguous(s: Server, i: LogIndex)
    requires Contiguous(s.log, SnapIndex(s)) && SnapIndex(s) <= s.commit < i <= SnapIndex(s) + |s.log|
    ensures TruncateFrom(s, i) == s.(log := s.log[..i - SnapIndex(s) - 1])
    ensures Below(s.log, i) == s.log[..i - SnapIndex(s) - 1]
  {
    BelowContiguous(s.log, SnapIndex(s), i);
  }

  /** A conflicting entry beyond the commit index replaces the log from there on. */
  lemma AbsorbReplaces(s: Server, p: nat, es: seq<LogEntry>)
    requires Contiguous(s.log, SnapIndex(s)) && SnapIndex(s) <= s.commit <= p
    requires Batch(es, p, s.shard) && es != [] && SnapIndex(s) <= p < SnapIndex(s) + |s.log|
    requires s.log[p - SnapIndex(s)].term != es[0].term
    ensures Absorb(s, es) == (s.(log := s.log[..p - SnapIndex(s)] + es), None)
  {
    EntryAtContiguous(s.log, SnapIndex(s), es[0].index);
    TruncateContiguous(s, es[0].index);
    AbsorbReplacesOne(s, es);
    var kept := s.log[..p - SnapIndex(s)];
    ContiguousTail(es, p);
    AbsorbAtEnd(s.(log := kept + [es[0]]), es[1..]);
    Regroup(kept, es);
  }

  lemma AbsorbReplacesOne(s: Server, es: seq<LogEntry>)
    requires es != [] && es[0].shardId == s.shard && es[0].index > s.commit && es[0].index > SnapIndex(s)
    requires EntryAt(s.log, es[0].index).Some? && EntryAt(s.log, es[0].index).value.term != es[0].term
    ensures Absorb(s, es) == Absorb(TruncateFrom(s, es[0].index).(log := Below(s.log, es[0].index) + [es[0]]), es[1..])
  {
  }

  /** A conflicting entry at a committed index is refused and nothing changes. */
  lemma AbsorbRefuses(s: Server, es: seq<LogEntry>)
    requires es != [] && es[0].shardId == s.shard && SnapIndex(s) < es[0].index <= s.commit
    requires EntryAt(s.log, es[0].index).Some? && EntryAt(s.log, es[0].index).value.term != es[0].term
    ensures Absorb(s, es) == (s, Some(Refusal(s, Some(es[0].index), Some(EntryAt(s.log, es[0].index).value.term))))
  {
  }

  /** The early return of the loop that refuses a conflict. */
  ghost predicate Refused(r: (Server, Option<AppendOutcome>), s: Server) {
    r.0 == s && r.1.Some? && r.1.value.Ok? && !r.1.value.value.success
  }

  /** On a log without holes the loop of `append_entries` is exactly a merge. */
  lemma {:induction false} AbsorbMerges(s: Server, p: nat, es: seq<LogEntry>)
    requires Contiguous(s.log, SnapIndex(s)) && SnapIndex(s) <= s.commit
    requires Batch(es, p, s.shard) && p <= SnapIndex(s) + |s.log|
    ensures HitsCommitted(s.log, SnapIndex(s), s.commit, p, es) ==> Refused(Absorb(s, es), s)
    ensures !HitsCommitted(s.log, SnapIndex(s), s.commit, p, es) ==>
              Absorb(s, es) == (s.(log := Merged(s.log, SnapIndex(s), p, es)), None)
    decreases |es|
  {
    var base := SnapIndex(s);
    if es == [] {
      assert s.(log := s.log) == s;
    } else {
      ContiguousTail(es, p);
      EntryAtContiguous(s.log, base, es[0].index);
      if p < base || (p < base + |s.log| && s.log[p - base].term == es[0].term) {
        AbsorbSkips(s, es);
        AbsorbMerges(s, p + 1, es[1..]);
      } else if p == base + |s.log| {
        AbsorbAtEnd(s, es);
        assert s.log[..p - base] == s.log;
      } else if p + 1 > s.commit {
        AbsorbReplaces(s, p, es);
      } else {
        AbsorbRefuses(s, es);
      }
    }
  }
}
