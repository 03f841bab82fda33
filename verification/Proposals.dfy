/**
 * Index allocation on a shard's static primary: proposals take an index, publish, and then
 * commit or give the index back, in any interleaving.
 */
module Proposals {
  import opened Basics
  import opened Model

  datatype ShardState = ShardState(term: Term, next: LogIndex, commit: LogIndex)

  const FRESH := ShardState(1, 1, 0)

  /** The position of an entry; nothing else of it matters here. */
  datatype Slot = Slot(term: Term, index: LogIndex)

  datatype ProposalError = OlderTerm | UnexpectedIndex(expected: LogIndex) | NotPrimary | PublishFailed

  function Allocate(s: ShardState): (ShardState, Slot) {
    (s.(next := SatInc(s.next)), Slot(s.term, s.next))
  }

  /** Give the index back, but only if nothing was allocated or committed behind it. */
  function Rollback(s: ShardState, e: Slot): ShardState {
    if s.next == SatInc(e.index) && s.commit < e.index && s.term == e.term then s.(next := e.index) else s
  }

  function MarkCommitted(s: ShardState, e: Slot): ShardState {
    ShardState(Max(s.term, e.term), Max(s.next, SatInc(e.index)), Max(s.commit, e.index))
  }

  function AppendEntry(s: ShardState, e: Slot): (ShardState, Option<ProposalError>) {
    if e.term < s.term then (s, Some(OlderTerm))
    else if e.index < s.next then (s.(term := Max(s.term, e.term), commit := Max(s.commit, e.index)), None)
    else if e.index > s.next then (s, Some(UnexpectedIndex(s.next)))
    else (ShardState(Max(s.term, e.term), SatInc(e.index), Max(s.commit, e.index)), None)
  }

  // ----- Interleavings -----

  /** One shard, its proposals in flight, and those that have committed, by proposal. */
  datatype System = System(shard: ShardState, flying: map<nat, Slot>, done: map<nat, Slot>)

  datatype Step =
    | Allocated(who: nat)
    | Published(who: nat)
    | Failed(who: nat)
    | Appended(entry: Slot)

  ghost predicate Next(a: System, b: System, step: Step) {
    match step
    case Allocated(who) =>
      && who !in a.flying && who !in a.done && a.shard.next < U64_MAX
      && b == System(Allocate(a.shard).0, a.flying[who := Allocate(a.shard).1], a.done)
    case Published(who) =>
      && who in a.flying
      && b == System(MarkCommitted(a.shard, a.flying[who]), a.flying - {who}, a.done[who := a.flying[who]])
    case Failed(who) =>
      && who in a.flying
      && b == System(Rollback(a.shard, a.flying[who]), a.flying - {who}, a.done)
    case Appended(e) =>
      && e.index < U64_MAX && b == a.(shard := AppendEntry(a.shard, e).0)
  }

  ghost predicate Run(xs: seq<System>, steps: seq<Step>) {
    && |xs| == |steps| + 1 && xs[0] == System(FRESH, map[], map[])
    && forall n :: 0 <= n < |steps| ==> Next(xs[n], xs[n + 1], steps[n])
  }

  /** No index is handed out twice while it can still be used. */
  ghost predicate Inv(x: System) {
    && x.shard.commit < x.shard.next
    && (forall p :: p in x.flying ==> x.flying[p].index < x.shard.next)
    && (forall p :: p in x.done ==> x.done[p].index <= x.shard.commit)
    && (forall p, q :: p in x.flying && q in x.flying && p != q ==> x.flying[p].index != x.flying[q].index)
    && (forall p, q :: p in x.done && q in x.done && p != q ==> x.done[p].index != x.done[q].index)
    && (forall p, q :: p in x.flying && q in x.done ==> p != q && x.flying[p].index != x.done[q].index)
  }

  lemma AllocateKeepsInv(a: System, b: System, who: nat)
    requires Inv(a) && Next(a, b, Allocated(who))
    ensures Inv(b) && a.shard.commit <= b.shard.commit
  {
  }

  lemma PublishKeepsInv(a: System, b: System, who: nat)
    requires Inv(a) && Next(a, b, Published(who))
    ensures Inv(b) && a.shard.commit <= b.shard.commit
  {
  }

  /** An index is given back only while it is the last one handed out. */
  lemma FailureKeepsInv(a: System, b: System, who: nat)
    requires Inv(a) && Next(a, b, Failed(who))
    ensures Inv(b) && a.shard.commit <= b.shard.commit
  {
    if b.shard.next != a.shard.next {
      forall p | p in b.flying
        ensures b.flying[p].index < b.shard.next
      {
        assert a.flying[p].index != a.flying[who].index;
      }
    }
  }

  lemma StepKeepsInv(a: System, b: System, step: Step)
    requires Inv(a) && Next(a, b, step)
    ensures Inv(b) && a.shard.commit <= b.shard.commit
  {
    match step
    case Allocated(who) => AllocateKeepsInv(a, b, who);
    case Published(who) => PublishKeepsInv(a, b, who);
    case Failed(who) => FailureKeepsInv(a, b, who);
    case Appended(_) =>
  }

  lemma {:induction false} RunInv(xs: seq<System>, steps: seq<Step>, m: nat, n: nat)
    requires Run(xs, steps) && m <= n < |xs|
    ensures Inv(xs[n]) && xs[m].shard.commit <= xs[n].shard.commit
  {
    if n > 0 {
      RunInv(xs, steps, if m < n then m else n - 1, n - 1);
      assert Next(xs[n - 1], xs[n - 1 + 1], steps[n - 1]);
      StepKeepsInv(xs[n - 1], xs[n], steps[n - 1]);
    }
  }

  /** Two proposals that both commit never share an index. */
  lemma CommittedIndicesUnique(xs: seq<System>, steps: seq<Step>, n: nat, p: nat, q: nat)
    requires Run(xs, steps) && n < |xs| && p in xs[n].done && q in xs[n].done && p != q
    ensures xs[n].done[p].index != xs[n].done[q].index
  {
    RunInv(xs, steps, n, n);
  }

  /** The commit index stays below the next index and never goes back. */
  lemma CommitBelowNext(xs: seq<System>, steps: seq<Step>, m: nat, n: nat)
    requires Run(xs, steps) && m <= n < |xs|
    ensures xs[m].shard.commit <= xs[n].shard.commit < xs[n].shard.next
  {
    RunInv(xs, steps, m, n);
  }

  /** A committed proposal keeps its index for ever. */
  lemma {:induction false} CommittedStays(xs: seq<System>, steps: seq<Step>, m: nat, n: nat, p: nat)
    requires Run(xs, steps) && m <= n < |xs| && p in xs[m].done
    ensures p in xs[n].done && xs[n].done[p] == xs[m].done[p]
    decreases n
  {
    if n > m {
      CommittedStays(xs, steps, m, n - 1, p);
      assert Next(xs[n - 1], xs[n - 1 + 1], steps[n - 1]);
      RunInv(xs, steps, n - 1, n - 1);
    }
  }

  /** At the largest index the counter stands still and two proposals get the same index. */
  lemma SaturationRepeats(s: ShardState)
    ensures Allocate(Allocate(s).0).1.index == Allocate(s).1.index <==> s.next == U64_MAX
  {
  }

  // ----- Single steps -----

  /** An index is given back exactly when it was the last one taken, in this term, and is not committed. */
  lemma RollbackExactly(s: ShardState, e: Slot)
    requires e.index < U64_MAX
    ensures var s' := Rollback(s, e);
            && s'.term == s.term && s'.commit == s.commit
            && (s'.next == e.index < s.next <==> s.term == e.term && s.next == e.index + 1 && s.commit < e.index)
            && (s'.next == e.index || s'.next == s.next)
  {
  }

  /** A commit raises term, next and commit just as far as the entry needs. */
  lemma CommitRaises(s: ShardState, e: Slot)
    ensures var s' := MarkCommitted(s, e);
            && s.term <= s'.term && e.term <= s'.term && (s'.term == s.term || s'.term == e.term)
            && s.commit <= s'.commit && e.index <= s'.commit && (s'.commit == s.commit || s'.commit == e.index)
            && s.next <= s'.next && (e.index < s'.next || e.index == U64_MAX)
            && (s'.next == s.next || s'.next == SatInc(e.index))
  {
  }

  // ----- Replicated appends -----

  /**
   * An append is refused, and changes nothing, exactly when its term is older or its index leaves a
   * gap. Otherwise the commit index reaches it, and the next index moves by one exactly when it was met.
   */
  lemma AppendExactly(s: ShardState, e: Slot)
    ensures var (s', error) := AppendEntry(s, e);
            && (error.Some? <==> e.term < s.term || e.index > s.next)
            && (error.Some? ==>
                  s' == s && error.value == if e.term < s.term then OlderTerm else UnexpectedIndex(s.next))
            && (error.None? ==>
                  && s'.term == e.term && s'.commit == (if e.index > s.commit then e.index else s.commit)
                  && s'.next == if e.index == s.next < U64_MAX then s.next + 1 else s.next)
  {
  }

  ghost predicate AppendRun(xs: seq<ShardState>, es: seq<Slot>) {
    && |xs| == |es| + 1 && xs[0] == FRESH
    && forall n {:trigger es[n]} :: 0 <= n < |es| ==> xs[n + 1] == AppendEntry(xs[n], es[n]).0
  }

  /** Append number `j` was accepted and carried index `i`. */
  ghost predicate Carried(xs: seq<ShardState>, es: seq<Slot>, j: nat, i: LogIndex)
    requires |xs| == |es| + 1 && j < |es|
  {
    es[j].index == i && AppendEntry(xs[j], es[j]).1.None?
  }

  ghost predicate CarriedBefore(xs: seq<ShardState>, es: seq<Slot>, n: nat, i: LogIndex)
    requires |xs| == |es| + 1 && n <= |es|
  {
    exists j: nat :: j < n && Carried(xs, es, j, i)
  }

  /** Nothing is committed that was not received: over appends alone every index up to commit was carried. */
  lemma {:induction false} CommittedWasCarried(xs: seq<ShardState>, es: seq<Slot>, n: nat, i: LogIndex)
    requires AppendRun(xs, es) && n <= |es| && i > 0
    ensures xs[n].commit <= xs[n].next
    ensures i <= xs[n].commit || i < xs[n].next ==> CarriedBefore(xs, es, n, i)
  {
    hide AppendEntry;
    if n > 0 {
      var m := n - 1;
      var s, e := xs[m], es[m];
      CommittedWasCarried(xs, es, m, i);
      assert xs[m + 1] == AppendEntry(s, e).0;
      AppendExactly(s, e);
      if CarriedBefore(xs, es, m, i) {
        var j: nat :| j < m && Carried(xs, es, j, i);
        assert Carried(xs, es, j, i);
      }
      if e.index == i && AppendEntry(s, e).1.None? { assert Carried(xs, es, m, i); }
    }
  }

  // ----- The replicator -----

  class StaticPrimaryShardReplication {
    const serverId: ServerId
    const primaries: map<ShardId, ServerId>
    var states: map<ShardId, ShardState>

    constructor (serverId: ServerId, primaries: map<ShardId, ServerId>)
      ensures this.serverId == serverId && this.primaries == primaries
      ensures states == map s | s in primaries :: FRESH
    {
      this.serverId, this.primaries := serverId, primaries;
      states := map s | s in primaries :: FRESH;
    }

    function StateOf(shard: ShardId): ShardState
      reads this
    {
      GetOr(states, shard, FRESH)
    }

    predicate IsPrimary(shard: ShardId) {
      shard in primaries && primaries[shard] == serverId
    }

    method AllocateEntry(shard: ShardId) returns (r: Result<Slot, ProposalError>)
      modifies this
      ensures !IsPrimary(shard) ==> r == Err(NotPrimary) && states == old(states)
      ensures IsPrimary(shard) ==>
                var (s, e) := Allocate(old(StateOf(shard)));
                r == Ok(e) && states == old(states)[shard := s]
    {
      if !IsPrimary(shard) {
        return Err(NotPrimary);
      }
      var state := GetOr(states, shard, FRESH);
      var index := state.next;
      states := states[shard := state.(next := SatInc(state.next))];
      r := Ok(Slot(state.term, index));
    }

    method RollbackProposal(shard: ShardId, e: Slot)
      modifies this
      ensures states ==
              if shard in old(states) then old(states)[shard := Rollback(old(states)[shard], e)] else old(states)
    {
      if shard !in states {
        return;
      }
      var state := states[shard];
      if state.next == SatInc(e.index) && state.commit < e.index && state.term == e.term {
        states := states[shard := state.(next := e.index)];
      } else {
        assert states[shard := state] == states;
      }
    }

    method MarkEntryCommitted(shard: ShardId, e: Slot)
      modifies this
      ensures states == old(states)[shard := MarkCommitted(old(StateOf(shard)), e)]
    {
      var state := GetOr(states, shard, FRESH);
      states := states[shard := ShardState(
        Max(state.term, e.term), Max(state.next, SatInc(e.index)), Max(state.commit, e.index))];
    }

    method AppendReplicated(shard: ShardId, e: Slot) returns (error: Option<ProposalError>)
      modifies this
      ensures (StateOf(shard), error) == AppendEntry(old(StateOf(shard)), e)
      ensures forall s :: s != shard ==> StateOf(s) == old(StateOf(s))
    {
      var state := GetOr(states, shard, FRESH);
      states := states[shard := state];
      if e.term < state.term {
        return Some(OlderTerm);
      }
      if e.index < state.next {
        states := states[shard := state.(term := Max(state.term, e.term), commit := Max(state.commit, e.index))];
        return None;
      }
      if e.index > state.next {
        return Some(UnexpectedIndex(state.next));
      }
      states := states[shard := ShardState(Max(state.term, e.term), SatInc(e.index), Max(state.commit, e.index))];
      error := None;
    }

    /**
     * A whole proposal that nothing interleaves with: published, its index is committed;
     * failed, the shard is as it was before.
     */
    method Propose(shard: ShardId, published: bool) returns (r: Result<Slot, ProposalError>)
      modifies this
      ensures !IsPrimary(shard) ==> r == Err(NotPrimary) && states == old(states)
      ensures IsPrimary(shard) && published ==>
                && r == Ok(Slot(old(StateOf(shard)).term, old(StateOf(shard)).next))
                && StateOf(shard).commit == Max(old(StateOf(shard)).commit, old(StateOf(shard)).next)
                && StateOf(shard).next == SatInc(old(StateOf(shard)).next)
                && StateOf(shard).term == old(StateOf(shard)).term
      ensures IsPrimary(shard) && !published ==>
                && r == Err(PublishFailed)
                && (old(StateOf(shard)).commit < old(StateOf(shard)).next ==> StateOf(shard) == old(StateOf(shard)))
      ensures forall s :: s != shard ==> StateOf(s) == old(StateOf(s))
    {
      var e := AllocateEntry(shard);
      if e.Err? {
        return e;
      }
      if published {
        MarkEntryCommitted(shard, e.value);
        return e;
      }
      RollbackProposal(shard, e.value);
      r := Err(PublishFailed);
    }
  }
}
