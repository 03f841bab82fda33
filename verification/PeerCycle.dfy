/** Pointers between replication peers, and the check that keeps them free of cycles. */
module PeerCycle {
  import opened Basics
  import opened Model

  /** Where each registered server points; a server may point nowhere. */
  type Pointers = map<ServerId, Option<ServerId>>

  /** Following one pointer. */
  function Next(ps: Pointers, s: ServerId): Option<ServerId> {
    if s in ps then ps[s] else None
  }

  /** The server `n` pointers away from `s`, if the chain gets that far. */
  function Hop(ps: Pointers, s: ServerId, n: nat): Option<ServerId> {
    if n == 0 then Some(s)
    else
      var before := Hop(ps, s, n - 1);
      if before.None? then None else Next(ps, before.value)
  }

  /** The chain from `start` comes back to `server`, or to a server it has passed. */
  ghost predicate Returns(ps: Pointers, server: ServerId, start: ServerId) {
    exists n :: ReturnsAt(ps, server, start, n)
  }

  ghost predicate ReturnsAt(ps: Pointers, server: ServerId, start: ServerId, n: nat) {
    && Hop(ps, start, n).Some?
    && (Hop(ps, start, n).value == server || exists m :: Earlier(ps, start, m, n))
  }

  ghost predicate Earlier(ps: Pointers, start: ServerId, m: nat, n: nat) {
    m < n && Hop(ps, start, m) == Hop(ps, start, n)
  }

  lemma {:induction false} HopBefore(ps: Pointers, s: ServerId, m: nat, n: nat)
    requires m <= n && Hop(ps, s, n).Some?
    ensures Hop(ps, s, m).Some?
    decreases n
  {
    if m < n { HopBefore(ps, s, m, n - 1); }
  }

  lemma {:induction false} HopAdd(ps: Pointers, s: ServerId, m: nat, n: nat)
    requires Hop(ps, s, m).Some?
    ensures Hop(ps, s, m + n) == Hop(ps, Hop(ps, s, m).value, n)
    decreases n
  {
    if n > 0 {
      HopAdd(ps, s, m, n - 1);
      assert m + n - 1 == m + (n - 1);
    }
  }

  /** A chain of `n` pointers from `s` back to `s`, through another server. */
  ghost predicate Cycle(ps: Pointers, s: ServerId, n: nat) {
    n > 1 && Hop(ps, s, n) == Some(s) && Next(ps, s) != Some(s)
  }

  /** No cycle longer than a self-loop. */
  ghost predicate Acyclic(ps: Pointers) {
    forall s, n {:trigger Cycle(ps, s, n)} :: !Cycle(ps, s, n)
  }

  ghost predicate PassedBefore(ps: Pointers, start: ServerId, n: nat, x: ServerId) {
    exists m :: 0 <= m < n && Hop(ps, start, m) == Some(x)
  }

  ghost predicate HopIn(ps: Pointers, start: ServerId, m: nat, seen: set<ServerId>) {
    Hop(ps, start, m).Some? && Hop(ps, start, m).value in seen
  }

  /** After `n` pointers the walk stands at `current`; `seen` is what it passed, and the server. */
  ghost predicate Walked(ps: Pointers, server: ServerId, start: ServerId, n: nat, current: ServerId,
      seen: set<ServerId>) {
    && Hop(ps, start, n) == Some(current) && server in seen
    && (forall x {:trigger PassedBefore(ps, start, n, x)} :: x in seen && x != server ==> PassedBefore(ps, start, n, x))
    && (forall m: nat {:trigger HopIn(ps, start, m, seen)} :: m < n ==> HopIn(ps, start, m, seen))
    && (forall m: nat {:trigger ReturnsAt(ps, server, start, m)} :: m < n ==> !ReturnsAt(ps, server, start, m))
  }

  lemma SeenMeansReturn(ps: Pointers, server: ServerId, start: ServerId, n: nat, current: ServerId, seen: set<ServerId>)
    requires Walked(ps, server, start, n, current, seen) && current in seen
    ensures Returns(ps, server, start)
  {
    if current != server {
      assert PassedBefore(ps, start, n, current);
      var m :| 0 <= m < n && Hop(ps, start, m) == Some(current);
      assert Earlier(ps, start, m, n);
    }
    assert ReturnsAt(ps, server, start, n);
  }

  lemma NewMeansNoReturn(ps: Pointers, server: ServerId, start: ServerId, n: nat, current: ServerId,
      seen: set<ServerId>)
    requires Walked(ps, server, start, n, current, seen) && current !in seen
    ensures !ReturnsAt(ps, server, start, n)
  {
    forall m: nat
      ensures !Earlier(ps, start, m, n)
    {
      assert m < n ==> HopIn(ps, start, m, seen);
    }
  }

  lemma WalkOn(ps: Pointers, server: ServerId, start: ServerId, n: nat, current: ServerId, seen: set<ServerId>)
    requires Walked(ps, server, start, n, current, seen) && current !in seen && Next(ps, current).Some?
    ensures Walked(ps, server, start, n + 1, Next(ps, current).value, seen + {current})
  {
    NewMeansNoReturn(ps, server, start, n, current, seen);
    forall x | x in seen + {current} && x != server
      ensures PassedBefore(ps, start, n + 1, x)
    {
      if x != current {
        assert PassedBefore(ps, start, n, x);
        var m :| 0 <= m < n && Hop(ps, start, m) == Some(x);
      }
    }
    forall m: nat | m < n + 1
      ensures HopIn(ps, start, m, seen + {current}) && !ReturnsAt(ps, server, start, m)
    {
      assert m < n ==> HopIn(ps, start, m, seen);
    }
  }

  lemma ChainEnds(ps: Pointers, server: ServerId, start: ServerId, n: nat, current: ServerId, seen: set<ServerId>)
    requires Walked(ps, server, start, n, current, seen) && current !in seen && Next(ps, current).None?
    ensures !Returns(ps, server, start)
  {
    NewMeansNoReturn(ps, server, start, n, current, seen);
    forall m: nat
      ensures !ReturnsAt(ps, server, start, m)
    {
      if m > n && Hop(ps, start, m).Some? {
        HopBefore(ps, start, n + 1, m);
        assert false;
      }
    }
  }

  /**
   * Follow the chain, remembering what was seen. For a pointer other than the server itself
   * the answer is exactly whether the chain returns.
   */
  method WouldCreateCycle(ps: Pointers, server: ServerId, pointer: Option<ServerId>) returns (r: bool)
    ensures r <==> pointer.Some? && pointer.value != server && Returns(ps, server, pointer.value)
  {
    hide Walked, Returns, Hop;
    if pointer.None? {
      return false;
    }
    var current := pointer.value;
    if current == server {
      return false;
    }
    var seen := {server};
    ghost var start, n := current, 0;
    WalkStarts(ps, server, start);
    while true
      invariant Walked(ps, server, start, n, current, seen)
      decreases |ps.Keys - seen|
    {
      if current in seen {
        SeenMeansReturn(ps, server, start, n, current, seen);
        return true;
      }
      if current !in ps || ps[current].None? {
        ChainEnds(ps, server, start, n, current, seen);
        return false;
      }
      WalkOn(ps, server, start, n, current, seen);
      ghost var before := seen;
      seen := seen + {current};
      assert ps.Keys - before == (ps.Keys - seen) + {current};
      current := ps[current].value;
      n := n + 1;
    }
  }

  lemma WalkStarts(ps: Pointers, server: ServerId, start: ServerId)
    ensures Walked(ps, server, start, 0, start, {server})
  {
  }

  // ----- Registering and unregistering -----

  /** The check passes: no pointer, a self-pointer, or a chain that does not return. */
  ghost predicate Allowed(ps: Pointers, server: ServerId, pointer: Option<ServerId>) {
    pointer.Some? && pointer.value != server ==> !Returns(ps, server, pointer.value)
  }

  /** The chain from `start` meets `server`. */
  ghost predicate Reaches(ps: Pointers, start: ServerId, server: ServerId) {
    exists n: nat :: Hop(ps, start, n) == Some(server)
  }

  /** The pointer closes no circle: there is none, it is a self-pointer, or its chain avoids the server. */
  ghost predicate Harmless(ps: Pointers, server: ServerId, pointer: Option<ServerId>) {
    pointer.Some? && pointer.value != server ==> !Reaches(ps, pointer.value, server)
  }

  /** Until it meets `server`, a chain does not notice where `server` points. */
  lemma {:induction false} HopUnchanged(ps: Pointers, server: ServerId, pointer: Option<ServerId>, s: ServerId, n: nat)
    requires forall i: nat {:trigger Hop(ps[server := pointer], s, i)} :: i < n ==>
              Hop(ps[server := pointer], s, i) != Some(server)
    ensures Hop(ps[server := pointer], s, n) == Hop(ps, s, n)
    decreases n
  {
    if n > 0 {
      HopUnchanged(ps, server, pointer, s, n - 1);
      assert Hop(ps[server := pointer], s, n - 1) != Some(server);
    }
  }

  lemma FirstMeeting(ps: Pointers, s: ServerId, server: ServerId, n: nat) returns (k: nat)
    requires Hop(ps, s, n) == Some(server)
    ensures k <= n && Hop(ps, s, k) == Some(server)
    ensures forall i: nat {:trigger Hop(ps, s, i)} :: i < k ==> Hop(ps, s, i) != Some(server)
  {
    k := 0;
    while Hop(ps, s, k) != Some(server)
      invariant k <= n && forall i: nat {:trigger Hop(ps, s, i)} :: i < k ==> Hop(ps, s, i) != Some(server)
      decreases n - k
    {
      k := k + 1;
    }
  }

  lemma {:induction false} SelfLoop(ps: Pointers, s: ServerId, n: nat)
    requires Next(ps, s) == Some(s)
    ensures Hop(ps, s, n) == Some(s)
  {
    if n > 0 { SelfLoop(ps, s, n - 1); }
  }

  /** A chain from the registered server back to it means the pointer's chain met it before. */
  lemma NoReturnToServer(ps: Pointers, server: ServerId, pointer: Option<ServerId>, n: nat)
    requires Harmless(ps, server, pointer) && pointer != Some(server) && n > 0
    ensures Hop(ps[server := pointer], server, n) != Some(server)
  {
    var ps' := ps[server := pointer];
    if Hop(ps', server, n) == Some(server) {
      HopBefore(ps', server, 1, n);
      assert Hop(ps', server, 1) == pointer by { assert Hop(ps', server, 0) == Some(server); }
      var start := pointer.value;
      HopAdd(ps', server, 1, n - 1);
      var k := FirstMeeting(ps', start, server, n - 1);
      HopUnchanged(ps, server, pointer, start, k);
    }
  }

  /** A cycle that avoids the registered server was there before. */
  lemma CycleAvoiding(ps: Pointers, server: ServerId, pointer: Option<ServerId>, s: ServerId, n: nat)
    requires n > 0
    requires forall i: nat {:trigger Hop(ps[server := pointer], s, i)} :: i < n ==>
              Hop(ps[server := pointer], s, i) != Some(server)
    ensures Cycle(ps[server := pointer], s, n) ==> Cycle(ps, s, n)
  {
    HopUnchanged(ps, server, pointer, s, n);
    assert Hop(ps[server := pointer], s, 0) == Some(s);
  }

  /** No cycle goes through it. */
  lemma CycleThrough(ps: Pointers, server: ServerId, pointer: Option<ServerId>, s: ServerId, n: nat, j: nat)
    requires Harmless(ps, server, pointer) && j < n && Hop(ps[server := pointer], s, j) == Some(server)
    ensures !Cycle(ps[server := pointer], s, n)
  {
    var ps' := ps[server := pointer];
    if Hop(ps', s, n) == Some(s) {
      HopAdd(ps', s, j, n - j);
      if pointer == Some(server) {
        SelfLoop(ps', server, n - j);
      } else {
        HopAdd(ps', server, n - j, j);
        NoReturnToServer(ps, server, pointer, n);
      }
    }
  }

  lemma HarmlessKeepsAcyclic(ps: Pointers, server: ServerId, pointer: Option<ServerId>)
    requires Acyclic(ps) && Harmless(ps, server, pointer)
    ensures Acyclic(ps[server := pointer])
  {
    var ps' := ps[server := pointer];
    forall s: ServerId, n: nat
      ensures !Cycle(ps', s, n)
    {
      if j: nat :| j < n && Hop(ps', s, j) == Some(server) {
        CycleThrough(ps, server, pointer, s, n, j);
      } else if n > 0 {
        CycleAvoiding(ps, server, pointer, s, n);
      }
    }
  }

  /** A chain that meets the server is closed into a cycle by the new pointer. */
  lemma HarmCloses(ps: Pointers, server: ServerId, start: ServerId)
    requires start != server && Reaches(ps, start, server)
    ensures !Acyclic(ps[server := Some(start)])
  {
    var ps', pointer := ps[server := Some(start)], Some(start);
    var n: nat :| Hop(ps, start, n) == Some(server);
    var k := FirstMeeting(ps, start, server, n);
    HopBetween(ps, server, pointer, start, k);
    assert Hop(ps', server, 0) == Some(server) && Hop(ps', server, 1) == Some(start);
    HopAdd(ps', server, 1, k);
    assert Hop(ps, start, 0) == Some(start);
    assert Cycle(ps', server, k + 1);
  }

  /** The old chain up to its first meeting with the server is a chain of the new pointers too. */
  lemma {:induction false} HopBetween(ps: Pointers, server: ServerId, pointer: Option<ServerId>, s: ServerId, n: nat)
    requires forall i: nat {:trigger Hop(ps, s, i)} :: i < n ==> Hop(ps, s, i) != Some(server)
    ensures Hop(ps[server := pointer], s, n) == Hop(ps, s, n)
    decreases n
  {
    if n > 0 {
      HopBetween(ps, server, pointer, s, n - 1);
      assert Hop(ps, s, n - 1) != Some(server);
    }
  }

  /** Registering a pointer keeps the graph free of cycles exactly when its chain avoids the server. */
  lemma RegisterAcyclicExactly(ps: Pointers, server: ServerId, pointer: Option<ServerId>)
    requires Acyclic(ps)
    ensures Acyclic(ps[server := pointer]) <==> Harmless(ps, server, pointer)
  {
    hide Acyclic, Reaches;
    if Harmless(ps, server, pointer) {
      HarmlessKeepsAcyclic(ps, server, pointer);
    } else {
      HarmCloses(ps, server, pointer.value);
    }
  }

  lemma ReachReturns(ps: Pointers, server: ServerId, start: ServerId)
    requires Reaches(ps, start, server)
    ensures Returns(ps, server, start)
  {
    var n: nat :| Hop(ps, start, n) == Some(server);
    assert ReturnsAt(ps, server, start, n);
  }

  /** What the check lets through is harmless. */
  lemma AllowedIsHarmless(ps: Pointers, server: ServerId, pointer: Option<ServerId>)
    requires Allowed(ps, server, pointer)
    ensures Harmless(ps, server, pointer)
  {
    if pointer.Some? && Reaches(ps, pointer.value, server) { ReachReturns(ps, server, pointer.value); }
  }

  lemma RegisterKeepsAcyclic(ps: Pointers, server: ServerId, pointer: Option<ServerId>)
    requires Acyclic(ps) && Allowed(ps, server, pointer)
    ensures Acyclic(ps[server := pointer])
  {
    AllowedIsHarmless(ps, server, pointer);
    HarmlessKeepsAcyclic(ps, server, pointer);
  }

  // ----- When a refusal is right -----

  ghost predicate LoopAt(ps: Pointers, start: ServerId, n: nat) {
    Hop(ps, start, n).Some? && Next(ps, Hop(ps, start, n).value) == Hop(ps, start, n)
  }

  /** The chain from `start` comes to a server that points at itself. */
  ghost predicate EndsInLoop(ps: Pointers, start: ServerId) {
    exists n :: LoopAt(ps, start, n)
  }

  /** Without cycles a chain can only revisit a server that points at itself. */
  lemma RevisitIsLoop(ps: Pointers, start: ServerId, m: nat, n: nat)
    requires Acyclic(ps) && Earlier(ps, start, m, n) && Hop(ps, start, n).Some?
    ensures LoopAt(ps, start, m)
  {
    HopAdd(ps, start, m, n - m);
    var x := Hop(ps, start, m).value;
    assert !Cycle(ps, x, n - m);
    assert Hop(ps, x, 0) == Some(x);
  }

  lemma LoopReturns(ps: Pointers, server: ServerId, start: ServerId, n: nat)
    requires LoopAt(ps, start, n)
    ensures Returns(ps, server, start)
  {
    assert Hop(ps, start, n + 1) == Hop(ps, start, n);
    assert Earlier(ps, start, n, n + 1);
    assert ReturnsAt(ps, server, start, n + 1);
  }

  /** Without cycles the chain returns exactly when it meets the server or a self-pointer. */
  lemma ReturnsExactly(ps: Pointers, server: ServerId, start: ServerId)
    requires Acyclic(ps)
    ensures Returns(ps, server, start) <==> Reaches(ps, start, server) || EndsInLoop(ps, start)
  {
    if Reaches(ps, start, server) { ReachReturns(ps, server, start); }
    if EndsInLoop(ps, start) {
      var n :| LoopAt(ps, start, n);
      LoopReturns(ps, server, start, n);
    }
    if Returns(ps, server, start) {
      var n :| ReturnsAt(ps, server, start, n);
      if Hop(ps, start, n).value != server {
        var m :| Earlier(ps, start, m, n);
        RevisitIsLoop(ps, start, m, n);
      }
    }
  }

  /**
   * Without cycles the check refuses a pointer that would close none exactly when the chain
   * comes to a self-pointing server and does not meet the one being registered.
   */
  lemma FalseAlarmExactly(ps: Pointers, server: ServerId, start: ServerId)
    requires Acyclic(ps) && start != server
    ensures !Allowed(ps, server, Some(start)) && Acyclic(ps[server := Some(start)]) <==>
            EndsInLoop(ps, start) && !Reaches(ps, start, server)
  {
    hide Acyclic, Returns, Reaches, EndsInLoop;
    ReturnsExactly(ps, server, start);
    RegisterAcyclicExactly(ps, server, Some(start));
  }

  lemma {:induction false} HopSubset(ps: Pointers, server: ServerId, s: ServerId, n: nat)
    ensures Hop(ps - {server}, s, n).Some? ==> Hop(ps, s, n) == Hop(ps - {server}, s, n)
  {
    if n > 0 { HopSubset(ps, server, s, n - 1); }
  }

  lemma CycleKept(ps: Pointers, server: ServerId, s: ServerId, n: nat)
    ensures Cycle(ps - {server}, s, n) ==> Cycle(ps, s, n)
  {
    var ps' := ps - {server};
    HopSubset(ps, server, s, n);
    assert Hop(ps', s, 0) == Some(s) && Hop(ps, s, 0) == Some(s);
    if n > 1 && Hop(ps', s, n).Some? { HopBefore(ps', s, 1, n); }
  }

  lemma UnregisterKeepsAcyclic(ps: Pointers, server: ServerId)
    requires Acyclic(ps)
    ensures Acyclic(ps - {server})
  {
    var ps' := ps - {server};
    forall s: ServerId, n: nat
      ensures !Cycle(ps', s, n)
    {
      CycleKept(ps, server, s, n);
    }
  }

  datatype Step = Register(server: ServerId, pointer: Option<ServerId>) | Unregister(server: ServerId)

  ghost predicate Run(states: seq<Pointers>, steps: seq<Step>) {
    && |states| == |steps| + 1 && states[0] == map[]
    && forall n :: 0 <= n < |steps| ==> Moves(states[n], states[n + 1], steps[n])
  }

  ghost predicate Moves(ps: Pointers, ps': Pointers, step: Step) {
    match step
    case Register(server, pointer) => Allowed(ps, server, pointer) && ps' == ps[server := pointer]
    case Unregister(server) => ps' == ps - {server}
  }

  /** Over any run of checked registrations and removals no cycle beyond a self-loop appears. */
  lemma {:induction false} RunAcyclic(states: seq<Pointers>, steps: seq<Step>, n: nat)
    requires Run(states, steps) && n < |states|
    ensures Acyclic(states[n])
  {
    if n == 0 {
      forall s: ServerId, k: nat
        ensures !Cycle(map[], s, k)
      {
        if k > 1 && Hop(map[], s, k).Some? { HopBefore(map[], s, 1, k); }
      }
    } else {
      RunAcyclic(states, steps, n - 1);
      assert Moves(states[n - 1], states[n - 1 + 1], steps[n - 1]);
      match steps[n - 1]
      case Register(server, pointer) => RegisterKeepsAcyclic(states[n - 1], server, pointer);
      case Unregister(server) => UnregisterKeepsAcyclic(states[n - 1], server);
    }
  }

  /** The same in every state of a checked run. */
  lemma FalseAlarmInRuns(states: seq<Pointers>, steps: seq<Step>, n: nat, server: ServerId, start: ServerId)
    requires Run(states, steps) && n < |states| && start != server
    ensures !Allowed(states[n], server, Some(start)) && Acyclic(states[n][server := Some(start)]) <==>
            EndsInLoop(states[n], start) && !Reaches(states[n], start, server)
  {
    RunAcyclic(states, steps, n);
    FalseAlarmExactly(states[n], server, start);
  }

  /** One checked registration, of a self-pointer, after which a harmless pointer to it is refused. */
  lemma SelfPointerRefused()
    ensures var ps: Pointers := map[1 := Some(1)];
            && Run([map[], ps], [Register(1, Some(1))])
            && !Allowed(ps, 2, Some(1)) && Acyclic(ps[2 := Some(1)])
  {
    var ps: Pointers := map[1 := Some(1)];
    var states, steps := [map[], ps], [Register(1, Some(1))];
    assert Moves(states[0], states[1], steps[0]);
    assert Hop(ps, 1, 0) == Some(1);
    assert LoopAt(ps, 1, 0);
    forall n: nat
      ensures Hop(ps, 1, n) == Some(1)
    {
      SelfLoop(ps, 1, n);
    }
    FalseAlarmInRuns(states, steps, 1, 2, 1);
  }

  // ----- The identity store -----

  datatype Identity = Identity(
    server: ServerId, address: Text, pointer: Option<ServerId>, transport: Text, clusterId: Text, databaseId: Text)

  /** Not empty, and without the tab and line characters that separate stored records. */
  predicate FieldOk(s: Text) {
    s != [] && 0x09 !in s && 0x0A !in s && 0x0D !in s
  }

  predicate RecordOk(i: Identity) {
    FieldOk(i.address) && FieldOk(i.transport) && FieldOk(i.clusterId) && FieldOk(i.databaseId)
  }

  method ValidateRecord(i: Identity) returns (ok: bool)
    ensures ok == RecordOk(i)
  {
    hide FieldOk;
    var fields := [i.address, i.transport, i.clusterId, i.databaseId];
    for k := 0 to |fields|
      invariant forall j :: 0 <= j < k ==> FieldOk(fields[j])
    {
      if !FieldOk(fields[k]) {
        return false;
      }
    }
    assert FieldOk(fields[0]) && FieldOk(fields[1]) && FieldOk(fields[2]) && FieldOk(fields[3]);
    return true;
  }

  class ReplicationPeerIdentityStore {
    var identities: map<ServerId, Identity>

    constructor ()
      ensures identities == map[]
    {
      identities := map[];
    }

    /** The pointer graph of the registered identities. */
    function Graph(): Pointers
      reads this
    {
      map s | s in identities :: identities[s].pointer
    }

    method ChecksCycle(server: ServerId, pointer: Option<ServerId>) returns (r: bool)
      ensures !r <==> Allowed(Graph(), server, pointer)
    {
      hide Returns;
      r := WouldCreateCycle(Graph(), server, pointer);
    }

    /** An invalid record is refused and changes nothing; a valid one replaces the server's. */
    method Register(identity: Identity) returns (ok: bool)
      modifies this
      ensures ok == RecordOk(identity)
      ensures identities == if ok then old(identities)[identity.server := identity] else old(identities)
      ensures Graph() == if ok then old(Graph())[identity.server := identity.pointer] else old(Graph())
      ensures Acyclic(old(Graph())) ==>
                (Acyclic(Graph()) <==> !ok || Harmless(old(Graph()), identity.server, identity.pointer))
    {
      hide Harmless, Acyclic;
      ok := ValidateRecord(identity);
      if !ok {
        return;
      }
      if Acyclic(Graph()) {
        RegisterAcyclicExactly(Graph(), identity.server, identity.pointer);
      }
      identities := identities[identity.server := identity];
      assert Graph() == old(Graph())[identity.server := identity.pointer];
    }

    method Unregister(server: ServerId)
      modifies this
      ensures Graph() == old(Graph()) - {server} && identities == old(identities) - {server}
      ensures Acyclic(old(Graph())) ==> Acyclic(Graph())
    {
      if Acyclic(Graph()) {
        UnregisterKeepsAcyclic(Graph(), server);
      }
      identities := identities - {server};
      assert Graph() == old(Graph()) - {server};
    }
  }
}
