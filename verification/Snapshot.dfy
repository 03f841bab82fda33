/**
 * Snapshots: a graph is saved as the commands that create its records and loaded by applying
 * them to an empty graph. Adjacency order and id counters may change; nothing else may.
 */
module Snapshot {
  import opened Basics
  import opened Model
  import opened Graph
  import opened GraphInvariant
  import opened GraphStore
  import opened GraphClean

  // ----- The commands of a snapshot -----

  function NodeCreations(nodes: map<NodeId, Node>, ids: seq<NodeId>): seq<Command>
    requires forall n :: n in ids ==> n in nodes
  {
    if ids == [] then []
    else
      var n := nodes[ids[|ids| - 1]];
      NodeCreations(nodes, ids[..|ids| - 1]) + [CreateNode(n.id, n.labels, n.properties)]
  }

  function BoundaryCreations(boundary: map<NodeId, BoundaryNode>, ids: seq<NodeId>): seq<Command>
    requires forall n :: n in ids ==> n in boundary
  {
    if ids == [] then []
    else
      var b := boundary[ids[|ids| - 1]];
      BoundaryCreations(boundary, ids[..|ids| - 1])
      + [UpsertBoundaryNode(b.id, b.ownerShard, b.labels, b.properties, b.version)]
  }

  function RelCreations(rels: map<RelId, Relationship>, ids: seq<RelId>): seq<Command>
    requires forall r :: r in ids ==> r in rels
  {
    if ids == [] then []
    else
      var r := rels[ids[|ids| - 1]];
      RelCreations(rels, ids[..|ids| - 1]) + [CreateRelationship(r.id, r.from, r.to, r.relType, r.properties)]
  }

  function NodeSection(g: Graph): seq<Command> {
    SortedIdsElements(g.nodes.Keys);
    NodeCreations(g.nodes, SortedIds(g.nodes.Keys))
  }

  function BoundarySection(g: Graph): seq<Command> {
    SortedIdsElements(g.boundary.Keys);
    BoundaryCreations(g.boundary, SortedIds(g.boundary.Keys))
  }

  function RelSection(g: Graph): seq<Command> {
    SortedIdsElements(g.rels.Keys);
    RelCreations(g.rels, SortedIds(g.rels.Keys))
  }

  /** Nodes, then boundary nodes, then relationships, each in ascending order of id. */
  function SaveCommands(g: Graph): seq<Command> {
    NodeSection(g) + BoundarySection(g) + RelSection(g)
  }

  lemma {:induction false} CreationsAt(nodes: map<NodeId, Node>, ids: seq<NodeId>, i: nat)
    requires (forall n :: n in ids ==> n in nodes) && i < |ids|
    ensures |NodeCreations(nodes, ids)| == |ids|
    ensures var n := nodes[ids[i]]; NodeCreations(nodes, ids)[i] == CreateNode(n.id, n.labels, n.properties)
  {
    if |ids| > 1 { CreationsAt(nodes, ids[..|ids| - 1], if i < |ids| - 1 then i else 0); }
  }

  lemma {:induction false} BoundaryCreationsAt(boundary: map<NodeId, BoundaryNode>, ids: seq<NodeId>, i: nat)
    requires (forall n :: n in ids ==> n in boundary) && i < |ids|
    ensures |BoundaryCreations(boundary, ids)| == |ids|
    ensures var b := boundary[ids[i]];
            BoundaryCreations(boundary, ids)[i]
            == UpsertBoundaryNode(b.id, b.ownerShard, b.labels, b.properties, b.version)
  {
    if |ids| > 1 { BoundaryCreationsAt(boundary, ids[..|ids| - 1], if i < |ids| - 1 then i else 0); }
  }

  lemma {:induction false} RelCreationsAt(rels: map<RelId, Relationship>, ids: seq<RelId>, i: nat)
    requires (forall r :: r in ids ==> r in rels) && i < |ids|
    ensures |RelCreations(rels, ids)| == |ids|
    ensures var r := rels[ids[i]];
            RelCreations(rels, ids)[i] == CreateRelationship(r.id, r.from, r.to, r.relType, r.properties)
  {
    if |ids| > 1 { RelCreationsAt(rels, ids[..|ids| - 1], if i < |ids| - 1 then i else 0); }
  }

  /** Sections are written in ascending order of id, so equal graphs give equal snapshots. */
  lemma SectionsAscend(g: Graph, i: nat, j: nat)
    requires Inv(g) && i < j
    ensures j < |NodeSection(g)| ==> var a, b := NodeSection(g)[i], NodeSection(g)[j];
                                     a.CreateNode? && b.CreateNode? && a.id < b.id
    ensures j < |BoundarySection(g)| ==> var a, b := BoundarySection(g)[i], BoundarySection(g)[j];
                                         a.UpsertBoundaryNode? && b.UpsertBoundaryNode? && a.id < b.id
    ensures j < |RelSection(g)| ==> var a, b := RelSection(g)[i], RelSection(g)[j];
                                    a.CreateRelationship? && b.CreateRelationship? && a.relId < b.relId
  {
    hide Inv, NodeCreations, BoundaryCreations, RelCreations, SortedIds;
    RecordsFiled(g);
    NodesAscend(g, i, j);
    BoundariesAscend(g, i, j);
    RelsAscend(g, i, j);
  }

  lemma NodesAscend(g: Graph, i: nat, j: nat)
    requires i < j && forall n :: n in g.nodes ==> g.nodes[n].id == n
    ensures j < |NodeSection(g)| ==> var a, b := NodeSection(g)[i], NodeSection(g)[j];
                                     a.CreateNode? && b.CreateNode? && a.id < b.id
  {
    hide NodeCreations, SortedIds;
    var ids := SortedIds(g.nodes.Keys);
    SortedIdsElements(g.nodes.Keys);
    SortedIdsAscend(g.nodes.Keys);
    if ids != [] { CreationsAt(g.nodes, ids, 0); } else { NoCreations(g); }
    if j < |ids| {
      CreationsAt(g.nodes, ids, i);
      CreationsAt(g.nodes, ids, j);
    }
  }

  lemma BoundariesAscend(g: Graph, i: nat, j: nat)
    requires i < j && forall n :: n in g.boundary ==> g.boundary[n].id == n
    ensures j < |BoundarySection(g)| ==> var a, b := BoundarySection(g)[i], BoundarySection(g)[j];
                                         a.UpsertBoundaryNode? && b.UpsertBoundaryNode? && a.id < b.id
  {
    hide BoundaryCreations, SortedIds;
    var ids := SortedIds(g.boundary.Keys);
    SortedIdsElements(g.boundary.Keys);
    SortedIdsAscend(g.boundary.Keys);
    if ids != [] { BoundaryCreationsAt(g.boundary, ids, 0); } else { NoCreations(g); }
    if j < |ids| {
      BoundaryCreationsAt(g.boundary, ids, i);
      BoundaryCreationsAt(g.boundary, ids, j);
    }
  }

  lemma RelsAscend(g: Graph, i: nat, j: nat)
    requires i < j && forall r :: r in g.rels ==> g.rels[r].id == r
    ensures j < |RelSection(g)| ==> var a, b := RelSection(g)[i], RelSection(g)[j];
                                    a.CreateRelationship? && b.CreateRelationship? && a.relId < b.relId
  {
    hide RelCreations, SortedIds;
    var ids := SortedIds(g.rels.Keys);
    SortedIdsElements(g.rels.Keys);
    SortedIdsAscend(g.rels.Keys);
    if ids != [] { RelCreationsAt(g.rels, ids, 0); } else { NoCreations(g); }
    if j < |ids| {
      RelCreationsAt(g.rels, ids, i);
      RelCreationsAt(g.rels, ids, j);
    }
  }

  lemma NoCreations(g: Graph)
    ensures NodeCreations(g.nodes, []) == [] && BoundaryCreations(g.boundary, []) == []
    ensures RelCreations(g.rels, []) == []
  {
  }

  /** The graph rebuilt from a snapshot of `g`. */
  ghost function Reload(g: Graph): Graph {
    Replay(EMPTY, SaveCommands(g))
  }

  // ----- Running commands in two parts -----

  lemma {:induction false} ReplayKvAppend(s: Store, a: seq<Command>, b: seq<Command>)
    ensures ReplayKv(s, a + b) == ReplayKv(ReplayKv(s, a), b)
    ensures Orderly(s, a) && Orderly(ReplayKv(s, a), b) ==> Orderly(s, a + b)
    decreases |b|
  {
    if b == [] {
      assert a + b == a;
    } else {
      var front := b[..|b| - 1];
      assert (a + b)[..|a + b| - 1] == a + front;
      ReplayKvAppend(s, a, front);
    }
  }

  lemma {:induction false} ReplayAppend(g: Graph, a: seq<Command>, b: seq<Command>)
    ensures Replay(g, a + b) == Replay(Replay(g, a), b)
    ensures AcceptsAll(g, a + b) <==> AcceptsAll(g, a) && AcceptsAll(Replay(g, a), b)
    decreases |b|
  {
    if b == [] {
      assert a + b == a;
    } else {
      var front := b[..|b| - 1];
      assert (a + b)[..|a + b| - 1] == a + front;
      ReplayAppend(g, a, front);
    }
  }

  // ----- Loading rebuilds the records -----

  ghost predicate Distinct64(ids: seq<u64>) {
    forall i, j :: 0 <= i < j < |ids| ==> ids[i] != ids[j]
  }

  lemma OneMore(s: Store, cs: seq<Command>, c: Command)
    ensures ReplayKv(s, cs + [c]) == ApplyKv(ReplayKv(s, cs), c)
    ensures Orderly(s, cs) && AcceptsKv(ReplayKv(s, cs), c) && !Adopts(ReplayKv(s, cs), c) ==> Orderly(s, cs + [c])
  {
    hide ApplyKv, AcceptsKv, Adopts;
    assert (cs + [c])[..|cs|] == cs;
  }

  /** The records of `m` with the listed ids. */
  function Restrict<V>(m: map<u64, V>, ids: seq<u64>): map<u64, V> {
    map x | x in ids && x in m :: m[x]
  }

  lemma RestrictGrows<V>(m: map<u64, V>, ids: seq<u64>)
    requires ids != [] && ids[|ids| - 1] in m
    ensures Restrict(m, ids) == Restrict(m, ids[..|ids| - 1])[ids[|ids| - 1] := m[ids[|ids| - 1]]]
    ensures Distinct64(ids) ==> ids[|ids| - 1] !in Restrict(m, ids[..|ids| - 1]) && Distinct64(ids[..|ids| - 1])
  {
    var front, last := ids[..|ids| - 1], ids[|ids| - 1];
    assert forall x :: x in ids <==> x in front || x == last;
  }

  lemma RestrictAll<V>(m: map<u64, V>, ids: seq<u64>)
    requires forall x :: x in ids <==> x in m
    ensures Restrict(m, ids) == m
  {
  }

  lemma {:induction false} NodesLoaded(nodes: map<NodeId, Node>, ids: seq<NodeId>)
    requires Distinct64(ids) && forall n {:trigger n in ids} :: n in ids ==> n in nodes && nodes[n].id == n
    ensures var s := ReplayKv(EMPTY_STORE, NodeCreations(nodes, ids));
            && Orderly(EMPTY_STORE, NodeCreations(nodes, ids))
            && s.nodes == Restrict(nodes, ids) && s.boundary == map[] && s.rels == map[]
  {
    if ids != [] {
      hide ReplayKv, Orderly, Restrict, Distinct64;
      var front, last := ids[..|ids| - 1], ids[|ids| - 1];
      assert last in ids && forall n {:trigger n in front} :: n in front ==> n in ids;
      var cs := NodeCreations(nodes, front);
      RestrictGrows(nodes, ids);
      NodesLoaded(nodes, front);
      OneMore(EMPTY_STORE, cs, CreateNode(last, nodes[last].labels, nodes[last].properties));
    }
  }

  lemma {:induction false} BoundariesLoaded(s: Store, boundary: map<NodeId, BoundaryNode>, ids: seq<NodeId>)
    requires s.boundary == map[] && forall n {:trigger n in ids} :: n in ids ==> n in boundary && boundary[n].id == n
    ensures var s' := ReplayKv(s, BoundaryCreations(boundary, ids));
            && Orderly(s, BoundaryCreations(boundary, ids))
            && s'.nodes == s.nodes && s'.boundary == Restrict(boundary, ids) && s'.rels == s.rels
  {
    if ids != [] {
      hide ReplayKv, Orderly, Restrict, BoundaryKeys;
      var front, last := ids[..|ids| - 1], ids[|ids| - 1];
      assert last in ids && forall n {:trigger n in front} :: n in front ==> n in ids;
      var cs := BoundaryCreations(boundary, front);
      RestrictGrows(boundary, ids);
      BoundariesLoaded(s, boundary, front);
      var b := boundary[last];
      OneMore(s, cs, UpsertBoundaryNode(b.id, b.ownerShard, b.labels, b.properties, b.version));
    }
  }

  /** Relationship `r` is filed under its id and both its ends exist. */
  ghost predicate Connectable(s: Store, rels: map<RelId, Relationship>, r: RelId) {
    && r in rels && rels[r].id == r && rels[r].from in s.nodes
    && (rels[r].to in s.nodes || rels[r].to in s.boundary)
  }

  lemma {:induction false} RelsLoaded(s: Store, rels: map<RelId, Relationship>, ids: seq<RelId>)
    requires s.rels == map[] && Distinct64(ids)
    requires forall r {:trigger r in ids} :: r in ids ==> r in rels && Connectable(s, rels, r)
    ensures var s' := ReplayKv(s, RelCreations(rels, ids));
            && Orderly(s, RelCreations(rels, ids))
            && s'.nodes == s.nodes && s'.boundary == s.boundary && s'.rels == Restrict(rels, ids)
  {
    if ids != [] {
      hide ReplayKv, Orderly, Restrict, Distinct64, OutKeys, InKeys;
      var front, last := ids[..|ids| - 1], ids[|ids| - 1];
      assert last in ids && forall r {:trigger r in front} :: r in front ==> r in ids;
      var cs := RelCreations(rels, front);
      RestrictGrows(rels, ids);
      RelsLoaded(s, rels, front);
      var r := rels[last];
      OneMore(s, cs, CreateRelationship(r.id, r.from, r.to, r.relType, r.properties));
    }
  }

  lemma SortedDistinct(s: set<u64>)
    ensures Distinct64(SortedIds(s))
  {
    SortedIdsAscend(s);
  }

  /** The snapshot's commands are accepted in turn, and rebuild exactly the records. */
  lemma LoadRebuilds(g: Graph)
    requires Inv(g)
    ensures Orderly(EMPTY_STORE, SaveCommands(g))
    ensures var s := ReplayKv(EMPTY_STORE, SaveCommands(g));
            s.nodes == g.nodes && s.boundary == g.boundary && s.rels == g.rels
  {
    hide Orderly, ReplayKv, NodeCreations, BoundaryCreations, RelCreations, SortedIds, Restrict, Distinct64;
    RecordsFiled(g);
    var ns, bs, rs := SortedIds(g.nodes.Keys), SortedIds(g.boundary.Keys), SortedIds(g.rels.Keys);
    SortedIdsElements(g.nodes.Keys);
    SortedIdsElements(g.boundary.Keys);
    SortedIdsElements(g.rels.Keys);
    SortedDistinct(g.nodes.Keys);
    SortedDistinct(g.rels.Keys);
    NodesLoaded(g.nodes, ns);
    RestrictAll(g.nodes, ns);
    var s1 := ReplayKv(EMPTY_STORE, NodeSection(g));
    BoundariesLoaded(s1, g.boundary, bs);
    RestrictAll(g.boundary, bs);
    var s2 := ReplayKv(s1, BoundarySection(g));
    RelsLoaded(s2, g.rels, rs);
    RestrictAll(g.rels, rs);
    ReplayKvAppend(EMPTY_STORE, NodeSection(g), BoundarySection(g));
    ReplayKvAppend(EMPTY_STORE, NodeSection(g) + BoundarySection(g), RelSection(g));
  }

  lemma RecordsFiled(g: Graph)
    requires Inv(g)
    ensures forall n :: n in g.nodes ==> g.nodes[n].id == n
    ensures forall n :: n in g.boundary ==> g.boundary[n].id == n
    ensures forall r :: r in g.rels ==> g.rels[r].id == r && g.rels[r].from in g.nodes
                                        && (g.rels[r].to in g.nodes || g.rels[r].to in g.boundary)
  {
    forall n | n in g.nodes
      ensures g.nodes[n].id == n
    {
      assert NodeOk(g, n);
    }
    forall r | r in g.rels
      ensures g.rels[r].id == r && g.rels[r].from in g.nodes && (g.rels[r].to in g.nodes || g.rels[r].to in g.boundary)
    {
      assert RelOk(g, r);
    }
  }

  /** A store accepts in order what a graph that it refines accepts. */
  lemma {:induction false} OrderlyAccepted(g: Graph, s: Store, cs: seq<Command>)
    requires Inv(g) && Refines(g, s) && Orderly(s, cs)
    ensures AcceptsAll(g, cs)
  {
    hide Accepts, AcceptsKv, Refines;
    if cs != [] {
      var front, last := cs[..|cs| - 1], cs[|cs| - 1];
      OrderlyAccepted(g, s, front);
      ReplayRefines(g, s, front);
      AcceptsAgree(Replay(g, front), ReplayKv(s, front), last);
    }
  }

  // ----- The store of a graph -----

  function AllNodeKeys(nodes: map<NodeId, Node>): set<IndexKey> {
    set n, k | n in nodes && k in NodeKeys(nodes[n]) :: k
  }

  function AllBoundaryKeys(boundary: map<NodeId, BoundaryNode>): set<IndexKey> {
    set n, k | n in boundary && k in BoundaryKeys(boundary[n]) :: k
  }

  function AllOutKeys(rels: map<RelId, Relationship>): set<IndexKey> {
    set r, k | r in rels && k in OutKeys(r, rels[r]) :: k
  }

  /** Incoming keys only for relationships that are listed at their target. */
  function AllInKeys(rels: map<RelId, Relationship>, ls: Lists): set<IndexKey> {
    set r, k | r in rels && r in GetOr(ls.incoming, rels[r].to, []) && k in InKeys(r, rels[r]) :: k
  }

  function StoreKeys(g: Graph): set<IndexKey> {
    AllNodeKeys(g.nodes) + AllBoundaryKeys(g.boundary) + AllOutKeys(g.rels) + AllInKeys(g.rels, g.lists)
  }

  function StoreOf(g: Graph): Store {
    Store(g.nodes, g.boundary, g.rels, StoreKeys(g))
  }

  lemma NodeKeyMeans(g: Graph, k: IndexKey)
    requires Inv(g)
    ensures k in AllNodeKeys(g.nodes) <==> (k.KLabel? || k.KProp?) && Shows(g, k)
  {
    RecordsFiled(g);
    if (k.KLabel? || k.KProp?) && k.node in g.nodes { assert k in NodeKeys(g.nodes[k.node]) <==> Shows(g, k); }
  }

  lemma BoundaryKeyMeans(g: Graph, k: IndexKey)
    requires Inv(g)
    ensures k in AllBoundaryKeys(g.boundary) <==> k.KBoundaryProp? && Shows(g, k)
  {
    RecordsFiled(g);
    if k.KBoundaryProp? && k.node in g.boundary { assert k in BoundaryKeys(g.boundary[k.node]) <==> Shows(g, k); }
  }

  lemma OutKeyMeans(g: Graph, k: IndexKey)
    ensures k in AllOutKeys(g.rels) <==> (k.KOut? || k.KOutType?) && Shows(g, k)
  {
    if (k.KOut? || k.KOutType?) && k.rel in g.rels { assert k in OutKeys(k.rel, g.rels[k.rel]) <==> Shows(g, k); }
  }

  lemma InKeyMeans(g: Graph, k: IndexKey)
    ensures k in AllInKeys(g.rels, g.lists) <==> (k.KIn? || k.KInType?) && Shows(g, k)
  {
    if (k.KIn? || k.KInType?) && k.rel in g.rels && k.rel in GetOr(g.lists.incoming, g.rels[k.rel].to, []) {
      assert k in InKeys(k.rel, g.rels[k.rel]) <==> Shows(g, k);
    }
  }

  lemma StoreKeyMeans(g: Graph, k: IndexKey)
    requires Inv(g)
    ensures k in StoreKeys(g) <==> Shows(g, k)
  {
    hide AllNodeKeys, AllBoundaryKeys, AllOutKeys, AllInKeys, Shows;
    NodeKeyMeans(g, k);
    BoundaryKeyMeans(g, k);
    OutKeyMeans(g, k);
    InKeyMeans(g, k);
  }

  lemma StoreOfRefines(g: Graph)
    requires Inv(g)
    ensures Refines(g, StoreOf(g))
  {
    forall k
      ensures KeyOk(g, StoreOf(g), k)
    {
      StoreKeyMeans(g, k);
    }
  }

  /** Equal records and equal index answers: nothing but order and counters can differ. */
  ghost predicate Alike(g: Graph, h: Graph) {
    && g.nodes == h.nodes && g.boundary == h.boundary && g.rels == h.rels
    && forall k {:trigger Shows(g, k)} {:trigger Shows(h, k)} :: Shows(g, k) <==> Shows(h, k)
  }

  lemma AlikeIsSameStore(g: Graph, h: Graph, s: Store)
    requires Refines(g, s)
    ensures Alike(g, h) <==> Refines(h, s)
  {
    hide Shows;
    if Alike(g, h) {
      forall k
        ensures KeyOk(h, s, k)
      {
        assert KeyOk(g, s, k);
      }
    }
    if Refines(h, s) {
      forall k
        ensures Shows(g, k) <==> Shows(h, k)
      {
        assert KeyOk(g, s, k) && KeyOk(h, s, k);
      }
    }
  }

  /** Every relationship to a local node is listed there. */
  ghost predicate AllListed(g: Graph) {
    forall r :: r in g.rels && g.rels[r].to in g.nodes ==> r in GetOr(g.lists.incoming, g.rels[r].to, [])
  }

  lemma ListedIsClean(g: Graph, s: Store)
    requires Inv(g) && Refines(g, s)
    ensures AllListed(g) <==> Clean(s)
  {
    if AllListed(g) {
      forall k
        ensures CleanKey(s, k)
      {
        assert KeyOk(g, s, k);
        ListedTargets(g, k);
      }
    }
    if Clean(s) {
      forall r | r in g.rels && g.rels[r].to in g.nodes
        ensures r in GetOr(g.lists.incoming, g.rels[r].to, [])
      {
        assert CleanKey(s, KIn(g.rels[r].to, r)) && KeyOk(g, s, KIn(g.rels[r].to, r));
      }
    }
  }

  lemma ListedTargets(g: Graph, k: IndexKey)
    requires Inv(g) && AllListed(g)
    ensures Shows(g, k) <==> Expected(Store(g.nodes, g.boundary, g.rels, {}), k)
  {
    if (k.KIn? || k.KInType?) && k.node !in g.nodes {
      assert k.node !in g.lists.incoming;
    }
  }

  /**
   * Loading a snapshot always succeeds, and gives the graph back, up to order and counters,
   * exactly when every relationship to a local node is listed at it.
   */
  lemma ReloadExactly(g: Graph)
    requires Inv(g)
    ensures AcceptsAll(EMPTY, SaveCommands(g)) && Inv(Reload(g))
    ensures Alike(g, Reload(g)) <==> AllListed(g)
  {
    hide Orderly, ReplayKv, AcceptsAll, Replay, Clean, Alike, AllListed, SaveCommands;
    var cs, s := SaveCommands(g), StoreOf(g);
    LoadRebuilds(g);
    EmptyInv();
    EmptyRefines();
    EmptyClean();
    OrderlyAccepted(EMPTY, EMPTY_STORE, cs);
    ReplayRefines(EMPTY, EMPTY_STORE, cs);
    ReplayClean(EMPTY_STORE, cs);
    StoreOfRefines(g);
    ListedIsClean(g, s);
    var t := ReplayKv(EMPTY_STORE, cs);
    if Clean(s) {
      CleanDetermined(s, t);
      AlikeIsSameStore(g, Reload(g), s);
    }
    if Alike(g, Reload(g)) {
      AlikeIsSameStore(g, Reload(g), s);
      SameKeys(Reload(g), s, t);
    }
  }

  lemma SameKeys(h: Graph, s: Store, t: Store)
    requires Refines(h, s) && Refines(h, t)
    ensures s == t
  {
    forall k
      ensures k in s.keys <==> k in t.keys
    {
      assert KeyOk(h, s, k) && KeyOk(h, t, k);
    }
  }

  // ----- The suffix -----

  /** Alike graphs accept and reject the same command, and stay alike. */
  lemma AlikeStep(g: Graph, h: Graph, c: Command)
    requires Inv(g) && Inv(h) && Alike(g, h)
    ensures Accepts(g, c) <==> Accepts(h, c)
    ensures Alike(Apply(g, c).0, Apply(h, c).0)
  {
    hide Alike, Refines, AcceptsKv;
    var s := StoreOf(g);
    StoreOfRefines(g);
    AlikeIsSameStore(g, h, s);
    AcceptsAgree(g, s, c);
    AcceptsAgree(h, s, c);
    if Accepts(g, c) {
      ApplyRefines(g, s, c);
      ApplyRefines(h, s, c);
      AlikeIsSameStore(Apply(g, c).0, Apply(h, c).0, ApplyKv(s, c));
    } else {
      ApplyKeepsInv(g, c);
      ApplyKeepsInv(h, c);
    }
  }

  lemma {:induction false} AlikeReplay(g: Graph, h: Graph, cs: seq<Command>)
    requires Inv(g) && Inv(h) && Alike(g, h)
    ensures Inv(Replay(g, cs)) && Inv(Replay(h, cs)) && Alike(Replay(g, cs), Replay(h, cs))
  {
    hide Alike;
    if cs != [] {
      var front, last := cs[..|cs| - 1], cs[|cs| - 1];
      AlikeReplay(g, h, front);
      ApplyKeepsInv(Replay(g, front), last);
      ApplyKeepsInv(Replay(h, front), last);
      AlikeStep(Replay(g, front), Replay(h, front), last);
    }
  }

  /** No command of `cs` creates a node under an id that relationships already point at. */
  ghost predicate NoAdoption(g: Graph, cs: seq<Command>) {
    cs == [] ||
    (NoAdoption(g, cs[..|cs| - 1])
     && (cs[|cs| - 1].CreateNode? && cs[|cs| - 1].id !in Replay(g, cs[..|cs| - 1]).nodes ==>
           !PointedAt(Replay(g, cs[..|cs| - 1]), cs[|cs| - 1].id)))
  }

  ghost predicate PointedAt(g: Graph, id: NodeId) {
    exists r :: r in g.rels && g.rels[r].to == id
  }

  lemma {:induction false} NoAdoptionListed(g: Graph, cs: seq<Command>)
    requires Inv(g) && AllListed(g) && NoAdoption(g, cs)
    ensures Inv(Replay(g, cs)) && AllListed(Replay(g, cs))
  {
    hide AllListed;
    if cs != [] {
      var front, last := cs[..|cs| - 1], cs[|cs| - 1];
      NoAdoptionListed(g, front);
      StepListed(Replay(g, front), last);
    }
  }

  lemma StepListed(g: Graph, c: Command)
    requires Inv(g) && AllListed(g)
    requires c.CreateNode? && c.id !in g.nodes ==> !PointedAt(g, c.id)
    ensures Inv(Apply(g, c).0) && AllListed(Apply(g, c).0)
  {
    hide AllListed, Clean, Refines, ApplyKv, Apply;
    ApplyKeepsInv(g, c);
    if Accepts(g, c) {
      var s := StoreOf(g);
      StoreOfRefines(g);
      ListedIsClean(g, s);
      AcceptsAgree(g, s, c);
      StoreFiled(g);
      ApplyCleanExactly(s, c);
      ApplyRefines(g, s, c);
      ListedIsClean(Apply(g, c).0, ApplyKv(s, c));
    }
  }

  lemma StoreFiled(g: Graph)
    requires Inv(g)
    ensures Filed(StoreOf(g))
  {
    RecordsFiled(g);
  }

  /**
   * Snapshot plus suffix equals full replay: for every log prefix that leaves every relationship
   * listed at a local target and every suffix, the reloaded graph follows the original.
   */
  lemma SnapshotPlusSuffix(prefix: seq<Command>, suffix: seq<Command>, c: Command)
    requires AllListed(Replay(EMPTY, prefix))
    ensures var g := Replay(EMPTY, prefix);
            && Alike(Replay(EMPTY, prefix + suffix), Replay(Reload(g), suffix))
            && (Accepts(Replay(EMPTY, prefix + suffix), c) <==> Accepts(Replay(Reload(g), suffix), c))
  {
    hide Alike, AllListed, Accepts, Inv;
    var g := Replay(EMPTY, prefix);
    ReachableInv(prefix);
    ReloadExactly(g);
    AlikeReplay(g, Reload(g), suffix);
    ReplayAppend(EMPTY, prefix, suffix);
    AlikeStep(Replay(g, suffix), Replay(Reload(g), suffix), c);
  }

  /** It follows for every suffix exactly then. */
  lemma SnapshotSuffixExactly(prefix: seq<Command>)
    ensures var g := Replay(EMPTY, prefix);
            AllListed(g) <==> forall suffix :: Alike(Replay(EMPTY, prefix + suffix), Replay(Reload(g), suffix))
  {
    hide Alike, AllListed, Inv, Reload;
    var g := Replay(EMPTY, prefix);
    ReachableInv(prefix);
    if AllListed(g) {
      forall suffix
        ensures Alike(Replay(EMPTY, prefix + suffix), Replay(Reload(g), suffix))
      {
        SnapshotPlusSuffix(prefix, suffix, DeleteNode(0));
      }
    } else {
      ReloadExactly(g);
      assert prefix + [] == prefix && Replay(Reload(g), []) == Reload(g);
      assert !Alike(Replay(EMPTY, prefix + []), Replay(Reload(g), []));
    }
  }

  /** Logs without adoption leave everything listed. */
  lemma NoAdoptionReloads(prefix: seq<Command>, suffix: seq<Command>, c: Command)
    requires NoAdoption(EMPTY, prefix)
    ensures var g := Replay(EMPTY, prefix);
            && Alike(Replay(EMPTY, prefix + suffix), Replay(Reload(g), suffix))
            && (Accepts(Replay(EMPTY, prefix + suffix), c) <==> Accepts(Replay(Reload(g), suffix), c))
  {
    hide Alike, AllListed, Accepts, Reload, NoAdoption;
    EmptyInv();
    EmptyListed();
    NoAdoptionListed(EMPTY, prefix);
    SnapshotPlusSuffix(prefix, suffix, c);
  }

  lemma EmptyListed()
    ensures AllListed(EMPTY)
  {
  }

  /** A node created under the id of a boundary node that is already pointed at. */
  const ADOPTING: seq<Command> := [
    CreateNode(1, [], map[]), UpsertBoundaryNode(5, 9, [], map[], 1),
    CreateRelationship(10, 1, 5, [], map[]), CreateNode(5, [], map[])]

  lemma AdoptingSteps(s1: Store, s2: Store, s3: Store)
    requires s1 == ApplyKv(EMPTY_STORE, ADOPTING[0]) && s2 == ApplyKv(s1, ADOPTING[1]) && s3 == ApplyKv(s2, ADOPTING[2])
    ensures ReplayKv(EMPTY_STORE, ADOPTING[..3]) == s3 && Orderly(EMPTY_STORE, ADOPTING[..3])
    ensures AcceptsKv(s3, ADOPTING[3]) && Adopts(s3, ADOPTING[3])
  {
    hide NodeKeys, BoundaryKeys, OutKeys, InKeys;
    assert ADOPTING[..1] == [] + [ADOPTING[0]] && ADOPTING[..2] == ADOPTING[..1] + [ADOPTING[1]];
    assert ADOPTING[..3] == ADOPTING[..2] + [ADOPTING[2]];
    OneMore(EMPTY_STORE, [], ADOPTING[0]);
    OneMore(EMPTY_STORE, ADOPTING[..1], ADOPTING[1]);
    OneMore(EMPTY_STORE, ADOPTING[..2], ADOPTING[2]);
    assert s3.rels[10].to == 5;
  }

  /** After an adoption the reloaded graph answers differently. */
  lemma AdoptionBreaksReload()
    ensures AcceptsAll(EMPTY, ADOPTING)
    ensures !Alike(Replay(EMPTY, ADOPTING), Reload(Replay(EMPTY, ADOPTING)))
  {
    hide Alike, Replay, ReplayKv, Orderly, AcceptsAll, Clean, Refines, AllListed, AcceptsKv, Adopts, ApplyKv, Accepts;
    var s1 := ApplyKv(EMPTY_STORE, ADOPTING[0]);
    var s2 := ApplyKv(s1, ADOPTING[1]);
    var s3 := ApplyKv(s2, ADOPTING[2]);
    AdoptingSteps(s1, s2, s3);
    EmptyInv();
    EmptyRefines();
    EmptyClean();
    ReplayClean(EMPTY_STORE, ADOPTING[..3]);
    OrderlyAccepted(EMPTY, EMPTY_STORE, ADOPTING[..3]);
    ReplayRefines(EMPTY, EMPTY_STORE, ADOPTING[..3]);
    var g3 := Replay(EMPTY, ADOPTING[..3]);
    AcceptsAgree(g3, s3, ADOPTING[3]);
    ApplyCleanExactly(s3, ADOPTING[3]);
    ApplyRefines(g3, s3, ADOPTING[3]);
    ApplyKeepsInv(g3, ADOPTING[3]);
    LastStep(EMPTY, ADOPTING);
    assert ADOPTING[..|ADOPTING| - 1] == ADOPTING[..3];
    ListedIsClean(Apply(g3, ADOPTING[3]).0, ApplyKv(s3, ADOPTING[3]));
    ReloadExactly(Replay(EMPTY, ADOPTING));
  }

  lemma LastStep(g: Graph, cs: seq<Command>)
    requires cs != []
    ensures Replay(g, cs) == Apply(Replay(g, cs[..|cs| - 1]), cs[|cs| - 1]).0
    ensures AcceptsAll(g, cs) <==> AcceptsAll(g, cs[..|cs| - 1]) && Accepts(Replay(g, cs[..|cs| - 1]), cs[|cs| - 1])
  {
  }
}
