/**
 * The indexed key-value form of a graph: records under their ids and empty values under index
 * keys. Keys are structured here; Keys.dfy gives their bytes and carries the reads and
 * writes below over to byte maps.
 */
module GraphStore {
  import opened Basics
  import opened Model
  import opened Graph
  import opened GraphInvariant

  datatype IndexKey =
    | KLabel(tag: Text, node: NodeId)
    | KProp(lp: LabelProp, node: NodeId)
    | KBoundaryProp(lp: LabelProp, node: NodeId)
    | KOut(node: NodeId, rel: RelId)
    | KOutType(node: NodeId, relType: Text, rel: RelId)
    | KIn(node: NodeId, rel: RelId)
    | KInType(node: NodeId, relType: Text, rel: RelId)

  datatype Store = Store(
    nodes: map<NodeId, Node>,
    boundary: map<NodeId, BoundaryNode>,
    rels: map<RelId, Relationship>,
    keys: set<IndexKey>)

  const EMPTY_STORE := Store(map[], map[], map[], {})

  // ----- Index keys of a record -----

  function NodeKeys(n: Node): set<IndexKey> {
    (set l | l in n.labels :: KLabel(l, n.id)) + (set lp | lp in LabelProps(n.labels, n.properties) :: KProp(lp, n.id))
  }

  function BoundaryKeys(b: BoundaryNode): set<IndexKey> {
    set lp | lp in LabelProps(b.labels, b.properties) :: KBoundaryProp(lp, b.id)
  }

  function OutKeys(id: RelId, r: Relationship): set<IndexKey> {
    {KOut(r.from, id), KOutType(r.from, r.relType, id)}
  }

  function InKeys(id: RelId, r: Relationship): set<IndexKey> {
    {KIn(r.to, id), KInType(r.to, r.relType, id)}
  }

  function RelKeys(id: RelId, r: Relationship): set<IndexKey> {
    OutKeys(id, r) + InKeys(id, r)
  }

  // ----- Scans -----

  function OutIds(keys: set<IndexKey>, n: NodeId): set<RelId> {
    set k | k in keys && k.KOut? && k.node == n :: k.rel
  }

  function InIds(keys: set<IndexKey>, n: NodeId): set<RelId> {
    set k | k in keys && k.KIn? && k.node == n :: k.rel
  }

  lemma InOutIds(keys: set<IndexKey>, n: NodeId, x: RelId)
    ensures x in OutIds(keys, n) <==> KOut(n, x) in keys
    ensures x in InIds(keys, n) <==> KIn(n, x) in keys
  {
    if KOut(n, x) in keys { assert KOut(n, x).rel == x; }
    if KIn(n, x) in keys { assert KIn(n, x).rel == x; }
  }

  // ----- Commands, one write batch each -----

  function PutNode(s: Store, n: Node): Store {
    s.(nodes := s.nodes[n.id := n], keys := s.keys + NodeKeys(n))
  }

  function ReplaceNodeKv(s: Store, old_: Node, n: Node): Store {
    PutNode(s.(keys := s.keys - NodeKeys(old_)), n)
  }

  function PutRel(s: Store, r: Relationship): Store {
    s.(rels := s.rels[r.id := r], keys := s.keys + OutKeys(r.id, r))
  }

  function CreateRelKv(s: Store, r: Relationship, local: bool): Store {
    var s1 := PutRel(s, r);
    if local then s1.(keys := s1.keys + InKeys(r.id, r)) else s1
  }

  function PutBoundary(s: Store, old_: Option<BoundaryNode>, b: BoundaryNode): Store {
    var cleared := if old_.Some? then s.keys - BoundaryKeys(old_.value) else s.keys;
    s.(boundary := s.boundary[b.id := b], keys := cleared + BoundaryKeys(b))
  }

  function DropRelKv(s: Store, id: RelId, r: Relationship): Store {
    s.(rels := s.rels - {id}, keys := s.keys - RelKeys(id, r))
  }

  /** The keys removed for a set of relationships, as recorded in `rels`. */
  function KeysOf(rels: map<RelId, Relationship>, ids: set<RelId>): set<IndexKey> {
    set x, k | x in ids && x in rels && k in RelKeys(x, rels[x]) :: k
  }

  function DropRelsKv(s: Store, rels: map<RelId, Relationship>, ids: set<RelId>): Store {
    s.(rels := s.rels - (ids * rels.Keys), keys := s.keys - KeysOf(rels, ids))
  }

  function DropNodeRecord(s: Store, n: Node, id: NodeId): Store {
    s.(nodes := s.nodes - {id}, keys := s.keys - NodeKeys(n))
  }

  function EditNodeKv(s: Store, id: NodeId, c: Command): Store {
    if id !in s.nodes || EditsNothing(s.nodes[id], c) then s
    else ReplaceNodeKv(s, s.nodes[id], EditNode(s.nodes[id], c))
  }

  function EditRelKv(s: Store, id: RelId, c: Command): Store {
    if id !in s.rels then s else s.(rels := s.rels[id := EditRel(s.rels[id], c)])
  }

  function ApplyKv(s: Store, c: Command): Store {
    match c
    case CreateNode(id, labels, properties) => PutNode(s, Node(id, labels, properties))
    case CreateRelationship(id, from, to, relType, properties) =>
      CreateRelKv(s, Relationship(id, from, to, relType, properties), to in s.nodes)
    case UpsertBoundaryNode(id, ownerShard, labels, properties, version) =>
      PutBoundary(s, if id in s.boundary then Some(s.boundary[id]) else None,
                  BoundaryNode(id, ownerShard, labels, properties, version))
    case SetRelationshipProperty(id, _, _) => EditRelKv(s, id, c)
    case RemoveRelationshipProperty(id, _) => EditRelKv(s, id, c)
    case DeleteRelationship(id) => if id in s.rels then DropRelKv(s, id, s.rels[id]) else s
    case DeleteNode(id) =>
      if id !in s.nodes then s
      else DropNodeRecord(DropRelsKv(s, s.rels, OutIds(s.keys, id) + InIds(s.keys, id)), s.nodes[id], id)
    case ClusterConfigChange(_, _, _, _) => s
    case _ => EditNodeKv(s, c.id, c)
  }

  /** The command edits or deletes a record that is not there. */
  predicate Misses(s: Store, c: Command) {
    match c
    case CreateNode(_, _, _) => false
    case CreateRelationship(_, _, _, _, _) => false
    case UpsertBoundaryNode(_, _, _, _, _) => false
    case ClusterConfigChange(_, _, _, _) => true
    case SetRelationshipProperty(id, _, _) => id !in s.rels
    case RemoveRelationshipProperty(id, _) => id !in s.rels
    case DeleteRelationship(id) => id !in s.rels
    case _ => c.id !in s.nodes
  }

  /** Such a command, which the graph would refuse, leaves the store alone. */
  lemma MissingIsNothing(s: Store, c: Command)
    requires Misses(s, c)
    ensures ApplyKv(s, c) == s
  {
  }

  // ----- Refinement -----

  /** The graph has what index key `k` announces. */
  ghost predicate Shows(g: Graph, k: IndexKey) {
    match k
    case KLabel(l, n) => n in g.nodes && l in g.nodes[n].labels
    case KProp(lp, n) => n in g.nodes && lp in LabelProps(g.nodes[n].labels, g.nodes[n].properties)
    case KBoundaryProp(lp, n) => n in g.boundary && lp in LabelProps(g.boundary[n].labels, g.boundary[n].properties)
    case KOut(n, r) => r in g.rels && g.rels[r].from == n
    case KOutType(n, t, r) => r in g.rels && g.rels[r].from == n && g.rels[r].relType == t
    case KIn(n, r) => r in g.rels && g.rels[r].to == n && r in GetOr(g.lists.incoming, n, [])
    case KInType(n, t, r) =>
      r in g.rels && g.rels[r].to == n && g.rels[r].relType == t && r in GetOr(g.lists.incoming, n, [])
  }

  ghost predicate KeyOk(g: Graph, s: Store, k: IndexKey) {
    k in s.keys <==> Shows(g, k)
  }

  ghost predicate Refines(g: Graph, s: Store) {
    && s.nodes == g.nodes && s.boundary == g.boundary && s.rels == g.rels
    && forall k {:trigger KeyOk(g, s, k)} :: KeyOk(g, s, k)
  }

  lemma CreateNodeRefines(g: Graph, s: Store, n: Node)
    requires Inv(g) && Refines(g, s) && n.id !in g.nodes
    ensures Refines(CreateNodeIn(g, n), PutNode(s, n))
  {
    forall k
      ensures KeyOk(CreateNodeIn(g, n), PutNode(s, n), k)
    {
      assert KeyOk(g, s, k);
    }
  }

  lemma CreateRelRefines(g: Graph, s: Store, r: Relationship)
    requires Inv(g) && Refines(g, s) && r.id !in g.rels
    ensures Refines(CreateRel(g, r), CreateRelKv(s, r, r.to in g.nodes))
  {
    forall k
      ensures KeyOk(CreateRel(g, r), CreateRelKv(s, r, r.to in g.nodes), k)
    {
      assert KeyOk(g, s, k);
      if k.KIn? || k.KInType? {
        assert InOk(g.rels, g.lists, k.node);
        PushKeepsListed(g.rels, g.lists.incoming, r.to, k.node, r);
      }
    }
  }

  lemma UpsertBoundaryRefines(g: Graph, s: Store, b: BoundaryNode)
    requires Inv(g) && Refines(g, s)
    ensures Refines(UpsertBoundary(g, b), PutBoundary(s, if b.id in s.boundary then Some(s.boundary[b.id])
            else None, b))
  {
    var s' := PutBoundary(s, if b.id in s.boundary then Some(s.boundary[b.id]) else None, b);
    forall k
      ensures KeyOk(UpsertBoundary(g, b), s', k)
    {
      assert KeyOk(g, s, k);
    }
  }

  lemma ReplaceNodeRefines(g: Graph, s: Store, id: NodeId, m: Node)
    requires Inv(g) && Refines(g, s) && id in g.nodes && m.id == id
    ensures Refines(ReplaceNode(g, id, m), ReplaceNodeKv(s, g.nodes[id], m))
  {
    assert NodeOk(g, id);
    forall k
      ensures KeyOk(ReplaceNode(g, id, m), ReplaceNodeKv(s, g.nodes[id], m), k)
    {
      assert KeyOk(g, s, k);
    }
  }

  lemma EditRelRefines(g: Graph, s: Store, id: RelId, c: Command)
    requires Inv(g) && Refines(g, s) && id in g.rels
    ensures Refines(g.(rels := g.rels[id := EditRel(g.rels[id], c)]), EditRelKv(s, id, c))
  {
    var g' := g.(rels := g.rels[id := EditRel(g.rels[id], c)]);
    forall k
      ensures KeyOk(g', EditRelKv(s, id, c), k)
    {
      assert KeyOk(g, s, k);
    }
  }

  lemma DropRelRefines(g: Graph, s: Store, id: RelId)
    requires Inv(g) && Refines(g, s) && id in g.rels
    ensures Refines(DropRel(g, id), DropRelKv(s, id, g.rels[id]))
  {
    forall k
      ensures KeyOk(DropRel(g, id), DropRelKv(s, id, g.rels[id]), k)
    {
      assert KeyOk(g, s, k);
      if k.KIn? || k.KInType? {
        assert RelOk(g, id) && InOk(g.rels, g.lists, k.node);
        DropKeepsListed(g.rels, g.lists.incoming, g.rels[id].to, k.node, id);
      }
    }
  }

  /** The two scans of a node find exactly the relationships listed at it. */
  lemma ScansFindTouching(g: Graph, s: Store, id: NodeId)
    requires Inv(g) && Refines(g, s)
    ensures OutIds(s.keys, id) + InIds(s.keys, id) == Touching(g.lists, id)
  {
    assert OutOk(g.rels, g.lists, id) && InOk(g.rels, g.lists, id);
    forall x
      ensures x in OutIds(s.keys, id) + InIds(s.keys, id) <==> x in Touching(g.lists, id)
    {
      InOutIds(s.keys, id, x);
      assert KeyOk(g, s, KOut(id, x)) && KeyOk(g, s, KIn(id, x));
      if x in g.rels { assert RelOk(g, x); }
    }
  }

  lemma InKeysOf(rels: map<RelId, Relationship>, ids: set<RelId>, k: IndexKey)
    ensures k in KeysOf(rels, ids) <==>
            (k.KOut? || k.KOutType? || k.KIn? || k.KInType?) && k.rel in ids && k.rel in rels
                && k in RelKeys(k.rel, rels[k.rel])
  {
  }

  /** A node is gone from the index together with its record and its relationships. */
  lemma DropNodeKey(g: Graph, g': Graph, s: Store, id: NodeId, ids: set<RelId>, k: IndexKey)
    requires Refines(g, s) && id in g.nodes && g.nodes[id].id == id
    requires g'.nodes == g.nodes - {id} && g'.boundary == g.boundary
    requires forall x :: x in g'.rels <==> x in g.rels && x !in ids
    requires forall x :: x in g'.rels ==> g'.rels[x] == g.rels[x]
    requires k.KIn? || k.KInType? ==>
               (k.rel in g'.rels && g'.rels[k.rel].to == k.node ==>
                  (k.rel in GetOr(g'.lists.incoming, k.node, []) <==> k.rel in GetOr(g.lists.incoming, k.node, [])))
    ensures k in s.keys - KeysOf(g.rels, ids) - NodeKeys(g.nodes[id]) <==> Shows(g', k)
  {
    assert KeyOk(g, s, k);
    InKeysOf(g.rels, ids, k);
  }

  lemma DropNodeRefines(g: Graph, s: Store, id: NodeId)
    requires Inv(g) && Refines(g, s) && id in g.nodes
    ensures Refines(DropNode(g, id).0, ApplyKv(s, DeleteNode(id)))
  {
    var g', s', ids := DropNode(g, id).0, ApplyKv(s, DeleteNode(id)), Touching(g.lists, id);
    ScansFindTouching(g, s, id);
    DropNodeSucceeds(g, id);
    assert NodeOk(g, id);
    assert s'.rels == g'.rels && s'.keys == s.keys - KeysOf(g.rels, ids) - NodeKeys(g.nodes[id]);
    forall k
      ensures KeyOk(g', s', k)
    {
      if k.KIn? || k.KInType? { DropNodeKeepsListing(g, id, k.node, k.rel); }
      DropNodeKey(g, g', s, id, ids, k);
    }
  }

  lemma DropNodeKeepsListing(g: Graph, id: NodeId, n: NodeId, x: RelId)
    requires Inv(g) && id in g.nodes
    ensures var g' := DropNode(g, id).0;
            x in g'.rels && g'.rels[x].to == n ==>
              (x in GetOr(g'.lists.incoming, n, []) <==> x in GetOr(g.lists.incoming, n, []))
  {
    var g' := DropNode(g, id).0;
    DropNodeSucceeds(g, id);
    if n != id {
      DropNodeIncoming(g, id, n, x);
    } else {
      assert GetOr(g'.lists.incoming, n, []) == [];
    }
  }

  // ----- Every accepted command sequence -----

  lemma ApplyRefines(g: Graph, s: Store, c: Command)
    requires Inv(g) && Refines(g, s) && Accepts(g, c)
    ensures Refines(Apply(g, c).0, ApplyKv(s, c))
  {
    match c
    case CreateNode(id, labels, properties) => CreateNodeRefines(g, s, Node(id, labels, properties));
    case CreateRelationship(id, from, to, relType, properties) =>
      CreateRelRefines(g, s, Relationship(id, from, to, relType, properties));
    case UpsertBoundaryNode(id, ownerShard, labels, properties, version) =>
      UpsertBoundaryRefines(g, s, BoundaryNode(id, ownerShard, labels, properties, version));
    case SetRelationshipProperty(id, _, _) => EditRelRefines(g, s, id, c);
    case RemoveRelationshipProperty(id, _) => EditRelRefines(g, s, id, c);
    case DeleteRelationship(id) => DropRelRefines(g, s, id);
    case DeleteNode(id) => DropNodeRefines(g, s, id);
    case ClusterConfigChange(_, _, _, _) =>
    case _ =>
      assert NodeOk(g, c.id);
      ReplaceNodeRefines(g, s, c.id, EditNode(g.nodes[c.id], c));
  }

  /** The graph accepts the commands one after the other. */
  ghost predicate AcceptsAll(g: Graph, cs: seq<Command>) {
    cs == [] || (AcceptsAll(g, cs[..|cs| - 1]) && Accepts(Replay(g, cs[..|cs| - 1]), cs[|cs| - 1]))
  }

  ghost function ReplayKv(s: Store, cs: seq<Command>): Store {
    if cs == [] then s else ApplyKv(ReplayKv(s, cs[..|cs| - 1]), cs[|cs| - 1])
  }

  /** Refinement: after every accepted command sequence the store holds exactly the graph. */
  lemma {:induction false} ReplayRefines(g: Graph, s: Store, cs: seq<Command>)
    requires Inv(g) && Refines(g, s) && AcceptsAll(g, cs)
    ensures Inv(Replay(g, cs)) && Refines(Replay(g, cs), ReplayKv(s, cs))
  {
    if cs != [] {
      var front, last := cs[..|cs| - 1], cs[|cs| - 1];
      ReplayRefines(g, s, front);
      ApplyKeepsInv(Replay(g, front), last);
      ApplyRefines(Replay(g, front), ReplayKv(s, front), last);
    }
  }

  lemma EmptyRefines()
    ensures Refines(EMPTY, EMPTY_STORE)
  {
    forall k
      ensures KeyOk(EMPTY, EMPTY_STORE, k)
    {
    }
  }

  // ----- Reads -----

  function LabelIds(keys: set<IndexKey>, l: Text): set<NodeId> {
    set k | k in keys && k.KLabel? && k.tag == l :: k.node
  }

  function PropIds(keys: set<IndexKey>, lp: LabelProp): set<NodeId> {
    set k | k in keys && k.KProp? && k.lp == lp :: k.node
  }

  function BoundaryPropIds(keys: set<IndexKey>, lp: LabelProp): set<NodeId> {
    set k | k in keys && k.KBoundaryProp? && k.lp == lp :: k.node
  }

  function OutTypeIds(keys: set<IndexKey>, n: NodeId, t: Text): set<RelId> {
    set k | k in keys && k.KOutType? && k.node == n && k.relType == t :: k.rel
  }

  function InTypeIds(keys: set<IndexKey>, n: NodeId, t: Text): set<RelId> {
    set k | k in keys && k.KInType? && k.node == n && k.relType == t :: k.rel
  }

  datatype StoreError = MissingRelationship(rel: RelId)

  /** The records behind scanned relationship ids, or the first id without one. */
  function Fetch(rels: map<RelId, Relationship>, ids: seq<RelId>): Result<seq<Relationship>, StoreError> {
    if ids == [] then Ok([])
    else if ids[0] !in rels then Err(MissingRelationship(ids[0]))
    else
      var rest := Fetch(rels, ids[1..]);
      if rest.Ok? then Ok([rels[ids[0]]] + rest.value) else rest
  }

  lemma {:induction false} FetchAll(rels: map<RelId, Relationship>, ids: seq<RelId>)
    requires forall x :: x in ids ==> x in rels
    ensures Fetch(rels, ids).Ok? && |Fetch(rels, ids).value| == |ids|
    ensures forall i :: 0 <= i < |ids| ==> Fetch(rels, ids).value[i] == rels[ids[i]]
  {
    if ids != [] {
      assert forall x :: x in ids[1..] ==> x in ids;
      FetchAll(rels, ids[1..]);
    }
  }

  /** Label, label-property and boundary reads return the same ids as the graph. */
  lemma NodeReadsAgree(g: Graph, s: Store, l: Text, lp: LabelProp)
    requires Inv(g) && Refines(g, s)
    ensures LabelIds(s.keys, l) == GetOr(g.index.labels, l, {})
    ensures PropIds(s.keys, lp) == GetOr(g.index.props, lp, {})
    ensures BoundaryPropIds(s.keys, lp) == GetOr(g.boundaryProps, lp, {})
  {
    forall n
      ensures n in LabelIds(s.keys, l) <==> n in GetOr(g.index.labels, l, {})
    {
      assert KeyOk(g, s, KLabel(l, n)) && LabelOk(g.nodes, g.index, l, n);
      if KLabel(l, n) in s.keys { assert KLabel(l, n).node == n; }
    }
    forall n
      ensures n in PropIds(s.keys, lp) <==> n in GetOr(g.index.props, lp, {})
    {
      assert KeyOk(g, s, KProp(lp, n)) && PropOk(g.nodes, g.index, lp, n);
      if KProp(lp, n) in s.keys { assert KProp(lp, n).node == n; }
    }
    forall n
      ensures n in BoundaryPropIds(s.keys, lp) <==> n in GetOr(g.boundaryProps, lp, {})
    {
      assert KeyOk(g, s, KBoundaryProp(lp, n)) && BoundaryPropOk(g, lp, n);
      if KBoundaryProp(lp, n) in s.keys { assert KBoundaryProp(lp, n).node == n; }
    }
  }

  /** Adjacency reads return the same relationships as the graph, up to order, and never miss a record. */
  lemma AdjacencyReadsAgree(g: Graph, s: Store, n: NodeId, t: Text, x: RelId)
    requires Inv(g) && Refines(g, s)
    ensures x in OutIds(s.keys, n) <==> x in GetOr(g.lists.outgoing, n, [])
    ensures x in InIds(s.keys, n) <==> x in GetOr(g.lists.incoming, n, [])
    ensures x in OutTypeIds(s.keys, n, t) <==> x in GetOr(g.lists.outByType, (n, t), [])
    ensures x in InTypeIds(s.keys, n, t) <==> x in GetOr(g.lists.inByType, (n, t), [])
    ensures x in OutIds(s.keys, n) + InIds(s.keys, n) + OutTypeIds(s.keys, n, t) + InTypeIds(s.keys, n, t) ==>
            x in s.rels
  {
    InOutIds(s.keys, n, x);
    assert KeyOk(g, s, KOut(n, x)) && KeyOk(g, s, KIn(n, x));
    assert KeyOk(g, s, KOutType(n, t, x)) && KeyOk(g, s, KInType(n, t, x));
    assert OutOk(g.rels, g.lists, n) && InOk(g.rels, g.lists, n);
    assert TypedOutOk(g.rels, g.lists, n, t) && TypedInOk(g.rels, g.lists, n, t);
    if x in g.rels { assert RelOk(g, x); }
    OfTypeElements(g.rels, GetOr(g.lists.outgoing, n, []), t, x);
    OfTypeElements(g.rels, GetOr(g.lists.incoming, n, []), t, x);
    if KOutType(n, t, x) in s.keys { assert KOutType(n, t, x).rel == x; }
    if KInType(n, t, x) in s.keys { assert KInType(n, t, x).rel == x; }
  }

  /** `outgoing` and its typed and incoming variants always find every record. */
  lemma FetchNeverMisses(g: Graph, s: Store, n: NodeId, t: Text)
    requires Inv(g) && Refines(g, s)
    ensures Fetch(s.rels, SortedIds(OutIds(s.keys, n))).Ok? && Fetch(s.rels, SortedIds(InIds(s.keys, n))).Ok?
    ensures Fetch(s.rels, SortedIds(OutTypeIds(s.keys, n, t))).Ok?
            && Fetch(s.rels, SortedIds(InTypeIds(s.keys, n, t))).Ok?
  {
    forall ids | ids in {OutIds(s.keys, n), InIds(s.keys, n), OutTypeIds(s.keys, n, t), InTypeIds(s.keys, n, t)}
      ensures Fetch(s.rels, SortedIds(ids)).Ok?
    {
      SortedIdsElements(ids);
      forall x | x in ids
        ensures x in s.rels
      {
        AdjacencyReadsAgree(g, s, n, t, x);
      }
      FetchAll(s.rels, SortedIds(ids));
    }
  }
}
