/** When the index keys of a store are exactly those its records call for. */
module GraphClean {
  import opened Basics
  import opened Model
  import opened Graph
  import opened GraphInvariant
  import opened GraphStore

  /** `verify_invariants` expects index key `k`. */
  ghost predicate Expected(s: Store, k: IndexKey) {
    match k
    case KLabel(l, n) => n in s.nodes && l in s.nodes[n].labels
    case KProp(lp, n) => n in s.nodes && lp in LabelProps(s.nodes[n].labels, s.nodes[n].properties)
    case KBoundaryProp(lp, n) => n in s.boundary && lp in LabelProps(s.boundary[n].labels, s.boundary[n].properties)
    case KOut(n, r) => r in s.rels && s.rels[r].from == n
    case KOutType(n, t, r) => r in s.rels && s.rels[r].from == n && s.rels[r].relType == t
    case KIn(n, r) => r in s.rels && s.rels[r].to == n && n in s.nodes
    case KInType(n, t, r) => r in s.rels && s.rels[r].to == n && s.rels[r].relType == t && n in s.nodes
  }

  ghost predicate CleanKey(s: Store, k: IndexKey) {
    k in s.keys <==> Expected(s, k)
  }

  /** The report of `verify_invariants` is clean: nothing missing, nothing unexpected. */
  ghost predicate Clean(s: Store) {
    forall k {:trigger CleanKey(s, k)} :: CleanKey(s, k)
  }

  /** Every record is filed under its own id. */
  ghost predicate Filed(s: Store) {
    && (forall n :: n in s.nodes ==> s.nodes[n].id == n)
    && (forall b :: b in s.boundary ==> s.boundary[b].id == b)
    && (forall r :: r in s.rels ==> s.rels[r].id == r)
  }

  ghost predicate Targeted(s: Store, n: NodeId) {
    exists r :: r in s.rels && s.rels[r].to == n
  }

  /** The commands a graph with these records accepts. */
  ghost predicate AcceptsKv(s: Store, c: Command) {
    match c
    case CreateNode(id, _, _) => id !in s.nodes
    case CreateRelationship(id, from, to, _, _) =>
        id !in s.rels && from in s.nodes && (to in s.nodes || to in s.boundary)
    case UpsertBoundaryNode(_, _, _, _, _) => true
    case SetRelationshipProperty(id, _, _) => id in s.rels
    case RemoveRelationshipProperty(id, _) => id in s.rels
    case DeleteRelationship(id) => id in s.rels
    case ClusterConfigChange(_, _, _, _) => true
    case _ => c.id in s.nodes
  }

  /** A node is created under an id that relationships already point at. */
  ghost predicate Adopts(s: Store, c: Command) {
    c.CreateNode? && Targeted(s, c.id)
  }

  lemma AcceptsAgree(g: Graph, s: Store, c: Command)
    requires Inv(g) && Refines(g, s)
    ensures Accepts(g, c) <==> AcceptsKv(s, c)
  {
    if c.DeleteNode? && c.id in g.nodes { DropNodeSucceeds(g, c.id); }
  }

  lemma CreateNodeClean(s: Store, n: Node)
    requires Clean(s) && Filed(s) && n.id !in s.nodes
    ensures Clean(PutNode(s, n)) <==> !Targeted(s, n.id)
  {
    var s' := PutNode(s, n);
    if Targeted(s, n.id) {
      var r :| r in s.rels && s.rels[r].to == n.id;
      assert CleanKey(s, KIn(n.id, r)) && !CleanKey(s', KIn(n.id, r));
    } else {
      forall k
        ensures CleanKey(s', k)
      {
        assert CleanKey(s, k);
      }
    }
  }

  lemma CreateRelClean(s: Store, r: Relationship)
    requires Clean(s) && Filed(s) && r.id !in s.rels
    ensures Clean(CreateRelKv(s, r, r.to in s.nodes))
  {
    forall k
      ensures CleanKey(CreateRelKv(s, r, r.to in s.nodes), k)
    {
      assert CleanKey(s, k);
    }
  }

  lemma PutBoundaryClean(s: Store, b: BoundaryNode)
    requires Clean(s) && Filed(s)
    ensures Clean(PutBoundary(s, if b.id in s.boundary then Some(s.boundary[b.id]) else None, b))
  {
    var s' := PutBoundary(s, if b.id in s.boundary then Some(s.boundary[b.id]) else None, b);
    forall k
      ensures CleanKey(s', k)
    {
      assert CleanKey(s, k);
    }
  }

  lemma ReplaceNodeClean(s: Store, m: Node)
    requires Clean(s) && Filed(s) && m.id in s.nodes
    ensures Clean(ReplaceNodeKv(s, s.nodes[m.id], m))
  {
    forall k
      ensures CleanKey(ReplaceNodeKv(s, s.nodes[m.id], m), k)
    {
      assert CleanKey(s, k);
    }
  }

  lemma EditRelClean(s: Store, id: RelId, c: Command)
    requires Clean(s) && id in s.rels
    ensures Clean(EditRelKv(s, id, c))
  {
    forall k
      ensures CleanKey(EditRelKv(s, id, c), k)
    {
      assert CleanKey(s, k);
    }
  }

  lemma DropRelClean(s: Store, id: RelId)
    requires Clean(s) && Filed(s) && id in s.rels
    ensures Clean(DropRelKv(s, id, s.rels[id]))
  {
    forall k
      ensures CleanKey(DropRelKv(s, id, s.rels[id]), k)
    {
      assert CleanKey(s, k);
    }
  }

  /** In a clean store the two scans of a local node find exactly the relationships at it. */
  lemma ScansAreExact(s: Store, id: NodeId, x: RelId)
    requires Clean(s) && id in s.nodes
    ensures x in OutIds(s.keys, id) + InIds(s.keys, id) <==> x in s.rels && (s.rels[x].from == id || s.rels[x].to == id)
  {
    InOutIds(s.keys, id, x);
    assert CleanKey(s, KOut(id, x)) && CleanKey(s, KIn(id, x));
  }

  /** Dropping a node with any relationships that include all at it leaves a clean store clean. */
  lemma DropNodeWithClean(s: Store, id: NodeId, ids: set<RelId>)
    requires Clean(s) && Filed(s) && id in s.nodes
    requires forall x :: x in s.rels && (s.rels[x].from == id || s.rels[x].to == id) ==> x in ids
    ensures Clean(DropNodeRecord(DropRelsKv(s, s.rels, ids), s.nodes[id], id))
  {
    var s' := DropNodeRecord(DropRelsKv(s, s.rels, ids), s.nodes[id], id);
    forall k
      ensures CleanKey(s', k)
    {
      assert CleanKey(s, k);
      InKeysOf(s.rels, ids, k);
    }
  }

  lemma DropNodeClean(s: Store, id: NodeId)
    requires Clean(s) && Filed(s) && id in s.nodes
    ensures Clean(ApplyKv(s, DeleteNode(id)))
  {
    hide Clean, Filed;
    var ids := OutIds(s.keys, id) + InIds(s.keys, id);
    forall x | x in s.rels && (s.rels[x].from == id || s.rels[x].to == id)
      ensures x in ids
    {
      ScansAreExact(s, id, x);
    }
    DropNodeWithClean(s, id, ids);
  }

  /** Two clean stores with the same records are the same store. */
  lemma CleanDetermined(a: Store, b: Store)
    requires Clean(a) && Clean(b) && a.nodes == b.nodes && a.boundary == b.boundary && a.rels == b.rels
    ensures a == b
  {
    forall k
      ensures k in a.keys <==> k in b.keys
    {
      assert CleanKey(a, k) && CleanKey(b, k);
    }
  }

  lemma ApplyFiled(s: Store, c: Command)
    requires Filed(s)
    ensures Filed(ApplyKv(s, c))
  {
  }

  /**
   * Index invariant: an accepted command leaves a clean store clean exactly when it does not
   * create a node under an id that relationships already point at.
   */
  lemma ApplyCleanExactly(s: Store, c: Command)
    requires Clean(s) && Filed(s) && AcceptsKv(s, c)
    ensures Clean(ApplyKv(s, c)) <==> !Adopts(s, c)
  {
    match c
    case CreateNode(id, labels, properties) => CreateNodeClean(s, Node(id, labels, properties));
    case CreateRelationship(id, from, to, relType, properties) =>
      CreateRelClean(s, Relationship(id, from, to, relType, properties));
    case UpsertBoundaryNode(id, ownerShard, labels, properties, version) =>
      PutBoundaryClean(s, BoundaryNode(id, ownerShard, labels, properties, version));
    case SetRelationshipProperty(id, _, _) => EditRelClean(s, id, c);
    case RemoveRelationshipProperty(id, _) => EditRelClean(s, id, c);
    case DeleteRelationship(id) => DropRelClean(s, id);
    case DeleteNode(id) => DropNodeClean(s, id);
    case ClusterConfigChange(_, _, _, _) =>
    case _ => ReplaceNodeClean(s, EditNode(s.nodes[c.id], c));
  }

  /** The commands are accepted in turn. */
  ghost predicate TakenKv(s: Store, cs: seq<Command>) {
    cs == [] || (TakenKv(s, cs[..|cs| - 1]) && AcceptsKv(ReplayKv(s, cs[..|cs| - 1]), cs[|cs| - 1]))
  }

  /** The commands are accepted in turn, and none adopts dangling relationships. */
  ghost predicate Orderly(s: Store, cs: seq<Command>) {
    cs == [] ||
    (Orderly(s, cs[..|cs| - 1])
     && AcceptsKv(ReplayKv(s, cs[..|cs| - 1]), cs[|cs| - 1])
     && !Adopts(ReplayKv(s, cs[..|cs| - 1]), cs[|cs| - 1]))
  }

  lemma {:induction false} ReplayClean(s: Store, cs: seq<Command>)
    requires Clean(s) && Filed(s) && Orderly(s, cs)
    ensures Clean(ReplayKv(s, cs)) && Filed(ReplayKv(s, cs))
  {
    if cs != [] {
      var front, last := cs[..|cs| - 1], cs[|cs| - 1];
      ReplayClean(s, front);
      ApplyFiled(ReplayKv(s, front), last);
      ApplyCleanExactly(ReplayKv(s, front), last);
    }
  }

  lemma EmptyClean()
    ensures Clean(EMPTY_STORE) && Filed(EMPTY_STORE)
  {
    forall k
      ensures CleanKey(EMPTY_STORE, k)
    {
    }
  }
}
