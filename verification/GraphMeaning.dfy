/**
 * What a log of commands says about single facts (is this node there, what is this property),
 * read off the commands alone. Replaying the log gives a graph in which every fact is that one.
 */
module GraphMeaning {
  import opened Basics
  import opened Model
  import opened Graph
  import opened GraphInvariant
  import opened GraphStore

  /** Source, target and type, and whether the target's adjacency list has the relationship. */
  type Ends = Option<(NodeId, NodeId, Text, bool)>

  function Get<K, V>(m: map<K, V>, k: K): Option<V> {
    if k in m then Some(m[k]) else None
  }

  // ----- What one accepted command says about one fact -----

  predicate LiveStep(c: Command, n: NodeId, was: bool) {
    match c
    case CreateNode(id, _, _) => was || id == n
    case DeleteNode(id) => was && id != n
    case _ => was
  }

  predicate LabelStep(c: Command, n: NodeId, l: Text, was: bool) {
    match c
    case CreateNode(id, labels, _) => if id == n then l in labels else was
    case AddNodeLabel(id, tag) => was || (id == n && tag == l)
    case RemoveNodeLabel(id, tag) => was && !(id == n && tag == l)
    case DeleteNode(id) => was && id != n
    case _ => was
  }

  function PropStep(c: Command, n: NodeId, k: Text, was: Option<Value>): Option<Value> {
    match c
    case CreateNode(id, _, properties) => if id == n then Get(properties, k) else was
    case SetNodeProperty(id, key, value) => if id == n && key == k then Some(value) else was
    case RemoveNodeProperty(id, key) => if id == n && key == k then None else was
    case DeleteNode(id) => if id == n then None else was
    case _ => was
  }

  function BoundaryStep(c: Command, n: NodeId, was: Option<BoundaryNode>): Option<BoundaryNode> {
    match c
    case UpsertBoundaryNode(id, ownerShard, labels, properties, version) =>
      if id == n then Some(BoundaryNode(id, ownerShard, labels, properties, version)) else was
    case _ => was
  }

  predicate Meets(ends: Ends, id: NodeId) {
    ends.Some? && (ends.value.0 == id || (ends.value.1 == id && ends.value.3))
  }

  /**
   * Deleting either end of a relationship deletes it, but a target that was not local when the
   * relationship was created does not list it.
   */
  function EndsStep(c: Command, r: RelId, was: Ends, local: bool): Ends {
    match c
    case CreateRelationship(id, from, to, relType, _) => if id == r then Some((from, to, relType, local)) else was
    case DeleteRelationship(id) => if id == r then None else was
    case DeleteNode(id) => if Meets(was, id) then None else was
    case _ => was
  }

  function RelPropStep(c: Command, r: RelId, k: Text, ends: Ends, was: Option<Value>): Option<Value> {
    match c
    case CreateRelationship(id, _, _, _, properties) => if id == r then Get(properties, k) else was
    case SetRelationshipProperty(id, key, value) => if id == r && key == k then Some(value) else was
    case RemoveRelationshipProperty(id, key) => if id == r && key == k then None else was
    case DeleteRelationship(id) => if id == r then None else was
    case DeleteNode(id) => if Meets(ends, id) then None else was
    case _ => was
  }

  // ----- What a log says -----

  predicate LiveNow(cs: seq<Command>, n: NodeId) {
    cs != [] && LiveStep(cs[|cs| - 1], n, LiveNow(cs[..|cs| - 1], n))
  }

  predicate LabelNow(cs: seq<Command>, n: NodeId, l: Text) {
    cs != [] && LabelStep(cs[|cs| - 1], n, l, LabelNow(cs[..|cs| - 1], n, l))
  }

  function PropNow(cs: seq<Command>, n: NodeId, k: Text): Option<Value> {
    if cs == [] then None else PropStep(cs[|cs| - 1], n, k, PropNow(cs[..|cs| - 1], n, k))
  }

  function BoundaryNow(cs: seq<Command>, n: NodeId): Option<BoundaryNode> {
    if cs == [] then None else BoundaryStep(cs[|cs| - 1], n, BoundaryNow(cs[..|cs| - 1], n))
  }

  function EndsNow(cs: seq<Command>, r: RelId): Ends {
    if cs == [] then None
    else
      var front, last := cs[..|cs| - 1], cs[|cs| - 1];
      EndsStep(last, r, EndsNow(front, r), last.CreateRelationship? && LiveNow(front, last.to))
  }

  function RelPropNow(cs: seq<Command>, r: RelId, k: Text): Option<Value> {
    if cs == [] then None
    else RelPropStep(cs[|cs| - 1], r, k, EndsNow(cs[..|cs| - 1], r), RelPropNow(cs[..|cs| - 1], r, k))
  }

  /** A node that must be there, a relationship that must be there. */
  function NeedsNode(cs: seq<Command>, n: NodeId): Option<GraphError> {
    if LiveNow(cs, n) then None else Some(NodeNotFound(n))
  }

  function NeedsRel(cs: seq<Command>, r: RelId): Option<GraphError> {
    if EndsNow(cs, r).Some? then None else Some(RelationshipNotFound(r))
  }

  /** Why the log does not allow the next command, if it does not. */
  function ErrorNow(cs: seq<Command>, c: Command): Option<GraphError> {
    match c
    case CreateNode(id, _, _) => if LiveNow(cs, id) then Some(NodeAlreadyExists(id)) else None
    case CreateRelationship(id, from, to, _, _) =>
      if EndsNow(cs, id).Some? then Some(RelationshipAlreadyExists(id))
      else if !LiveNow(cs, from) then Some(EndpointNotFound(id, from))
      else if !LiveNow(cs, to) && BoundaryNow(cs, to).None? then Some(EndpointNotFound(id, to))
      else None
    case UpsertBoundaryNode(_, _, _, _, _) => None
    case SetRelationshipProperty(id, _, _) => NeedsRel(cs, id)
    case RemoveRelationshipProperty(id, _) => NeedsRel(cs, id)
    case DeleteRelationship(id) => NeedsRel(cs, id)
    case ClusterConfigChange(_, _, _, _) => None
    case _ => NeedsNode(cs, c.id)
  }

  /** The labels without one of them, read from the back. */
  function Dropped(labels: seq<Text>, l: Text): seq<Text> {
    if labels == [] then []
    else
      var front, last := labels[..|labels| - 1], labels[|labels| - 1];
      if last == l then Dropped(front, l) else Dropped(front, l) + [last]
  }

  /** The label list as the log built it: created, then added at the end, or removed in place. */
  function LabelListNow(cs: seq<Command>, n: NodeId): seq<Text> {
    if cs == [] then []
    else
      var was := LabelListNow(cs[..|cs| - 1], n);
      match cs[|cs| - 1]
      case CreateNode(id, labels, _) => if id == n then labels else was
      case AddNodeLabel(id, tag) => if id == n && tag !in was then was + [tag] else was
      case RemoveNodeLabel(id, tag) => if id == n then Dropped(was, tag) else was
      case DeleteNode(id) => if id == n then [] else was
      case _ => was
  }

  // ----- The same facts in a graph -----

  predicate HasLabel(g: Graph, n: NodeId, l: Text) {
    n in g.nodes && l in g.nodes[n].labels
  }

  function PropOf(g: Graph, n: NodeId, k: Text): Option<Value> {
    if n in g.nodes then Get(g.nodes[n].properties, k) else None
  }

  predicate ListedAtTarget(g: Graph, r: RelId)
    requires r in g.rels
  {
    r in GetOr(g.lists.incoming, g.rels[r].to, [])
  }

  function EndsOf(g: Graph, r: RelId): Ends {
    if r in g.rels then Some((g.rels[r].from, g.rels[r].to, g.rels[r].relType, ListedAtTarget(g, r))) else None
  }

  function RelPropOf(g: Graph, r: RelId, k: Text): Option<Value> {
    if r in g.rels then Get(g.rels[r].properties, k) else None
  }

  // ----- One command -----

  lemma {:induction false} RemovedLabel(labels: seq<Text>, l: Text, x: Text)
    ensures x in RemoveLabel(labels, l) <==> x in labels && x != l
  {
    if labels != [] { RemovedLabel(labels[1..], l, x); }
  }

  predicate EditsNode(c: Command) {
    c.SetNodeProperty? || c.RemoveNodeProperty? || c.AddNodeLabel? || c.RemoveNodeLabel?
  }

  lemma EditStep(g: Graph, c: Command, n: NodeId, l: Text, k: Text)
    requires EditsNode(c) && Accepts(g, c)
    ensures var g' := Apply(g, c).0;
            && g'.nodes.Keys == g.nodes.Keys && g'.boundary == g.boundary
            && (HasLabel(g', n, l) <==> LabelStep(c, n, l, HasLabel(g, n, l)))
            && PropOf(g', n, k) == PropStep(c, n, k, PropOf(g, n, k))
  {
    hide Enter, TakeOut, EditNode;
    EditedNode(g.nodes[c.id], c, l, k);
  }

  /** The edited node itself; a label command with nothing to do leaves the node as it is. */
  lemma EditedNode(n: Node, c: Command, l: Text, k: Text)
    requires EditsNode(c)
    ensures var n' := if EditsNothing(n, c) then n else EditNode(n, c);
            && (l in n'.labels <==> LabelStep(c, c.id, l, l in n.labels))
            && Get(n'.properties, k) == PropStep(c, c.id, k, Get(n.properties, k))
  {
    if c.RemoveNodeLabel? { RemovedLabel(n.labels, c.tag, l); }
  }

  /** Every node fact after an accepted command is what the command says. */
  lemma NodeStep(g: Graph, c: Command, n: NodeId, l: Text, k: Text)
    requires Inv(g) && Accepts(g, c)
    ensures var g' := Apply(g, c).0;
            && (n in g'.nodes <==> LiveStep(c, n, n in g.nodes))
            && (HasLabel(g', n, l) <==> LabelStep(c, n, l, HasLabel(g, n, l)))
            && PropOf(g', n, k) == PropStep(c, n, k, PropOf(g, n, k))
            && Get(g'.boundary, n) == BoundaryStep(c, n, Get(g.boundary, n))
  {
    hide Inv, Enter, TakeOut, Link, Unlink, DropNode, EditNodeIn;
    if EditsNode(c) {
      EditStep(g, c, n, l, k);
    } else if c.DeleteNode? {
      DropNodeSucceeds(g, c.id);
    }
  }

  /** A node touches the relationships that start at it and those it lists. */
  lemma TouchingExact(g: Graph, id: NodeId, x: RelId)
    requires Inv(g)
    ensures x in Touching(g.lists, id) <==> Meets(EndsOf(g, x), id)
  {
    assert OutOk(g.rels, g.lists, id) && InOk(g.rels, g.lists, id);
    if x in g.rels { assert RelOk(g, x); }
  }

  /** Linking another relationship, or unlinking one, leaves the others listed as they were. */
  lemma LinkKeepsOthers(g: Graph, e: Relationship, r: RelId)
    requires Inv(g) && e.id !in g.rels
    ensures var g' := CreateRel(g, e);
            && (r in g.rels ==> (ListedAtTarget(g', r) <==> ListedAtTarget(g, r)))
            && (ListedAtTarget(g', e.id) <==> e.to in g.nodes)
  {
    assert InOk(g.rels, g.lists, e.to);
  }

  lemma UnlinkKeepsOthers(g: Graph, id: RelId, r: RelId)
    requires Inv(g) && id in g.rels && r in g.rels && r != id
    ensures ListedAtTarget(DropRel(g, id), r) <==> ListedAtTarget(g, r)
  {
    WithoutElements(GetOr(g.lists.incoming, g.rels[id].to, []), id, r);
  }

  lemma RelCreated(g: Graph, c: Command, r: RelId, k: Text)
    requires Inv(g) && Accepts(g, c) && c.CreateRelationship?
    ensures var g' := Apply(g, c).0;
            && EndsOf(g', r) == EndsStep(c, r, EndsOf(g, r), c.to in g.nodes)
            && RelPropOf(g', r, k) == RelPropStep(c, r, k, EndsOf(g, r), RelPropOf(g, r, k))
  {
    hide Inv, Link, ListedAtTarget;
    LinkKeepsOthers(g, Relationship(c.relId, c.from, c.to, c.relType, c.properties), r);
  }

  lemma RelDeleted(g: Graph, id: RelId, r: RelId, k: Text)
    requires Inv(g) && id in g.rels
    ensures var c, g' := DeleteRelationship(id), DropRel(g, id);
            && EndsOf(g', r) == EndsStep(c, r, EndsOf(g, r), false)
            && RelPropOf(g', r, k) == RelPropStep(c, r, k, EndsOf(g, r), RelPropOf(g, r, k))
  {
    hide Inv, Unlink, ListedAtTarget;
    if r in g.rels && r != id { UnlinkKeepsOthers(g, id, r); }
  }

  lemma RelsWithNode(g: Graph, id: NodeId, r: RelId, k: Text)
    requires Inv(g) && id in g.nodes
    ensures var c, g' := DeleteNode(id), DropNode(g, id).0;
            && EndsOf(g', r) == EndsStep(c, r, EndsOf(g, r), false)
            && RelPropOf(g', r, k) == RelPropStep(c, r, k, EndsOf(g, r), RelPropOf(g, r, k))
  {
    hide Inv, DropNode, Touching;
    DropNodeSucceeds(g, id);
    TouchingExact(g, id, r);
    if r in g.rels { DropNodeKeepsListing(g, id, g.rels[r].to, r); }
  }

  /** Every relationship fact after an accepted command is what the command says. */
  lemma RelStep(g: Graph, c: Command, r: RelId, k: Text)
    requires Inv(g) && Accepts(g, c)
    ensures var g' := Apply(g, c).0;
            && EndsOf(g', r) == EndsStep(c, r, EndsOf(g, r), c.CreateRelationship? && c.to in g.nodes)
            && RelPropOf(g', r, k) == RelPropStep(c, r, k, EndsOf(g, r), RelPropOf(g, r, k))
  {
    hide Inv, Enter, TakeOut, Link, Unlink, DropNode, CreateRel, DropRel;
    match c
    case DeleteNode(id) => RelsWithNode(g, id, r, k);
    case DeleteRelationship(id) => RelDeleted(g, id, r, k);
    case CreateRelationship(_, _, _, _, _) => RelCreated(g, c, r, k);
    case _ =>
  }

  // ----- Whole logs -----

  /** For every accepted log, each node has exactly the labels and properties the log gives it. */
  lemma {:induction false} NodesMean(cs: seq<Command>, n: NodeId, l: Text, k: Text)
    requires AcceptsAll(EMPTY, cs)
    ensures var g := Replay(EMPTY, cs);
            && (n in g.nodes <==> LiveNow(cs, n)) && (HasLabel(g, n, l) <==> LabelNow(cs, n, l))
            && PropOf(g, n, k) == PropNow(cs, n, k) && Get(g.boundary, n) == BoundaryNow(cs, n)
  {
    hide Inv, Apply, LiveStep, LabelStep, PropStep, BoundaryStep;
    if cs != [] {
      var front, last := cs[..|cs| - 1], cs[|cs| - 1];
      NodesMean(front, n, l, k);
      ReachableInv(front);
      NodeStep(Replay(EMPTY, front), last, n, l, k);
    }
  }

  function LabelsOf(g: Graph, n: NodeId): seq<Text> {
    if n in g.nodes then g.nodes[n].labels else []
  }

  lemma {:induction false} RemovedFromFront(labels: seq<Text>, l: Text)
    ensures RemoveLabel(labels, l) == Dropped(labels, l)
    decreases |labels|
  {
    if |labels| > 1 {
      var front, last := labels[..|labels| - 1], labels[|labels| - 1];
      RemovedFromFront(front, l);
      RemovedFromFront(labels[1..], l);
      RemovedFromFront(labels[1..|labels| - 1], l);
      assert labels[1..][..|labels| - 2] == labels[1..|labels| - 1] == front[1..];
    } else if labels != [] {
      assert labels[1..] == [] && labels[..0] == [];
    }
  }

  lemma {:induction false} NothingDropped(labels: seq<Text>, l: Text)
    requires l !in labels
    ensures Dropped(labels, l) == labels
  {
    if labels != [] {
      NothingDropped(labels[..|labels| - 1], l);
      assert labels == labels[..|labels| - 1] + [labels[|labels| - 1]];
    }
  }

  lemma LabelListStep(g: Graph, c: Command, n: NodeId)
    requires Inv(g) && Accepts(g, c)
    ensures var was, now := LabelsOf(g, n), LabelsOf(Apply(g, c).0, n);
            match c
            case CreateNode(id, labels, _) => now == if id == n then labels else was
            case AddNodeLabel(id, tag) => now == if id == n && tag !in was then was + [tag] else was
            case RemoveNodeLabel(id, tag) => now == if id == n then Dropped(was, tag) else was
            case DeleteNode(id) => now == if id == n then [] else was
            case _ => now == was
  {
    hide Inv, Enter, TakeOut, Link, Unlink, DropNode, RemoveLabel, Dropped;
    match c
    case RemoveNodeLabel(id, tag) =>
      RemovedFromFront(g.nodes[id].labels, tag);
      if tag !in g.nodes[id].labels { NothingDropped(g.nodes[id].labels, tag); }
    case DeleteNode(id) => DropNodeSucceeds(g, id);
    case _ =>
  }

  /** Label lists come out in the order the log built them. */
  lemma {:induction false} LabelListsMean(cs: seq<Command>, n: NodeId)
    requires AcceptsAll(EMPTY, cs)
    ensures LabelsOf(Replay(EMPTY, cs), n) == LabelListNow(cs, n)
  {
    hide Inv, Apply, Dropped, LabelsOf;
    if cs == [] {
      NoLabels(n);
    } else {
      var front, last := cs[..|cs| - 1], cs[|cs| - 1];
      LabelListsMean(front, n);
      ReachableInv(front);
      LabelListStep(Replay(EMPTY, front), last, n);
    }
  }

  lemma NoLabels(n: NodeId)
    ensures LabelsOf(EMPTY, n) == []
  {
  }

  /** The same for relationships, and for whether their targets list them. */
  lemma {:induction false} RelationshipsMean(cs: seq<Command>, r: RelId, k: Text)
    requires AcceptsAll(EMPTY, cs)
    ensures var g := Replay(EMPTY, cs);
            EndsOf(g, r) == EndsNow(cs, r) && RelPropOf(g, r, k) == RelPropNow(cs, r, k)
  {
    hide Inv, Apply, EndsStep, RelPropStep, LiveNow, ListedAtTarget;
    if cs != [] {
      var front, last := cs[..|cs| - 1], cs[|cs| - 1];
      RelationshipsMean(front, r, k);
      ReachableInv(front);
      if last.CreateRelationship? { NodesMean(front, last.to, [], []); }
      RelStep(Replay(EMPTY, front), last, r, k);
    }
  }

  /** A command is accepted exactly when the log so far allows it, and refused with the reason it gives. */
  lemma AcceptedExactly(cs: seq<Command>, c: Command)
    requires AcceptsAll(EMPTY, cs)
    ensures Apply(Replay(EMPTY, cs), c).1 == ErrorNow(cs, c)
  {
    hide Inv, LiveNow, EndsNow, BoundaryNow, LabelNow, PropNow, RelPropNow, DropNode, AcceptsAll;
    var g := Replay(EMPTY, cs);
    ReachableInv(cs);
    match c
    case CreateNode(id, _, _) => NodesMean(cs, id, [], []);
    case CreateRelationship(id, from, to, _, _) =>
      RelationshipsMean(cs, id, []);
      NodesMean(cs, from, [], []);
      NodesMean(cs, to, [], []);
    case SetRelationshipProperty(id, _, _) => RelationshipsMean(cs, id, []);
    case RemoveRelationshipProperty(id, _) => RelationshipsMean(cs, id, []);
    case DeleteRelationship(id) => RelationshipsMean(cs, id, []);
    case DeleteNode(id) =>
      NodesMean(cs, id, [], []);
      if id in g.nodes { DropNodeSucceeds(g, id); }
    case UpsertBoundaryNode(_, _, _, _, _) =>
    case ClusterConfigChange(_, _, _, _) =>
    case _ => NodesMean(cs, c.id, [], []);
  }
}
