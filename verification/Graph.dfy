/**
 * The graph state machine of one shard as a function on values: records, adjacency lists
 * and secondary indexes, and what every command does to them.
 */
module Graph {
  import opened Basics
  import opened Model

  datatype GraphError =
    | NodeAlreadyExists(node: NodeId)
    | NodeNotFound(node: NodeId)
    | RelationshipAlreadyExists(rel: RelId)
    | RelationshipNotFound(rel: RelId)
    | EndpointNotFound(rel: RelId, node: NodeId)

  /** A label with one property value; floats are bit patterns, so values compare as value keys do. */
  datatype LabelProp = LabelProp(tag: Text, key: Text, value: Value)

  /** Relationship ids per node, and per node and type, in the order they were filed. */
  datatype Lists = Lists(
    outgoing: map<NodeId, seq<RelId>>,
    incoming: map<NodeId, seq<RelId>>,
    outByType: map<(NodeId, Text), seq<RelId>>,
    inByType: map<(NodeId, Text), seq<RelId>>)

  datatype NodeIndex = NodeIndex(labels: map<Text, set<NodeId>>, props: map<LabelProp, set<NodeId>>)

  datatype Graph = Graph(
    nodes: map<NodeId, Node>,
    boundary: map<NodeId, BoundaryNode>,
    rels: map<RelId, Relationship>,
    lists: Lists,
    index: NodeIndex,
    boundaryProps: map<LabelProp, set<NodeId>>,
    nextNode: u64,
    nextRel: u64)

  const EMPTY := Graph(map[], map[], map[], Lists(map[], map[], map[], map[]), NodeIndex(map[], map[]), map[], 0, 0)

  // ----- Collections -----

  /** Drop every occurrence of `x`, as `retain`. */
  function Without(ids: seq<RelId>, x: RelId): seq<RelId> {
    if ids == [] then []
    else Without(ids[..|ids| - 1], x) + (if ids[|ids| - 1] == x then [] else [ids[|ids| - 1]])
  }

  function Push<K>(m: map<K, seq<RelId>>, k: K, x: RelId): map<K, seq<RelId>> {
    m[k := GetOr(m, k, []) + [x]]
  }

  function Drop<K>(m: map<K, seq<RelId>>, k: K, x: RelId): map<K, seq<RelId>> {
    if k in m then m[k := Without(m[k], x)] else m
  }

  function OrDefault(m: map<NodeId, seq<RelId>>, k: NodeId): map<NodeId, seq<RelId>> {
    if k in m then m else m[k := []]
  }

  /** Enter `id` under every key of `keys`. */
  function AddTo<K>(ix: map<K, set<NodeId>>, keys: set<K>, id: NodeId): map<K, set<NodeId>> {
    map k | k in ix.Keys + keys :: if k in keys then GetOr(ix, k, {}) + {id} else ix[k]
  }

  /** Take `id` out of every key of `keys`. */
  function RemoveFrom<K>(ix: map<K, set<NodeId>>, keys: set<K>, id: NodeId): map<K, set<NodeId>> {
    map k | k in ix :: if k in keys then ix[k] - {id} else ix[k]
  }

  function Labels(labels: seq<Text>): set<Text> {
    set l | l in labels
  }

  function LabelProps(labels: seq<Text>, properties: Properties): set<LabelProp> {
    set l, k | l in labels && k in properties :: LabelProp(l, k, properties[k])
  }

  lemma InLabelProps(labels: seq<Text>, properties: Properties, lp: LabelProp)
    ensures lp in LabelProps(labels, properties) <==>
            lp.tag in labels && lp.key in properties && properties[lp.key] == lp.value
  {
  }

  /** The distinct ids of a set in ascending order. */
  function SortedIds(s: set<u64>): seq<u64> {
    if s == {} then [] else [Least(s)] + SortedIds(s - {Least(s)})
  }

  function Least(s: set<u64>): (m: u64)
    requires s != {}
    ensures m in s && forall x :: x in s ==> m <= x
  {
    LeastExists(s);
    var m: u64 :| m in s && forall x :: x in s ==> m <= x;
    m
  }

  lemma {:induction false} LeastExists(s: set<u64>)
    requires s != {}
    ensures exists m: u64 :: m in s && forall x :: x in s ==> m <= x
  {
    var y :| y in s;
    if s != {y} {
      LeastExists(s - {y});
      var m: u64 :| m in s - {y} && forall x :: x in s - {y} ==> m <= x;
      assert forall x :: x in s ==> x == y || x in s - {y};
      var least := if y < m then y else m;
      assert least in s && forall x :: x in s ==> least <= x;
    }
  }

  lemma {:induction false} SortedIdsElements(s: set<u64>)
    ensures forall x :: x in SortedIds(s) <==> x in s
  {
    if s != {} {
      SortedIdsElements(s - {Least(s)});
    }
  }

  lemma {:induction false} SortedIdsAscend(s: set<u64>)
    ensures forall i, j :: 0 <= i < j < |SortedIds(s)| ==> SortedIds(s)[i] < SortedIds(s)[j]
  {
    if s != {} {
      var m, rest := Least(s), s - {Least(s)};
      SortedIdsAscend(rest);
      SortedIdsElements(rest);
      assert SortedIds(s) == [m] + SortedIds(rest);
      assert forall j :: 0 <= j < |SortedIds(rest)| ==> SortedIds(rest)[j] in rest;
    }
  }

  // ----- Commands -----

  /** Enter, or take out, one node in both node indexes. */
  function Enter(ix: NodeIndex, n: Node): NodeIndex {
    NodeIndex(AddTo(ix.labels, Labels(n.labels), n.id), AddTo(ix.props, LabelProps(n.labels, n.properties), n.id))
  }

  function TakeOut(ix: NodeIndex, n: Node): NodeIndex {
    NodeIndex(RemoveFrom(ix.labels, Labels(n.labels), n.id),
              RemoveFrom(ix.props, LabelProps(n.labels, n.properties), n.id))
  }

  /** File a relationship at its source, and at its target if that is local. */
  function Link(ls: Lists, r: Relationship, local: bool): Lists {
    Lists(
      Push(ls.outgoing, r.from, r.id),
      if local then Push(ls.incoming, r.to, r.id) else ls.incoming,
      Push(ls.outByType, (r.from, r.relType), r.id),
      if local then Push(ls.inByType, (r.to, r.relType), r.id) else ls.inByType)
  }

  /** The typed list of the target is only touched while the target is local. */
  function Unlink(ls: Lists, id: RelId, r: Relationship, local: bool): Lists {
    Lists(
      Drop(ls.outgoing, r.from, id),
      Drop(ls.incoming, r.to, id),
      Drop(ls.outByType, (r.from, r.relType), r.id),
      if local then Drop(ls.inByType, (r.to, r.relType), r.id) else ls.inByType)
  }

  function ReplaceNode(g: Graph, id: NodeId, n: Node): Graph
    requires id in g.nodes
  {
    g.(nodes := g.nodes[id := n], index := Enter(TakeOut(g.index, g.nodes[id]), n))
  }

  function CreateNodeIn(g: Graph, n: Node): Graph {
    g.(nextNode := Max(g.nextNode, SatInc(n.id)), index := Enter(g.index, n), nodes := g.nodes[n.id := n],
       lists := g.lists.(outgoing := OrDefault(g.lists.outgoing, n.id), incoming := OrDefault(g.lists.incoming, n.id)))
  }

  function CreateRel(g: Graph, r: Relationship): Graph {
    g.(nextRel := Max(g.nextRel, SatInc(r.id)), rels := g.rels[r.id := r],
       lists := Link(g.lists, r, r.to in g.nodes))
  }

  function UpsertBoundary(g: Graph, b: BoundaryNode): Graph {
    var cleared := if b.id in g.boundary
                   then RemoveFrom(g.boundaryProps,
                                   LabelProps(g.boundary[b.id].labels, g.boundary[b.id].properties), b.id)
                   else g.boundaryProps;
    g.(boundary := g.boundary[b.id := b],
       boundaryProps := AddTo(cleared, LabelProps(b.labels, b.properties), b.id))
  }

  function DropRel(g: Graph, id: RelId): Graph
    requires id in g.rels
  {
    var r := g.rels[id];
    g.(rels := g.rels - {id}, lists := Unlink(g.lists, id, r, r.to in g.nodes))
  }

  type Outcome = (Graph, Option<GraphError>)

  /** Delete one relationship after the other, stopping at the first that is not there. */
  function DropRels(g: Graph, ids: seq<RelId>): Outcome
    decreases |ids|
  {
    if ids == [] then (g, None)
    else if ids[0] !in g.rels then (g, Some(RelationshipNotFound(ids[0])))
    else DropRels(DropRel(g, ids[0]), ids[1..])
  }

  /** The relationships listed at a node in either direction. */
  function Touching(ls: Lists, id: NodeId): set<RelId> {
    set x | x in GetOr(ls.outgoing, id, []) + GetOr(ls.incoming, id, [])
  }

  function DropNode(g: Graph, id: NodeId): Outcome
    requires id in g.nodes
  {
    var (g1, failed) := DropRels(g, SortedIds(Touching(g.lists, id)));
    if failed.Some? then (g1, failed)
    else
      (g1.(nodes := g1.nodes - {id},
           index := if id in g1.nodes then TakeOut(g1.index, g1.nodes[id]) else g1.index,
           lists := g1.lists.(outgoing := g1.lists.outgoing - {id}, incoming := g1.lists.incoming - {id})), None)
  }

  function RemoveLabel(labels: seq<Text>, l: Text): seq<Text> {
    if labels == [] then []
    else (if labels[0] == l then [] else [labels[0]]) + RemoveLabel(labels[1..], l)
  }

  /** The node a command leaves behind, when it edits node `n`. */
  function EditNode(n: Node, c: Command): Node {
    match c
    case SetNodeProperty(_, key, value) => n.(properties := n.properties[key := value])
    case RemoveNodeProperty(_, key) => n.(properties := n.properties - {key})
    case AddNodeLabel(_, tag) => if tag in n.labels then n else n.(labels := n.labels + [tag])
    case RemoveNodeLabel(_, tag) => n.(labels := RemoveLabel(n.labels, tag))
    case _ => n
  }

  function EditRel(r: Relationship, c: Command): Relationship {
    match c
    case SetRelationshipProperty(_, key, value) => r.(properties := r.properties[key := value])
    case RemoveRelationshipProperty(_, key) => r.(properties := r.properties - {key})
    case _ => r
  }

  /** Label commands that find nothing to do leave the node and its index entries alone. */
  predicate EditsNothing(n: Node, c: Command) {
    (c.AddNodeLabel? && c.tag in n.labels) || (c.RemoveNodeLabel? && c.tag !in n.labels)
  }

  function EditNodeIn(g: Graph, id: NodeId, c: Command): Outcome {
    if id !in g.nodes then (g, Some(NodeNotFound(id)))
    else if EditsNothing(g.nodes[id], c) then (g, None)
    else (ReplaceNode(g, id, EditNode(g.nodes[id], c)), None)
  }

  function EditRelIn(g: Graph, id: RelId, c: Command): Outcome {
    if id !in g.rels then (g, Some(RelationshipNotFound(id)))
    else (g.(rels := g.rels[id := EditRel(g.rels[id], c)]), None)
  }

  function Apply(g: Graph, c: Command): Outcome {
    match c
    case CreateNode(id, labels, properties) =>
      if id in g.nodes then (g, Some(NodeAlreadyExists(id)))
      else (CreateNodeIn(g, Node(id, labels, properties)), None)
    case CreateRelationship(id, from, to, relType, properties) =>
      if id in g.rels then (g, Some(RelationshipAlreadyExists(id)))
      else if from !in g.nodes then (g, Some(EndpointNotFound(id, from)))
      else if to !in g.nodes && to !in g.boundary then (g, Some(EndpointNotFound(id, to)))
      else (CreateRel(g, Relationship(id, from, to, relType, properties)), None)
    case UpsertBoundaryNode(id, ownerShard, labels, properties, version) =>
      (UpsertBoundary(g, BoundaryNode(id, ownerShard, labels, properties, version)), None)
    case SetNodeProperty(id, _, _) => EditNodeIn(g, id, c)
    case RemoveNodeProperty(id, _) => EditNodeIn(g, id, c)
    case AddNodeLabel(id, _) => EditNodeIn(g, id, c)
    case RemoveNodeLabel(id, _) => EditNodeIn(g, id, c)
    case SetRelationshipProperty(id, _, _) => EditRelIn(g, id, c)
    case RemoveRelationshipProperty(id, _) => EditRelIn(g, id, c)
    case DeleteRelationship(id) =>
      if id !in g.rels then (g, Some(RelationshipNotFound(id))) else (DropRel(g, id), None)
    case DeleteNode(id) =>
      if id !in g.nodes then (g, Some(NodeNotFound(id))) else DropNode(g, id)
    case ClusterConfigChange(_, _, _, _) => (g, None)
  }

  predicate Accepts(g: Graph, c: Command) {
    Apply(g, c).1.None?
  }
}
