/** The mutable graph of one shard, proved against the functions of Graph. */
module GraphStateModel {
  import opened Basics
  import opened Model
  import opened Graph
  import Spec = Graph
  import opened GraphInvariant

  /** The label-property keys of one label. */
  function PropsOf(l: Text, properties: Properties): set<LabelProp> {
    set k | k in properties :: LabelProp(l, k, properties[k])
  }

  lemma LabelsGrow(labels: seq<Text>, i: nat, properties: Properties)
    requires i < |labels|
    ensures Labels(labels[..i + 1]) == Labels(labels[..i]) + {labels[i]}
    ensures LabelProps(labels[..i + 1], properties) ==
            LabelProps(labels[..i], properties) + PropsOf(labels[i], properties)
  {
    assert labels[..i + 1] == labels[..i] + [labels[i]];
    forall lp
      ensures lp in LabelProps(labels[..i + 1], properties) <==>
              lp in LabelProps(labels[..i], properties) + PropsOf(labels[i], properties)
    {
      InLabelProps(labels[..i + 1], properties, lp);
      InLabelProps(labels[..i], properties, lp);
    }
  }

  lemma AddMore<K>(ix: map<K, set<NodeId>>, a: set<K>, b: set<K>, id: NodeId)
    ensures AddTo(AddTo(ix, a, id), b, id) == AddTo(ix, a + b, id)
  {
  }

  lemma RemoveMore<K>(ix: map<K, set<NodeId>>, a: set<K>, b: set<K>, id: NodeId)
    ensures RemoveFrom(RemoveFrom(ix, a, id), b, id) == RemoveFrom(ix, a + b, id)
  {
    forall k | k in ix
      ensures RemoveFrom(RemoveFrom(ix, a, id), b, id)[k] == RemoveFrom(ix, a + b, id)[k]
    {
    }
  }

  lemma NoKeys<K>(ix: map<K, set<NodeId>>, id: NodeId)
    ensures AddTo(ix, {}, id) == ix && RemoveFrom(ix, {}, id) == ix
  {
  }

  /** Enter `id` under one key, creating its set if needed. */
  function EnterOne<K>(ix: map<K, set<NodeId>>, k: K, id: NodeId): (r: map<K, set<NodeId>>)
    ensures r == AddTo(ix, {k}, id)
  {
    ix[k := GetOr(ix, k, {}) + {id}]
  }

  function RemoveOne<K>(ix: map<K, set<NodeId>>, k: K, id: NodeId): (r: map<K, set<NodeId>>)
    ensures r == RemoveFrom(ix, {k}, id)
  {
    if k in ix then ix[k := ix[k] - {id}] else ix
  }

  /** The inner loop over a record's properties, for one label. */
  method EnterProps(ix: map<LabelProp, set<NodeId>>, l: Text, properties: Properties, id: NodeId)
    returns (r: map<LabelProp, set<NodeId>>)
    ensures r == AddTo(ix, PropsOf(l, properties), id)
  {
    r := ix;
    var todo := properties.Keys;
    ghost var done: set<LabelProp> := {};
    NoKeys(ix, id);
    while todo != {}
      invariant todo <= properties.Keys && r == AddTo(ix, done, id)
      invariant forall k :: k in properties ==> (LabelProp(l, k, properties[k]) in done <==> k !in todo)
      invariant done <= PropsOf(l, properties)
      decreases |todo|
    {
      var k :| k in todo;
      var lp := LabelProp(l, k, properties[k]);
      r := EnterOne(r, lp, id);
      AddMore(ix, done, {lp}, id);
      done, todo := done + {lp}, todo - {k};
    }
    assert done == PropsOf(l, properties);
  }

  method RemoveProps(ix: map<LabelProp, set<NodeId>>, l: Text, properties: Properties, id: NodeId)
    returns (r: map<LabelProp, set<NodeId>>)
    ensures r == RemoveFrom(ix, PropsOf(l, properties), id)
  {
    r := ix;
    var todo := properties.Keys;
    ghost var done: set<LabelProp> := {};
    NoKeys(ix, id);
    while todo != {}
      invariant todo <= properties.Keys && r == RemoveFrom(ix, done, id)
      invariant forall k :: k in properties ==> (LabelProp(l, k, properties[k]) in done <==> k !in todo)
      invariant done <= PropsOf(l, properties)
      decreases |todo|
    {
      var k :| k in todo;
      var lp := LabelProp(l, k, properties[k]);
      r := RemoveOne(r, lp, id);
      RemoveMore(ix, done, {lp}, id);
      done, todo := done + {lp}, todo - {k};
    }
    assert done == PropsOf(l, properties);
  }

  /** The whole property index for a labelled record, local or boundary. */
  method EnterAllProps(ix: map<LabelProp, set<NodeId>>, labels: seq<Text>, properties: Properties, id: NodeId)
    returns (r: map<LabelProp, set<NodeId>>)
    ensures r == AddTo(ix, LabelProps(labels, properties), id)
  {
    r := ix;
    NoKeys(ix, id);
    assert LabelProps(labels[..0], properties) == {};
    for i := 0 to |labels|
      invariant r == AddTo(ix, LabelProps(labels[..i], properties), id)
    {
      r := EnterProps(r, labels[i], properties, id);
      AddMore(ix, LabelProps(labels[..i], properties), PropsOf(labels[i], properties), id);
      LabelsGrow(labels, i, properties);
    }
    assert labels[..|labels|] == labels;
  }

  method RemoveAllProps(ix: map<LabelProp, set<NodeId>>, labels: seq<Text>, properties: Properties, id: NodeId)
    returns (r: map<LabelProp, set<NodeId>>)
    ensures r == RemoveFrom(ix, LabelProps(labels, properties), id)
  {
    r := ix;
    NoKeys(ix, id);
    assert LabelProps(labels[..0], properties) == {};
    for i := 0 to |labels|
      invariant r == RemoveFrom(ix, LabelProps(labels[..i], properties), id)
    {
      r := RemoveProps(r, labels[i], properties, id);
      RemoveMore(ix, LabelProps(labels[..i], properties), PropsOf(labels[i], properties), id);
      LabelsGrow(labels, i, properties);
    }
    assert labels[..|labels|] == labels;
  }

  method EnterLabels(ix: map<Text, set<NodeId>>, labels: seq<Text>, id: NodeId) returns (r: map<Text, set<NodeId>>)
    ensures r == AddTo(ix, Labels(labels), id)
  {
    r := ix;
    NoKeys(ix, id);
    assert Labels(labels[..0]) == {};
    for i := 0 to |labels|
      invariant r == AddTo(ix, Labels(labels[..i]), id)
    {
      r := EnterOne(r, labels[i], id);
      AddMore(ix, Labels(labels[..i]), {labels[i]}, id);
      LabelsGrow(labels, i, map[]);
    }
    assert labels[..|labels|] == labels;
  }

  method RemoveLabels(ix: map<Text, set<NodeId>>, labels: seq<Text>, id: NodeId) returns (r: map<Text, set<NodeId>>)
    ensures r == RemoveFrom(ix, Labels(labels), id)
  {
    r := ix;
    NoKeys(ix, id);
    assert Labels(labels[..0]) == {};
    for i := 0 to |labels|
      invariant r == RemoveFrom(ix, Labels(labels[..i]), id)
    {
      r := RemoveOne(r, labels[i], id);
      RemoveMore(ix, Labels(labels[..i]), {labels[i]}, id);
      LabelsGrow(labels, i, map[]);
    }
    assert labels[..|labels|] == labels;
  }

  class GraphState {
    var nodes: map<NodeId, Node>
    var boundary: map<NodeId, BoundaryNode>
    var rels: map<RelId, Relationship>
    var lists: Lists
    var index: NodeIndex
    var boundaryProps: map<LabelProp, set<NodeId>>
    var nextNode: u64
    var nextRel: u64

    function State(): Graph
      reads this
    {
      Graph(nodes, boundary, rels, lists, index, boundaryProps, nextNode, nextRel)
    }

    ghost predicate Valid()
      reads this
    {
      Inv(State())
    }

    constructor ()
      ensures Valid() && State() == EMPTY
    {
      nodes, boundary, rels := map[], map[], map[];
      lists, index := Lists(map[], map[], map[], map[]), NodeIndex(map[], map[]);
      boundaryProps, nextNode, nextRel := map[], 0, 0;
      new;
      EmptyInv();
    }

    method IndexNode(n: Node)
      modifies this`index
      ensures index == Enter(old(index), n)
    {
      var byLabel := EnterLabels(index.labels, n.labels, n.id);
      var byProp := EnterAllProps(index.props, n.labels, n.properties, n.id);
      index := NodeIndex(byLabel, byProp);
    }

    method RemoveNodeIndex(n: Node)
      modifies this`index
      ensures index == TakeOut(old(index), n)
    {
      var byLabel := RemoveLabels(index.labels, n.labels, n.id);
      var byProp := RemoveAllProps(index.props, n.labels, n.properties, n.id);
      index := NodeIndex(byLabel, byProp);
    }

    method CreateNode(id: NodeId, labels: seq<Text>, properties: Properties) returns (error: Option<GraphError>)
      modifies this
      ensures (State(), error) == Spec.Apply(old(State()), Command.CreateNode(id, labels, properties))
    {
      if id in nodes {
        return Some(NodeAlreadyExists(id));
      }
      nextNode := Max(nextNode, SatInc(id));
      var node := Node(id, labels, properties);
      IndexNode(node);
      nodes := nodes[id := node];
      lists := lists.(outgoing := OrDefault(lists.outgoing, id), incoming := OrDefault(lists.incoming, id));
      error := None;
    }

    method CreateRelationship(id: RelId, from: NodeId, to: NodeId, relType: Text, properties: Properties)
      returns (error: Option<GraphError>)
      modifies this
      ensures (State(), error) ==
              Spec.Apply(old(State()), Command.CreateRelationship(id, from, to, relType, properties))
    {
      if id in rels {
        return Some(RelationshipAlreadyExists(id));
      }
      if from !in nodes {
        return Some(EndpointNotFound(id, from));
      }
      var local := to in nodes;
      if !local && to !in boundary {
        return Some(EndpointNotFound(id, to));
      }
      nextRel := Max(nextRel, SatInc(id));
      var r := Relationship(id, from, to, relType, properties);
      rels := rels[id := r];
      lists := lists.(outByType := Push(lists.outByType, (from, relType), id),
                      outgoing := Push(lists.outgoing, from, id));
      if local {
        lists := lists.(inByType := Push(lists.inByType, (to, relType), id), incoming := Push(lists.incoming, to, id));
      }
      error := None;
    }

    method UpsertBoundaryNode(b: BoundaryNode)
      modifies this
      ensures State() == UpsertBoundary(old(State()), b)
    {
      if b.id in boundary {
        var was := boundary[b.id];
        boundaryProps := RemoveAllProps(boundaryProps, was.labels, was.properties, b.id);
      }
      boundaryProps := EnterAllProps(boundaryProps, b.labels, b.properties, b.id);
      boundary := boundary[b.id := b];
    }

    /** Set or remove a property, add or remove a label. */
    method UpdateNode(id: NodeId, c: Command) returns (error: Option<GraphError>)
      modifies this
      ensures (State(), error) == EditNodeIn(old(State()), id, c)
    {
      if id !in nodes {
        return Some(NodeNotFound(id));
      }
      var node := nodes[id];
      if EditsNothing(node, c) {
        return None;
      }
      RemoveNodeIndex(node);
      node := EditNode(node, c);
      nodes := nodes[id := node];
      IndexNode(node);
      error := None;
    }

    method UpdateRelationship(id: RelId, c: Command) returns (error: Option<GraphError>)
      modifies this
      ensures (State(), error) == EditRelIn(old(State()), id, c)
    {
      if id !in rels {
        return Some(RelationshipNotFound(id));
      }
      rels := rels[id := EditRel(rels[id], c)];
      error := None;
    }

    method DeleteRelationship(id: RelId) returns (error: Option<GraphError>)
      modifies this
      ensures (State(), error) == Spec.Apply(old(State()), Command.DeleteRelationship(id))
    {
      if id !in rels {
        return Some(RelationshipNotFound(id));
      }
      var r := rels[id];
      rels := rels - {id};
      lists := lists.(outByType := Drop(lists.outByType, (r.from, r.relType), r.id));
      if r.to in nodes {
        lists := lists.(inByType := Drop(lists.inByType, (r.to, r.relType), r.id));
      }
      lists := lists.(outgoing := Drop(lists.outgoing, r.from, id), incoming := Drop(lists.incoming, r.to, id));
      error := None;
    }

    method DeleteNode(id: NodeId) returns (error: Option<GraphError>)
      modifies this
      ensures (State(), error) == Spec.Apply(old(State()), Command.DeleteNode(id))
    {
      hide Spec.DropRel;
      if id !in nodes {
        return Some(NodeNotFound(id));
      }
      var ids := SortedIds(Touching(lists, id));
      var i := 0;
      while i < |ids|
        invariant 0 <= i <= |ids|
        invariant DropRels(old(State()), ids) == DropRels(State(), ids[i..])
      {
        assert ids[i..][0] == ids[i] && ids[i..][1..] == ids[i + 1..];
        error := DeleteRelationship(ids[i]);
        if error.Some? {
          return error;
        }
        i := i + 1;
      }
      assert ids[i..] == [];
      ghost var g1 := State();
      assert DropRels(old(State()), ids) == (g1, None);
      if id in nodes {
        var node := nodes[id];
        nodes := nodes - {id};
        RemoveNodeIndex(node);
      }
      assert nodes == g1.nodes - {id};
      lists := lists.(outgoing := lists.outgoing - {id}, incoming := lists.incoming - {id});
      error := None;
    }

    /** Every command: the state it leaves, and nothing at all if it fails. */
    method Apply(c: Command) returns (error: Option<GraphError>)
      requires Valid()
      modifies this
      ensures Valid() && (State(), error) == Spec.Apply(old(State()), c)
      ensures error.Some? ==> State() == old(State())
    {
      ApplyKeepsInv(State(), c);
      match c {
        case CreateNode(id, labels, properties) => error := CreateNode(id, labels, properties);
        case CreateRelationship(id, from, to, relType, properties) =>
          error := CreateRelationship(id, from, to, relType, properties);
        case UpsertBoundaryNode(id, ownerShard, labels, properties, version) =>
          UpsertBoundaryNode(BoundaryNode(id, ownerShard, labels, properties, version));
          error := None;
        case SetRelationshipProperty(id, _, _) => error := UpdateRelationship(id, c);
        case RemoveRelationshipProperty(id, _) => error := UpdateRelationship(id, c);
        case DeleteRelationship(id) => error := DeleteRelationship(id);
        case DeleteNode(id) => error := DeleteNode(id);
        case ClusterConfigChange(_, _, _, _) => error := None;
        case _ => error := UpdateNode(c.id, c);
      }
    }
  }
}
