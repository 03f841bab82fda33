/** The store object: commands become ordered write batches, applied atomically. */
module KvGraphStoreModel {
  import opened Basics
  import opened Model
  import opened Graph
  import opened GraphStore
  import opened GraphBatch
  import Spec = GraphBatch

  /** One operation of a write batch; later operations win. */
  datatype Op =
    | PutNodeRecord(n: Node)
    | DeleteNodeRecord(node: NodeId)
    | PutBoundaryRecord(b: BoundaryNode)
    | PutRelRecord(rel: RelId, r: Relationship)
    | DeleteRelRecord(rel: RelId)
    | PutKey(k: IndexKey)
    | DeleteKey(k: IndexKey)

  function Do(s: Store, op: Op): Store {
    match op
    case PutNodeRecord(n) => s.(nodes := s.nodes[n.id := n])
    case DeleteNodeRecord(node) => s.(nodes := s.nodes - {node})
    case PutBoundaryRecord(b) => s.(boundary := s.boundary[b.id := b])
    case PutRelRecord(rel, r) => s.(rels := s.rels[rel := r])
    case DeleteRelRecord(rel) => s.(rels := s.rels - {rel})
    case PutKey(k) => s.(keys := s.keys + {k})
    case DeleteKey(k) => s.(keys := s.keys - {k})
  }

  function Write(s: Store, ops: seq<Op>): Store {
    if ops == [] then s else Do(Write(s, ops[..|ops| - 1]), ops[|ops| - 1])
  }

  lemma WriteOne(s: Store, ops: seq<Op>, op: Op)
    ensures Write(s, ops + [op]) == Do(Write(s, ops), op)
  {
    assert (ops + [op])[..|ops|] == ops;
  }

  /** The ordered operations of a batch, appended in place. `Effect(s)` is what it makes of `s`. */
  class WriteBatch {
    var ops: seq<Op>

    constructor ()
      ensures ops == []
    {
      ops := [];
    }

    ghost function Effect(s: Store): Store
      reads this
    {
      Write(s, ops)
    }

    method Add(ghost s: Store, op: Op)
      modifies this
      ensures Effect(s) == Do(old(Effect(s)), op)
    {
      WriteOne(s, ops, op);
      ops := ops + [op];
    }

    /** The loops over labels and properties that enter a record's index keys. */
    method AddPropKeys(ghost s: Store, l: Text, properties: Properties, id: NodeId, boundary: bool, put: bool)
      modifies this
      ensures Effect(s) == Keyed(old(Effect(s)), PropKeys(l, properties, id, boundary), put)
    {
      var todo := properties.Keys;
      assert SomePropKeys(l, properties, {}, id, boundary) == {};
      while todo != {}
        invariant todo <= properties.Keys
        invariant Effect(s) ==
                  Keyed(old(Effect(s)), SomePropKeys(l, properties, properties.Keys - todo, id, boundary), put)
        decreases |todo|
      {
        var k :| k in todo;
        var key := PropKey(l, k, properties[k], id, boundary);
        ghost var done := properties.Keys - todo;
        KeyedStep(old(Effect(s)), l, properties, done, k, id, boundary, put);
        Add(s, if put then PutKey(key) else DeleteKey(key));
        todo := todo - {k};
        assert properties.Keys - todo == done + {k};
      }
      assert properties.Keys - {} == properties.Keys;
    }

    method AddNodeKeys(ghost s: Store, n: Node, put: bool)
      modifies this
      ensures Effect(s) == Keyed(old(Effect(s)), NodeKeys(n), put)
    {
      assert NodeKeys(n.(labels := n.labels[..0])) == {};
      for i := 0 to |n.labels|
        invariant Effect(s) == Keyed(old(Effect(s)), NodeKeys(n.(labels := n.labels[..i])), put)
      {
        var key := KLabel(n.labels[i], n.id);
        Add(s, if put then PutKey(key) else DeleteKey(key));
        AddPropKeys(s, n.labels[i], n.properties, n.id, false, put);
        var before := NodeKeys(n.(labels := n.labels[..i]));
        KeyedMore(old(Effect(s)), before, {key}, put);
        KeyedMore(old(Effect(s)), before + {key}, PropKeys(n.labels[i], n.properties, n.id, false), put);
        NodeKeysGrow(n, i);
      }
      assert n.labels[..|n.labels|] == n.labels;
    }

    method AddBoundaryKeys(ghost s: Store, b: BoundaryNode, put: bool)
      modifies this
      ensures Effect(s) == Keyed(old(Effect(s)), BoundaryKeys(b), put)
    {
      assert BoundaryKeys(b.(labels := b.labels[..0])) == {};
      for i := 0 to |b.labels|
        invariant Effect(s) == Keyed(old(Effect(s)), BoundaryKeys(b.(labels := b.labels[..i])), put)
      {
        AddPropKeys(s, b.labels[i], b.properties, b.id, true, put);
        var before := BoundaryKeys(b.(labels := b.labels[..i]));
        KeyedMore(old(Effect(s)), before, PropKeys(b.labels[i], b.properties, b.id, true), put);
        BoundaryKeysGrow(b, i);
      }
      assert b.labels[..|b.labels|] == b.labels;
    }

    method AddPutNode(ghost s: Store, n: Node)
      modifies this
      ensures Effect(s) == PutNode(old(Effect(s)), n)
    {
      Add(s, PutNodeRecord(n));
      AddNodeKeys(s, n, true);
    }

    method AddReplaceNode(ghost s: Store, was: Node, n: Node)
      modifies this
      ensures Effect(s) == ReplaceNodeKv(old(Effect(s)), was, n)
    {
      AddNodeKeys(s, was, false);
      AddPutNode(s, n);
    }

    method AddPutRel(ghost s: Store, r: Relationship)
      modifies this
      ensures Effect(s) == PutRel(old(Effect(s)), r)
    {
      Add(s, PutRelRecord(r.id, r));
      Add(s, PutKey(KOut(r.from, r.id)));
      Add(s, PutKey(KOutType(r.from, r.relType, r.id)));
      assert Effect(s).keys == old(Effect(s)).keys + OutKeys(r.id, r);
    }

    method AddCreateRel(ghost s: Store, r: Relationship, local: bool)
      modifies this
      ensures Effect(s) == CreateRelKv(old(Effect(s)), r, local)
    {
      AddPutRel(s, r);
      ghost var keys := Effect(s).keys;
      if local {
        Add(s, PutKey(KIn(r.to, r.id)));
        Add(s, PutKey(KInType(r.to, r.relType, r.id)));
        assert Effect(s).keys == keys + InKeys(r.id, r);
      }
    }

    method AddPutBoundary(ghost s: Store, was: Option<BoundaryNode>, b: BoundaryNode)
      modifies this
      ensures Effect(s) == PutBoundary(old(Effect(s)), was, b)
    {
      if was.Some? {
        AddBoundaryKeys(s, was.value, false);
      }
      Add(s, PutBoundaryRecord(b));
      AddBoundaryKeys(s, b, true);
    }

    method AddDropRel(ghost s: Store, id: RelId, r: Relationship)
      modifies this
      ensures Effect(s) == DropRelKv(old(Effect(s)), id, r)
    {
      ghost var keys := Effect(s).keys;
      Add(s, DeleteRelRecord(id));
      Add(s, DeleteKey(KOut(r.from, id)));
      Add(s, DeleteKey(KOutType(r.from, r.relType, id)));
      Add(s, DeleteKey(KIn(r.to, id)));
      Add(s, DeleteKey(KInType(r.to, r.relType, id)));
      assert Effect(s).keys == keys - RelKeys(id, r);
    }

    method AddDropNode(ghost s: Store, n: Node, id: NodeId)
      modifies this
      ensures Effect(s) == DropNodeRecord(old(Effect(s)), n, id)
    {
      AddNodeKeys(s, n, false);
      Add(s, DeleteNodeRecord(id));
    }
  }

  // ----- Sets of keys -----

  function PropKey(l: Text, k: Text, v: Value, id: NodeId, boundary: bool): IndexKey {
    if boundary then KBoundaryProp(LabelProp(l, k, v), id) else KProp(LabelProp(l, k, v), id)
  }

  function SomePropKeys(l: Text, properties: Properties, ks: set<Text>, id: NodeId, boundary: bool): set<IndexKey> {
    set k | k in ks && k in properties :: PropKey(l, k, properties[k], id, boundary)
  }

  function PropKeys(l: Text, properties: Properties, id: NodeId, boundary: bool): set<IndexKey> {
    SomePropKeys(l, properties, properties.Keys, id, boundary)
  }

  lemma SomePropKeysGrow(l: Text, properties: Properties, ks: set<Text>, k: Text, id: NodeId, boundary: bool)
    requires k in properties
    ensures SomePropKeys(l, properties, ks + {k}, id, boundary) ==
            SomePropKeys(l, properties, ks, id, boundary) + {PropKey(l, k, properties[k], id, boundary)}
  {
  }

  function Keyed(s: Store, keys: set<IndexKey>, put: bool): Store {
    s.(keys := if put then s.keys + keys else s.keys - keys)
  }

  lemma KeyedMore(s: Store, a: set<IndexKey>, b: set<IndexKey>, put: bool)
    ensures Keyed(Keyed(s, a, put), b, put) == Keyed(s, a + b, put)
  {
    assert s.keys + a + b == s.keys + (a + b) && s.keys - a - b == s.keys - (a + b);
  }

  lemma KeyedStep(s: Store, l: Text, properties: Properties, done: set<Text>, k: Text, id: NodeId, boundary: bool,
      put: bool)
    requires k in properties
    ensures var key := PropKey(l, k, properties[k], id, boundary);
            Do(Keyed(s, SomePropKeys(l, properties, done, id, boundary), put), if put then PutKey(key)
                else DeleteKey(key))
            == Keyed(s, SomePropKeys(l, properties, done + {k}, id, boundary), put)
  {
    KeyedMore(s, SomePropKeys(l, properties, done, id, boundary), {PropKey(l, k, properties[k], id, boundary)}, put);
    SomePropKeysGrow(l, properties, done, k, id, boundary);
  }

  lemma NodeKeysGrow(n: Node, i: nat)
    requires i < |n.labels|
    ensures NodeKeys(n.(labels := n.labels[..i + 1])) ==
            NodeKeys(n.(labels := n.labels[..i])) + {KLabel(n.labels[i], n.id)}
            + PropKeys(n.labels[i], n.properties, n.id, false)
  {
    var a, b := n.(labels := n.labels[..i + 1]), n.(labels := n.labels[..i]);
    assert a.labels == b.labels + [n.labels[i]];
    forall k
      ensures k in NodeKeys(a) <==>
              k in NodeKeys(b) + {KLabel(n.labels[i], n.id)} + PropKeys(n.labels[i], n.properties, n.id, false)
    {
      if k.KProp? {
        InLabelProps(a.labels, n.properties, k.lp);
        InLabelProps(b.labels, n.properties, k.lp);
      }
    }
  }

  lemma BoundaryKeysGrow(n: BoundaryNode, i: nat)
    requires i < |n.labels|
    ensures BoundaryKeys(n.(labels := n.labels[..i + 1])) ==
            BoundaryKeys(n.(labels := n.labels[..i])) + PropKeys(n.labels[i], n.properties, n.id, true)
  {
    var a, b := n.(labels := n.labels[..i + 1]), n.(labels := n.labels[..i]);
    assert a.labels == b.labels + [n.labels[i]];
    forall k
      ensures k in BoundaryKeys(a) <==> k in BoundaryKeys(b) + PropKeys(n.labels[i], n.properties, n.id, true)
    {
      if k.KBoundaryProp? {
        InLabelProps(a.labels, n.properties, k.lp);
        InLabelProps(b.labels, n.properties, k.lp);
      }
    }
  }

  /** Dropping one more relationship. */
  lemma DropMore(s: Store, rels: map<RelId, Relationship>, done: set<RelId>, x: RelId)
    ensures DropRelsKv(s, rels, done + {x}) ==
            if x in rels then DropRelKv(DropRelsKv(s, rels, done), x, rels[x]) else DropRelsKv(s, rels, done)
  {
    var keys := KeysOf(rels, done) + (if x in rels then RelKeys(x, rels[x]) else {});
    forall k
      ensures k in KeysOf(rels, done + {x}) <==> k in keys
    {
      InKeysOf(rels, done + {x}, k);
      InKeysOf(rels, done, k);
    }
    assert KeysOf(rels, done + {x}) == keys;
    assert s.keys - keys == s.keys - KeysOf(rels, done) - (if x in rels then RelKeys(x, rels[x]) else {});
    assert (done + {x}) * rels.Keys == done * rels.Keys + (if x in rels then {x} else {});
  }

  lemma DropNone(s: Store, rels: map<RelId, Relationship>)
    ensures DropRelsKv(s, rels, {}) == s
  {
    assert {} * rels.Keys == {} && KeysOf(rels, {}) == {};
    assert s.keys - {} == s.keys && s.rels - {} == s.rels;
  }

  lemma UnstageMore(top: map<RelId, Option<Relationship>>, base: map<RelId, Relationship>, done: set<RelId>, x: RelId)
    requires x !in done
    ensures var present := Overlay(base, top);
            && Look(base, Unstage(top, present, done), x) == (if x in present then Some(present[x]) else None)
            && Unstage(top, present, done + {x}) ==
               (if x in present then Unstage(top, present, done)[x := None] else Unstage(top, present, done))
  {
    LookOverlay(base, top, x);
  }

  function Elements(ids: seq<RelId>): set<RelId> {
    set x | x in ids
  }

  lemma PrefixSet(ids: seq<RelId>, i: nat)
    requires i < |ids|
    ensures Elements(ids[..i + 1]) == Elements(ids[..i]) + {ids[i]}
  {
    assert ids[..i + 1] == ids[..i] + [ids[i]];
  }

  ghost predicate Ascending(ids: seq<RelId>) {
    forall i, j :: 0 <= i < j < |ids| ==> ids[i] < ids[j]
  }

  lemma AscendingIsNew(ids: seq<RelId>, i: nat)
    requires Ascending(ids) && i < |ids|
    ensures ids[i] !in Elements(ids[..i])
  {
  }

  // ----- The store -----

  class StagedBatchState {
    var nodes: map<NodeId, Option<Node>>
    var boundary: map<NodeId, Option<BoundaryNode>>
    var rels: map<RelId, Option<Relationship>>

    constructor ()
      ensures State() == NOTHING_STAGED
    {
      nodes, boundary, rels := map[], map[], map[];
    }

    function State(): Staged
      reads this
    {
      Staged(nodes, boundary, rels)
    }
  }

  class KvGraphStore {
    var store: Store

    constructor (store: Store)
      ensures this.store == store
    {
      this.store := store;
    }

    /** Delete each of the listed relationships that the store holds. */
    method DropListed(batch: WriteBatch, ids: seq<RelId>)
      modifies batch
      ensures batch.Effect(store) == DropRelsKv(old(batch.Effect(store)), store.rels, Elements(ids))
    {
      DropNone(batch.Effect(store), store.rels);
      for i := 0 to |ids|
        invariant batch.Effect(store) == DropRelsKv(old(batch.Effect(store)), store.rels, Elements(ids[..i]))
      {
        PrefixSet(ids, i);
        DropMore(old(batch.Effect(store)), store.rels, Elements(ids[..i]), ids[i]);
        if ids[i] in store.rels {
          batch.AddDropRel(store, ids[i], store.rels[ids[i]]);
        }
      }
      assert ids[..|ids|] == ids;
    }

    /** One command, one atomic batch. */
    method Apply(c: Command)
      modifies this
      ensures store == ApplyKv(old(store), c)
    {
      var batch := new WriteBatch();
      match c {
        case CreateNode(id, labels, properties) => batch.AddPutNode(store, Node(id, labels, properties));
        case CreateRelationship(id, from, to, relType, properties) =>
          batch.AddCreateRel(store, Relationship(id, from, to, relType, properties), to in store.nodes);
        case UpsertBoundaryNode(id, ownerShard, labels, properties, version) =>
          batch.AddPutBoundary(store, if id in store.boundary then Some(store.boundary[id]) else None,
                               BoundaryNode(id, ownerShard, labels, properties, version));
        case SetRelationshipProperty(id, _, _) =>
          if id in store.rels { AddEditRel(batch, id, c); }
        case RemoveRelationshipProperty(id, _) =>
          if id in store.rels { AddEditRel(batch, id, c); }
        case DeleteRelationship(id) =>
          if id in store.rels { batch.AddDropRel(store, id, store.rels[id]); }
        case DeleteNode(id) =>
          if id in store.nodes { AddDeleteNode(batch, id); }
        case ClusterConfigChange(_, _, _, _) =>
        case _ =>
          if c.id in store.nodes && !EditsNothing(store.nodes[c.id], c) {
            batch.AddReplaceNode(store, store.nodes[c.id], EditNode(store.nodes[c.id], c));
          }
      }
      store := Write(store, batch.ops);
    }

    /** A property edit rewrites the record only. */
    method AddEditRel(batch: WriteBatch, id: RelId, c: Command)
      requires id in store.rels
      modifies batch
      ensures batch.Effect(store) == Do(old(batch.Effect(store)), PutRelRecord(id, EditRel(store.rels[id], c)))
    {
      batch.Add(store, PutRelRecord(id, EditRel(store.rels[id], c)));
    }

    method AddDeleteNode(batch: WriteBatch, id: NodeId)
      requires id in store.nodes && batch.Effect(store) == store
      modifies batch
      ensures batch.Effect(store) == ApplyKv(store, DeleteNode(id))
    {
      var found := OutIds(store.keys, id) + InIds(store.keys, id);
      var ids := SortedIds(found);
      SortedIdsElements(found);
      assert Elements(ids) == found;
      DropListed(batch, ids);
      batch.AddDropNode(store, store.nodes[id], id);
    }

    // ----- Many commands, one batch -----

    method DropListedStaged(batch: WriteBatch, staged: StagedBatchState, ids: seq<RelId>)
      requires Ascending(ids)
      modifies batch, staged
      ensures var present := Overlay(store.rels, old(staged.rels));
              && batch.Effect(store) == DropRelsKv(old(batch.Effect(store)), present, Elements(ids))
              && staged.rels == Unstage(old(staged.rels), present, Elements(ids))
      ensures staged.nodes == old(staged.nodes) && staged.boundary == old(staged.boundary)
    {
      ghost var present := Overlay(store.rels, staged.rels);
      DropNone(batch.Effect(store), present);
      assert Unstage(staged.rels, present, {}) == staged.rels;
      for i := 0 to |ids|
        invariant batch.Effect(store) == DropRelsKv(old(batch.Effect(store)), present, Elements(ids[..i]))
        invariant staged.rels == Unstage(old(staged.rels), present, Elements(ids[..i]))
        invariant staged.nodes == old(staged.nodes) && staged.boundary == old(staged.boundary)
      {
        PrefixSet(ids, i);
        AscendingIsNew(ids, i);
        DropMore(old(batch.Effect(store)), present, Elements(ids[..i]), ids[i]);
        UnstageMore(old(staged.rels), store.rels, Elements(ids[..i]), ids[i]);
        var found := Look(store.rels, staged.rels, ids[i]);
        if found.Some? {
          batch.AddDropRel(store, ids[i], found.value);
          staged.rels := staged.rels[ids[i] := None];
        }
      }
      assert ids[..|ids|] == ids;
    }

    method DeleteNodeStaged(batch: WriteBatch, staged: StagedBatchState, id: NodeId)
      modifies batch, staged
      ensures (staged.State(), batch.Effect(store)) ==
              BatchStep(store, old(staged.State()), old(batch.Effect(store)), DeleteNode(id))
    {
      var found := Look(store.nodes, staged.nodes, id);
      if found.None? {
        return;
      }
      var touched := StagedIds(store, staged.State(), id);
      var ids := SortedIds(touched);
      SortedIdsElements(touched);
      SortedIdsAscend(touched);
      assert Elements(ids) == touched;
      DropListedStaged(batch, staged, ids);
      batch.AddDropNode(store, found.value, id);
      staged.nodes := staged.nodes[id := None];
    }

    method EditNodeStaged(batch: WriteBatch, staged: StagedBatchState, id: NodeId, c: Command)
      modifies batch, staged
      ensures (staged.State(), batch.Effect(store)) ==
              BatchEditNode(store, old(staged.State()), old(batch.Effect(store)), id, c)
    {
      var found := Look(store.nodes, staged.nodes, id);
      if found.None? || EditsNothing(found.value, c) {
        return;
      }
      var node := EditNode(found.value, c);
      batch.AddReplaceNode(store, found.value, node);
      staged.nodes := staged.nodes[id := Some(node)];
    }

    method EditRelStaged(batch: WriteBatch, staged: StagedBatchState, id: RelId, c: Command)
      modifies batch, staged
      ensures (staged.State(), batch.Effect(store)) ==
              BatchEditRel(store, old(staged.State()), old(batch.Effect(store)), id, c)
    {
      var found := Look(store.rels, staged.rels, id);
      if found.None? {
        return;
      }
      var r := EditRel(found.value, c);
      batch.AddPutRel(store, r);
      staged.rels := staged.rels[id := Some(r)];
    }

    method ApplyIntoBatch(batch: WriteBatch, staged: StagedBatchState, c: Command)
      modifies batch, staged
      ensures (staged.State(), batch.Effect(store)) ==
              BatchStep(store, old(staged.State()), old(batch.Effect(store)), c)
    {
      match c {
        case CreateNode(id, labels, properties) =>
          var n := Node(id, labels, properties);
          batch.AddPutNode(store, n);
          staged.nodes := staged.nodes[id := Some(n)];
        case CreateRelationship(id, from, to, relType, properties) =>
          var r := Relationship(id, from, to, relType, properties);
          batch.AddCreateRel(store, r, Look(store.nodes, staged.nodes, to).Some?);
          staged.rels := staged.rels[id := Some(r)];
        case UpsertBoundaryNode(id, ownerShard, labels, properties, version) =>
          var b := BoundaryNode(id, ownerShard, labels, properties, version);
          batch.AddPutBoundary(store, Look(store.boundary, staged.boundary, id), b);
          staged.boundary := staged.boundary[id := Some(b)];
        case SetRelationshipProperty(id, _, _) => EditRelStaged(batch, staged, id, c);
        case RemoveRelationshipProperty(id, _) => EditRelStaged(batch, staged, id, c);
        case DeleteRelationship(id) =>
          var found := Look(store.rels, staged.rels, id);
          if found.Some? {
            batch.AddDropRel(store, id, found.value);
            staged.rels := staged.rels[id := None];
          }
        case DeleteNode(id) => DeleteNodeStaged(batch, staged, id);
        case ClusterConfigChange(_, _, _, _) =>
        case _ => EditNodeStaged(batch, staged, c.id, c);
      }
    }

    /** All commands, one atomic batch. */
    method ApplyBatch(cs: seq<Command>)
      modifies this
      ensures store == Spec.ApplyBatch(old(store), cs)
    {
      if cs == [] {
        return;
      }
      var batch := new WriteBatch();
      var staged := new StagedBatchState();
      for i := 0 to |cs|
        invariant (staged.State(), batch.Effect(store)) == BatchRun(store, cs[..i])
        invariant store == old(store) && fresh(batch) && fresh(staged)
      {
        assert cs[..i + 1][..i] == cs[..i];
        ApplyIntoBatch(batch, staged, cs[i]);
      }
      assert cs[..|cs|] == cs;
      store := Write(store, batch.ops);
    }
  }
}
