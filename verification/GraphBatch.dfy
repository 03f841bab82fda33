/**
 * One atomic write batch for many commands: reads go to a staged overlay first and to the
 * store as it was before the batch, and node deletions scan the index keys of that store.
 */
module GraphBatch {
  import opened Basics
  import opened Model
  import opened Graph
  import opened GraphStore
  import opened GraphClean

  /** Records written by earlier commands of the batch; `None` marks a deletion. */
  datatype Staged = Staged(
    nodes: map<NodeId, Option<Node>>,
    boundary: map<NodeId, Option<BoundaryNode>>,
    rels: map<RelId, Option<Relationship>>)

  const NOTHING_STAGED := Staged(map[], map[], map[])

  function Look<V>(base: map<u64, V>, top: map<u64, Option<V>>, k: u64): Option<V> {
    if k in top then top[k] else if k in base then Some(base[k]) else None
  }

  /** What the overlay reads as a whole. */
  function Overlay<V>(base: map<u64, V>, top: map<u64, Option<V>>): map<u64, V> {
    map k | k in base.Keys + top.Keys && Look(base, top, k).Some? :: Look(base, top, k).value
  }

  lemma LookOverlay<V>(base: map<u64, V>, top: map<u64, Option<V>>, k: u64)
    ensures k in Overlay(base, top) <==> Look(base, top, k).Some?
    ensures k in Overlay(base, top) ==> Overlay(base, top)[k] == Look(base, top, k).value
  {
  }

  predicate Touches(r: Relationship, id: NodeId) {
    r.from == id || r.to == id
  }

  /** The ids a staged node deletion collects: two scans of the old keys, and staged relationships. */
  function StagedIds(s0: Store, st: Staged, id: NodeId): set<RelId> {
    OutIds(s0.keys, id) + InIds(s0.keys, id)
    + (set x | x in st.rels && st.rels[x].Some? && Touches(st.rels[x].value, id))
  }

  /** Mark those of `ids` that are present as deleted. */
  function Unstage(rels: map<RelId, Option<Relationship>>, present: map<RelId, Relationship>, ids: set<RelId>)
    : map<RelId, Option<Relationship>>
  {
    map x | x in rels.Keys + (ids * present.Keys) :: if x in ids && x in present then None else rels[x]
  }

  /**
   * One command: what it stages, and what its operations make of `cur`, the store that the
   * operations batched so far would leave. `cur` itself is never read.
   */
  function BatchStep(s0: Store, st: Staged, cur: Store, c: Command): (Staged, Store) {
    match c
    case CreateNode(id, labels, properties) =>
      var n := Node(id, labels, properties);
      (st.(nodes := st.nodes[id := Some(n)]), PutNode(cur, n))
    case CreateRelationship(id, from, to, relType, properties) =>
      var r := Relationship(id, from, to, relType, properties);
      (st.(rels := st.rels[id := Some(r)]), CreateRelKv(cur, r, Look(s0.nodes, st.nodes, to).Some?))
    case UpsertBoundaryNode(id, ownerShard, labels, properties, version) =>
      var b := BoundaryNode(id, ownerShard, labels, properties, version);
      (st.(boundary := st.boundary[id := Some(b)]), PutBoundary(cur, Look(s0.boundary, st.boundary, id), b))
    case SetRelationshipProperty(id, _, _) => BatchEditRel(s0, st, cur, id, c)
    case RemoveRelationshipProperty(id, _) => BatchEditRel(s0, st, cur, id, c)
    case DeleteRelationship(id) =>
      var found := Look(s0.rels, st.rels, id);
      if found.None? then (st, cur)
      else (st.(rels := st.rels[id := None]), DropRelKv(cur, id, found.value))
    case DeleteNode(id) =>
      var found := Look(s0.nodes, st.nodes, id);
      if found.None? then (st, cur)
      else
        var present, ids := Overlay(s0.rels, st.rels), StagedIds(s0, st, id);
        (st.(rels := Unstage(st.rels, present, ids), nodes := st.nodes[id := None]),
         DropNodeRecord(DropRelsKv(cur, present, ids), found.value, id))
    case ClusterConfigChange(_, _, _, _) => (st, cur)
    case _ => BatchEditNode(s0, st, cur, c.id, c)
  }

  function BatchEditNode(s0: Store, st: Staged, cur: Store, id: NodeId, c: Command): (Staged, Store) {
    var found := Look(s0.nodes, st.nodes, id);
    if found.None? || EditsNothing(found.value, c) then (st, cur)
    else
      var m := EditNode(found.value, c);
      (st.(nodes := st.nodes[id := Some(m)]), ReplaceNodeKv(cur, found.value, m))
  }

  /** Unlike the single command, the batch also writes the outgoing keys again. */
  function BatchEditRel(s0: Store, st: Staged, cur: Store, id: RelId, c: Command): (Staged, Store) {
    var found := Look(s0.rels, st.rels, id);
    if found.None? then (st, cur)
    else
      var r := EditRel(found.value, c);
      (st.(rels := st.rels[id := Some(r)]), PutRel(cur, r))
  }

  function BatchRun(s0: Store, cs: seq<Command>): (Staged, Store) {
    if cs == [] then (NOTHING_STAGED, s0)
    else
      var (st, cur) := BatchRun(s0, cs[..|cs| - 1]);
      BatchStep(s0, st, cur, cs[|cs| - 1])
  }

  function ApplyBatch(s0: Store, cs: seq<Command>): Store {
    BatchRun(s0, cs).1
  }

  // ----- The overlay is the current state -----

  ghost predicate Tracks(s0: Store, st: Staged, cur: Store) {
    && Overlay(s0.nodes, st.nodes) == cur.nodes
    && Overlay(s0.boundary, st.boundary) == cur.boundary
    && Overlay(s0.rels, st.rels) == cur.rels
  }

  lemma OverlayPut<V>(base: map<u64, V>, top: map<u64, Option<V>>, k: u64, v: V)
    ensures Overlay(base, top[k := Some(v)]) == Overlay(base, top)[k := v]
  {
  }

  lemma OverlayDrop<V>(base: map<u64, V>, top: map<u64, Option<V>>, k: u64)
    ensures Overlay(base, top[k := None]) == Overlay(base, top) - {k}
  {
  }

  lemma OverlayUnstage(base: map<RelId, Relationship>, top: map<RelId, Option<Relationship>>, ids: set<RelId>)
    ensures var present := Overlay(base, top);
            Overlay(base, Unstage(top, present, ids)) == present - (ids * present.Keys)
  {
    var present := Overlay(base, top);
    var after := Unstage(top, present, ids);
    forall x
      ensures Look(base, after, x) == if x in ids && x in present then None else Look(base, top, x)
    {
      LookOverlay(base, top, x);
    }
    assert forall x :: x in present - (ids * present.Keys) <==> x in present && x !in ids;
    forall x
      ensures x in Overlay(base, after) <==> x in present - (ids * present.Keys)
      ensures x in Overlay(base, after) ==> Overlay(base, after)[x] == present[x]
    {
      LookOverlay(base, top, x);
      LookOverlay(base, after, x);
    }
  }

  lemma EmptyOverlay<V>(base: map<u64, V>)
    ensures Overlay(base, map[]) == base
  {
  }

  /** Whatever the command, the overlay after it is the record part of the resulting store. */
  lemma StepTracks(s0: Store, st: Staged, cur: Store, c: Command)
    requires Tracks(s0, st, cur) && Filed(cur)
    ensures Tracks(s0, BatchStep(s0, st, cur, c).0, BatchStep(s0, st, cur, c).1)
  {
    match c
    case CreateNode(id, labels, properties) => OverlayPut(s0.nodes, st.nodes, id, Node(id, labels, properties));
    case CreateRelationship(id, from, to, relType, properties) =>
      OverlayPut(s0.rels, st.rels, id, Relationship(id, from, to, relType, properties));
    case UpsertBoundaryNode(id, ownerShard, labels, properties, version) =>
      OverlayPut(s0.boundary, st.boundary, id, BoundaryNode(id, ownerShard, labels, properties, version));
    case SetRelationshipProperty(id, _, _) => EditRelTracks(s0, st, cur, id, c);
    case RemoveRelationshipProperty(id, _) => EditRelTracks(s0, st, cur, id, c);
    case DeleteRelationship(id) => OverlayDrop(s0.rels, st.rels, id);
    case DeleteNode(id) =>
      OverlayDrop(s0.nodes, st.nodes, id);
      OverlayUnstage(s0.rels, st.rels, StagedIds(s0, st, id));
    case ClusterConfigChange(_, _, _, _) =>
    case _ => EditNodeTracks(s0, st, cur, c.id, c);
  }

  lemma EditRelTracks(s0: Store, st: Staged, cur: Store, id: RelId, c: Command)
    requires Tracks(s0, st, cur) && Filed(cur)
    ensures Tracks(s0, BatchEditRel(s0, st, cur, id, c).0, BatchEditRel(s0, st, cur, id, c).1)
  {
    LookOverlay(s0.rels, st.rels, id);
    if id in cur.rels { OverlayPut(s0.rels, st.rels, id, EditRel(cur.rels[id], c)); }
  }

  lemma EditNodeTracks(s0: Store, st: Staged, cur: Store, id: NodeId, c: Command)
    requires Tracks(s0, st, cur) && Filed(cur)
    ensures Tracks(s0, BatchEditNode(s0, st, cur, id, c).0, BatchEditNode(s0, st, cur, id, c).1)
  {
    LookOverlay(s0.nodes, st.nodes, id);
    if id in cur.nodes { OverlayPut(s0.nodes, st.nodes, id, EditNode(cur.nodes[id], c)); }
  }

  // ----- One step against the single command -----

  /** A relationship the batch has not touched still points at a node that was local before the batch. */
  ghost predicate Rooted(s0: Store, st: Staged, cur: Store) {
    forall x :: x in s0.rels && x !in st.rels && s0.rels[x].to in cur.nodes ==> s0.rels[x].to in s0.nodes
  }

  /** The old index lists a relationship that by now runs between other nodes. */
  ghost predicate StaleAt(s0: Store, cur: Store, id: NodeId, x: RelId) {
    x in OutIds(s0.keys, id) + InIds(s0.keys, id) && x in cur.rels && !Touches(cur.rels[x], id)
  }

  ghost predicate Stale(s0: Store, cur: Store, c: Command) {
    c.DeleteNode? && exists x :: StaleAt(s0, cur, c.id, x)
  }

  /** A staged deletion finds everything at the node, and whatever is stale. */
  lemma StagedIdsFind(s0: Store, st: Staged, cur: Store, id: NodeId, x: RelId)
    requires Clean(s0) && Tracks(s0, st, cur) && Rooted(s0, st, cur) && id in cur.nodes && x in cur.rels
    ensures x in StagedIds(s0, st, id) <==> Touches(cur.rels[x], id) || StaleAt(s0, cur, id, x)
  {
    LookOverlay(s0.rels, st.rels, x);
    InOutIds(s0.keys, id, x);
    assert CleanKey(s0, KOut(id, x)) && CleanKey(s0, KIn(id, x));
  }

  /** Only the ids that are present matter for a deletion. */
  lemma SameDrop(cur: Store, a: set<RelId>, b: set<RelId>)
    requires forall x :: x in cur.rels ==> (x in a <==> x in b)
    ensures DropRelsKv(cur, cur.rels, a) == DropRelsKv(cur, cur.rels, b)
  {
    assert a * cur.rels.Keys == b * cur.rels.Keys;
    forall k
      ensures k in KeysOf(cur.rels, a) <==> k in KeysOf(cur.rels, b)
    {
      InKeysOf(cur.rels, a, k);
      InKeysOf(cur.rels, b, k);
    }
  }

  lemma DeleteNodeStep(s0: Store, st: Staged, cur: Store, id: NodeId)
    requires Clean(s0) && Clean(cur) && Tracks(s0, st, cur) && Rooted(s0, st, cur) && id in cur.nodes
    ensures BatchStep(s0, st, cur, DeleteNode(id)).1 == ApplyKv(cur, DeleteNode(id)) <==>
            !Stale(s0, cur, DeleteNode(id))
  {
    var ids, found := StagedIds(s0, st, id), OutIds(cur.keys, id) + InIds(cur.keys, id);
    LookOverlay(s0.nodes, st.nodes, id);
    forall x | x in cur.rels
      ensures x in ids <==> x in found || StaleAt(s0, cur, id, x)
      ensures StaleAt(s0, cur, id, x) ==> x !in found
    {
      StagedIdsFind(s0, st, cur, id, x);
      ScansAreExact(cur, id, x);
    }
    var batched, single := BatchStep(s0, st, cur, DeleteNode(id)).1, ApplyKv(cur, DeleteNode(id));
    if Stale(s0, cur, DeleteNode(id)) {
      var x :| StaleAt(s0, cur, id, x);
      assert x in single.rels && x !in batched.rels;
    } else {
      assert forall x :: x in cur.rels ==> !StaleAt(s0, cur, id, x);
      SameDrop(cur, ids, found);
    }
  }

  lemma EditRelStep(s0: Store, st: Staged, cur: Store, id: RelId, c: Command)
    requires Clean(cur) && Filed(cur) && Tracks(s0, st, cur)
    ensures BatchEditRel(s0, st, cur, id, c).1 == EditRelKv(cur, id, c)
  {
    LookOverlay(s0.rels, st.rels, id);
    if id in cur.rels {
      var r := EditRel(cur.rels[id], c);
      assert CleanKey(cur, KOut(r.from, id)) && CleanKey(cur, KOutType(r.from, r.relType, id));
      assert cur.keys + OutKeys(id, r) == cur.keys;
    }
  }

  /** From equal stores, one batched command equals the single command exactly when nothing is stale. */
  lemma StepEqualsExactly(s0: Store, st: Staged, cur: Store, c: Command)
    requires Clean(s0) && Clean(cur) && Filed(cur) && Tracks(s0, st, cur) && Rooted(s0, st, cur) && AcceptsKv(cur, c)
    ensures BatchStep(s0, st, cur, c).1 == ApplyKv(cur, c) <==> !Stale(s0, cur, c)
  {
    hide Clean, Filed, Rooted, Overlay, Look, BatchEditRel, EditRelKv, CreateRelKv, PutBoundary, PutNode, DropRelsKv,
      StagedIds, StaleAt;
    match c
    case CreateRelationship(id, from, to, relType, properties) => LookOverlay(s0.nodes, st.nodes, to);
    case UpsertBoundaryNode(id, ownerShard, labels, properties, version) => LookOverlay(s0.boundary, st.boundary, id);
    case SetRelationshipProperty(id, _, _) => EditRelStep(s0, st, cur, id, c);
    case RemoveRelationshipProperty(id, _) => EditRelStep(s0, st, cur, id, c);
    case DeleteRelationship(id) => LookOverlay(s0.rels, st.rels, id);
    case DeleteNode(id) => DeleteNodeStep(s0, st, cur, id);
    case CreateNode(_, _, _) =>
    case ClusterConfigChange(_, _, _, _) =>
    case _ => LookOverlay(s0.nodes, st.nodes, c.id);
  }

  /** What is staged stays staged, and only a creation makes a node local. */
  lemma StepGrows(s0: Store, st: Staged, cur: Store, c: Command)
    requires Filed(cur) && Tracks(s0, st, cur)
    ensures var (st', cur') := BatchStep(s0, st, cur, c);
            st.rels.Keys <= st'.rels.Keys && cur'.nodes.Keys <= cur.nodes.Keys + (if c.CreateNode? then {c.id} else {})
  {
    match c
    case SetNodeProperty(id, _, _) => LookOverlay(s0.nodes, st.nodes, id);
    case RemoveNodeProperty(id, _) => LookOverlay(s0.nodes, st.nodes, id);
    case AddNodeLabel(id, _) => LookOverlay(s0.nodes, st.nodes, id);
    case RemoveNodeLabel(id, _) => LookOverlay(s0.nodes, st.nodes, id);
    case _ =>
  }

  lemma StepRooted(s0: Store, st: Staged, cur: Store, c: Command)
    requires Filed(cur) && Tracks(s0, st, cur) && Rooted(s0, st, cur) && !Adopts(cur, c)
    ensures Rooted(s0, BatchStep(s0, st, cur, c).0, BatchStep(s0, st, cur, c).1)
  {
    var (st', cur') := BatchStep(s0, st, cur, c);
    StepGrows(s0, st, cur, c);
    forall x | x in s0.rels && x !in st'.rels && s0.rels[x].to in cur'.nodes
      ensures s0.rels[x].to in s0.nodes
    {
      LookOverlay(s0.rels, st.rels, x);
      assert x in cur.rels && cur.rels[x] == s0.rels[x];
    }
  }

  // ----- What a batch loses -----

  /** The relationships that the single commands leave and the batch has dropped as stale. */
  ghost function Lost(s0: Store, cs: seq<Command>): set<RelId> {
    if cs == [] then {}
    else
      var front, last := cs[..|cs| - 1], cs[|cs| - 1];
      var before, after := ReplayKv(s0, front), ReplayKv(s0, cs);
      set x | x in after.rels.Keys && (x in Lost(s0, front) || (last.DeleteNode? && StaleAt(s0, before, last.id, x)))
  }

  /** Store `b` is `s` without the relationships of `lost`. */
  ghost predicate Behind(b: Store, s: Store, lost: set<RelId>) {
    b.nodes == s.nodes && b.boundary == s.boundary && b.rels == s.rels - lost && lost <= s.rels.Keys
  }

  /** The staged maps read as the store the batch has built, which is clean. */
  ghost predicate Coherent(s0: Store, st: Staged, b: Store) {
    Clean(b) && Filed(b) && Tracks(s0, st, b) && Rooted(s0, st, b)
  }

  /** What is lost after one more command. */
  ghost function StillLost(s0: Store, s: Store, lost: set<RelId>, c: Command): set<RelId> {
    set x | x in ApplyKv(s, c).rels.Keys && (x in lost || (c.DeleteNode? && StaleAt(s0, s, c.id, x)))
  }

  lemma FewerTargets(b: Store, s: Store, lost: set<RelId>, c: Command)
    requires Behind(b, s, lost) && !Adopts(s, c)
    ensures !Adopts(b, c)
  {
  }

  /** A staged node deletion keeps the store coherent and drops what touches the node or is stale. */
  lemma DeleteNodeBehind(s0: Store, st: Staged, b: Store, id: NodeId)
    requires Clean(s0) && Coherent(s0, st, b) && id in b.nodes
    ensures var b' := BatchStep(s0, st, b, DeleteNode(id)).1;
            && Clean(b') && b'.nodes == b.nodes - {id} && b'.boundary == b.boundary
            && b'.rels == b.rels - (StagedIds(s0, st, id) * b.rels.Keys)
    ensures forall x :: x in b.rels ==>
              (x in StagedIds(s0, st, id) <==> Touches(b.rels[x], id) || StaleAt(s0, b, id, x))
  {
    hide Clean, Filed, Rooted, StagedIds, StaleAt, Overlay, Look;
    LookOverlay(s0.nodes, st.nodes, id);
    forall x | x in b.rels
      ensures x in StagedIds(s0, st, id) <==> Touches(b.rels[x], id) || StaleAt(s0, b, id, x)
    {
      StagedIdsFind(s0, st, b, id, x);
    }
    DropNodeWithClean(b, id, StagedIds(s0, st, id));
  }

  lemma DeleteNodeLoses(s0: Store, st: Staged, b: Store, s: Store, lost: set<RelId>, id: NodeId)
    requires Clean(s0) && Clean(s) && Coherent(s0, st, b) && Behind(b, s, lost) && id in s.nodes
    ensures var c := DeleteNode(id);
            Behind(BatchStep(s0, st, b, c).1, ApplyKv(s, c), StillLost(s0, s, lost, c))
  {
    hide Clean, Coherent, BatchStep, StagedIds, OutIds, InIds;
    var c := DeleteNode(id);
    DeleteNodeBehind(s0, st, b, id);
    var b', s', lost' := BatchStep(s0, st, b, c).1, ApplyKv(s, c), StillLost(s0, s, lost, c);
    forall x
      ensures x in b'.rels <==> x in s'.rels && x !in lost'
      ensures x in s'.rels ==> s'.rels[x] == s.rels[x]
    {
      ScansAreExact(s, id, x);
    }
    assert b'.rels == s'.rels - lost';
  }

  /** A relationship command on what the batch has lost does nothing there. */
  lemma LostIsMissing(s0: Store, st: Staged, b: Store, s: Store, lost: set<RelId>, c: Command)
    requires Tracks(s0, st, b) && Behind(b, s, lost) && AcceptsKv(s, c) && !AcceptsKv(b, c)
    ensures EditsRel(c) && c.relId in lost && BatchStep(s0, st, b, c) == (st, b)
  {
    if EditsRel(c) { LookOverlay(s0.rels, st.rels, c.relId); }
  }

  predicate EditsRel(c: Command) {
    c.SetRelationshipProperty? || c.RemoveRelationshipProperty? || c.DeleteRelationship?
  }

  /** Commands on nodes leave the relationships alone. */
  lemma NodeCommandLoses(s: Store, b: Store, s0: Store, lost: set<RelId>, c: Command)
    requires Behind(b, s, lost) && !c.DeleteNode? && !c.CreateRelationship? && !EditsRel(c)
    ensures Behind(ApplyKv(b, c), ApplyKv(s, c), StillLost(s0, s, lost, c))
  {
    hide NodeKeys, BoundaryKeys, EditNode, EditsNothing;
    assert ApplyKv(s, c).rels == s.rels && ApplyKv(b, c).rels == b.rels;
    assert StillLost(s0, s, lost, c) == lost;
  }

  lemma RelCommandLoses(s: Store, b: Store, s0: Store, lost: set<RelId>, c: Command)
    requires Behind(b, s, lost) && AcceptsKv(s, c) && (c.CreateRelationship? || EditsRel(c))
    ensures AcceptsKv(b, c) ==> Behind(ApplyKv(b, c), ApplyKv(s, c), StillLost(s0, s, lost, c))
    ensures EditsRel(c) && c.relId in lost ==> Behind(b, ApplyKv(s, c), StillLost(s0, s, lost, c))
  {
    hide OutKeys, InKeys, RelKeys, EditRel;
    var s' := ApplyKv(s, c);
    assert StillLost(s0, s, lost, c) == lost * s'.rels.Keys;
    if AcceptsKv(b, c) { assert ApplyKv(b, c).rels == s'.rels - lost; }
    if EditsRel(c) && c.relId in lost { assert b.rels == s'.rels - lost; }
    assert s'.rels - lost == s'.rels - lost * s'.rels.Keys;
  }

  /** One command: the batch stays coherent and falls behind by exactly what is stale. */
  lemma StepLoses(s0: Store, st: Staged, b: Store, s: Store, lost: set<RelId>, c: Command)
    requires Clean(s0) && Clean(s) && Filed(s) && Coherent(s0, st, b) && Behind(b, s, lost)
    requires AcceptsKv(s, c) && !Adopts(s, c)
    ensures var (st', b') := BatchStep(s0, st, b, c);
            Coherent(s0, st', b') && Behind(b', ApplyKv(s, c), StillLost(s0, s, lost, c))
  {
    hide Clean, Filed, Behind, ApplyKv, StillLost, Adopts, Stale, AcceptsKv, Tracks, Rooted, BatchStep;
    FewerTargets(b, s, lost, c);
    StepTracks(s0, st, b, c);
    StepRooted(s0, st, b, c);
    if c.DeleteNode? {
      assert c.id in s.nodes && c.id in b.nodes by { SameAcceptance(b, s, lost, c); }
      DeleteNodeBehind(s0, st, b, c.id);
      DeleteNodeLoses(s0, st, b, s, lost, c.id);
      assert c == DeleteNode(c.id);
      FewerFiled(b, BatchStep(s0, st, b, c).1, c.id, StagedIds(s0, st, c.id) * b.rels.Keys);
    } else {
      if c.CreateRelationship? || EditsRel(c) {
        RelCommandLoses(s, b, s0, lost, c);
      } else {
        NodeCommandLoses(s, b, s0, lost, c);
      }
      if AcceptsKv(b, c) {
        OnlyDeletionsStale(s0, b, c);
        StepEqualsExactly(s0, st, b, c);
        ApplyCleanExactly(b, c);
        ApplyFiled(b, c);
      } else {
        LostIsMissing(s0, st, b, s, lost, c);
      }
    }
  }

  lemma SameAcceptance(b: Store, s: Store, lost: set<RelId>, c: Command)
    requires Behind(b, s, lost) && AcceptsKv(s, c) && c.DeleteNode?
    ensures c.id in s.nodes && c.id in b.nodes
  {
  }

  lemma OnlyDeletionsStale(s0: Store, b: Store, c: Command)
    requires !c.DeleteNode?
    ensures !Stale(s0, b, c)
  {
  }

  lemma FewerFiled(b: Store, b': Store, id: NodeId, ids: set<RelId>)
    requires Filed(b) && b'.nodes == b.nodes - {id} && b'.boundary == b.boundary && b'.rels == b.rels - ids
    ensures Filed(b')
  {
  }

  /**
   * A batch, whatever it holds: from a clean store, over accepted commands that adopt no dangling
   * relationship, it leaves a clean store with the records of the single commands except what is lost.
   */
  lemma {:induction false} BatchLosesExactly(s0: Store, cs: seq<Command>)
    requires Clean(s0) && Filed(s0) && Orderly(s0, cs)
    ensures Coherent(s0, BatchRun(s0, cs).0, ApplyBatch(s0, cs))
    ensures Behind(ApplyBatch(s0, cs), ReplayKv(s0, cs), Lost(s0, cs))
  {
    hide Clean, Filed, BatchStep, ApplyKv, AcceptsKv, Adopts;
    if cs == [] {
      EmptyOverlay(s0.nodes);
      EmptyOverlay(s0.boundary);
      EmptyOverlay(s0.rels);
      assert s0.rels - {} == s0.rels;
    } else {
      var front, last := cs[..|cs| - 1], cs[|cs| - 1];
      BatchLosesExactly(s0, front);
      ReplayClean(s0, front);
      var (st, b) := BatchRun(s0, front);
      StepLoses(s0, st, b, ReplayKv(s0, front), Lost(s0, front), last);
    }
  }

  /** Command `i` is a node deletion that meets `x` listed at the wrong place. */
  ghost predicate StaleHit(s0: Store, cs: seq<Command>, i: nat, x: RelId)
    requires i < |cs|
  {
    cs[i].DeleteNode? && StaleAt(s0, ReplayKv(s0, cs[..i]), cs[i].id, x)
  }

  /** From command `i` to the end, the single commands have `x`. */
  ghost predicate Stays(s0: Store, cs: seq<Command>, i: nat, x: RelId) {
    forall j {:trigger ReplayKv(s0, cs[..j])} :: i < j <= |cs| ==> x in ReplayKv(s0, cs[..j]).rels
  }

  /** A relationship is lost exactly when a deletion met it stale and it has stayed since. */
  lemma {:induction false} LostExactly(s0: Store, cs: seq<Command>, x: RelId)
    ensures x in Lost(s0, cs) <==>
            exists i {:trigger StaleHit(s0, cs, i, x)} :: 0 <= i < |cs| && StaleHit(s0, cs, i, x) && Stays(s0, cs, i, x)
  {
    hide StaleAt, ApplyKv;
    if cs != [] {
      var n := |cs| - 1;
      var front := cs[..n];
      LostExactly(s0, front, x);
      assert cs[..|cs|] == cs;
      if x in Lost(s0, front) && x in ReplayKv(s0, cs).rels {
        var i :| 0 <= i < |front| && StaleHit(s0, front, i, x) && Stays(s0, front, i, x);
        HitInFront(s0, cs, i, x);
      }
      if x in Lost(s0, cs) && x !in Lost(s0, front) { assert StaleHit(s0, cs, n, x); }
      if i :| 0 <= i < n && StaleHit(s0, cs, i, x) && Stays(s0, cs, i, x) {
        HitInFront(s0, cs, i, x);
        assert StaleHit(s0, front, i, x);
      }
    }
  }

  lemma HitInFront(s0: Store, cs: seq<Command>, i: nat, x: RelId)
    requires i < |cs| - 1
    ensures StaleHit(s0, cs, i, x) <==> StaleHit(s0, cs[..|cs| - 1], i, x)
    ensures Stays(s0, cs, i, x) <==> Stays(s0, cs[..|cs| - 1], i, x) && x in ReplayKv(s0, cs).rels
  {
    hide StaleAt, ReplayKv;
    var front := cs[..|cs| - 1];
    assert front[..i] == cs[..i] && cs[..|cs|] == cs;
    forall j | 0 <= j < |cs|
      ensures front[..j] == cs[..j]
    {
    }
    if Stays(s0, cs, i, x) {
      assert x in ReplayKv(s0, cs[..|cs|]).rels;
      forall j | i < j <= |front|
        ensures x in ReplayKv(s0, front[..j]).rels
      {
        assert x in ReplayKv(s0, cs[..j]).rels;
      }
    }
    if Stays(s0, front, i, x) && x in ReplayKv(s0, cs).rels {
      forall j | i < j <= |cs|
        ensures x in ReplayKv(s0, cs[..j]).rels
      {
        if j < |cs| { assert x in ReplayKv(s0, front[..j]).rels; }
      }
    }
  }

  /**
   * Batch equals sequence, exactly: the batch leaves the store of the single commands if and only
   * if every relationship that a node deletion meets stale is gone at some later point anyway.
   */
  lemma BatchEqualsSequenceExactly(s0: Store, cs: seq<Command>)
    requires Clean(s0) && Filed(s0) && Orderly(s0, cs)
    ensures ApplyBatch(s0, cs) == ReplayKv(s0, cs) <==>
            forall i, x {:trigger StaleHit(s0, cs, i, x)} ::
              0 <= i < |cs| && StaleHit(s0, cs, i, x) ==> !Stays(s0, cs, i, x)
  {
    hide Clean, Filed, StaleHit, Stays, ApplyBatch, ReplayKv;
    BatchEqualsWhenNothingLost(s0, cs);
    if x :| x in Lost(s0, cs) {
      LostExactly(s0, cs, x);
    } else {
      forall i, x | 0 <= i < |cs| && StaleHit(s0, cs, i, x)
        ensures !Stays(s0, cs, i, x)
      {
        LostExactly(s0, cs, x);
      }
    }
  }

  lemma EqualExactly(b: Store, s: Store, lost: set<RelId>)
    requires Clean(b) && Clean(s) && Behind(b, s, lost)
    ensures b == s <==> lost == {}
  {
    if lost == {} {
      assert s.rels - lost == s.rels;
      CleanDetermined(b, s);
    } else {
      var x :| x in lost;
      assert x in s.rels && x !in b.rels;
    }
  }

  lemma BatchEqualsWhenNothingLost(s0: Store, cs: seq<Command>)
    requires Clean(s0) && Filed(s0) && Orderly(s0, cs)
    ensures ApplyBatch(s0, cs) == ReplayKv(s0, cs) <==> Lost(s0, cs) == {}
  {
    hide Clean, Filed, ApplyBatch, ReplayKv, Lost;
    BatchLosesExactly(s0, cs);
    ReplayClean(s0, cs);
    EqualExactly(ApplyBatch(s0, cs), ReplayKv(s0, cs), Lost(s0, cs));
  }

  /** A relationship met stale survives the single deletion. */
  lemma StaleSurvives(s: Store, s0: Store, id: NodeId, x: RelId)
    requires Clean(s) && id in s.nodes && StaleAt(s0, s, id, x)
    ensures x in ApplyKv(s, DeleteNode(id)).rels
  {
    ScansAreExact(s, id, x);
  }

  /** So a stale listing at the last command makes the two results differ. */
  lemma LastStaleDiffers(s0: Store, cs: seq<Command>, x: RelId)
    requires Clean(s0) && Filed(s0) && Orderly(s0, cs) && cs != [] && StaleHit(s0, cs, |cs| - 1, x)
    ensures ApplyBatch(s0, cs) != ReplayKv(s0, cs)
  {
    hide Clean, Filed, ApplyKv, Adopts, ApplyBatch;
    var n := |cs| - 1;
    ReplayClean(s0, cs[..n]);
    StaleSurvives(ReplayKv(s0, cs[..n]), s0, cs[n].id, x);
    assert cs[n] == DeleteNode(cs[n].id) && cs[..|cs|] == cs;
    assert Stays(s0, cs, n, x);
    BatchEqualsSequenceExactly(s0, cs);
  }

  /** Batch and sequence agree after every prefix exactly when nothing is ever met stale. */
  lemma EveryPrefixExactly(s0: Store, cs: seq<Command>)
    requires Clean(s0) && Filed(s0) && Orderly(s0, cs)
    ensures (forall n :: 0 <= n <= |cs| ==> ApplyBatch(s0, cs[..n]) == ReplayKv(s0, cs[..n])) <==>
            (forall i, x {:trigger StaleHit(s0, cs, i, x)} :: 0 <= i < |cs| ==> !StaleHit(s0, cs, i, x))
  {
    hide Clean, Filed, Orderly, ApplyBatch, ReplayKv, StaleAt, Stays;
    if i, x :| 0 <= i < |cs| && StaleHit(s0, cs, i, x) {
      var front := cs[..i + 1];
      OrderlyPrefix(s0, cs, i + 1);
      assert front[..i] == cs[..i];
      LastStaleDiffers(s0, front, x);
    } else {
      forall n | 0 <= n <= |cs|
        ensures ApplyBatch(s0, cs[..n]) == ReplayKv(s0, cs[..n])
      {
        OrderlyPrefix(s0, cs, n);
        forall i, x | 0 <= i < n
          ensures !StaleHit(s0, cs[..n], i, x)
        {
          assert cs[..n][..i] == cs[..i] && !StaleHit(s0, cs, i, x);
        }
        BatchEqualsSequenceExactly(s0, cs[..n]);
      }
    }
  }

  // ----- A condition on the commands alone -----

  /** No relationship of the store is created anew inside the batch. */
  ghost predicate NoRevival(s0: Store, cs: seq<Command>) {
    forall i :: 0 <= i < |cs| && cs[i].CreateRelationship? ==> cs[i].relId !in s0.rels
  }

  ghost predicate SameEnds(s0: Store, s: Store) {
    forall x :: x in s0.rels && x in s.rels ==> s.rels[x].from == s0.rels[x].from && s.rels[x].to == s0.rels[x].to
  }

  lemma ApplySameEnds(s0: Store, s: Store, c: Command)
    requires SameEnds(s0, s) && Filed(s) && (c.CreateRelationship? ==> c.relId !in s0.rels)
    ensures SameEnds(s0, ApplyKv(s, c))
  {
  }

  lemma {:induction false} ReplaySameEnds(s0: Store, cs: seq<Command>)
    requires Clean(s0) && Filed(s0) && Orderly(s0, cs) && NoRevival(s0, cs)
    ensures SameEnds(s0, ReplayKv(s0, cs))
  {
    if cs != [] {
      var front, last := cs[..|cs| - 1], cs[|cs| - 1];
      ReplaySameEnds(s0, front);
      ReplayClean(s0, front);
      ApplySameEnds(s0, ReplayKv(s0, front), last);
    }
  }

  /** Without such re-creation the batch always equals the sequence. */
  lemma BatchEqualsSequence(s0: Store, cs: seq<Command>)
    requires Clean(s0) && Filed(s0) && Orderly(s0, cs) && NoRevival(s0, cs)
    ensures ApplyBatch(s0, cs) == ReplayKv(s0, cs)
  {
    hide Clean, Filed, Orderly, NoRevival;
    forall i, x | 0 <= i < |cs|
      ensures !StaleHit(s0, cs, i, x)
    {
      OrderlyPrefix(s0, cs, i);
      assert NoRevival(s0, cs[..i]) by { RevivalPrefix(s0, cs, i); }
      ReplaySameEnds(s0, cs[..i]);
      NothingStale(s0, ReplayKv(s0, cs[..i]), cs[i]);
    }
    BatchEqualsSequenceExactly(s0, cs);
  }

  lemma RevivalPrefix(s0: Store, cs: seq<Command>, i: nat)
    requires NoRevival(s0, cs) && i <= |cs|
    ensures NoRevival(s0, cs[..i])
  {
  }

  lemma {:induction false} OrderlyPrefix(s0: Store, cs: seq<Command>, i: nat)
    requires Orderly(s0, cs) && i <= |cs|
    ensures Orderly(s0, cs[..i])
    decreases |cs|
  {
    if i < |cs| {
      OrderlyPrefix(s0, cs[..|cs| - 1], i);
      assert cs[..|cs| - 1][..i] == cs[..i];
    } else {
      assert cs[..i] == cs;
    }
  }

  lemma NothingStale(s0: Store, s: Store, c: Command)
    requires Clean(s0) && SameEnds(s0, s)
    ensures !Stale(s0, s, c)
  {
    if c.DeleteNode? {
      forall x
        ensures !StaleAt(s0, s, c.id, x)
      {
        InOutIds(s0.keys, c.id, x);
        assert CleanKey(s0, KOut(c.id, x)) && CleanKey(s0, KIn(c.id, x));
      }
    }
  }
}
