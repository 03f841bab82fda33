/** Small stores showing that both premises of the batch theorem are needed. */
module GraphWitnesses {
  import opened Basics
  import opened Model
  import opened Graph
  import opened GraphStore
  import opened GraphClean
  import opened GraphBatch

  const N1 := CreateNode(1, [], map[])
  const N2 := CreateNode(2, [], map[])
  const N3 := CreateNode(3, [], map[])
  const R12 := CreateRelationship(10, 1, 2, [], map[])
  const R23 := CreateRelationship(10, 2, 3, [], map[])

  lemma Append(s: Store, cs: seq<Command>, c: Command)
    ensures ReplayKv(s, cs + [c]) == ApplyKv(ReplayKv(s, cs), c)
    ensures TakenKv(s, cs) && AcceptsKv(ReplayKv(s, cs), c) ==> TakenKv(s, cs + [c])
    ensures Orderly(s, cs) && AcceptsKv(ReplayKv(s, cs), c) && !Adopts(ReplayKv(s, cs), c) ==> Orderly(s, cs + [c])
  {
    assert (cs + [c])[..|cs|] == cs;
  }

  /** Clean, filed, and holding just these records. */
  ghost predicate Small(s: Store, nodes: set<NodeId>, rels: map<RelId, (NodeId, NodeId)>) {
    && Clean(s) && Filed(s) && s.nodes.Keys == nodes && s.rels.Keys == rels.Keys
    && forall x :: x in rels ==> (s.rels[x].from, s.rels[x].to) == rels[x]
  }

  lemma SmallNode(s: Store, nodes: set<NodeId>, id: NodeId)
    requires Small(s, nodes, map[]) && id !in nodes
    ensures Small(ApplyKv(s, CreateNode(id, [], map[])), nodes + {id}, map[])
  {
    ApplyCleanExactly(s, CreateNode(id, [], map[]));
    ApplyFiled(s, CreateNode(id, [], map[]));
  }

  lemma SmallRel(s: Store, nodes: set<NodeId>, from: NodeId, to: NodeId)
    requires Small(s, nodes, map[]) && from in nodes && (to in nodes || to in s.boundary)
    ensures Small(ApplyKv(s, CreateRelationship(10, from, to, [], map[])), nodes, map[10 := (from, to)])
  {
    ApplyCleanExactly(s, CreateRelationship(10, from, to, [], map[]));
    ApplyFiled(s, CreateRelationship(10, from, to, [], map[]));
  }

  lemma SmallDrop(s: Store, nodes: set<NodeId>, ends: (NodeId, NodeId))
    requires Small(s, nodes, map[10 := ends])
    ensures Small(ApplyKv(s, DeleteRelationship(10)), nodes, map[])
  {
    ApplyCleanExactly(s, DeleteRelationship(10));
    ApplyFiled(s, DeleteRelationship(10));
  }

  /** Three nodes and one relationship from 1 to 2. */
  lemma Triangle() returns (s0: Store)
    ensures Small(s0, {1, 2, 3}, map[10 := (1, 2)])
  {
    EmptyClean();
    var a := ApplyKv(EMPTY_STORE, N1);
    var b := ApplyKv(a, N2);
    var c := ApplyKv(b, N3);
    s0 := ApplyKv(c, R12);
    SmallNode(EMPTY_STORE, {}, 1);
    SmallNode(a, {} + {1}, 2);
    SmallNode(b, {} + {1} + {2}, 3);
    assert {} + {1} + {2} + {3} == {1, 2, 3};
    SmallRel(c, {1, 2, 3}, 1, 2);
  }

  /**
   * Relationship 10 is deleted and created again between other nodes, then its old source is
   * deleted: one by one it survives, in one batch it is lost.
   */
  lemma RevivalBreaksBatch()
    ensures exists s0, cs :: Clean(s0) && Filed(s0) && Orderly(s0, cs) && ApplyBatch(s0, cs) != ReplayKv(s0, cs)
  {
    hide ApplyKv, ApplyBatch, Filed, Clean, StaleAt;
    var s0 := Triangle();
    var cs := REVIVE + [DeleteNode(1)];
    Revived(s0);
    RevivedStale(s0, ReplayKv(s0, REVIVE));
    assert cs[..2] == REVIVE && cs[2] == DeleteNode(1);
    assert StaleHit(s0, cs, 2, 10);
    LastStaleDiffers(s0, cs, 10);
  }

  const REVIVE := [DeleteRelationship(10), R23]

  lemma Revived(s0: Store)
    requires Small(s0, {1, 2, 3}, map[10 := (1, 2)])
    ensures Orderly(s0, REVIVE + [DeleteNode(1)]) && Small(ReplayKv(s0, REVIVE), {1, 2, 3}, map[10 := (2, 3)])
  {
    hide ApplyKv, Filed, Clean;
    var drop := DeleteRelationship(10);
    assert [] + [drop] == [drop] && [drop] + [R23] == REVIVE;
    Append(s0, [], drop);
    Append(s0, [drop], R23);
    Append(s0, REVIVE, DeleteNode(1));
    SmallDrop(s0, {1, 2, 3}, (1, 2));
    SmallRel(ReplayKv(s0, [drop]), {1, 2, 3}, 2, 3);
  }

  lemma RevivedStale(s0: Store, cur: Store)
    requires Small(s0, {1, 2, 3}, map[10 := (1, 2)]) && Small(cur, {1, 2, 3}, map[10 := (2, 3)])
    ensures StaleAt(s0, cur, 1, 10)
  {
    assert CleanKey(s0, KOut(1, 10));
    InOutIds(s0.keys, 1, 10);
  }

  const B5 := UpsertBoundaryNode(5, 9, [], map[], 1)
  const R15 := CreateRelationship(10, 1, 5, [], map[])
  const TOUCH := RemoveRelationshipProperty(10, [])
  const N5 := CreateNode(5, [], map[])

  /** One node, one boundary node, and a relationship to it, which has no incoming keys. */
  lemma Crossing() returns (s0: Store)
    ensures Small(s0, {1}, map[10 := (1, 5)]) && 5 in s0.boundary
  {
    EmptyClean();
    var a := ApplyKv(EMPTY_STORE, N1);
    SmallNode(EMPTY_STORE, {}, 1);
    ApplyCleanExactly(a, B5);
    ApplyFiled(a, B5);
    var b := ApplyKv(a, B5);
    assert {} + {1} == {1};
    SmallRel(b, {1}, 1, 5);
    s0 := ApplyKv(b, R15);
  }

  /**
   * A node created under the id of a boundary node adopts the relationship that points at it.
   * If the batch has touched that relationship, deleting the node again deletes it too; one by
   * one it stays.
   */
  lemma AdoptionBreaksBatch()
    ensures exists s0, cs :: Clean(s0) && Filed(s0) && TakenKv(s0, cs) && NoRevival(s0, cs)
              && ApplyBatch(s0, cs) != ReplayKv(s0, cs) && 10 in ReplayKv(s0, cs).rels
  {
    var s0 := Crossing();
    var cs := [TOUCH] + [N5] + [DeleteNode(5)];
    OneByOneKeeps(s0);
    BatchLoses(s0);
    assert NoRevival(s0, cs);
  }

  lemma OneByOneKeeps(s0: Store)
    requires Clean(s0) && s0.nodes.Keys == {1} && s0.rels.Keys == {10} && s0.rels[10].from == 1
    ensures 10 in ReplayKv(s0, [TOUCH] + [N5] + [DeleteNode(5)]).rels
    ensures TakenKv(s0, [TOUCH] + [N5] + [DeleteNode(5)])
  {
    hide ApplyKv, Adopts, Orderly;
    OneByOneTouches(s0);
    Append(s0, [TOUCH] + [N5], DeleteNode(5));
    OneByOneDrops(s0, ReplayKv(s0, [TOUCH] + [N5]));
  }

  lemma OneByOneTouches(s0: Store)
    requires 10 in s0.rels && 5 !in s0.nodes
    ensures var s := ReplayKv(s0, [TOUCH] + [N5]); s.keys == s0.keys && 10 in s.rels && 5 in s.nodes
    ensures TakenKv(s0, [TOUCH] + [N5])
  {
    hide Adopts, Orderly;
    assert [] + [TOUCH] == [TOUCH];
    Append(s0, [], TOUCH);
    Append(s0, [TOUCH], N5);
    assert NodeKeys(Node(5, [], map[])) == {};
  }

  lemma OneByOneDrops(s0: Store, s: Store)
    requires Clean(s0) && s0.nodes.Keys == {1} && s0.rels.Keys == {10} && s0.rels[10].from == 1
    requires s.keys == s0.keys && 10 in s.rels
    ensures 10 in ApplyKv(s, DeleteNode(5)).rels
  {
    InOutIds(s.keys, 5, 10);
    assert CleanKey(s0, KOut(5, 10)) && CleanKey(s0, KIn(5, 10));
  }

  lemma BatchAppend(s0: Store, cs: seq<Command>, c: Command)
    ensures BatchRun(s0, cs + [c]) == BatchStep(s0, BatchRun(s0, cs).0, BatchRun(s0, cs).1, c)
  {
    assert (cs + [c])[..|cs|] == cs;
  }

  lemma BatchLoses(s0: Store)
    requires 10 in s0.rels && s0.rels[10].to == 5
    ensures 10 !in ApplyBatch(s0, [TOUCH] + [N5] + [DeleteNode(5)]).rels
  {
    hide BatchStep;
    BatchTouches(s0);
    BatchAppend(s0, [TOUCH] + [N5], DeleteNode(5));
    var (st, cur) := BatchRun(s0, [TOUCH] + [N5]);
    DropsStaged(s0, st, cur);
  }

  lemma BatchTouches(s0: Store)
    requires 10 in s0.rels && s0.rels[10].to == 5
    ensures var st := BatchRun(s0, [TOUCH] + [N5]).0;
            st.rels == map[10 := Some(EditRel(s0.rels[10], TOUCH))] && Look(s0.nodes, st.nodes, 5).Some?
  {
    assert [] + [TOUCH] == [TOUCH];
    BatchAppend(s0, [], TOUCH);
    BatchAppend(s0, [TOUCH], N5);
  }

  lemma DropsStaged(s0: Store, st: Staged, cur: Store)
    requires 10 in s0.rels && s0.rels[10].to == 5
    requires st.rels == map[10 := Some(EditRel(s0.rels[10], TOUCH))] && Look(s0.nodes, st.nodes, 5).Some?
    ensures 10 !in BatchStep(s0, st, cur, DeleteNode(5)).1.rels
  {
    assert 10 in StagedIds(s0, st, 5);
  }
}
