/** Two things a log determines besides its facts: the order of adjacency lists, and the id counters. */
module GraphOrder {
  import opened Basics
  import opened Model
  import opened Graph
  import opened GraphInvariant
  import opened GraphStore

  /** The position of the last creation of relationship `r`, or -1. */
  function CreatedAt(cs: seq<Command>, r: RelId): (p: int)
    ensures -1 <= p < |cs|
  {
    if cs == [] then -1
    else if cs[|cs| - 1].CreateRelationship? && cs[|cs| - 1].relId == r then |cs| - 1
    else CreatedAt(cs[..|cs| - 1], r)
  }

  /** The ids stand in the order in which the log created them. */
  ghost predicate Aged(cs: seq<Command>, ids: seq<RelId>) {
    forall i, j :: 0 <= i < j < |ids| ==> CreatedAt(cs, ids[i]) < CreatedAt(cs, ids[j])
  }

  lemma {:induction false} WithoutAged(cs: seq<Command>, ids: seq<RelId>, x: RelId)
    requires Aged(cs, ids)
    ensures Aged(cs, Without(ids, x))
  {
    hide CreatedAt;
    if ids != [] {
      var front := ids[..|ids| - 1];
      WithoutAged(cs, front, x);
      var kept := Without(front, x);
      forall i | 0 <= i < |kept|
        ensures kept[i] in front
      {
        WithoutElements(front, x, kept[i]);
      }
    }
  }

  lemma {:induction false} OfTypeAged(cs: seq<Command>, rels: map<RelId, Relationship>, ids: seq<RelId>, t: Text)
    requires Aged(cs, ids)
    ensures Aged(cs, OfType(rels, ids, t))
  {
    hide CreatedAt;
    if ids != [] {
      var front := ids[..|ids| - 1];
      OfTypeAged(cs, rels, front, t);
      var kept := OfType(rels, front, t);
      forall i | 0 <= i < |kept|
        ensures kept[i] in front
      {
        OfTypeElements(rels, front, t, kept[i]);
      }
    }
  }

  /** Both lists of a node. */
  ghost predicate ListsAged(cs: seq<Command>, g: Graph, n: NodeId) {
    Aged(cs, GetOr(g.lists.outgoing, n, [])) && Aged(cs, GetOr(g.lists.incoming, n, []))
  }

  lemma DropRelAged(cs: seq<Command>, g: Graph, id: RelId, n: NodeId)
    requires id in g.rels && ListsAged(cs, g, n)
    ensures ListsAged(cs, DropRel(g, id), n)
  {
    hide Aged;
    WithoutAged(cs, GetOr(g.lists.outgoing, n, []), id);
    WithoutAged(cs, GetOr(g.lists.incoming, n, []), id);
  }

  lemma {:induction false} DropRelsAged(cs: seq<Command>, g: Graph, ids: seq<RelId>, n: NodeId)
    requires ListsAged(cs, g, n)
    ensures ListsAged(cs, DropRels(g, ids).0, n)
    decreases |ids|
  {
    hide ListsAged, DropRel;
    if ids != [] && ids[0] in g.rels {
      DropRelAged(cs, g, ids[0], n);
      DropRelsAged(cs, DropRel(g, ids[0]), ids[1..], n);
    }
  }

  lemma DropNodeAged(cs: seq<Command>, g: Graph, id: NodeId, n: NodeId)
    requires id in g.nodes && ListsAged(cs, g, n)
    ensures ListsAged(cs, DropNode(g, id).0, n)
  {
    hide DropRels;
    DropRelsAged(cs, g, SortedIds(Touching(g.lists, id)), n);
  }

  /** A new id is younger than all listed ones, which keep their age. */
  lemma PushAged(cs: seq<Command>, c: Command, ids: seq<RelId>)
    requires Aged(cs, ids) && c.CreateRelationship? && c.relId !in ids
    ensures Aged(cs + [c], ids) && Aged(cs + [c], ids + [c.relId])
  {
    var cs' := cs + [c];
    assert cs'[..|cs|] == cs;
    forall i | 0 <= i < |ids|
      ensures CreatedAt(cs', ids[i]) == CreatedAt(cs, ids[i])
    {
      assert ids[i] in ids;
    }
  }

  lemma CreateAged(cs: seq<Command>, g: Graph, c: Command, n: NodeId)
    requires Inv(g) && c.CreateRelationship? && c.relId !in g.rels && ListsAged(cs, g, n)
    ensures ListsAged(cs + [c], CreateRel(g, Relationship(c.relId, c.from, c.to, c.relType, c.properties)), n)
  {
    hide Aged;
    assert OutOk(g.rels, g.lists, n) && InOk(g.rels, g.lists, n);
    PushAged(cs, c, GetOr(g.lists.outgoing, n, []));
    PushAged(cs, c, GetOr(g.lists.incoming, n, []));
  }

  /** Other commands make nothing younger. */
  lemma SameAge(cs: seq<Command>, c: Command, ids: seq<RelId>)
    requires Aged(cs, ids) && !c.CreateRelationship?
    ensures Aged(cs + [c], ids)
  {
    assert (cs + [c])[..|cs|] == cs;
  }

  lemma StepAged(cs: seq<Command>, g: Graph, c: Command, n: NodeId)
    requires Inv(g) && Accepts(g, c) && ListsAged(cs, g, n)
    ensures ListsAged(cs + [c], Apply(g, c).0, n)
  {
    hide Aged, Inv, Enter, TakeOut, DropNode, CreateRel, DropRel;
    match c
    case CreateRelationship(_, _, _, _, _) => CreateAged(cs, g, c, n);
    case DeleteRelationship(id) =>
      DropRelAged(cs, g, id, n);
      ListsSameAge(cs, Apply(g, c).0, c, n);
    case DeleteNode(id) =>
      DropNodeAged(cs, g, id, n);
      ListsSameAge(cs, Apply(g, c).0, c, n);
    case _ => ListsSameAge(cs, g, c, n);
  }

  lemma ListsSameAge(cs: seq<Command>, g: Graph, c: Command, n: NodeId)
    requires ListsAged(cs, g, n) && !c.CreateRelationship?
    ensures ListsAged(cs + [c], g, n)
  {
    hide Aged;
    SameAge(cs, c, GetOr(g.lists.outgoing, n, []));
    SameAge(cs, c, GetOr(g.lists.incoming, n, []));
  }

  /** After every accepted log all four adjacency lists of a node are in order of creation. */
  lemma {:induction false} AdjacencyInOrder(cs: seq<Command>, n: NodeId, t: Text)
    requires AcceptsAll(EMPTY, cs)
    ensures var ls := Replay(EMPTY, cs).lists;
            && Aged(cs, GetOr(ls.outgoing, n, [])) && Aged(cs, GetOr(ls.incoming, n, []))
            && Aged(cs, GetOr(ls.outByType, (n, t), [])) && Aged(cs, GetOr(ls.inByType, (n, t), []))
  {
    hide Aged;
    PlainInOrder(cs, n);
    ReachableInv(cs);
    var g := Replay(EMPTY, cs);
    assert TypedOutOk(g.rels, g.lists, n, t) && TypedInOk(g.rels, g.lists, n, t);
    OfTypeAged(cs, g.rels, GetOr(g.lists.outgoing, n, []), t);
    OfTypeAged(cs, g.rels, GetOr(g.lists.incoming, n, []), t);
  }

  lemma {:induction false} PlainInOrder(cs: seq<Command>, n: NodeId)
    requires AcceptsAll(EMPTY, cs)
    ensures ListsAged(cs, Replay(EMPTY, cs), n)
  {
    hide Apply, Inv;
    if cs != [] {
      hide ListsAged;
      var front, last := cs[..|cs| - 1], cs[|cs| - 1];
      PlainInOrder(front, n);
      ReachableInv(front);
      StepAged(front, Replay(EMPTY, front), last, n);
      assert front + [last] == cs;
    }
  }

  // ----- Counters -----

  /** The least number above every created node id, and every created relationship id. */
  function NextNode(cs: seq<Command>): u64 {
    if cs == [] then 0
    else
      var was, last := NextNode(cs[..|cs| - 1]), cs[|cs| - 1];
      if last.CreateNode? then Max(was, SatInc(last.id)) else was
  }

  function NextRel(cs: seq<Command>): u64 {
    if cs == [] then 0
    else
      var was, last := NextRel(cs[..|cs| - 1]), cs[|cs| - 1];
      if last.CreateRelationship? then Max(was, SatInc(last.relId)) else was
  }

  lemma {:induction false} DropRelsCounters(g: Graph, ids: seq<RelId>)
    ensures var g' := DropRels(g, ids).0; g'.nextNode == g.nextNode && g'.nextRel == g.nextRel
    decreases |ids|
  {
    hide Unlink;
    if ids != [] && ids[0] in g.rels { DropRelsCounters(DropRel(g, ids[0]), ids[1..]); }
  }

  lemma {:induction false} CountersMean(cs: seq<Command>)
    requires AcceptsAll(EMPTY, cs)
    ensures var g := Replay(EMPTY, cs); g.nextNode == NextNode(cs) && g.nextRel == NextRel(cs)
  {
    hide Inv, Enter, TakeOut, Link, Unlink, DropRels;
    if cs != [] {
      var front, last := cs[..|cs| - 1], cs[|cs| - 1];
      CountersMean(front);
      var g := Replay(EMPTY, front);
      if last.DeleteNode? { DropRelsCounters(g, SortedIds(Touching(g.lists, last.id))); }
    }
  }

  /** The counters lie above every created id (below saturation), and no higher than needed. */
  lemma {:induction false} CountersTight(cs: seq<Command>)
    ensures forall i :: 0 <= i < |cs| && cs[i].CreateNode? ==> SatInc(cs[i].id) <= NextNode(cs)
    ensures NextNode(cs) == 0 || exists i :: 0 <= i < |cs| && cs[i].CreateNode? && SatInc(cs[i].id) == NextNode(cs)
    ensures forall i :: 0 <= i < |cs| && cs[i].CreateRelationship? ==> SatInc(cs[i].relId) <= NextRel(cs)
    ensures NextRel(cs) == 0
            || exists i :: 0 <= i < |cs| && cs[i].CreateRelationship? && SatInc(cs[i].relId) == NextRel(cs)
  {
    if cs != [] {
      var n := |cs| - 1;
      var front := cs[..n];
      CountersTight(front);
      if NextNode(front) != 0 {
        var i :| 0 <= i < n && front[i].CreateNode? && SatInc(front[i].id) == NextNode(front);
        assert cs[i] == front[i];
      }
      if NextRel(front) != 0 {
        var i :| 0 <= i < n && front[i].CreateRelationship? && SatInc(front[i].relId) == NextRel(front);
        assert cs[i] == front[i];
      }
      assert forall i :: 0 <= i < n ==> cs[i] == front[i];
    }
  }
}
