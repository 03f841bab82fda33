/** What every reachable graph satisfies, and that failed commands change nothing. */
module GraphInvariant {
  import opened Basics
  import opened Model
  import opened Graph

  ghost predicate Distinct(ids: seq<RelId>) {
    forall i, j :: 0 <= i < j < |ids| ==> ids[i] != ids[j]
  }

  /** The relationships of `ids` that have type `t`, in order. */
  ghost function OfType(rels: map<RelId, Relationship>, ids: seq<RelId>, t: Text): seq<RelId> {
    if ids == [] then []
    else
      var last := ids[|ids| - 1];
      OfType(rels, ids[..|ids| - 1], t) + (if last in rels && rels[last].relType == t then [last] else [])
  }

  // Each quantifier is triggered by the name of its own body only.

  /** The outgoing list of `n` names known relationships, each once, that all start at `n`. */
  ghost predicate OutOk(rels: map<RelId, Relationship>, ls: Lists, n: NodeId) {
    var ids := GetOr(ls.outgoing, n, []);
    Distinct(ids) && forall x {:trigger x in ids} :: x in ids ==> x in rels && rels[x].from == n
  }

  ghost predicate InOk(rels: map<RelId, Relationship>, ls: Lists, n: NodeId) {
    var ids := GetOr(ls.incoming, n, []);
    Distinct(ids) && forall x {:trigger x in ids} :: x in ids ==> x in rels && rels[x].to == n
  }

  ghost predicate TypedOutOk(rels: map<RelId, Relationship>, ls: Lists, n: NodeId, t: Text) {
    GetOr(ls.outByType, (n, t), []) == OfType(rels, GetOr(ls.outgoing, n, []), t)
  }

  ghost predicate TypedInOk(rels: map<RelId, Relationship>, ls: Lists, n: NodeId, t: Text) {
    GetOr(ls.inByType, (n, t), []) == OfType(rels, GetOr(ls.incoming, n, []), t)
  }

  /** Plain lists are exact, and typed lists are their filters by type. */
  ghost predicate ListsOk(rels: map<RelId, Relationship>, ls: Lists) {
    && (forall n {:trigger OutOk(rels, ls, n)} :: OutOk(rels, ls, n))
    && (forall n {:trigger InOk(rels, ls, n)} :: InOk(rels, ls, n))
    && (forall n, t {:trigger TypedOutOk(rels, ls, n, t)} :: TypedOutOk(rels, ls, n, t))
    && (forall n, t {:trigger TypedInOk(rels, ls, n, t)} :: TypedInOk(rels, ls, n, t))
  }

  /** Source local; target local or boundary; listed at its source, and at a target without a boundary record. */
  ghost predicate RelOk(g: Graph, r: RelId)
    requires r in g.rels
  {
    var e := g.rels[r];
    && e.id == r && e.from in g.nodes && (e.to in g.nodes || e.to in g.boundary)
    && r in GetOr(g.lists.outgoing, e.from, [])
    && (r in GetOr(g.lists.incoming, e.to, []) || e.to in g.boundary)
  }

  ghost predicate Adjacency(g: Graph) {
    && g.lists.outgoing.Keys == g.nodes.Keys && g.lists.incoming.Keys == g.nodes.Keys
    && ListsOk(g.rels, g.lists)
    && (forall r {:trigger RelOk(g, r)} :: r in g.rels ==> RelOk(g, r))
  }

  ghost predicate LabelOk(nodes: map<NodeId, Node>, ix: NodeIndex, l: Text, n: NodeId) {
    n in GetOr(ix.labels, l, {}) <==> n in nodes && l in nodes[n].labels
  }

  ghost predicate PropOk(nodes: map<NodeId, Node>, ix: NodeIndex, lp: LabelProp, n: NodeId) {
    n in GetOr(ix.props, lp, {}) <==> n in nodes && lp in LabelProps(nodes[n].labels, nodes[n].properties)
  }

  /** Both node indexes equal their definition over the node records. */
  ghost predicate IndexOk(nodes: map<NodeId, Node>, ix: NodeIndex) {
    && (forall l, n {:trigger LabelOk(nodes, ix, l, n)} :: LabelOk(nodes, ix, l, n))
    && (forall lp, n {:trigger PropOk(nodes, ix, lp, n)} :: PropOk(nodes, ix, lp, n))
  }

  ghost predicate NodeOk(g: Graph, n: NodeId)
    requires n in g.nodes
  {
    g.nodes[n].id == n && SatInc(n) <= g.nextNode
  }

  ghost predicate NodesOk(g: Graph) {
    forall n {:trigger NodeOk(g, n)} :: n in g.nodes ==> NodeOk(g, n)
  }

  ghost predicate BoundaryPropOk(g: Graph, lp: LabelProp, n: NodeId) {
    n in GetOr(g.boundaryProps, lp, {}) <==>
      n in g.boundary && lp in LabelProps(g.boundary[n].labels, g.boundary[n].properties)
  }

  ghost predicate BoundaryOk(g: Graph) {
    && (forall b :: b in g.boundary ==> g.boundary[b].id == b)
    && (forall lp, n {:trigger BoundaryPropOk(g, lp, n)} :: BoundaryPropOk(g, lp, n))
  }

  ghost predicate Inv(g: Graph) {
    Adjacency(g) && IndexOk(g.nodes, g.index) && NodesOk(g) && BoundaryOk(g)
  }

  lemma EmptyInv()
    ensures Inv(EMPTY)
  {
    var ls := EMPTY.lists;
    forall n
      ensures OutOk(map[], ls, n) && InOk(map[], ls, n)
    {
    }
    forall n, t
      ensures TypedOutOk(map[], ls, n, t) && TypedInOk(map[], ls, n, t)
    {
    }
    forall l, n
      ensures LabelOk(map[], EMPTY.index, l, n)
    {
    }
    forall lp, n
      ensures PropOk(map[], EMPTY.index, lp, n) && BoundaryPropOk(EMPTY, lp, n)
    {
    }
  }

  // ----- Lists -----

  lemma {:induction false} WithoutElements(ids: seq<RelId>, x: RelId, y: RelId)
    ensures y in Without(ids, x) <==> y in ids && y != x
  {
    if ids != [] {
      var front, last := ids[..|ids| - 1], ids[|ids| - 1];
      WithoutElements(front, x, y);
      assert y in ids <==> y in front || y == last;
    }
  }

  lemma {:induction false} WithoutDistinct(ids: seq<RelId>, x: RelId)
    requires Distinct(ids)
    ensures Distinct(Without(ids, x))
  {
    if ids != [] {
      var front, last := ids[..|ids| - 1], ids[|ids| - 1];
      WithoutDistinct(front, x);
      WithoutElements(front, x, last);
    }
  }

  lemma {:induction false} WithoutAbsent(ids: seq<RelId>, x: RelId)
    requires x !in ids
    ensures Without(ids, x) == ids
  {
    if ids != [] {
      var front, last := ids[..|ids| - 1], ids[|ids| - 1];
      WithoutAbsent(front, x);
      assert ids == front + [last];
    }
  }

  lemma WithoutPush(ids: seq<RelId>, y: RelId, x: RelId)
    ensures Without(ids + [y], x) == Without(ids, x) + (if y == x then [] else [y])
  {
    assert (ids + [y])[..|ids|] == ids;
  }

  /** Filtering by type depends only on the types of the listed relationships. */
  lemma {:induction false} OfTypeSame(rels: map<RelId, Relationship>, rels': map<RelId, Relationship>,
      ids: seq<RelId>, t: Text)
    requires forall x {:trigger x in ids} :: x in ids ==> (x in rels <==> x in rels') && (x in rels ==>
              rels[x].relType == rels'[x].relType)
    ensures OfType(rels, ids, t) == OfType(rels', ids, t)
  {
    if ids != [] {
      var front, last := ids[..|ids| - 1], ids[|ids| - 1];
      assert forall x :: x in front ==> x in ids;
      OfTypeSame(rels, rels', front, t);
      assert last in ids;
    }
  }

  lemma OfTypePush(rels: map<RelId, Relationship>, ids: seq<RelId>, x: RelId, t: Text)
    ensures OfType(rels, ids + [x], t) ==
            OfType(rels, ids, t) + (if x in rels && rels[x].relType == t then [x] else [])
  {
    assert (ids + [x])[..|ids|] == ids;
  }

  /** Filtering commutes with removal. */
  lemma {:induction false} OfTypeWithout(rels: map<RelId, Relationship>, ids: seq<RelId>, x: RelId, t: Text)
    ensures OfType(rels - {x}, Without(ids, x), t) == Without(OfType(rels, ids, t), x)
  {
    if ids != [] {
      var front, last := ids[..|ids| - 1], ids[|ids| - 1];
      OfTypeWithout(rels, front, x, t);
      WithoutPush(OfType(rels, front, t), last, x);
      OfTypePush(rels - {x}, Without(front, x), last, t);
      assert Without(front, x) + [] == Without(front, x);
      assert OfType(rels, front, t) + [] == OfType(rels, front, t);
    }
  }

  lemma {:induction false} OfTypeElements(rels: map<RelId, Relationship>, ids: seq<RelId>, t: Text, x: RelId)
    ensures x in OfType(rels, ids, t) <==> x in ids && x in rels && rels[x].relType == t
  {
    if ids != [] {
      var front, last := ids[..|ids| - 1], ids[|ids| - 1];
      OfTypeElements(rels, front, t, x);
      assert x in ids <==> x in front || x == last;
    }
  }

  // ----- Filing and removing a relationship -----

  /** A list of known relationships, each once. */
  ghost predicate Listed(rels: map<RelId, Relationship>, ids: seq<RelId>) {
    Distinct(ids) && forall x {:trigger x in ids} :: x in ids ==> x in rels
  }

  lemma PushKeepsListed(rels: map<RelId, Relationship>, m: map<NodeId, seq<RelId>>, at: NodeId, n: NodeId,
      r: Relationship)
    requires Listed(rels, GetOr(m, n, [])) && r.id !in rels
    ensures Listed(rels[r.id := r], GetOr(Push(m, at, r.id), n, []))
    ensures forall y {:trigger y in GetOr(Push(m, at, r.id), n, [])} ::
              y in GetOr(Push(m, at, r.id), n, []) <==> y in GetOr(m, n, []) || (n == at && y == r.id)
  {
    var ids := GetOr(m, n, []);
    assert forall i :: 0 <= i < |ids| ==> ids[i] in ids;
  }

  /** Filing a new relationship in a plain and in a typed list keeps the second the filter of the first. */
  lemma TypedPush(
    rels: map<RelId, Relationship>, plain: map<NodeId, seq<RelId>>, typed: map<(NodeId, Text), seq<RelId>>,
    r: Relationship, at: NodeId, n: NodeId, t: Text)
    requires r.id !in rels && Listed(rels, GetOr(plain, n, []))
    requires GetOr(typed, (n, t), []) == OfType(rels, GetOr(plain, n, []), t)
    ensures GetOr(Push(typed, (at, r.relType), r.id), (n, t), [])
            == OfType(rels[r.id := r], GetOr(Push(plain, at, r.id), n, []), t)
  {
    var ids := GetOr(plain, n, []);
    OfTypeSame(rels, rels[r.id := r], ids, t);
    OfTypePush(rels[r.id := r], ids, r.id, t);
  }

  lemma LinkKeepsLists(rels: map<RelId, Relationship>, ls: Lists, r: Relationship, local: bool)
    requires ListsOk(rels, ls) && r.id !in rels
    ensures ListsOk(rels[r.id := r], Link(ls, r, local))
  {
    var rels', ls' := rels[r.id := r], Link(ls, r, local);
    forall n
      ensures OutOk(rels', ls', n)
    {
      assert OutOk(rels, ls, n);
      PushKeepsListed(rels, ls.outgoing, r.from, n, r);
    }
    forall n
      ensures InOk(rels', ls', n)
    {
      assert InOk(rels, ls, n);
      PushKeepsListed(rels, ls.incoming, r.to, n, r);
    }
    forall n, t
      ensures TypedOutOk(rels', ls', n, t)
    {
      assert TypedOutOk(rels, ls, n, t) && OutOk(rels, ls, n);
      TypedPush(rels, ls.outgoing, ls.outByType, r, r.from, n, t);
    }
    forall n, t
      ensures TypedInOk(rels', ls', n, t)
    {
      assert TypedInOk(rels, ls, n, t) && InOk(rels, ls, n);
      TypedPush(rels, ls.incoming, ls.inByType, r, r.to, n, t);
      OfTypeSame(rels, rels', GetOr(ls.incoming, n, []), t);
    }
  }

  /** What deleting a relationship does to a list, wherever it was listed. */
  lemma DropReads<K>(m: map<K, seq<RelId>>, at: K, k: K, x: RelId)
    requires k != at ==> x !in GetOr(m, k, [])
    ensures GetOr(Drop(m, at, x), k, []) == Without(GetOr(m, k, []), x)
  {
    if k != at { WithoutAbsent(GetOr(m, k, []), x); }
  }

  lemma DropKeepsListed(rels: map<RelId, Relationship>, m: map<NodeId, seq<RelId>>, at: NodeId, n: NodeId, x: RelId)
    requires Listed(rels, GetOr(m, n, [])) && (n != at ==> x !in GetOr(m, n, []))
    ensures Listed(rels - {x}, GetOr(Drop(m, at, x), n, []))
    ensures forall y {:trigger y in GetOr(Drop(m, at, x), n, [])} ::
              y in GetOr(Drop(m, at, x), n, []) <==> y in GetOr(m, n, []) && y != x
  {
    var ids := GetOr(m, n, []);
    DropReads(m, at, n, x);
    WithoutDistinct(ids, x);
    forall y
      ensures y in Without(ids, x) <==> y in ids && y != x
    {
      WithoutElements(ids, x, y);
    }
  }

  /** Removing a relationship from a plain and from its typed list keeps the filter. */
  lemma TypedDrop(
    rels: map<RelId, Relationship>, plain: map<NodeId, seq<RelId>>, typed: map<(NodeId, Text), seq<RelId>>,
    id: RelId, at: NodeId, n: NodeId, t: Text)
    requires id in rels && (n != at ==> id !in GetOr(plain, n, []))
    requires GetOr(typed, (n, t), []) == OfType(rels, GetOr(plain, n, []), t)
    ensures GetOr(Drop(typed, (at, rels[id].relType), id), (n, t), [])
            == OfType(rels - {id}, GetOr(Drop(plain, at, id), n, []), t)
  {
    var ids := GetOr(plain, n, []);
    OfTypeElements(rels, ids, t, id);
    DropReads(plain, at, n, id);
    DropReads(typed, (at, rels[id].relType), (n, t), id);
    OfTypeWithout(rels, ids, id, t);
  }

  /** `local` may be false only if the relationship is not listed at its target. */
  lemma UnlinkKeepsLists(rels: map<RelId, Relationship>, ls: Lists, id: RelId, local: bool)
    requires ListsOk(rels, ls) && id in rels && rels[id].id == id
    requires !local ==> id !in GetOr(ls.incoming, rels[id].to, [])
    ensures ListsOk(rels - {id}, Unlink(ls, id, rels[id], local))
  {
    var r := rels[id];
    var rels', ls' := rels - {id}, Unlink(ls, id, r, local);
    forall n
      ensures OutOk(rels', ls', n)
    {
      assert OutOk(rels, ls, n);
      DropKeepsListed(rels, ls.outgoing, r.from, n, id);
    }
    forall n
      ensures InOk(rels', ls', n)
    {
      assert InOk(rels, ls, n);
      DropKeepsListed(rels, ls.incoming, r.to, n, id);
    }
    forall n, t
      ensures TypedOutOk(rels', ls', n, t)
    {
      assert TypedOutOk(rels, ls, n, t) && OutOk(rels, ls, n);
      TypedDrop(rels, ls.outgoing, ls.outByType, id, r.from, n, t);
    }
    forall n, t
      ensures TypedInOk(rels', ls', n, t)
    {
      assert TypedInOk(rels, ls, n, t) && InOk(rels, ls, n);
      if local {
        TypedDrop(rels, ls.incoming, ls.inByType, id, r.to, n, t);
      } else {
        DropReads(ls.incoming, r.to, n, id);
        WithoutAbsent(GetOr(ls.incoming, n, []), id);
        OfTypeSame(rels, rels', GetOr(ls.incoming, n, []), t);
      }
    }
  }

  // ----- Relationship commands -----

  lemma CreateRelKeepsInv(g: Graph, r: Relationship)
    requires Inv(g) && r.id !in g.rels && r.from in g.nodes && (r.to in g.nodes || r.to in g.boundary)
    ensures Inv(CreateRel(g, r))
  {
    var g' := CreateRel(g, r);
    LinkKeepsLists(g.rels, g.lists, r, r.to in g.nodes);
    forall x | x in g'.rels
      ensures RelOk(g', x)
    {
      if x != r.id { assert RelOk(g, x); }
    }
    SameNodes(g, g');
    SameBoundary(g, g');
  }

  /** Commands that touch no node record. */
  lemma SameNodes(g: Graph, g': Graph)
    requires NodesOk(g) && g'.nodes == g.nodes && g'.nextNode == g.nextNode
    ensures NodesOk(g')
  {
    forall n | n in g'.nodes
      ensures NodeOk(g', n)
    {
      assert NodeOk(g, n);
    }
  }

  lemma SameBoundary(g: Graph, g': Graph)
    requires BoundaryOk(g) && g'.boundary == g.boundary && g'.boundaryProps == g.boundaryProps
    ensures BoundaryOk(g')
  {
    forall lp, n
      ensures BoundaryPropOk(g', lp, n)
    {
      assert BoundaryPropOk(g, lp, n);
    }
  }

  lemma DropRelKeepsRel(g: Graph, id: RelId, x: RelId)
    requires Adjacency(g) && id in g.rels && x in g.rels && x != id
    ensures RelOk(DropRel(g, id), x)
  {
    var r := g.rels[id];
    assert RelOk(g, x) && OutOk(g.rels, g.lists, g.rels[x].from) && InOk(g.rels, g.lists, g.rels[x].to);
    DropKeepsListed(g.rels, g.lists.outgoing, r.from, g.rels[x].from, id);
    DropKeepsListed(g.rels, g.lists.incoming, r.to, g.rels[x].to, id);
  }

  lemma DropRelKeepsInv(g: Graph, id: RelId)
    requires Inv(g) && id in g.rels
    ensures Inv(DropRel(g, id))
  {
    assert RelOk(g, id);
    UnlinkKeepsLists(g.rels, g.lists, id, g.rels[id].to in g.nodes);
    forall x | x in DropRel(g, id).rels
      ensures RelOk(DropRel(g, id), x)
    {
      DropRelKeepsRel(g, id, x);
    }
    SameNodes(g, DropRel(g, id));
    SameBoundary(g, DropRel(g, id));
  }

  lemma SameEndsKeepLists(rels: map<RelId, Relationship>, rels': map<RelId, Relationship>, ls: Lists)
    requires ListsOk(rels, ls) && rels'.Keys == rels.Keys
    requires forall x :: x in rels ==>
               rels'[x].from == rels[x].from && rels'[x].to == rels[x].to && rels'[x].relType == rels[x].relType
    ensures ListsOk(rels', ls)
  {
    forall n
      ensures OutOk(rels', ls, n) && InOk(rels', ls, n)
    {
      assert OutOk(rels, ls, n) && InOk(rels, ls, n);
    }
    forall n, t
      ensures TypedOutOk(rels', ls, n, t) && TypedInOk(rels', ls, n, t)
    {
      assert TypedOutOk(rels, ls, n, t) && TypedInOk(rels, ls, n, t);
      OfTypeSame(rels, rels', GetOr(ls.outgoing, n, []), t);
      OfTypeSame(rels, rels', GetOr(ls.incoming, n, []), t);
    }
  }

  lemma EditRelKeepsInv(g: Graph, id: RelId, c: Command)
    requires Inv(g) && id in g.rels
    ensures Inv(g.(rels := g.rels[id := EditRel(g.rels[id], c)]))
  {
    var g' := g.(rels := g.rels[id := EditRel(g.rels[id], c)]);
    SameEndsKeepLists(g.rels, g'.rels, g.lists);
    forall x | x in g'.rels
      ensures RelOk(g', x)
    {
      assert RelOk(g, x);
    }
    SameNodes(g, g');
    SameBoundary(g, g');
  }

  // ----- Node commands -----

  lemma SameAdjacency(g: Graph, g': Graph)
    requires Adjacency(g) && g'.rels == g.rels && g'.lists == g.lists
    requires g'.nodes.Keys == g.nodes.Keys && g.boundary.Keys <= g'.boundary.Keys
    ensures Adjacency(g')
  {
    forall x | x in g'.rels
      ensures RelOk(g', x)
    {
      assert RelOk(g, x);
    }
  }

  /** Replacing an entry's keys in a secondary index leaves exactly the new keys for it. */
  lemma Reindexed<K>(ix: map<K, set<NodeId>>, before: set<K>, after: set<K>, id: NodeId, k: K, n: NodeId)
    requires id in GetOr(ix, k, {}) ==> k in before
    ensures n in GetOr(AddTo(RemoveFrom(ix, before, id), after, id), k, {}) <==>
            if n == id then k in after else n in GetOr(ix, k, {})
  {
  }

  lemma ReplaceKeepsIndex(nodes: map<NodeId, Node>, ix: NodeIndex, id: NodeId, m: Node)
    requires IndexOk(nodes, ix) && id in nodes && nodes[id].id == id && m.id == id
    ensures IndexOk(nodes[id := m], Enter(TakeOut(ix, nodes[id]), m))
  {
    var nodes', ix', old_ := nodes[id := m], Enter(TakeOut(ix, nodes[id]), m), nodes[id];
    forall l, n
      ensures LabelOk(nodes', ix', l, n)
    {
      assert LabelOk(nodes, ix, l, n) && LabelOk(nodes, ix, l, id);
      Reindexed(ix.labels, Labels(old_.labels), Labels(m.labels), id, l, n);
    }
    forall lp, n
      ensures PropOk(nodes', ix', lp, n)
    {
      assert PropOk(nodes, ix, lp, n) && PropOk(nodes, ix, lp, id);
      Reindexed(ix.props, LabelProps(old_.labels, old_.properties), LabelProps(m.labels, m.properties), id, lp, n);
    }
  }

  lemma EditNodeKeepsInv(g: Graph, id: NodeId, c: Command)
    requires Inv(g) && id in g.nodes
    ensures Inv(ReplaceNode(g, id, EditNode(g.nodes[id], c)))
  {
    var m := EditNode(g.nodes[id], c);
    var g' := ReplaceNode(g, id, m);
    assert NodeOk(g, id);
    ReplaceKeepsIndex(g.nodes, g.index, id, m);
    forall n | n in g'.nodes
      ensures NodeOk(g', n)
    {
      assert NodeOk(g, n);
    }
    SameAdjacency(g, g');
    SameBoundary(g, g');
  }

  lemma EnterKeepsIndex(nodes: map<NodeId, Node>, ix: NodeIndex, m: Node)
    requires IndexOk(nodes, ix) && m.id !in nodes
    ensures IndexOk(nodes[m.id := m], Enter(ix, m))
  {
    var nodes', ix' := nodes[m.id := m], Enter(ix, m);
    forall l, n
      ensures LabelOk(nodes', ix', l, n)
    {
      assert LabelOk(nodes, ix, l, n);
    }
    forall lp, n
      ensures PropOk(nodes', ix', lp, n)
    {
      assert PropOk(nodes, ix, lp, n);
    }
  }

  lemma TakeOutKeepsIndex(nodes: map<NodeId, Node>, ix: NodeIndex, id: NodeId)
    requires IndexOk(nodes, ix) && id in nodes && nodes[id].id == id
    ensures IndexOk(nodes - {id}, TakeOut(ix, nodes[id]))
  {
    var nodes', ix' := nodes - {id}, TakeOut(ix, nodes[id]);
    forall l, n
      ensures LabelOk(nodes', ix', l, n)
    {
      assert LabelOk(nodes, ix, l, n);
    }
    forall lp, n
      ensures PropOk(nodes', ix', lp, n)
    {
      assert PropOk(nodes, ix, lp, n);
    }
  }

  /** Lists that read the same are equally good. */
  lemma SameReadsKeepLists(rels: map<RelId, Relationship>, ls: Lists, ls': Lists)
    requires ListsOk(rels, ls) && ls'.outByType == ls.outByType && ls'.inByType == ls.inByType
    requires forall n: NodeId {:trigger GetOr(ls'.outgoing, n, [])} :: GetOr(ls'.outgoing, n, []) ==
              GetOr(ls.outgoing, n, [])
    requires forall n: NodeId {:trigger GetOr(ls'.incoming, n, [])} :: GetOr(ls'.incoming, n, []) ==
              GetOr(ls.incoming, n, [])
    ensures ListsOk(rels, ls')
  {
    forall n
      ensures OutOk(rels, ls', n) && InOk(rels, ls', n)
    {
      assert OutOk(rels, ls, n) && InOk(rels, ls, n);
    }
    forall n, t
      ensures TypedOutOk(rels, ls', n, t) && TypedInOk(rels, ls', n, t)
    {
      assert TypedOutOk(rels, ls, n, t) && TypedInOk(rels, ls, n, t);
    }
  }

  /** A new node starts with empty lists, even where relationships already point at its id. */
  lemma CreateNodeKeepsInv(g: Graph, m: Node)
    requires Inv(g) && m.id !in g.nodes
    ensures Inv(CreateNodeIn(g, m))
  {
    var g' := CreateNodeIn(g, m);
    EnterKeepsIndex(g.nodes, g.index, m);
    SameReadsKeepLists(g.rels, g.lists, g'.lists);
    forall x | x in g'.rels
      ensures RelOk(g', x)
    {
      assert RelOk(g, x);
    }
    forall n | n in g'.nodes
      ensures NodeOk(g', n)
    {
      if n != m.id { assert NodeOk(g, n); }
    }
    SameBoundary(g, g');
  }

  lemma UpsertBoundaryKeepsInv(g: Graph, b: BoundaryNode)
    requires Inv(g)
    ensures Inv(UpsertBoundary(g, b))
  {
    var g' := UpsertBoundary(g, b);
    var before := if b.id in g.boundary then LabelProps(g.boundary[b.id].labels, g.boundary[b.id].properties) else {};
    forall lp, n
      ensures BoundaryPropOk(g', lp, n)
    {
      assert BoundaryPropOk(g, lp, n) && BoundaryPropOk(g, lp, b.id);
      Reindexed(g.boundaryProps, before, LabelProps(b.labels, b.properties), b.id, lp, n);
    }
    SameAdjacency(g, g');
    SameNodes(g, g');
  }

  // ----- Deleting a node -----

  /** A run of deletions of listed relationships never fails, and removes exactly those. */
  lemma {:induction false} DropRelsSucceeds(g: Graph, ids: seq<RelId>)
    requires Inv(g) && Distinct(ids) && forall x :: x in ids ==> x in g.rels
    ensures var (g', failed) := DropRels(g, ids);
            && failed.None? && Inv(g') && g'.nodes == g.nodes && g'.boundary == g.boundary && g'.index == g.index
            && (forall x :: x in g'.rels <==> x in g.rels && x !in ids)
            && (forall x :: x in g'.rels ==> g'.rels[x] == g.rels[x])
    decreases |ids|
  {
    if ids != [] {
      var g1, rest := DropRel(g, ids[0]), ids[1..];
      DropRelKeepsInv(g, ids[0]);
      assert forall x :: x in ids <==> x == ids[0] || x in rest;
      DropRelsSucceeds(g1, rest);
    }
  }

  lemma TouchingListed(g: Graph, id: NodeId)
    requires Inv(g)
    ensures Distinct(SortedIds(Touching(g.lists, id)))
    ensures forall x :: x in SortedIds(Touching(g.lists, id)) <==> x in Touching(g.lists, id)
    ensures forall x :: x in Touching(g.lists, id) ==> x in g.rels
    ensures forall x :: x in g.rels && g.rels[x].from == id ==> x in Touching(g.lists, id)
    ensures forall x :: x in g.rels && g.rels[x].to == id && x !in Touching(g.lists, id) ==> id in g.boundary
  {
    SortedIdsElements(Touching(g.lists, id));
    SortedIdsAscend(Touching(g.lists, id));
    assert OutOk(g.rels, g.lists, id) && InOk(g.rels, g.lists, id);
    forall x | x in g.rels
      ensures g.rels[x].from == id ==> x in Touching(g.lists, id)
      ensures g.rels[x].to == id && x !in Touching(g.lists, id) ==> id in g.boundary
    {
      assert RelOk(g, x);
    }
  }

  /** Once nothing listed at `id` is left, its lists can go. */
  lemma RemoveEmptyLists(rels: map<RelId, Relationship>, ls: Lists, id: NodeId)
    requires ListsOk(rels, ls) && GetOr(ls.outgoing, id, []) == [] && GetOr(ls.incoming, id, []) == []
    ensures ListsOk(rels, ls.(outgoing := ls.outgoing - {id}, incoming := ls.incoming - {id}))
  {
    SameReadsKeepLists(rels, ls, ls.(outgoing := ls.outgoing - {id}, incoming := ls.incoming - {id}));
  }

  lemma ListsEmptied(g: Graph, g1: Graph, id: NodeId)
    requires Inv(g) && Inv(g1) && forall x :: x in g1.rels ==> x in g.rels && g1.rels[x] == g.rels[x]
    requires forall x :: x in g1.rels ==> x !in Touching(g.lists, id)
    requires forall x :: x in GetOr(g1.lists.incoming, id, []) ==> x in GetOr(g.lists.incoming, id, [])
    ensures GetOr(g1.lists.outgoing, id, []) == [] && GetOr(g1.lists.incoming, id, []) == []
  {
    TouchingListed(g, id);
    assert OutOk(g1.rels, g1.lists, id) && InOk(g1.rels, g1.lists, id);
    var out, into := GetOr(g1.lists.outgoing, id, []), GetOr(g1.lists.incoming, id, []);
    NoElements(out);
    forall x
      ensures x !in into
    {
      assert x in into ==> x in GetOr(g.lists.incoming, id, []);
    }
    NoElements(into);
  }

  lemma NoElements(ids: seq<RelId>)
    ensures ids == [] || exists x {:trigger x in ids} :: x in ids
  {
    if ids != [] { assert ids[0] in ids; }
  }

  /** Deletions take exactly the deleted relationships out of the lists. */
  lemma {:induction false} DropRelsIncoming(g: Graph, ids: seq<RelId>, n: NodeId, x: RelId)
    requires Inv(g) && Distinct(ids) && forall y :: y in ids ==> y in g.rels
    ensures x in GetOr(DropRels(g, ids).0.lists.incoming, n, []) <==> x in GetOr(g.lists.incoming, n, []) && x !in ids
    decreases |ids|
  {
    if ids != [] {
      var g1, rest := DropRel(g, ids[0]), ids[1..];
      assert forall y :: y in ids <==> y == ids[0] || y in rest;
      DropRelKeepsInv(g, ids[0]);
      DropRelsIncoming(g1, rest, n, x);
      assert RelOk(g, ids[0]) && InOk(g.rels, g.lists, n);
      DropKeepsListed(g.rels, g.lists.incoming, g.rels[ids[0]].to, n, ids[0]);
    }
  }

  lemma DropNodeIncoming(g: Graph, id: NodeId, n: NodeId, x: RelId)
    requires Inv(g) && id in g.nodes && n != id
    ensures x in GetOr(DropNode(g, id).0.lists.incoming, n, []) <==>
            x in GetOr(g.lists.incoming, n, []) && x !in Touching(g.lists, id)
  {
    TouchingListed(g, id);
    DropRelsSucceeds(g, SortedIds(Touching(g.lists, id)));
    DropRelsIncoming(g, SortedIds(Touching(g.lists, id)), n, x);
  }

  /** Deleting a node never stops halfway, and takes exactly its listed relationships with it. */
  lemma DropNodeSucceeds(g: Graph, id: NodeId)
    requires Inv(g) && id in g.nodes
    ensures var (g', failed) := DropNode(g, id);
            && failed.None? && Inv(g') && g'.nodes == g.nodes - {id} && g'.boundary == g.boundary
            && (forall x :: x in g'.rels <==> x in g.rels && x !in Touching(g.lists, id))
            && (forall x :: x in g'.rels ==> g'.rels[x] == g.rels[x])
  {
    var ids := SortedIds(Touching(g.lists, id));
    TouchingListed(g, id);
    DropRelsSucceeds(g, ids);
    var g1 := DropRels(g, ids).0;
    forall x | x in GetOr(g1.lists.incoming, id, [])
      ensures x in GetOr(g.lists.incoming, id, [])
    {
      DropRelsIncoming(g, ids, id, x);
    }
    ListsEmptied(g, g1, id);
    RemoveNodeKeepsInv(g1, id);
  }

  lemma RemoveNodeKeepsInv(g: Graph, id: NodeId)
    requires Inv(g) && id in g.nodes
    requires GetOr(g.lists.outgoing, id, []) == [] && GetOr(g.lists.incoming, id, []) == []
    ensures Inv(g.(nodes := g.nodes - {id}, index := TakeOut(g.index, g.nodes[id]),
                   lists := g.lists.(outgoing := g.lists.outgoing - {id}, incoming := g.lists.incoming - {id})))
  {
    var ls := g.lists.(outgoing := g.lists.outgoing - {id}, incoming := g.lists.incoming - {id});
    var g' := g.(nodes := g.nodes - {id}, index := TakeOut(g.index, g.nodes[id]), lists := ls);
    assert NodeOk(g, id);
    RemoveEmptyLists(g.rels, g.lists, id);
    TakeOutKeepsIndex(g.nodes, g.index, id);
    forall x | x in g'.rels
      ensures RelOk(g', x)
    {
      assert RelOk(g, x);
    }
    forall n | n in g'.nodes
      ensures NodeOk(g', n)
    {
      assert NodeOk(g, n);
    }
    SameBoundary(g, g');
  }

  // ----- Every command -----

  lemma EditCommandKeepsInv(g: Graph, c: Command)
    requires Inv(g)
    requires c.SetNodeProperty? || c.RemoveNodeProperty? || c.AddNodeLabel? || c.RemoveNodeLabel?
             || c.SetRelationshipProperty? || c.RemoveRelationshipProperty?
    ensures Inv(Apply(g, c).0)
    ensures !Accepts(g, c) ==> Apply(g, c).0 == g
  {
    if c.SetRelationshipProperty? || c.RemoveRelationshipProperty? {
      if c.relId in g.rels { EditRelKeepsInv(g, c.relId, c); }
    } else {
      if c.id in g.nodes { EditNodeKeepsInv(g, c.id, c); }
    }
  }

  lemma CreateCommandKeepsInv(g: Graph, c: Command)
    requires Inv(g) && (c.CreateNode? || c.CreateRelationship? || c.UpsertBoundaryNode?)
    ensures Inv(Apply(g, c).0)
    ensures !Accepts(g, c) ==> Apply(g, c).0 == g
  {
    match c
    case CreateNode(id, labels, properties) =>
      if id !in g.nodes { CreateNodeKeepsInv(g, Node(id, labels, properties)); }
    case CreateRelationship(id, from, to, relType, properties) =>
      if Accepts(g, c) { CreateRelKeepsInv(g, Relationship(id, from, to, relType, properties)); }
    case UpsertBoundaryNode(id, ownerShard, labels, properties, version) =>
      UpsertBoundaryKeepsInv(g, BoundaryNode(id, ownerShard, labels, properties, version));
  }

  /** Every command, accepted or not, keeps the invariant; one that fails changes nothing. */
  lemma ApplyKeepsInv(g: Graph, c: Command)
    requires Inv(g)
    ensures Inv(Apply(g, c).0)
    ensures !Accepts(g, c) ==> Apply(g, c).0 == g
  {
    match c
    case CreateNode(_, _, _) => CreateCommandKeepsInv(g, c);
    case CreateRelationship(_, _, _, _, _) => CreateCommandKeepsInv(g, c);
    case UpsertBoundaryNode(_, _, _, _, _) => CreateCommandKeepsInv(g, c);
    case DeleteRelationship(id) => if id in g.rels { DropRelKeepsInv(g, id); }
    case DeleteNode(id) => if id in g.nodes { DropNodeSucceeds(g, id); }
    case ClusterConfigChange(_, _, _, _) =>
    case _ => EditCommandKeepsInv(g, c);
  }

  /** The graph after a list of commands, failed ones skipped. */
  ghost function Replay(g: Graph, cs: seq<Command>): Graph {
    if cs == [] then g else Apply(Replay(g, cs[..|cs| - 1]), cs[|cs| - 1]).0
  }

  /** Every graph reachable from the empty one satisfies the invariant. */
  lemma {:induction false} ReachableInv(cs: seq<Command>)
    ensures Inv(Replay(EMPTY, cs))
  {
    if cs == [] {
      EmptyInv();
    } else {
      ReachableInv(cs[..|cs| - 1]);
      ApplyKeepsInv(Replay(EMPTY, cs[..|cs| - 1]), cs[|cs| - 1]);
    }
  }
}
