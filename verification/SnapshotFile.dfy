/** The bytes of a snapshot, and loading them command by command into a fresh graph. */
module SnapshotFile {
  import opened Basics
  import opened Model
  import opened Graph
  import opened GraphInvariant
  import opened GraphStore
  import opened GraphStateModel
  import opened Codec
  import opened CommandCodec
  import opened LogCodec
  import opened CodecIo
  import opened Snapshot

  const MAGIC: bytes := [0x4E, 0x34, 0x52, 0x53, 0x4E, 0x50, 0x31, 0x0A]

  datatype SnapshotError = BadBytes(error: CodecError) | BadHeader | OtherShard | BadCommand | Oversized

  datatype Kind = Nodes | Boundaries | Relationships

  predicate OfKind(c: Command, kind: Kind) {
    match kind
    case Nodes => c.CreateNode?
    case Boundaries => c.UpsertBoundaryNode?
    case Relationships => c.CreateRelationship?
  }

  /** Each command behind its length. */
  function Framed(cs: seq<Command>): bytes {
    if cs == [] then [] else EncTail(cs[0]) + Framed(cs[1..])
  }

  function EncSection(cs: seq<Command>): bytes {
    Len(|cs|) + Framed(cs)
  }

  function EncSnapshot(shard: ShardId, term: Term, index: LogIndex, g: Graph): bytes {
    MAGIC + (EncIds([shard, term, index])
             + (EncSection(NodeSection(g)) + (EncSection(BoundarySection(g)) + EncSection(RelSection(g)))))
  }

  // ----- Loading -----

  function ParseFramed(i: bytes, p: nat): (r: Parsed<Command>)
    requires p <= |i|
    ensures r.Ok? ==> p + 4 <= r.value.1 <= |i|
  {
    var (n, q) :- ParseU32(i, p);
    var (bs, end) :- ParseExact(i, q, n);
    var c :- DecodeCommand(bs);
    Ok((c, end))
  }

  type Loaded = Result<(Graph, nat), SnapshotError>

  /** Read and apply `n` commands of one kind. */
  function LoadCommands(i: bytes, p: nat, n: nat, g: Graph, kind: Kind): (r: Loaded)
    requires p <= |i|
    ensures r.Ok? ==> p <= r.value.1 <= |i|
    decreases n
  {
    if n == 0 then Ok((g, p))
    else
      match ParseFramed(i, p)
      case Err(e) => Err(BadBytes(e))
      case Ok((c, q)) =>
        if !OfKind(c, kind) || !Accepts(g, c) then Err(BadCommand)
        else LoadCommands(i, q, n - 1, Apply(g, c).0, kind)
  }

  function LoadSection(i: bytes, p: nat, g: Graph, kind: Kind): (r: Loaded)
    requires p <= |i|
    ensures r.Ok? ==> p <= r.value.1 <= |i|
  {
    match ParseU32(i, p)
    case Err(e) => Err(BadBytes(e))
    case Ok((n, q)) => LoadCommands(i, q, n, g, kind)
  }

  function LoadBody(i: bytes, p: nat): Result<Graph, SnapshotError>
    requires p <= |i|
  {
    var (g1, p1) :- LoadSection(i, p, EMPTY, Nodes);
    var (g2, p2) :- LoadSection(i, p1, g1, Boundaries);
    var (g3, p3) :- LoadSection(i, p2, g2, Relationships);
    if p3 == |i| then Ok(g3) else Err(BadBytes(TrailingBytes))
  }

  datatype LoadedSnapshot = LoadedSnapshot(term: Term, index: LogIndex, graph: Graph)

  function LoadSnapshot(i: bytes, shard: ShardId): Result<LoadedSnapshot, SnapshotError> {
    if !StartsWith(i, MAGIC) then Err(BadHeader)
    else
      match ParseIds(i, 8, 3, [])
      case Err(e) => Err(BadBytes(e))
      case Ok((ids, q)) =>
        IdsCount(i, 8, 3, []);
        if ids[0] != shard then Err(OtherShard)
        else
          var g :- LoadBody(i, q);
          Ok(LoadedSnapshot(ids[1], ids[2], g))
  }

  // ----- Round trip -----

  /** Every section and every command fits its length field, and every command decodes. */
  predicate Fits(cs: seq<Command>) {
    |cs| < 0x1_0000_0000 && forall c :: c in cs ==> Sized(c) && |EncCommand(c)| < 0x1_0000_0000
  }

  lemma FramedAt(i: bytes, p: nat, c: Command)
    requires Sized(c) && |EncCommand(c)| < 0x1_0000_0000 && At(i, p, EncTail(c))
    ensures ParseFramed(i, p) == Ok((c, p + |EncTail(c)|))
  {
    hide At, EncCommand, DecodeCommand, ParseU32, ParseExact, Sized;
    var n := |EncCommand(c)|;
    AtConcat(i, p, Len(n), EncCommand(c));
    U32At(i, p, n);
    AtIsSlice(i, p + 4, EncCommand(c));
    CommandRoundTrip(c);
  }

  lemma SplitFirst(g: Graph, cs: seq<Command>)
    requires cs != []
    ensures Replay(g, cs) == Replay(Apply(g, cs[0]).0, cs[1..])
    ensures AcceptsAll(g, cs) <==> Accepts(g, cs[0]) && AcceptsAll(Apply(g, cs[0]).0, cs[1..])
  {
    hide Apply, Accepts;
    assert cs == [cs[0]] + cs[1..] && [cs[0]][..0] == [];
    ReplayAppend(g, [cs[0]], cs[1..]);
  }

  lemma {:induction false} CommandsLoad(i: bytes, p: nat, cs: seq<Command>, g: Graph, kind: Kind)
    requires (forall c {:trigger c in cs} :: c in cs ==> OfKind(c, kind) && Sized(c) && |EncCommand(c)| < 0x1_0000_0000)
    requires At(i, p, Framed(cs)) && AcceptsAll(g, cs)
    ensures LoadCommands(i, p, |cs|, g, kind) == Ok((Replay(g, cs), p + |Framed(cs)|))
    decreases |cs|
  {
    hide At, EncTail, ParseFramed, Sized, EncCommand, Apply, Accepts, Replay, AcceptsAll;
    if cs == [] {
      ReplayNothing(g);
    } else {
      assert cs[0] in cs && forall c {:trigger c in cs[1..]} :: c in cs[1..] ==> c in cs;
      SplitFirst(g, cs);
      AtConcat(i, p, EncTail(cs[0]), Framed(cs[1..]));
      FramedAt(i, p, cs[0]);
      CommandsLoad(i, p + |EncTail(cs[0])|, cs[1..], Apply(g, cs[0]).0, kind);
    }
  }

  lemma ReplayNothing(g: Graph)
    ensures Replay(g, []) == g
  {
  }

  lemma SectionLoads(i: bytes, p: nat, cs: seq<Command>, g: Graph, kind: Kind)
    requires Fits(cs) && (forall c {:trigger c in cs} :: c in cs ==> OfKind(c, kind))
    requires At(i, p, EncSection(cs)) && AcceptsAll(g, cs)
    ensures LoadSection(i, p, g, kind) == Ok((Replay(g, cs), p + |EncSection(cs)|))
  {
    hide At, Framed, LoadCommands, Sized, EncCommand, Replay, AcceptsAll;
    AtConcat(i, p, Len(|cs|), Framed(cs));
    U32At(i, p, |cs|);
    CommandsLoad(i, p + 4, cs, g, kind);
  }

  lemma {:induction false} NodeKinds(nodes: map<NodeId, Node>, ids: seq<NodeId>)
    requires forall n :: n in ids ==> n in nodes
    ensures forall c {:trigger c in NodeCreations(nodes, ids)} :: c in NodeCreations(nodes, ids) ==> OfKind(c, Nodes)
  {
    if ids != [] {
      assert forall n :: n in ids[..|ids| - 1] ==> n in ids;
      NodeKinds(nodes, ids[..|ids| - 1]);
    }
  }

  lemma {:induction false} BoundaryKinds(boundary: map<NodeId, BoundaryNode>, ids: seq<NodeId>)
    requires forall n :: n in ids ==> n in boundary
    ensures forall c {:trigger c in BoundaryCreations(boundary, ids)} :: c in BoundaryCreations(boundary, ids) ==>
            OfKind(c, Boundaries)
  {
    if ids != [] {
      assert forall n :: n in ids[..|ids| - 1] ==> n in ids;
      BoundaryKinds(boundary, ids[..|ids| - 1]);
    }
  }

  lemma {:induction false} RelKinds(rels: map<RelId, Relationship>, ids: seq<RelId>)
    requires forall r :: r in ids ==> r in rels
    ensures forall c {:trigger c in RelCreations(rels, ids)} :: c in RelCreations(rels, ids) ==>
            OfKind(c, Relationships)
  {
    if ids != [] {
      assert forall r :: r in ids[..|ids| - 1] ==> r in ids;
      RelKinds(rels, ids[..|ids| - 1]);
    }
  }

  lemma SectionKinds(g: Graph)
    ensures forall c {:trigger c in NodeSection(g)} :: c in NodeSection(g) ==> OfKind(c, Nodes)
    ensures forall c {:trigger c in BoundarySection(g)} :: c in BoundarySection(g) ==> OfKind(c, Boundaries)
    ensures forall c {:trigger c in RelSection(g)} :: c in RelSection(g) ==> OfKind(c, Relationships)
  {
    hide SortedIds, NodeCreations, BoundaryCreations, RelCreations;
    SortedIdsElements(g.nodes.Keys);
    SortedIdsElements(g.boundary.Keys);
    SortedIdsElements(g.rels.Keys);
    NodeKinds(g.nodes, SortedIds(g.nodes.Keys));
    BoundaryKinds(g.boundary, SortedIds(g.boundary.Keys));
    RelKinds(g.rels, SortedIds(g.rels.Keys));
  }

  /** Section counts and command lengths fit into their length fields. */
  predicate LengthsFit(g: Graph) {
    Measured(NodeSection(g)) && Measured(BoundarySection(g)) && Measured(RelSection(g))
  }

  predicate Measured(cs: seq<Command>) {
    |cs| < 0x1_0000_0000 && forall c :: c in cs ==> |EncCommand(c)| < 0x1_0000_0000
  }

  predicate FitsAll(g: Graph) {
    Fits(NodeSection(g)) && Fits(BoundarySection(g)) && Fits(RelSection(g))
  }

  lemma BodyLoads(i: bytes, p: nat, g: Graph)
    requires Inv(g) && FitsAll(g)
    requires At(i, p, EncSection(NodeSection(g)) + (EncSection(BoundarySection(g)) + EncSection(RelSection(g))))
    requires p + |EncSection(NodeSection(g))| + |EncSection(BoundarySection(g))| + |EncSection(RelSection(g))| == |i|
    ensures LoadBody(i, p) == Ok(Reload(g))
  {
    hide At, EncSection, LoadSection, NodeSection, BoundarySection, RelSection, Replay, AcceptsAll, Fits, Inv;
    var ns, bs, rs := NodeSection(g), BoundarySection(g), RelSection(g);
    var a, b, c := EncSection(ns), EncSection(bs), EncSection(rs);
    AtConcat(i, p, a, b + c);
    AtConcat(i, p + |a|, b, c);
    AtFits(i, p, a);
    SectionKinds(g);
    ReloadExactly(g);
    ReplayAppend(EMPTY, ns, bs);
    ReplayAppend(EMPTY, ns + bs, rs);
    SectionLoads(i, p, ns, EMPTY, Nodes);
    SectionLoads(i, p + |a|, bs, Replay(EMPTY, ns), Boundaries);
    SectionLoads(i, p + |a| + |b|, rs, Replay(EMPTY, ns + bs), Relationships);
  }

  /** Loading what was saved always succeeds and yields the rebuilt graph and the saved position. */
  lemma SnapshotRoundTrip(shard: ShardId, term: Term, index: LogIndex, g: Graph)
    requires Inv(g) && FitsAll(g)
    ensures LoadSnapshot(EncSnapshot(shard, term, index, g), shard) == Ok(LoadedSnapshot(term, index, Reload(g)))
  {
    hide At, EncSection, LoadBody, NodeSection, BoundarySection, RelSection, EncIds, ParseIds, StartsWith, FitsAll,
      Inv, Reload;
    var i := EncSnapshot(shard, term, index, g);
    var ids := [shard, term, index];
    var body := EncSection(NodeSection(g)) + (EncSection(BoundarySection(g)) + EncSection(RelSection(g)));
    MagicAt(i, MAGIC, EncIds(ids) + body);
    AtConcat(i, 8, EncIds(ids), body);
    AtFits(i, 8, EncIds(ids));
    IdsAt(i, 8, ids, []);
    assert [] + ids == ids;
    BodyLoads(i, 8 + |EncIds(ids)|, g);
  }

  // ----- What can be loaded -----

  ghost predicate AllOfKind(cs: seq<Command>, kind: Kind) {
    forall c :: c in cs ==> OfKind(c, kind)
  }

  /** A section that loads has applied commands of its kind, all accepted. */
  lemma {:induction false} CommandsSound(i: bytes, p: nat, n: nat, g: Graph, kind: Kind) returns (cs: seq<Command>)
    requires p <= |i| && LoadCommands(i, p, n, g, kind).Ok?
    ensures |cs| == n && AllOfKind(cs, kind) && AcceptsAll(g, cs)
    ensures LoadCommands(i, p, n, g, kind).value.0 == Replay(g, cs)
    decreases n
  {
    hide Apply, ParseFramed, OfKind;
    if n == 0 {
      cs := [];
    } else {
      var (c, q) := ParseFramed(i, p).value;
      var rest := CommandsSound(i, q, n - 1, Apply(g, c).0, kind);
      cs := [c] + rest;
      assert cs[1..] == rest;
      SplitFirst(g, cs);
    }
  }

  /**
   * Whatever bytes load: the graph is the replay of accepted node creations, then boundary nodes, then
   * relationships, of a file for this shard. So a loaded graph is always a reachable one.
   */
  lemma LoadedIsReplay(i: bytes, shard: ShardId) returns (ns: seq<Command>, bs: seq<Command>, rs: seq<Command>)
    requires LoadSnapshot(i, shard).Ok?
    ensures AllOfKind(ns, Nodes) && AllOfKind(bs, Boundaries) && AllOfKind(rs, Relationships)
    ensures AcceptsAll(EMPTY, ns + bs + rs) && LoadSnapshot(i, shard).value.graph == Replay(EMPTY, ns + bs + rs)
    ensures |i| >= 16 && FromBE(i, 8, 8) == shard
  {
    hide LoadCommands, Apply, FromBE, Replay, AcceptsAll;
    var (ids, p) := ParseIds(i, 8, 3, []).value;
    IdsValues(i, 8, 3, [], 0);
    var (n1, q1) := ParseU32(i, p).value;
    var (g1, p1) := LoadCommands(i, q1, n1, EMPTY, Nodes).value;
    ns := CommandsSound(i, q1, n1, EMPTY, Nodes);
    var (n2, q2) := ParseU32(i, p1).value;
    var (g2, p2) := LoadCommands(i, q2, n2, g1, Boundaries).value;
    bs := CommandsSound(i, q2, n2, g1, Boundaries);
    var (n3, q3) := ParseU32(i, p2).value;
    rs := CommandsSound(i, q3, n3, g2, Relationships);
    ReplayAppend(EMPTY, ns, bs);
    ReplayAppend(EMPTY, ns + bs, rs);
  }

  /** A snapshot of another shard is refused. */
  lemma OtherShardRefused(shard: ShardId, term: Term, index: LogIndex, g: Graph, other: ShardId)
    requires other != shard
    ensures LoadSnapshot(EncSnapshot(shard, term, index, g), other) == Err(OtherShard)
  {
    hide At, EncSection, LoadBody, NodeSection, BoundarySection, RelSection, EncIds, ParseIds, StartsWith;
    var i, ids := EncSnapshot(shard, term, index, g), [shard, term, index];
    var body := EncSection(NodeSection(g)) + (EncSection(BoundarySection(g)) + EncSection(RelSection(g)));
    MagicAt(i, MAGIC, EncIds(ids) + body);
    AtConcat(i, 8, EncIds(ids), body);
    AtFits(i, 8, EncIds(ids));
    IdsAt(i, 8, ids, []);
    assert [] + ids == ids;
  }

  // ----- The snapshot store -----

  method WriteSection(out: Writer, cs: seq<Command>) returns (ok: bool)
    modifies out
    ensures ok <==> Measured(cs)
    ensures ok ==> out.out == old(out.out) + EncSection(cs)
  {
    hide EncCommand, Len;
    if |cs| >= 0x1_0000_0000 {
      return false;
    }
    out.Put(Len(|cs|));
    ghost var base := out.out;
    assert cs[0..] == cs;
    for k := 0 to |cs|
      invariant out.out + Framed(cs[k..]) == base + Framed(cs)
      invariant forall j :: 0 <= j < k ==> |EncCommand(cs[j])| < 0x1_0000_0000
    {
      assert cs[k..][0] == cs[k] && cs[k..][1..] == cs[k + 1..];
      var payload := new Writer();
      payload.WriteCommand(cs[k]);
      assert payload.out == EncCommand(cs[k]);
      if |payload.out| >= 0x1_0000_0000 {
        assert cs[k] in cs;
        return false;
      }
      ghost var before := out.out;
      out.Put(Len(|payload.out|));
      out.Put(payload.out);
      assert before + Len(|payload.out|) + payload.out == before + EncTail(cs[k]);
      assert before + EncTail(cs[k]) + Framed(cs[k + 1..]) == before + (EncTail(cs[k]) + Framed(cs[k + 1..]));
    }
    assert cs[|cs|..] == [] && out.out + [] == out.out;
    assert old(out.out) + Len(|cs|) + Framed(cs) == old(out.out) + (Len(|cs|) + Framed(cs));
    ok := true;
  }

  /** Header, position and three sections; a section or command too long for its length field fails. */
  method Save(shard: ShardId, term: Term, index: LogIndex, graph: GraphState) returns (r: Result<bytes, SnapshotError>)
    ensures r == if LengthsFit(graph.State()) then Ok(EncSnapshot(shard, term, index, graph.State()))
            else Err(Oversized)
  {
    hide EncSection, NodeSection, BoundarySection, RelSection, EncIds, Sized, EncCommand;
    var g := graph.State();
    var out := new Writer();
    out.Put(MAGIC);
    out.WriteIds([shard, term, index]);
    ghost var head := out.out;
    var ok := WriteSection(out, NodeSection(g));
    if !ok { return Err(Oversized); }
    ok := WriteSection(out, BoundarySection(g));
    if !ok { return Err(Oversized); }
    ok := WriteSection(out, RelSection(g));
    if !ok { return Err(Oversized); }
    ghost var a, b, c := EncSection(NodeSection(g)), EncSection(BoundarySection(g)), EncSection(RelSection(g));
    Writer.Regroup(head, a, b, c);
    Writer.Regroup([], MAGIC, EncIds([shard, term, index]), a + (b + c));
    assert [] + MAGIC == MAGIC;
    assert out.out == EncSnapshot(shard, term, index, g);
    assert graph.State() == g;
    r := Ok(out.out);
  }

  method ReadFramed(reader: Reader) returns (r: Result<Command, CodecError>)
    requires reader.Valid()
    modifies reader
    ensures reader.Valid() && Matches(ParseFramed(reader.input, old(reader.position)), r, reader.position)
  {
    hide ParseU32, ParseExact, DecodeCommand;
    var n :- reader.ReadU32();
    var bs :- reader.ReadExact(n);
    var c :- Reader.Decode(bs);
    r := Ok(c);
  }

  method ReadSection(reader: Reader, graph: GraphState, kind: Kind) returns (r: Result<(), SnapshotError>)
    requires reader.Valid() && graph.Valid()
    modifies reader, graph
    ensures reader.Valid() && graph.Valid()
    ensures match LoadSection(reader.input, old(reader.position), old(graph.State()), kind)
            case Err(e) => r == Err(e)
            case Ok((g, q)) => r == Ok(()) && graph.State() == g && reader.position == q
  {
    hide ParseU32, ParseFramed, Apply, OfKind;
    var n := reader.ReadU32();
    if n.Err? {
      return Err(BadBytes(n.error));
    }
    ghost var start, before := reader.position, graph.State();
    for k := 0 to n.value
      invariant reader.Valid() && graph.Valid()
      invariant LoadCommands(reader.input, start, n.value, before, kind)
                == LoadCommands(reader.input, reader.position, n.value - k, graph.State(), kind)
    {
      var c := ReadFramed(reader);
      if c.Err? {
        return Err(BadBytes(c.error));
      }
      if !OfKind(c.value, kind) {
        return Err(BadCommand);
      }
      var failed := graph.Apply(c.value);
      if failed.Some? {
        return Err(BadCommand);
      }
    }
    r := Ok(());
  }

  /** Load into a fresh graph, which satisfies the graph invariant. */
  method Load(payload: bytes, shard: ShardId) returns (r: Result<LoadedSnapshot, SnapshotError>)
    ensures r == LoadSnapshot(payload, shard)
    ensures r.Ok? ==> Inv(r.value.graph)
  {
    hide LoadSection, ParseIds, Inv;
    if !StartsWith(payload, MAGIC) {
      return Err(BadHeader);
    }
    var reader := new Reader(payload);
    reader.position := 8;
    IdsCount(payload, 8, 3, []);
    var ids := reader.ReadIds(3);
    if ids.Err? {
      return Err(BadBytes(ids.error));
    }
    if ids.value[0] != shard {
      return Err(OtherShard);
    }
    var graph := new GraphState();
    var _ :- ReadSection(reader, graph, Nodes);
    var _ :- ReadSection(reader, graph, Boundaries);
    var _ :- ReadSection(reader, graph, Relationships);
    if reader.position != |payload| {
      return Err(BadBytes(TrailingBytes));
    }
    r := Ok(LoadedSnapshot(ids.value[1], ids.value[2], graph.State()));
  }
}
