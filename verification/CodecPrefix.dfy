/** Parsing looks at nothing behind what it returns, so no encoding is cut short unnoticed. */
module CodecPrefix {
  import opened Basics
  import opened Model
  import opened Codec
  import opened CommandCodec

  ghost predicate Prefix(i: bytes, j: bytes) {
    |i| <= |j| && forall k {:trigger i[k]} {:trigger j[k]} :: 0 <= k < |i| ==> i[k] == j[k]
  }

  lemma {:induction false} BESame(i: bytes, j: bytes, p: nat, w: nat)
    requires Prefix(i, j) && p + w <= |i|
    ensures FromBE(i, p, w) == FromBE(j, p, w)
  {
    if w > 0 { BESame(i, j, p, w - 1); }
  }

  lemma IntSame(i: bytes, j: bytes, p: nat)
    requires Prefix(i, j) && p <= |i|
    ensures ParseU8(i, p).Ok? ==> ParseU8(j, p) == ParseU8(i, p)
    ensures ParseU32(i, p).Ok? ==> ParseU32(j, p) == ParseU32(i, p)
    ensures ParseU64(i, p).Ok? ==> ParseU64(j, p) == ParseU64(i, p)
  {
    if p + 4 <= |i| { BESame(i, j, p, 4); }
    if p + 8 <= |i| { BESame(i, j, p, 8); }
  }

  lemma TextSame(i: bytes, j: bytes, p: nat)
    requires Prefix(i, j) && p <= |i| && ParseText(i, p).Ok?
    ensures ParseText(j, p) == ParseText(i, p)
  {
    IntSame(i, j, p);
    var n := ParseU32(i, p).value.0;
    assert Sub(i, p + 4, n) == Sub(j, p + 4, n);
  }

  lemma {:induction false} TextsSame(i: bytes, j: bytes, p: nat, n: nat, got: seq<Text>)
    requires Prefix(i, j) && p <= |i| && ParseTexts(i, p, n, got).Ok?
    ensures ParseTexts(j, p, n, got) == ParseTexts(i, p, n, got)
    decreases n
  {
    hide ParseText, Prefix;
    if n > 0 {
      TextSame(i, j, p);
      var (s, q) := ParseText(i, p).value;
      TextsSame(i, j, q, n - 1, got + [s]);
    }
  }

  lemma TextListSame(i: bytes, j: bytes, p: nat)
    requires Prefix(i, j) && p <= |i| && ParseTextList(i, p).Ok?
    ensures ParseTextList(j, p) == ParseTextList(i, p)
  {
    hide ParseU32, ParseTexts, Prefix;
    IntSame(i, j, p);
    var (n, q) := ParseU32(i, p).value;
    TextsSame(i, j, q, n, []);
  }

  lemma {:induction false} ItemsSame(i: bytes, j: bytes, p: nat, n: nat, got: seq<u32>)
    requires Prefix(i, j) && p <= |i| && ParseItems(i, p, n, got).Ok?
    ensures ParseItems(j, p, n, got) == ParseItems(i, p, n, got)
    decreases n
  {
    hide ParseU32, ParseU64, ParseU8, Prefix;
    if n > 0 {
      IntSame(i, j, p);
      var (x, q) := ParseU32(i, p).value;
      ItemsSame(i, j, q, n - 1, got + [x]);
    }
  }

  lemma {:induction false} ValueSame(i: bytes, j: bytes, p: nat)
    requires Prefix(i, j) && p <= |i| && ParseValue(i, p).Ok?
    ensures ParseValue(j, p) == ParseValue(i, p)
    decreases |i| - p, 0
  {
    hide Prefix;
    IntSame(i, j, p);
    var (tag, q) := ParseU8(i, p).value;
    BodySame(i, j, q, tag);
  }

  lemma {:induction false} BodySame(i: bytes, j: bytes, p: nat, tag: byte)
    requires Prefix(i, j) && p <= |i| && ParseBody(i, p, tag).Ok?
    ensures ParseBody(j, p, tag) == ParseBody(i, p, tag)
    decreases |i| - p, 1
  {
    hide ParseU32, ParseU64, ParseU8, ParseText, ParseItems, Prefix;
    IntSame(i, j, p);
    match tag
    case 4 => TextSame(i, j, p);
    case 5 =>
      var (n, q) := ParseU32(i, p).value;
      ItemsSame(i, j, q, n, []);
    case 6 =>
      var (n, q) := ParseU32(i, p).value;
      EntriesSame(i, j, q, n, map[]);
    case _ =>
  }

  lemma {:induction false} EntriesSame(i: bytes, j: bytes, p: nat, n: nat, got: Properties)
    requires Prefix(i, j) && p <= |i| && ParseEntries(i, p, n, got).Ok?
    ensures ParseEntries(j, p, n, got) == ParseEntries(i, p, n, got)
    decreases |i| - p, n
  {
    hide ParseText, Prefix;
    if n > 0 {
      TextSame(i, j, p);
      var (key, q) := ParseText(i, p).value;
      ValueSame(i, j, q);
      var (value, q1) := ParseValue(i, q).value;
      EntriesSame(i, j, q1, n - 1, got[key := value]);
    }
  }

  lemma PropsSame(i: bytes, j: bytes, p: nat)
    requires Prefix(i, j) && p <= |i| && ParseProps(i, p).Ok?
    ensures ParseProps(j, p) == ParseProps(i, p)
  {
    hide ParseU32, ParseU64, ParseU8, ParseEntries, Prefix;
    IntSame(i, j, p);
    var (n, q) := ParseU32(i, p).value;
    EntriesSame(i, j, q, n, map[]);
  }

  lemma {:induction false} IdsSame(i: bytes, j: bytes, p: nat, n: nat, got: seq<u64>)
    requires Prefix(i, j) && p <= |i| && ParseIds(i, p, n, got).Ok?
    ensures ParseIds(j, p, n, got) == ParseIds(i, p, n, got)
    decreases n
  {
    hide ParseU32, ParseU64, ParseU8, Prefix;
    if n > 0 {
      IntSame(i, j, p);
      var (x, q) := ParseU64(i, p).value;
      IdsSame(i, j, q, n - 1, got + [x]);
    }
  }

  lemma ReplicaSame(i: bytes, j: bytes, p: nat)
    requires Prefix(i, j) && p <= |i| && ParseReplica(i, p).Ok?
    ensures ParseReplica(j, p) == ParseReplica(i, p)
  {
    hide ParseU32, ParseU64, ParseU8, Prefix;
    IntSame(i, j, p);
    var (server, q) := ParseU64(i, p).value;
    IntSame(i, j, q);
  }

  lemma {:induction false} ReplicasSame(i: bytes, j: bytes, p: nat, n: nat, got: seq<ShardReplica>)
    requires Prefix(i, j) && p <= |i| && ParseReplicas(i, p, n, got).Ok?
    ensures ParseReplicas(j, p, n, got) == ParseReplicas(i, p, n, got)
    decreases n
  {
    hide ParseReplica, Prefix;
    if n > 0 {
      ReplicaSame(i, j, p);
      var (x, q) := ParseReplica(i, p).value;
      ReplicasSame(i, j, q, n - 1, got + [x]);
    }
  }

  lemma PlacementSame(i: bytes, j: bytes, p: nat)
    requires Prefix(i, j) && p <= |i| && ParsePlacement(i, p).Ok?
    ensures ParsePlacement(j, p) == ParsePlacement(i, p)
  {
    hide ParseU32, ParseU64, ParseU8, ParseReplicas, Prefix;
    IntSame(i, j, p);
    var (shard, q) := ParseU64(i, p).value;
    IntSame(i, j, q);
    var (n, q1) := ParseU32(i, q).value;
    ReplicasSame(i, j, q1, n, []);
  }

  lemma {:induction false} PlacementsSame(i: bytes, j: bytes, p: nat, n: nat, got: seq<ShardPlacement>)
    requires Prefix(i, j) && p <= |i| && ParsePlacements(i, p, n, got).Ok?
    ensures ParsePlacements(j, p, n, got) == ParsePlacements(i, p, n, got)
    decreases n
  {
    hide ParsePlacement, Prefix;
    if n > 0 {
      PlacementSame(i, j, p);
      var (x, q) := ParsePlacement(i, p).value;
      PlacementsSame(i, j, q, n - 1, got + [x]);
    }
  }

  lemma TableSame(i: bytes, j: bytes, p: nat)
    requires Prefix(i, j) && p <= |i| && ParseTable(i, p).Ok?
    ensures ParseTable(j, p) == ParseTable(i, p)
  {
    hide ParseU32, ParseU64, ParseU8, ParsePlacements, Prefix;
    IntSame(i, j, p);
    var (version, q) := ParseU64(i, p).value;
    IntSame(i, j, q);
    var (n, q1) := ParseU32(i, q).value;
    PlacementsSame(i, j, q1, n, []);
  }

  // ----- Commands -----

  lemma KeyedSame(i: bytes, j: bytes, p: nat)
    requires Prefix(i, j) && p <= |i|
    ensures ParseKeyed(i, p).Ok? ==> ParseKeyed(j, p) == ParseKeyed(i, p)
    ensures ParseKeyedValue(i, p).Ok? ==> ParseKeyedValue(j, p) == ParseKeyedValue(i, p)
  {
    hide ParseU32, ParseU64, ParseU8, ParseText, ParseValue, Prefix;
    IntSame(i, j, p);
    if ParseKeyed(i, p).Ok? || ParseKeyedValue(i, p).Ok? {
      var (id, q) := ParseU64(i, p).value;
      TextSame(i, j, q);
      var (key, q1) := ParseText(i, q).value;
      if ParseKeyedValue(i, p).Ok? { ValueSame(i, j, q1); }
    }
  }

  lemma NodeSame(i: bytes, j: bytes, p: nat)
    requires Prefix(i, j) && p <= |i| && ParseNode(i, p).Ok?
    ensures ParseNode(j, p) == ParseNode(i, p)
  {
    hide ParseU32, ParseU64, ParseU8, ParseTextList, ParseProps, Prefix;
    IntSame(i, j, p);
    var (id, q) := ParseU64(i, p).value;
    TextListSame(i, j, q);
    var (labels, q1) := ParseTextList(i, q).value;
    PropsSame(i, j, q1);
  }

  lemma RelSame(i: bytes, j: bytes, p: nat)
    requires Prefix(i, j) && p <= |i| && ParseRel(i, p).Ok?
    ensures ParseRel(j, p) == ParseRel(i, p)
  {
    hide ParseU32, ParseU64, ParseU8, ParseText, ParseProps, Prefix;
    IntSame(i, j, p);
    IntSame(i, j, p + 8);
    IntSame(i, j, p + 16);
    TextSame(i, j, p + 24);
    var (relType, q) := ParseText(i, p + 24).value;
    PropsSame(i, j, q);
  }

  lemma BoundarySame(i: bytes, j: bytes, p: nat)
    requires Prefix(i, j) && p <= |i| && ParseBoundary(i, p).Ok?
    ensures ParseBoundary(j, p) == ParseBoundary(i, p)
  {
    hide ParseU32, ParseU64, ParseU8, ParseTextList, ParseProps, Prefix;
    IntSame(i, j, p);
    IntSame(i, j, p + 8);
    TextListSame(i, j, p + 16);
    var (labels, q) := ParseTextList(i, p + 16).value;
    PropsSame(i, j, q);
    var (properties, q1) := ParseProps(i, q).value;
    IntSame(i, j, q1);
  }

  lemma ConfigSame(i: bytes, j: bytes, p: nat)
    requires Prefix(i, j) && p <= |i| && ParseConfig(i, p).Ok?
    ensures ParseConfig(j, p) == ParseConfig(i, p)
  {
    hide ParseU32, ParseU64, ParseU8, ParseText, ParseIds, ParseTable, Prefix;
    TextSame(i, j, p);
    var (phase, q) := ParseText(i, p).value;
    TextSame(i, j, q);
    var (description, q1) := ParseText(i, q).value;
    IntSame(i, j, q1);
    var (n, q2) := ParseU32(i, q1).value;
    IdsSame(i, j, q2, n, []);
    var (voters, q3) := ParseIds(i, q2, n, []).value;
    TableSame(i, j, q3);
  }

  lemma CommandSame(i: bytes, j: bytes, p: nat)
    requires Prefix(i, j) && p <= |i| && ParseCommand(i, p).Ok?
    ensures ParseCommand(j, p) == ParseCommand(i, p)
  {
    hide ParseU32, ParseU64, ParseU8, ParseKeyed, ParseKeyedValue, ParseNode, ParseRel, ParseBoundary, ParseConfig,
      Prefix;
    IntSame(i, j, p);
    var (tag, q) := ParseU8(i, p).value;
    IntSame(i, j, q);
    KeyedSame(i, j, q);
    if tag == 1 { NodeSame(i, j, q); }
    if tag == 2 { RelSame(i, j, q); }
    if tag == 7 { BoundarySame(i, j, q); }
    if tag == 12 { ConfigSame(i, j, q); }
  }

  /** Every strict prefix of a command's encoding is refused. */
  lemma PrefixRejected(c: Command, n: nat)
    requires Sized(c) && n < |EncCommand(c)|
    ensures DecodeCommand(EncCommand(c)[..n]).Err?
  {
    hide ParseCommand, EncCommand, Sized;
    var all := EncCommand(c);
    AtStart(all, []);
    assert all + [] == all;
    CommandAt(all, 0, c);
    if ParseCommand(all[..n], 0).Ok? {
      CommandSame(all[..n], all, 0);
    }
  }
}
