/** Commands and log entries over the value format of Codec. */
module CommandCodec {
  import opened Basics
  import opened Model
  import opened Codec

  function CommandTag(c: Command): byte {
    match c
    case CreateNode(_, _, _) => 1
    case CreateRelationship(_, _, _, _, _) => 2
    case SetNodeProperty(_, _, _) => 3
    case SetRelationshipProperty(_, _, _) => 4
    case DeleteRelationship(_) => 5
    case DeleteNode(_) => 6
    case UpsertBoundaryNode(_, _, _, _, _) => 7
    case RemoveNodeProperty(_, _) => 8
    case RemoveRelationshipProperty(_, _) => 9
    case AddNodeLabel(_, _) => 10
    case RemoveNodeLabel(_, _) => 11
    case ClusterConfigChange(_, _, _, _) => 12
  }

  function EncKeyed(id: u64, key: Text): bytes {
    U64(id) + Str(key)
  }

  function EncKeyedValue(id: u64, key: Text, value: Value): bytes {
    U64(id) + (Str(key) + EncValue(value))
  }

  function EncNode(id: u64, labels: seq<Text>, properties: Properties): bytes {
    U64(id) + (TextList(labels) + EncProps(properties))
  }

  function EncRel(id: u64, from: u64, to: u64, relType: Text, properties: Properties): bytes {
    U64(id) + (U64(from) + (U64(to) + (Str(relType) + EncProps(properties))))
  }

  function EncBoundary(id: u64, ownerShard: u64, labels: seq<Text>, properties: Properties, version: u64): bytes {
    U64(id) + (U64(ownerShard) + (TextList(labels) + (EncProps(properties) + U64(version))))
  }

  function EncConfig(phase: Text, description: Text, voters: seq<u64>, table: RoutingTable): bytes {
    Str(phase) + (Str(description) + (Len(|voters|) + (EncIds(voters) + EncTable(table))))
  }

  function EncCommandBody(c: Command): bytes {
    match c
    case CreateNode(id, labels, properties) => EncNode(id, labels, properties)
    case CreateRelationship(id, from, to, relType, properties) => EncRel(id, from, to, relType, properties)
    case UpsertBoundaryNode(id, ownerShard, labels, properties, version) =>
      EncBoundary(id, ownerShard, labels, properties, version)
    case SetNodeProperty(id, key, value) => EncKeyedValue(id, key, value)
    case RemoveNodeProperty(id, key) => EncKeyed(id, key)
    case AddNodeLabel(id, tag) => EncKeyed(id, tag)
    case RemoveNodeLabel(id, tag) => EncKeyed(id, tag)
    case SetRelationshipProperty(id, key, value) => EncKeyedValue(id, key, value)
    case RemoveRelationshipProperty(id, key) => EncKeyed(id, key)
    case DeleteRelationship(id) => U64(id)
    case DeleteNode(id) => U64(id)
    case ClusterConfigChange(phase, description, voters, table) => EncConfig(phase, description, voters, table)
  }

  function EncCommand(c: Command): bytes {
    [CommandTag(c)] + EncCommandBody(c)
  }

  /** Every string valid and every length within 32 bits. */
  predicate Sized(c: Command) {
    match c
    case CreateNode(_, labels, properties) => SizedTexts(labels) && SizedProps(properties)
    case CreateRelationship(_, _, _, relType, properties) => SizedText(relType) && SizedProps(properties)
    case UpsertBoundaryNode(_, _, labels, properties, _) => SizedTexts(labels) && SizedProps(properties)
    case SetNodeProperty(_, key, value) => SizedText(key) && SizedValue(value)
    case RemoveNodeProperty(_, key) => SizedText(key)
    case AddNodeLabel(_, tag) => SizedText(tag)
    case RemoveNodeLabel(_, tag) => SizedText(tag)
    case SetRelationshipProperty(_, key, value) => SizedText(key) && SizedValue(value)
    case RemoveRelationshipProperty(_, key) => SizedText(key)
    case DeleteRelationship(_) => true
    case DeleteNode(_) => true
    case ClusterConfigChange(phase, description, voters, table) =>
      SizedText(phase) && SizedText(description) && |voters| < 0x1_0000_0000 && SizedTable(table)
  }

  // ----- Parsing -----

  function ParseKeyed(i: bytes, p: nat): (r: Parsed<(u64, Text)>)
    requires p <= |i|
    ensures r.Ok? ==> p <= r.value.1 <= |i|
  {
    var (id, q) :- ParseU64(i, p);
    var (key, end) :- ParseText(i, q);
    Ok(((id, key), end))
  }

  function ParseKeyedValue(i: bytes, p: nat): (r: Parsed<(u64, Text, Value)>)
    requires p <= |i|
    ensures r.Ok? ==> p <= r.value.1 <= |i|
  {
    var (id, q) :- ParseU64(i, p);
    var (key, q1) :- ParseText(i, q);
    var (value, end) :- ParseValue(i, q1);
    Ok(((id, key, value), end))
  }

  function ParseNode(i: bytes, p: nat): (r: Parsed<Command>)
    requires p <= |i|
    ensures r.Ok? ==> p <= r.value.1 <= |i|
  {
    var (id, q) :- ParseU64(i, p);
    var (labels, q1) :- ParseTextList(i, q);
    var (properties, end) :- ParseProps(i, q1);
    Ok((CreateNode(id, labels, properties), end))
  }

  function ParseRel(i: bytes, p: nat): (r: Parsed<Command>)
    requires p <= |i|
    ensures r.Ok? ==> p <= r.value.1 <= |i|
  {
    var (id, q) :- ParseU64(i, p);
    var (from, q1) :- ParseU64(i, q);
    var (to, q2) :- ParseU64(i, q1);
    var (relType, q3) :- ParseText(i, q2);
    var (properties, end) :- ParseProps(i, q3);
    Ok((CreateRelationship(id, from, to, relType, properties), end))
  }

  function ParseBoundary(i: bytes, p: nat): (r: Parsed<Command>)
    requires p <= |i|
    ensures r.Ok? ==> p <= r.value.1 <= |i|
  {
    var (id, q) :- ParseU64(i, p);
    var (ownerShard, q1) :- ParseU64(i, q);
    var (labels, q2) :- ParseTextList(i, q1);
    var (properties, q3) :- ParseProps(i, q2);
    var (version, end) :- ParseU64(i, q3);
    Ok((UpsertBoundaryNode(id, ownerShard, labels, properties, version), end))
  }

  function ParseConfig(i: bytes, p: nat): (r: Parsed<Command>)
    requires p <= |i|
    ensures r.Ok? ==> p <= r.value.1 <= |i|
  {
    var (phase, q) :- ParseText(i, p);
    var (description, q1) :- ParseText(i, q);
    var (n, q2) :- ParseU32(i, q1);
    var (voters, q3) :- ParseIds(i, q2, n, []);
    var (table, end) :- ParseTable(i, q3);
    Ok((ClusterConfigChange(phase, description, voters, table), end))
  }

  function ParseCommandBody(i: bytes, p: nat, tag: byte): (r: Parsed<Command>)
    requires p <= |i|
    ensures r.Ok? ==> p <= r.value.1 <= |i|
  {
    match tag
    case 1 => ParseNode(i, p)
    case 2 => ParseRel(i, p)
    case 3 =>
      var ((id, key, value), end) :- ParseKeyedValue(i, p);
      Ok((SetNodeProperty(id, key, value), end))
    case 4 =>
      var ((id, key, value), end) :- ParseKeyedValue(i, p);
      Ok((SetRelationshipProperty(id, key, value), end))
    case 5 =>
      var (id, end) :- ParseU64(i, p);
      Ok((DeleteRelationship(id), end))
    case 6 =>
      var (id, end) :- ParseU64(i, p);
      Ok((DeleteNode(id), end))
    case 7 => ParseBoundary(i, p)
    case 8 =>
      var ((id, key), end) :- ParseKeyed(i, p);
      Ok((RemoveNodeProperty(id, key), end))
    case 9 =>
      var ((id, key), end) :- ParseKeyed(i, p);
      Ok((RemoveRelationshipProperty(id, key), end))
    case 10 =>
      var ((id, key), end) :- ParseKeyed(i, p);
      Ok((AddNodeLabel(id, key), end))
    case 11 =>
      var ((id, key), end) :- ParseKeyed(i, p);
      Ok((RemoveNodeLabel(id, key), end))
    case 12 => ParseConfig(i, p)
    case _ => Err(UnknownTag)
  }

  function ParseCommand(i: bytes, p: nat): (r: Parsed<Command>)
    requires p <= |i|
    ensures r.Ok? ==> p < r.value.1 <= |i|
  {
    var (tag, q) :- ParseU8(i, p);
    ParseCommandBody(i, q, tag)
  }

  /** A whole input that is one command and nothing more. */
  function DecodeCommand(i: bytes): Result<Command, CodecError> {
    var (c, end) :- ParseCommand(i, 0);
    if end == |i| then Ok(c) else Err(TrailingBytes)
  }

  // ----- Round trip -----

  lemma KeyedAt(i: bytes, p: nat, id: u64, key: Text)
    requires SizedText(key) && At(i, p, EncKeyed(id, key))
    ensures ParseKeyed(i, p) == Ok(((id, key), p + |EncKeyed(id, key)|))
  {
    AtConcat(i, p, U64(id), Str(key));
    U64At(i, p, id);
    TextAt(i, p + 8, key);
  }

  lemma KeyedValueAt(i: bytes, p: nat, id: u64, key: Text, value: Value)
    requires SizedText(key) && SizedValue(value) && At(i, p, EncKeyedValue(id, key, value))
    ensures ParseKeyedValue(i, p) == Ok(((id, key, value), p + |EncKeyedValue(id, key, value)|))
  {
    AtConcat(i, p, U64(id), Str(key) + EncValue(value));
    AtConcat(i, p + 8, Str(key), EncValue(value));
    U64At(i, p, id);
    TextAt(i, p + 8, key);
    ValueAt(i, p + 8 + |Str(key)|, value);
  }

  lemma NodeAt(i: bytes, p: nat, id: u64, labels: seq<Text>, properties: Properties)
    requires SizedTexts(labels) && SizedProps(properties) && At(i, p, EncNode(id, labels, properties))
    ensures ParseNode(i, p) == Ok((CreateNode(id, labels, properties), p + |EncNode(id, labels, properties)|))
  {
    hide At, ParseTextList, ParseU64, ParseProps, SizedTexts, SizedProps, EncProps, TextList, U64;
    AtConcat(i, p, U64(id), TextList(labels) + EncProps(properties));
    AtConcat(i, p + 8, TextList(labels), EncProps(properties));
    U64At(i, p, id);
    TextListAt(i, p + 8, labels);
    PropsAt(i, p + 8 + |TextList(labels)|, properties);
  }

  lemma RelAt(i: bytes, p: nat, id: u64, from: u64, to: u64, relType: Text, properties: Properties)
    requires SizedText(relType) && SizedProps(properties) && At(i, p, EncRel(id, from, to, relType, properties))
    ensures ParseRel(i, p)
            == Ok((CreateRelationship(id, from, to, relType, properties),
                   p + |EncRel(id, from, to, relType, properties)|))
  {
    hide At, ParseText, ParseU64, ParseProps, SizedText, SizedProps, EncProps, Str, U64;
    var tail := Str(relType) + EncProps(properties);
    AtConcat(i, p, U64(id), U64(from) + (U64(to) + tail));
    AtConcat(i, p + 8, U64(from), U64(to) + tail);
    AtConcat(i, p + 16, U64(to), tail);
    AtConcat(i, p + 24, Str(relType), EncProps(properties));
    U64At(i, p, id);
    U64At(i, p + 8, from);
    U64At(i, p + 16, to);
    TextAt(i, p + 24, relType);
    PropsAt(i, p + 24 + |Str(relType)|, properties);
  }

  lemma BoundaryLaid(i: bytes, p: nat, id: u64, shard: u64, labels: bytes, properties: bytes, version: u64)
    requires At(i, p, U64(id) + (U64(shard) + (labels + (properties + U64(version)))))
    ensures At(i, p, U64(id)) && At(i, p + 8, U64(shard)) && At(i, p + 16, labels)
    ensures At(i, p + 16 + |labels|, properties) && At(i, p + 16 + |labels| + |properties|, U64(version))
  {
    AtConcat(i, p, U64(id), U64(shard) + (labels + (properties + U64(version))));
    AtConcat(i, p + 8, U64(shard), labels + (properties + U64(version)));
    AtConcat(i, p + 16, labels, properties + U64(version));
    AtConcat(i, p + 16 + |labels|, properties, U64(version));
  }

  lemma BoundaryParses(
    i: bytes, p: nat, id: u64, shard: u64, labels: seq<Text>, q: nat, properties: Properties, q1: nat, version: u64)
    requires p + 16 <= |i| && ParseU64(i, p) == Ok((id, p + 8)) && ParseU64(i, p + 8) == Ok((shard, p + 16))
    requires ParseTextList(i, p + 16) == Ok((labels, q)) && ParseProps(i, q) == Ok((properties, q1))
    requires ParseU64(i, q1) == Ok((version, q1 + 8))
    ensures ParseBoundary(i, p) == Ok((UpsertBoundaryNode(id, shard, labels, properties, version), q1 + 8))
  {
  }

  lemma BoundaryAt(i: bytes, p: nat, id: u64, shard: u64, labels: seq<Text>, properties: Properties, version: u64)
    requires SizedTexts(labels) && SizedProps(properties)
              && At(i, p, EncBoundary(id, shard, labels, properties, version))
    ensures ParseBoundary(i, p) == Ok((UpsertBoundaryNode(id, shard, labels, properties, version),
                                       p + |EncBoundary(id, shard, labels, properties, version)|))
  {
    hide At, ParseTextList, ParseU64, ParseProps, ParseBoundary, SizedTexts, SizedProps, EncProps, TextList, U64;
    var ls, ps := TextList(labels), EncProps(properties);
    var q := p + 16 + |ls|;
    BoundaryLaid(i, p, id, shard, ls, ps, version);
    U64At(i, p, id);
    U64At(i, p + 8, shard);
    TextListAt(i, p + 16, labels);
    PropsAt(i, q, properties);
    U64At(i, q + |ps|, version);
    BoundaryParses(i, p, id, shard, labels, q, properties, q + |ps|, version);
  }

  lemma ConfigLaid(i: bytes, p: nat, phase: bytes, description: bytes, count: bytes, voters: bytes, table: bytes)
    requires At(i, p, phase + (description + (count + (voters + table))))
    ensures At(i, p, phase) && At(i, p + |phase|, description) && At(i, p + |phase| + |description|, count)
    ensures At(i, p + |phase| + |description| + |count|, voters)
    ensures At(i, p + |phase| + |description| + |count| + |voters|, table)
  {
    AtConcat(i, p, phase, description + (count + (voters + table)));
    AtConcat(i, p + |phase|, description, count + (voters + table));
    AtConcat(i, p + |phase| + |description|, count, voters + table);
    AtConcat(i, p + |phase| + |description| + |count|, voters, table);
  }

  lemma ConfigParses(
    i: bytes, p: nat, phase: Text, q: nat, description: Text, q1: nat, voters: seq<u64>, q2: nat,
    table: RoutingTable, end: nat)
    requires p <= |i| && ParseText(i, p) == Ok((phase, q)) && ParseText(i, q) == Ok((description, q1))
    requires |voters| < 0x1_0000_0000 && ParseU32(i, q1) == Ok((|voters|, q1 + 4))
    requires ParseIds(i, q1 + 4, |voters|, []) == Ok((voters, q2)) && ParseTable(i, q2) == Ok((table, end))
    ensures ParseConfig(i, p) == Ok((ClusterConfigChange(phase, description, voters, table), end))
  {
  }

  lemma ConfigAt(i: bytes, p: nat, phase: Text, description: Text, voters: seq<u64>, table: RoutingTable)
    requires SizedText(phase) && SizedText(description) && |voters| < 0x1_0000_0000 && SizedTable(table)
    requires At(i, p, EncConfig(phase, description, voters, table))
    ensures ParseConfig(i, p) == Ok((ClusterConfigChange(phase, description, voters, table),
                                     p + |EncConfig(phase, description, voters, table)|))
  {
    hide At, ParseText, ParseU32, ParseIds, ParseTable, ParseConfig, SizedText, SizedTable, EncIds, EncTable;
    var vs, t := EncIds(voters), EncTable(table);
    var q := p + |Str(phase)|;
    var q1 := q + |Str(description)|;
    ConfigLaid(i, p, Str(phase), Str(description), Len(|voters|), vs, t);
    TextAt(i, p, phase);
    TextAt(i, q, description);
    U32At(i, q1, |voters|);
    IdsAt(i, q1 + 4, voters, []);
    assert [] + voters == voters;
    TableAt(i, q1 + 4 + |vs|, table);
    ConfigParses(i, p, phase, q, description, q1, voters, q1 + 4 + |vs|, table, q1 + 4 + |vs| + |t|);
  }

  lemma KeyedCommandAt(i: bytes, p: nat, c: Command)
    requires c.RemoveNodeProperty? || c.RemoveRelationshipProperty? || c.AddNodeLabel? || c.RemoveNodeLabel?
    requires Sized(c) && At(i, p, EncCommandBody(c))
    ensures ParseCommandBody(i, p, CommandTag(c)) == Ok((c, p + |EncCommandBody(c)|))
  {
    hide At, ParseKeyed, EncKeyed, SizedText;
    match c
    case RemoveNodeProperty(id, key) => KeyedAt(i, p, id, key);
    case AddNodeLabel(id, tag) => KeyedAt(i, p, id, tag);
    case RemoveNodeLabel(id, tag) => KeyedAt(i, p, id, tag);
    case RemoveRelationshipProperty(id, key) => KeyedAt(i, p, id, key);
  }

  lemma ShortCommandAt(i: bytes, p: nat, c: Command)
    requires c.SetNodeProperty? || c.SetRelationshipProperty? || c.DeleteRelationship? || c.DeleteNode?
    requires Sized(c) && At(i, p, EncCommandBody(c))
    ensures ParseCommandBody(i, p, CommandTag(c)) == Ok((c, p + |EncCommandBody(c)|))
  {
    hide At, ParseKeyedValue, ParseU64, EncKeyedValue, U64, SizedText, SizedValue;
    match c
    case SetNodeProperty(id, key, value) => KeyedValueAt(i, p, id, key, value);
    case SetRelationshipProperty(id, key, value) => KeyedValueAt(i, p, id, key, value);
    case DeleteRelationship(id) => U64At(i, p, id);
    case DeleteNode(id) => U64At(i, p, id);
  }

  lemma LongCommandAt(i: bytes, p: nat, c: Command)
    requires c.CreateNode? || c.CreateRelationship? || c.UpsertBoundaryNode? || c.ClusterConfigChange?
    requires Sized(c) && At(i, p, EncCommandBody(c))
    ensures ParseCommandBody(i, p, CommandTag(c)) == Ok((c, p + |EncCommandBody(c)|))
  {
    hide At, ParseNode, ParseRel, ParseBoundary, ParseConfig, EncNode, EncRel, EncBoundary, EncConfig, SizedTexts,
      SizedText, SizedProps, SizedTable;
    match c
    case CreateNode(id, labels, properties) => NodeAt(i, p, id, labels, properties);
    case CreateRelationship(id, from, to, relType, properties) => RelAt(i, p, id, from, to, relType, properties);
    case UpsertBoundaryNode(id, shard, labels, properties, version) =>
        BoundaryAt(i, p, id, shard, labels, properties, version);
    case ClusterConfigChange(phase, description, voters, table) => ConfigAt(i, p, phase, description, voters, table);
  }

  lemma CommandBodyAt(i: bytes, p: nat, c: Command)
    requires Sized(c) && At(i, p, EncCommandBody(c))
    ensures ParseCommandBody(i, p, CommandTag(c)) == Ok((c, p + |EncCommandBody(c)|))
  {
    hide At, ParseCommandBody, EncCommandBody, Sized, CommandTag;
    if c.CreateNode? || c.CreateRelationship? || c.UpsertBoundaryNode? || c.ClusterConfigChange? {
      LongCommandAt(i, p, c);
    } else if c.SetNodeProperty? || c.SetRelationshipProperty? || c.DeleteRelationship? || c.DeleteNode? {
      ShortCommandAt(i, p, c);
    } else {
      KeyedCommandAt(i, p, c);
    }
  }

  lemma CommandAt(i: bytes, p: nat, c: Command)
    requires Sized(c) && At(i, p, EncCommand(c))
    ensures ParseCommand(i, p) == Ok((c, p + |EncCommand(c)|))
  {
    hide At, ParseCommandBody, EncCommandBody, Sized, CommandTag;
    AtConcat(i, p, [CommandTag(c)], EncCommandBody(c));
    U8At(i, p, CommandTag(c));
    CommandBodyAt(i, p + 1, c);
  }

  lemma AtStart(i: bytes, rest: bytes)
    ensures At(i + rest, 0, i)
  {
  }

  /** Decoding inverts encoding. */
  lemma CommandRoundTrip(c: Command)
    requires Sized(c)
    ensures DecodeCommand(EncCommand(c)) == Ok(c)
  {
    AtStart(EncCommand(c), []);
    assert EncCommand(c) + [] == EncCommand(c);
    CommandAt(EncCommand(c), 0, c);
  }

  /** Anything behind a command is refused. */
  lemma ExtensionRejected(c: Command, more: bytes)
    requires Sized(c) && more != []
    ensures DecodeCommand(EncCommand(c) + more) == Err(TrailingBytes)
  {
    AtStart(EncCommand(c), more);
    CommandAt(EncCommand(c) + more, 0, c);
  }
}
