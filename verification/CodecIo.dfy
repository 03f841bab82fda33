/** The output buffer and the reader of the binary codec, proved against the format. */
module CodecIo {
  import opened Basics
  import opened Model
  import opened Codec
  import opened CommandCodec
  import opened LogCodec

  class Writer {
    var out: bytes

    constructor ()
      ensures out == []
    {
      out := [];
    }

    method Put(bs: bytes)
      modifies this
      ensures out == old(out) + bs
    {
      out := out + bs;
    }

    method WriteString(s: Text)
      modifies this
      ensures out == old(out) + Str(s)
    {
      Put(Len(|s|));
      Put(s);
    }

    method WriteStrings(ss: seq<Text>)
      modifies this
      ensures out == old(out) + TextList(ss)
    {
      hide Str;
      Put(Len(|ss|));
      ghost var base := out;
      assert base + [] == base;
      for i := 0 to |ss|
        invariant out == base + Strs(ss[..i])
      {
        assert ss[..i + 1][..i] == ss[..i];
        WriteString(ss[i]);
      }
      assert ss[..|ss|] == ss;
    }

    method WriteItems(items: seq<u32>)
      modifies this
      ensures out == old(out) + Items(items)
    {
      assert out + [] == out;
      for i := 0 to |items|
        invariant out == old(out) + Items(items[..i])
      {
        assert items[..i + 1][..i] == items[..i];
        Put(U32(items[i]));
      }
      assert items[..|items|] == items;
    }

    method WriteValue(v: Value)
      modifies this
      ensures out == old(out) + EncValue(v)
      decreases v, 1
    {
      Put([Tag(v)]);
      match v {
        case VNull =>
        case VBool(b) => Put([if b then 1 else 0]);
        case VInt(x) => Put(U64(Unsigned(x)));
        case VFloat(bits) => Put(U64(bits));
        case VString(s) => WriteString(s);
        case VVector(items) =>
          Put(Len(|items|));
          WriteItems(items);
        case VMap(m) => WriteEntries(v);
      }
      assert out == old(out) + [Tag(v)] + EncBody(v);
    }

    /** A map's length and its entries in key order. */
    method WriteEntries(v: Value)
      requires v.VMap?
      modifies this
      ensures out == old(out) + EncBody(v)
      decreases v, 0
    {
      hide Str;
      SortedKeysElements(v.entries.Keys);
      var keys := SortedKeys(v.entries.Keys);
      ghost var all := EncEntries(v, keys);
      Put(Len(|v.entries|));
      ghost var base := out;
      assert keys[0..] == keys;
      for i := 0 to |keys|
        invariant out + EncEntries(v, keys[i..]) == base + all
      {
        assert keys[i..][0] == keys[i] && keys[i..][1..] == keys[i + 1..] && keys[i] in keys;
        ghost var before, x := out, v.entries[keys[i]];
        WriteString(keys[i]);
        WriteValue(v.entries[keys[i]]);
        Regroup(before, Str(keys[i]), EncValue(x), EncEntries(v, keys[i + 1..]));
      }
      assert keys[|keys|..] == [] && out + [] == out;
    }

    static lemma Regroup(a: bytes, b: bytes, c: bytes, d: bytes)
      ensures a + b + c + d == a + (b + (c + d))
    {
    }

    method WriteProperties(m: Properties)
      modifies this
      ensures out == old(out) + EncProps(m)
    {
      WriteEntries(VMap(m));
      assert EncBody(VMap(m)) == EncProps(m);
    }

    method WriteIds(ids: seq<u64>)
      modifies this
      ensures out == old(out) + EncIds(ids)
    {
      ghost var base := out;
      assert ids[0..] == ids;
      for i := 0 to |ids|
        invariant out + EncIds(ids[i..]) == base + EncIds(ids)
      {
        assert ids[i..][0] == ids[i] && ids[i..][1..] == ids[i + 1..];
        ghost var before := out;
        Put(U64(ids[i]));
        assert before + U64(ids[i]) + EncIds(ids[i + 1..]) == before + (U64(ids[i]) + EncIds(ids[i + 1..]));
      }
      assert ids[|ids|..] == [] && out + [] == out;
    }

    method WriteReplicas(rs: seq<ShardReplica>)
      modifies this
      ensures out == old(out) + EncReplicas(rs)
    {
      ghost var base := out;
      assert rs[0..] == rs;
      for i := 0 to |rs|
        invariant out + EncReplicas(rs[i..]) == base + EncReplicas(rs)
      {
        assert rs[i..][0] == rs[i] && rs[i..][1..] == rs[i + 1..];
        ghost var before := out;
        Put(U64(rs[i].serverId));
        Put([if rs[i].role == Primary then 1 else 2]);
        Regroup(before, U64(rs[i].serverId), [if rs[i].role == Primary then 1 else 2], EncReplicas(rs[i + 1..]));
      }
      assert rs[|rs|..] == [] && out + [] == out;
    }

    method WritePlacement(x: ShardPlacement)
      modifies this
      ensures out == old(out) + EncPlacement(x)
    {
      Put(U64(x.shardId));
      Put(Len(|x.replicas|));
      WriteReplicas(x.replicas);
      Regroup(old(out), U64(x.shardId), Len(|x.replicas|), EncReplicas(x.replicas));
    }

    method WritePlacements(xs: seq<ShardPlacement>)
      modifies this
      ensures out == old(out) + EncPlacements(xs)
    {
      hide EncPlacement;
      ghost var base := out;
      assert xs[0..] == xs;
      for i := 0 to |xs|
        invariant out + EncPlacements(xs[i..]) == base + EncPlacements(xs)
      {
        assert xs[i..][0] == xs[i] && xs[i..][1..] == xs[i + 1..];
        ghost var before := out;
        WritePlacement(xs[i]);
        assert before + EncPlacement(xs[i]) + EncPlacements(xs[i + 1..]) ==
            before + (EncPlacement(xs[i]) + EncPlacements(xs[i + 1..]));
      }
      assert xs[|xs|..] == [] && out + [] == out;
    }

    method WriteRoutingTable(t: RoutingTable)
      modifies this
      ensures out == old(out) + EncTable(t)
    {
      hide EncPlacements;
      Put(U64(t.version));
      Put(Len(|t.placements|));
      WritePlacements(t.placements);
      Regroup(old(out), U64(t.version), Len(|t.placements|), EncPlacements(t.placements));
    }

    method WriteKeyed(id: u64, key: Text)
      modifies this
      ensures out == old(out) + EncKeyed(id, key)
    {
      hide Str, U64;
      Put(U64(id));
      WriteString(key);
      assert old(out) + U64(id) + Str(key) == old(out) + (U64(id) + Str(key));
    }

    method WriteKeyedValue(id: u64, key: Text, value: Value)
      modifies this
      ensures out == old(out) + EncKeyedValue(id, key, value)
    {
      hide Str, U64, EncValue;
      Put(U64(id));
      WriteString(key);
      WriteValue(value);
      Regroup(old(out), U64(id), Str(key), EncValue(value));
    }

    method WriteNode(id: u64, labels: seq<Text>, properties: Properties)
      modifies this
      ensures out == old(out) + EncNode(id, labels, properties)
    {
      hide TextList, U64, EncProps;
      Put(U64(id));
      WriteStrings(labels);
      WriteProperties(properties);
      Regroup(old(out), U64(id), TextList(labels), EncProps(properties));
    }

    method WriteRelationship(id: u64, from: u64, to: u64, relType: Text, properties: Properties)
      modifies this
      ensures out == old(out) + EncRel(id, from, to, relType, properties)
    {
      hide Str, U64, EncProps;
      Put(U64(id));
      Put(U64(from));
      ghost var head := out;
      Put(U64(to));
      WriteString(relType);
      WriteProperties(properties);
      ghost var tail := U64(to) + (Str(relType) + EncProps(properties));
      Regroup(head, U64(to), Str(relType), EncProps(properties));
      Regroup(old(out), U64(id), U64(from), tail);
    }

    method WriteBoundary(id: u64, shard: u64, labels: seq<Text>, properties: Properties, version: u64)
      modifies this
      ensures out == old(out) + EncBoundary(id, shard, labels, properties, version)
    {
      hide TextList, U64, EncProps;
      Put(U64(id));
      Put(U64(shard));
      ghost var head := out;
      WriteStrings(labels);
      WriteProperties(properties);
      Put(U64(version));
      ghost var tail := TextList(labels) + (EncProps(properties) + U64(version));
      Regroup(head, TextList(labels), EncProps(properties), U64(version));
      Regroup(old(out), U64(id), U64(shard), tail);
    }

    method WriteConfig(phase: Text, description: Text, voters: seq<u64>, table: RoutingTable)
      modifies this
      ensures out == old(out) + EncConfig(phase, description, voters, table)
    {
      hide Str, Len, EncIds, EncTable;
      WriteString(phase);
      WriteString(description);
      ghost var head := out;
      Put(Len(|voters|));
      WriteIds(voters);
      WriteRoutingTable(table);
      ghost var tail := Len(|voters|) + (EncIds(voters) + EncTable(table));
      Regroup(head, Len(|voters|), EncIds(voters), EncTable(table));
      Regroup(old(out), Str(phase), Str(description), tail);
    }

    method WriteCommand(c: Command)
      modifies this
      ensures out == old(out) + EncCommand(c)
    {
      hide EncKeyed, EncKeyedValue, EncNode, EncRel, EncBoundary, EncConfig, U64;
      Put([CommandTag(c)]);
      match c {
        case CreateNode(id, labels, properties) => WriteNode(id, labels, properties);
        case CreateRelationship(id, from, to, relType, properties) =>
            WriteRelationship(id, from, to, relType, properties);
        case UpsertBoundaryNode(id, ownerShard, labels, properties, version) =>
          WriteBoundary(id, ownerShard, labels, properties, version);
        case SetNodeProperty(id, key, value) => WriteKeyedValue(id, key, value);
        case SetRelationshipProperty(id, key, value) => WriteKeyedValue(id, key, value);
        case RemoveNodeProperty(id, key) => WriteKeyed(id, key);
        case RemoveRelationshipProperty(id, key) => WriteKeyed(id, key);
        case AddNodeLabel(id, tag) => WriteKeyed(id, tag);
        case RemoveNodeLabel(id, tag) => WriteKeyed(id, tag);
        case DeleteRelationship(id) => Put(U64(id));
        case DeleteNode(id) => Put(U64(id));
        case ClusterConfigChange(phase, description, voters, table) => WriteConfig(phase, description, voters, table);
      }
      assert old(out) + [CommandTag(c)] + EncCommandBody(c) == old(out) + ([CommandTag(c)] + EncCommandBody(c));
    }

    method WriteLogEntry(e: LogEntry)
      modifies this
      ensures out == old(out) + EncV3(e)
    {
      hide EncIds, EncCommand, U32, Len;
      var command := new Writer();
      command.WriteCommand(e.command);
      assert command.out == EncCommand(e.command);
      Put(MAGIC_V3);
      WriteIds([e.shardId, e.term, e.index, e.origin, e.configVersion, e.timestamp.physicalMs]);
      ghost var head := out;
      Put(U32(e.timestamp.logical));
      Put(Len(|command.out|));
      Put(command.out);
      ghost var ids := EncIds([e.shardId, e.term, e.index, e.origin, e.configVersion, e.timestamp.physicalMs]);
      ghost var tail := U32(e.timestamp.logical) + (Len(|command.out|) + command.out);
      Regroup(head, U32(e.timestamp.logical), Len(|command.out|), command.out);
      Regroup(old(out), MAGIC_V3, ids, tail);
    }
  }

  /** What a parse result says about a read: the value and the new position, or the error. */
  ghost predicate Matches<T>(p: Parsed<T>, r: Result<T, CodecError>, position: nat) {
    if p.Ok? then r == Ok(p.value.0) && position == p.value.1 else r == Err(p.error)
  }

  class Reader {
    const input: bytes
    var position: nat

    constructor (input: bytes)
      ensures this.input == input && position == 0 && Valid()
    {
      this.input := input;
      position := 0;
    }

    ghost predicate Valid()
      reads this
    {
      position <= |input|
    }

    method ReadExact(n: nat) returns (r: Result<bytes, CodecError>)
      requires Valid()
      modifies this
      ensures Valid() && Matches(ParseExact(input, old(position), n), r, position)
    {
      if position + n > |input| {
        return Err(Truncated);
      }
      r := Ok(input[position..position + n]);
      assert input[position..position + n] == Sub(input, position, n);
      position := position + n;
    }

    method ReadInt(w: nat) returns (r: Result<nat, CodecError>)
      requires Valid()
      modifies this
      ensures Valid()
      ensures old(position) + w > |input| ==> r == Err(Truncated)
      ensures old(position) + w <= |input| ==> r == Ok(FromBE(input, old(position), w)) && position == old(position) + w
    {
      if position + w > |input| {
        return Err(Truncated);
      }
      var x: nat := 0;
      for k := 0 to w
        invariant x == FromBE(input, position, k)
      {
        x := x * 256 + input[position + k];
      }
      r := Ok(x);
      position := position + w;
    }

    method ReadU8() returns (r: Result<byte, CodecError>)
      requires Valid()
      modifies this
      ensures Valid() && Matches(ParseU8(input, old(position)), r, position)
    {
      if position + 1 > |input| {
        return Err(Truncated);
      }
      r := Ok(input[position]);
      position := position + 1;
    }

    method ReadU32() returns (r: Result<u32, CodecError>)
      requires Valid()
      modifies this
      ensures Valid() && Matches(ParseU32(input, old(position)), r, position)
    {
      Widths();
      var x :- ReadInt(4);
      r := Ok(x);
    }

    method ReadU64() returns (r: Result<u64, CodecError>)
      requires Valid()
      modifies this
      ensures Valid() && Matches(ParseU64(input, old(position)), r, position)
    {
      Widths();
      var x :- ReadInt(8);
      r := Ok(x);
    }

    method ReadString() returns (r: Result<Text, CodecError>)
      requires Valid()
      modifies this
      ensures Valid() && Matches(ParseText(input, old(position)), r, position)
    {
      var n :- ReadU32();
      var bs :- ReadExact(n);
      if !ValidUtf8(bs) {
        return Err(BadUtf8);
      }
      r := Ok(bs);
    }

    method ReadStrings() returns (r: Result<seq<Text>, CodecError>)
      requires Valid()
      modifies this
      ensures Valid() && Matches(ParseTextList(input, old(position)), r, position)
    {
      hide ParseText;
      var n :- ReadU32();
      ghost var start := position;
      var values := [];
      for k := 0 to n
        invariant Valid() && ParseTexts(input, start, n, []) == ParseTexts(input, position, n - k, values)
      {
        var s :- ReadString();
        values := values + [s];
      }
      r := Ok(values);
    }

    method ReadItems(n: nat) returns (r: Result<seq<u32>, CodecError>)
      requires Valid()
      modifies this
      ensures Valid() && Matches(ParseItems(input, old(position), n, []), r, position)
    {
      hide ParseU32;
      var values := [];
      for k := 0 to n
        invariant Valid() && ParseItems(input, old(position), n, []) == ParseItems(input, position, n - k, values)
      {
        var x :- ReadU32();
        values := values + [x];
      }
      r := Ok(values);
    }

    method ReadValue() returns (r: Result<Value, CodecError>)
      requires Valid()
      modifies this
      ensures Valid() && Matches(ParseValue(input, old(position)), r, position)
      decreases |input| - position, 0
    {
      hide ParseText, ParseU64, ParseU32, ParseItems;
      var tag :- ReadU8();
      match tag {
        case 0 => r := Ok(VNull);
        case 1 =>
          var b :- ReadU8();
          r := Ok(VBool(b != 0));
        case 2 =>
          var x :- ReadU64();
          r := Ok(VInt(Signed(x)));
        case 3 =>
          var x :- ReadU64();
          r := Ok(VFloat(x));
        case 4 =>
          var s :- ReadString();
          r := Ok(VString(s));
        case 5 =>
          var n :- ReadU32();
          var items :- ReadItems(n);
          r := Ok(VVector(items));
        case 6 =>
          var n :- ReadU32();
          var m :- ReadEntries(n);
          r := Ok(VMap(m));
        case _ => r := Err(UnknownTag);
      }
    }

    method ReadEntries(n: nat) returns (r: Result<Properties, CodecError>)
      requires Valid()
      modifies this
      ensures Valid() && Matches(ParseEntries(input, old(position), n, map[]), r, position)
      decreases |input| - position, 1
    {
      hide ParseText;
      var m: Properties := map[];
      for k := 0 to n
        invariant Valid() && position >= old(position)
        invariant ParseEntries(input, old(position), n, map[]) == ParseEntries(input, position, n - k, m)
      {
        var key :- ReadString();
        var value :- ReadValue();
        m := m[key := value];
      }
      r := Ok(m);
    }

    method ReadProperties() returns (r: Result<Properties, CodecError>)
      requires Valid()
      modifies this
      ensures Valid() && Matches(ParseProps(input, old(position)), r, position)
    {
      hide ParseU32;
      var n :- ReadU32();
      var m :- ReadEntries(n);
      r := Ok(m);
    }

    method ReadIds(n: nat) returns (r: Result<seq<u64>, CodecError>)
      requires Valid()
      modifies this
      ensures Valid() && Matches(ParseIds(input, old(position), n, []), r, position)
    {
      hide ParseU64;
      var values := [];
      for k := 0 to n
        invariant Valid() && ParseIds(input, old(position), n, []) == ParseIds(input, position, n - k, values)
      {
        var x :- ReadU64();
        values := values + [x];
      }
      r := Ok(values);
    }

    method ReadReplica() returns (r: Result<ShardReplica, CodecError>)
      requires Valid()
      modifies this
      ensures Valid() && Matches(ParseReplica(input, old(position)), r, position)
    {
      hide ParseU64, ParseU8;
      var server :- ReadU64();
      var tag :- ReadU8();
      match tag {
        case 1 => r := Ok(ShardReplica(server, Primary));
        case 2 => r := Ok(ShardReplica(server, Replica));
        case _ => r := Err(UnknownTag);
      }
    }

    method ReadPlacement() returns (r: Result<ShardPlacement, CodecError>)
      requires Valid()
      modifies this
      ensures Valid() && Matches(ParsePlacement(input, old(position)), r, position)
    {
      hide ParseU64, ParseU32, ParseReplica;
      var shard :- ReadU64();
      var n :- ReadU32();
      ghost var start := position;
      var replicas := [];
      for k := 0 to n
        invariant Valid() && ParseReplicas(input, start, n, []) == ParseReplicas(input, position, n - k, replicas)
      {
        var x :- ReadReplica();
        replicas := replicas + [x];
      }
      r := Ok(ShardPlacement(shard, replicas));
    }

    method ReadRoutingTable() returns (r: Result<RoutingTable, CodecError>)
      requires Valid()
      modifies this
      ensures Valid() && Matches(ParseTable(input, old(position)), r, position)
    {
      hide ParseU64, ParseU32, ParsePlacement;
      var version :- ReadU64();
      var n :- ReadU32();
      ghost var start := position;
      var placements := [];
      for k := 0 to n
        invariant Valid() && ParsePlacements(input, start, n, []) == ParsePlacements(input, position, n - k, placements)
      {
        var x :- ReadPlacement();
        placements := placements + [x];
      }
      r := Ok(RoutingTable(version, placements));
    }

    method ReadNode() returns (r: Result<Command, CodecError>)
      requires Valid()
      modifies this
      ensures Valid() && Matches(ParseNode(input, old(position)), r, position)
    {
      hide ParseU64, ParseTextList, ParseProps;
      var id :- ReadU64();
      var labels :- ReadStrings();
      var properties :- ReadProperties();
      r := Ok(CreateNode(id, labels, properties));
    }

    method ReadRelationship() returns (r: Result<Command, CodecError>)
      requires Valid()
      modifies this
      ensures Valid() && Matches(ParseRel(input, old(position)), r, position)
    {
      hide ParseU64, ParseText, ParseProps;
      var id :- ReadU64();
      var from :- ReadU64();
      var to :- ReadU64();
      var relType :- ReadString();
      var properties :- ReadProperties();
      r := Ok(CreateRelationship(id, from, to, relType, properties));
    }

    method ReadBoundary() returns (r: Result<Command, CodecError>)
      requires Valid()
      modifies this
      ensures Valid() && Matches(ParseBoundary(input, old(position)), r, position)
    {
      hide ParseU64, ParseTextList, ParseProps;
      var id :- ReadU64();
      var ownerShard :- ReadU64();
      var labels :- ReadStrings();
      var properties :- ReadProperties();
      var version :- ReadU64();
      r := Ok(UpsertBoundaryNode(id, ownerShard, labels, properties, version));
    }

    method ReadConfig() returns (r: Result<Command, CodecError>)
      requires Valid()
      modifies this
      ensures Valid() && Matches(ParseConfig(input, old(position)), r, position)
    {
      hide ParseText, ParseU32, ParseIds, ParseTable;
      var phase :- ReadString();
      var description :- ReadString();
      var n :- ReadU32();
      var voters :- ReadIds(n);
      var table :- ReadRoutingTable();
      r := Ok(ClusterConfigChange(phase, description, voters, table));
    }

    method ReadKeyed() returns (r: Result<(u64, Text), CodecError>)
      requires Valid()
      modifies this
      ensures Valid() && Matches(ParseKeyed(input, old(position)), r, position)
    {
      hide ParseU64, ParseText;
      var id :- ReadU64();
      var key :- ReadString();
      r := Ok((id, key));
    }

    method ReadKeyedValue() returns (r: Result<(u64, Text, Value), CodecError>)
      requires Valid()
      modifies this
      ensures Valid() && Matches(ParseKeyedValue(input, old(position)), r, position)
    {
      hide ParseU64, ParseText, ParseValue;
      var id :- ReadU64();
      var key :- ReadString();
      var value :- ReadValue();
      r := Ok((id, key, value));
    }

    method ReadCommand() returns (r: Result<Command, CodecError>)
      requires Valid()
      modifies this
      ensures Valid() && Matches(ParseCommand(input, old(position)), r, position)
    {
      hide ParseNode, ParseRel, ParseBoundary, ParseConfig, ParseKeyed, ParseKeyedValue, ParseU64, ParseU8;
      var tag :- ReadU8();
      match tag {
        case 1 => r := ReadNode();
        case 2 => r := ReadRelationship();
        case 3 =>
          var t :- ReadKeyedValue();
          r := Ok(SetNodeProperty(t.0, t.1, t.2));
        case 4 =>
          var t :- ReadKeyedValue();
          r := Ok(SetRelationshipProperty(t.0, t.1, t.2));
        case 5 =>
          var id :- ReadU64();
          r := Ok(DeleteRelationship(id));
        case 6 =>
          var id :- ReadU64();
          r := Ok(DeleteNode(id));
        case 7 => r := ReadBoundary();
        case 8 =>
          var t :- ReadKeyed();
          r := Ok(RemoveNodeProperty(t.0, t.1));
        case 9 =>
          var t :- ReadKeyed();
          r := Ok(RemoveRelationshipProperty(t.0, t.1));
        case 10 =>
          var t :- ReadKeyed();
          r := Ok(AddNodeLabel(t.0, t.1));
        case 11 =>
          var t :- ReadKeyed();
          r := Ok(RemoveNodeLabel(t.0, t.1));
        case 12 => r := ReadConfig();
        case _ => r := Err(UnknownTag);
      }
    }

    method Finish() returns (r: Result<(), CodecError>)
      ensures r == if position == |input| then Ok(()) else Err(TrailingBytes)
    {
      r := if position == |input| then Ok(()) else Err(TrailingBytes);
    }

    static method Decode(input: bytes) returns (r: Result<Command, CodecError>)
      ensures r == DecodeCommand(input)
    {
      hide ParseCommand;
      var reader := new Reader(input);
      var c :- reader.ReadCommand();
      var _ :- reader.Finish();
      r := Ok(c);
    }

    /** A length-prefixed command that must end the input. */
    method ReadTail() returns (r: Result<Command, CodecError>)
      requires Valid()
      modifies this
      ensures r == DecodeTail(input, old(position))
    {
      hide ParseU32, ParseExact, DecodeCommand;
      var n :- ReadU32();
      var bs :- ReadExact(n);
      var c :- Decode(bs);
      var _ :- Finish();
      r := Ok(c);
    }

    /** All three layouts, told apart by their markers. */
    static method DecodeEntry(input: bytes) returns (r: Result<LogEntry, CodecError>)
      ensures r == DecodeLogEntry(input)
    {
      hide ParseIds, ParseU32, DecodeTail;
      var reader := new Reader(input);
      if StartsWith(input, MAGIC_V3) {
        reader.position := 7;
        IdsCount(input, 7, 6, []);
        var ids :- reader.ReadIds(6);
        var logical :- reader.ReadU32();
        var c :- reader.ReadTail();
        r := Ok(LogEntry(ids[0], ids[1], ids[2], ids[3], ids[4], Timestamp(ids[5], logical), c));
      } else if StartsWith(input, MAGIC_V2) {
        reader.position := 7;
        IdsCount(input, 7, 4, []);
        var ids :- reader.ReadIds(4);
        var logical :- reader.ReadU32();
        var c :- reader.ReadTail();
        r := Ok(LogEntry(ids[0], ids[1], ids[2], 0, 0, Timestamp(ids[3], logical), c));
      } else {
        IdsCount(input, 0, 3, []);
        var ids :- reader.ReadIds(3);
        var c :- reader.ReadTail();
        r := Ok(PlainEntry(ids[0], ids[1], ids[2], c));
      }
    }
  }
}
