/** Whatever bytes a command decodes from, it is a command the encoder can write and that reads back. */
module CodecSound {
  import opened Basics
  import opened Model
  import opened Codec
  import opened CommandCodec

  lemma TextSound(i: bytes, p: nat)
    requires p <= |i| && ParseText(i, p).Ok?
    ensures SizedText(ParseText(i, p).value.0)
  {
    hide ValidUtf8;
  }

  lemma {:induction false} TextsSound(i: bytes, p: nat, n: nat, got: seq<Text>)
    requires p <= |i| && ParseTexts(i, p, n, got).Ok? && forall j :: 0 <= j < |got| ==> SizedText(got[j])
    ensures var ss := ParseTexts(i, p, n, got).value.0;
            |ss| == |got| + n && forall j :: 0 <= j < |ss| ==> SizedText(ss[j])
    decreases n
  {
    hide ParseText, SizedText;
    if n > 0 {
      TextSound(i, p);
      var (s, q) := ParseText(i, p).value;
      TextsSound(i, q, n - 1, got + [s]);
    }
  }

  lemma TextListSound(i: bytes, p: nat)
    requires p <= |i| && ParseTextList(i, p).Ok?
    ensures SizedTexts(ParseTextList(i, p).value.0)
  {
    hide ParseTexts, SizedText;
    var (n, q) := ParseU32(i, p).value;
    TextsSound(i, q, n, []);
  }

  lemma {:induction false} ItemsCount(i: bytes, p: nat, n: nat, got: seq<u32>)
    requires p <= |i| && ParseItems(i, p, n, got).Ok?
    ensures |ParseItems(i, p, n, got).value.0| == |got| + n
    decreases n
  {
    hide ParseU32;
    if n > 0 {
      var (x, q) := ParseU32(i, p).value;
      ItemsCount(i, q, n - 1, got + [x]);
    }
  }

  lemma {:induction false} ValueSound(i: bytes, p: nat)
    requires p <= |i| && ParseValue(i, p).Ok?
    ensures SizedValue(ParseValue(i, p).value.0)
    decreases |i| - p, 0
  {
    hide SizedValue;
    var (tag, q) := ParseU8(i, p).value;
    BodySound(i, q, tag);
  }

  lemma {:induction false} BodySound(i: bytes, p: nat, tag: byte)
    requires p <= |i| && ParseBody(i, p, tag).Ok?
    ensures SizedValue(ParseBody(i, p, tag).value.0)
    decreases |i| - p, 1
  {
    hide ParseU64, ParseU8, ParseText, ParseItems, SizedText;
    match tag
    case 4 => TextSound(i, p);
    case 5 =>
      var (n, q) := ParseU32(i, p).value;
      ItemsCount(i, q, n, []);
    case 6 =>
      var (n, q) := ParseU32(i, p).value;
      EntriesSound(i, q, n, map[]);
    case _ =>
  }

  ghost predicate SizedEntry(m: Properties, k: Text) {
    k in m ==> SizedText(k) && SizedValue(m[k])
  }

  lemma {:induction false} EntriesSound(i: bytes, p: nat, n: nat, got: Properties)
    requires p <= |i| && ParseEntries(i, p, n, got).Ok?
    requires forall k {:trigger SizedEntry(got, k)} :: SizedEntry(got, k)
    ensures var m := ParseEntries(i, p, n, got).value.0;
            |m| <= |got| + n && forall k {:trigger SizedEntry(m, k)} :: SizedEntry(m, k)
    ensures forall k :: k in ParseEntries(i, p, n, got).value.0 ==>
              SizedText(k) && SizedValue(ParseEntries(i, p, n, got).value.0[k])
    decreases |i| - p, n
  {
    hide ParseText, SizedText, SizedValue;
    if n > 0 {
      TextSound(i, p);
      var (key, q) := ParseText(i, p).value;
      ValueSound(i, q);
      var (value, q1) := ParseValue(i, q).value;
      var next := got[key := value];
      forall k
        ensures SizedEntry(next, k)
      {
        assert SizedEntry(got, k);
      }
      PutGrows(got, key, value);
      EntriesSound(i, q1, n - 1, next);
    }
    var m := ParseEntries(i, p, n, got).value.0;
    forall k | k in m
      ensures SizedText(k) && SizedValue(m[k])
    {
      assert SizedEntry(m, k);
    }
  }

  lemma PutGrows(m: Properties, k: Text, v: Value)
    ensures |m[k := v]| <= |m| + 1
  {
    var m' := m[k := v];
    if k in m {
      assert m'.Keys == m.Keys;
      assert |m'| == |m'.Keys| && |m| == |m.Keys|;
    } else {
      assert m'.Keys == m.Keys + {k};
      assert |m'| == |m'.Keys| && |m| == |m.Keys|;
    }
  }

  lemma PropsSound(i: bytes, p: nat)
    requires p <= |i| && ParseProps(i, p).Ok?
    ensures SizedProps(ParseProps(i, p).value.0)
  {
    hide ParseEntries, SizedText;
    var (n, q) := ParseU32(i, p).value;
    EntriesSound(i, q, n, map[]);
  }

  lemma {:induction false} IdsLength(i: bytes, p: nat, n: nat, got: seq<u64>)
    requires p <= |i| && ParseIds(i, p, n, got).Ok?
    ensures |ParseIds(i, p, n, got).value.0| == |got| + n
    decreases n
  {
    hide ParseU64;
    if n > 0 {
      var (x, q) := ParseU64(i, p).value;
      IdsLength(i, q, n - 1, got + [x]);
    }
  }

  lemma {:induction false} ReplicasLength(i: bytes, p: nat, n: nat, got: seq<ShardReplica>)
    requires p <= |i| && ParseReplicas(i, p, n, got).Ok?
    ensures |ParseReplicas(i, p, n, got).value.0| == |got| + n
    decreases n
  {
    hide ParseReplica;
    if n > 0 {
      var (x, q) := ParseReplica(i, p).value;
      ReplicasLength(i, q, n - 1, got + [x]);
    }
  }

  lemma {:induction false} PlacementsSound(i: bytes, p: nat, n: nat, got: seq<ShardPlacement>)
    requires p <= |i| && ParsePlacements(i, p, n, got).Ok?
    requires forall x :: x in got ==> |x.replicas| < 0x1_0000_0000
    ensures var xs := ParsePlacements(i, p, n, got).value.0;
            |xs| == |got| + n && forall x :: x in xs ==> |x.replicas| < 0x1_0000_0000
    decreases n
  {
    hide ParseReplicas;
    if n > 0 {
      var (shard, q) := ParseU64(i, p).value;
      var (m, q1) := ParseU32(i, q).value;
      ReplicasLength(i, q1, m, []);
      var (x, end) := ParsePlacement(i, p).value;
      PlacementsSound(i, end, n - 1, got + [x]);
    }
  }

  lemma TableSound(i: bytes, p: nat)
    requires p <= |i| && ParseTable(i, p).Ok?
    ensures SizedTable(ParseTable(i, p).value.0)
  {
    hide ParsePlacements;
    var (version, q) := ParseU64(i, p).value;
    var (n, q1) := ParseU32(i, q).value;
    PlacementsSound(i, q1, n, []);
  }

  // ----- Commands -----

  lemma KeyedSound(i: bytes, p: nat)
    requires p <= |i|
    ensures ParseKeyed(i, p).Ok? ==> SizedText(ParseKeyed(i, p).value.0.1)
    ensures ParseKeyedValue(i, p).Ok? ==>
              SizedText(ParseKeyedValue(i, p).value.0.1) && SizedValue(ParseKeyedValue(i, p).value.0.2)
  {
    hide ParseText, ParseValue, SizedText, SizedValue;
    if ParseKeyed(i, p).Ok? || ParseKeyedValue(i, p).Ok? {
      var (id, q) := ParseU64(i, p).value;
      TextSound(i, q);
      var (key, q1) := ParseText(i, q).value;
      if ParseKeyedValue(i, p).Ok? { ValueSound(i, q1); }
    }
  }

  lemma NodeSound(i: bytes, p: nat)
    requires p <= |i| && ParseNode(i, p).Ok?
    ensures Sized(ParseNode(i, p).value.0)
  {
    hide ParseTextList, ParseProps, SizedTexts, SizedProps;
    var (id, q) := ParseU64(i, p).value;
    TextListSound(i, q);
    var (labels, q1) := ParseTextList(i, q).value;
    PropsSound(i, q1);
  }

  lemma RelSound(i: bytes, p: nat)
    requires p <= |i| && ParseRel(i, p).Ok?
    ensures Sized(ParseRel(i, p).value.0)
  {
    hide ParseText, ParseProps, SizedText, SizedProps;
    TextSound(i, p + 24);
    var (relType, q) := ParseText(i, p + 24).value;
    PropsSound(i, q);
  }

  lemma BoundarySound(i: bytes, p: nat)
    requires p <= |i| && ParseBoundary(i, p).Ok?
    ensures Sized(ParseBoundary(i, p).value.0)
  {
    hide ParseTextList, ParseProps, SizedTexts, SizedProps;
    TextListSound(i, p + 16);
    var (labels, q) := ParseTextList(i, p + 16).value;
    PropsSound(i, q);
  }

  lemma ConfigSound(i: bytes, p: nat)
    requires p <= |i| && ParseConfig(i, p).Ok?
    ensures Sized(ParseConfig(i, p).value.0)
  {
    hide ParseText, ParseIds, ParseTable, SizedText, SizedTable;
    TextSound(i, p);
    var (phase, q) := ParseText(i, p).value;
    TextSound(i, q);
    var (description, q1) := ParseText(i, q).value;
    var (n, q2) := ParseU32(i, q1).value;
    IdsLength(i, q2, n, []);
    var (voters, q3) := ParseIds(i, q2, n, []).value;
    TableSound(i, q3);
  }

  lemma CommandSound(i: bytes, p: nat)
    requires p <= |i| && ParseCommand(i, p).Ok?
    ensures Sized(ParseCommand(i, p).value.0)
  {
    hide ParseKeyed, ParseKeyedValue, ParseNode, ParseRel, ParseBoundary, ParseConfig, SizedText, SizedTexts,
      SizedProps, SizedValue, SizedTable;
    var (tag, q) := ParseU8(i, p).value;
    KeyedSound(i, q);
    if tag == 1 { NodeSound(i, q); }
    if tag == 2 { RelSound(i, q); }
    if tag == 7 { BoundarySound(i, q); }
    if tag == 12 { ConfigSound(i, q); }
  }

  /** Decoding is safe: the result has valid text and fitting lengths throughout, and re-encodes to itself. */
  lemma DecodedReadsBack(i: bytes)
    requires DecodeCommand(i).Ok?
    ensures Sized(DecodeCommand(i).value)
    ensures DecodeCommand(EncCommand(DecodeCommand(i).value)) == DecodeCommand(i)
  {
    hide ParseCommand, Sized, EncCommand;
    CommandSound(i, 0);
    CommandRoundTrip(DecodeCommand(i).value);
  }
}
