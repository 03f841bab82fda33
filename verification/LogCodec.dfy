/** Log entry records in their current and two older layouts. */
module LogCodec {
  import opened Basics
  import opened Model
  import opened Codec
  import opened CommandCodec

  const MAGIC_V2: bytes := [0x4E, 0x34, 0x52, 0x4C, 0x45, 0x32, 0x0A]
  const MAGIC_V3: bytes := [0x4E, 0x34, 0x52, 0x4C, 0x45, 0x33, 0x0A]

  function EncTail(c: Command): bytes {
    Len(|EncCommand(c)|) + EncCommand(c)
  }

  function EncV3(e: LogEntry): bytes {
    MAGIC_V3 + (EncIds([e.shardId, e.term, e.index, e.origin, e.configVersion, e.timestamp.physicalMs])
                + (U32(e.timestamp.logical) + EncTail(e.command)))
  }

  /** The layout without origin and configuration version. */
  function EncV2(e: LogEntry): bytes {
    MAGIC_V2 + (EncIds([e.shardId, e.term, e.index, e.timestamp.physicalMs])
                + (U32(e.timestamp.logical) + EncTail(e.command)))
  }

  /** The oldest layout: no marker and no timestamp. */
  function EncV1(e: LogEntry): bytes {
    EncIds([e.shardId, e.term, e.index]) + EncTail(e.command)
  }

  predicate StartsWith(i: bytes, magic: bytes) {
    |magic| <= |i| && forall j {:trigger magic[j]} :: 0 <= j < |magic| ==> i[j] == magic[j]
  }

  /** A length-prefixed command that ends the input. */
  function DecodeTail(i: bytes, p: nat): Result<Command, CodecError>
    requires p <= |i|
  {
    var (n, q) :- ParseU32(i, p);
    var (bs, end) :- ParseExact(i, q, n);
    var c :- DecodeCommand(bs);
    if end == |i| then Ok(c) else Err(TrailingBytes)
  }

  function DecodeV3(i: bytes, p: nat): Result<LogEntry, CodecError>
    requires p <= |i|
  {
    var (ids, q) :- ParseIds(i, p, 6, []);
    var (logical, q1) :- ParseU32(i, q);
    var c :- DecodeTail(i, q1);
    IdsCount(i, p, 6, []);
    Ok(LogEntry(ids[0], ids[1], ids[2], ids[3], ids[4], Timestamp(ids[5], logical), c))
  }

  function DecodeV2(i: bytes, p: nat): Result<LogEntry, CodecError>
    requires p <= |i|
  {
    var (ids, q) :- ParseIds(i, p, 4, []);
    var (logical, q1) :- ParseU32(i, q);
    var c :- DecodeTail(i, q1);
    IdsCount(i, p, 4, []);
    Ok(LogEntry(ids[0], ids[1], ids[2], 0, 0, Timestamp(ids[3], logical), c))
  }

  function DecodeV1(i: bytes): Result<LogEntry, CodecError> {
    var (ids, q) :- ParseIds(i, 0, 3, []);
    var c :- DecodeTail(i, q);
    IdsCount(i, 0, 3, []);
    Ok(PlainEntry(ids[0], ids[1], ids[2], c))
  }

  function DecodeLogEntry(i: bytes): Result<LogEntry, CodecError> {
    if StartsWith(i, MAGIC_V3) then DecodeV3(i, 7)
    else if StartsWith(i, MAGIC_V2) then DecodeV2(i, 7)
    else DecodeV1(i)
  }

  lemma {:induction false} IdsCount(i: bytes, p: nat, n: nat, got: seq<u64>)
    requires p <= |i|
    ensures ParseIds(i, p, n, got).Ok? ==> |ParseIds(i, p, n, got).value.0| == |got| + n
    decreases n
  {
    if n > 0 && ParseU64(i, p).Ok? {
      var (x, q) := ParseU64(i, p).value;
      IdsCount(i, q, n - 1, got + [x]);
    }
  }

  // ----- Round trips -----

  predicate SizedEntry(e: LogEntry) {
    Sized(e.command) && |EncCommand(e.command)| < 0x1_0000_0000
  }

  lemma TailAt(i: bytes, p: nat, c: Command)
    requires Sized(c) && |EncCommand(c)| < 0x1_0000_0000 && At(i, p, EncTail(c)) && p + |EncTail(c)| == |i|
    ensures DecodeTail(i, p) == Ok(c)
  {
    hide At, EncCommand, DecodeCommand, ParseU32, ParseExact, Sized;
    var n := |EncCommand(c)|;
    AtFits(i, p, EncTail(c));
    AtConcat(i, p, Len(n), EncCommand(c));
    U32At(i, p, n);
    AtIsSlice(i, p + 4, EncCommand(c));
    CommandRoundTrip(c);
  }

  lemma AtFits(i: bytes, p: nat, bs: bytes)
    requires At(i, p, bs)
    ensures p + |bs| <= |i|
  {
  }

  lemma HeaderAt(i: bytes, p: nat, ids: seq<u64>, logical: u32, tail: bytes)
    requires At(i, p, EncIds(ids) + (U32(logical) + tail))
    ensures p + |EncIds(ids)| + 4 <= |i| && ParseIds(i, p, |ids|, []) == Ok((ids, p + |EncIds(ids)|))
    ensures ParseU32(i, p + |EncIds(ids)|) == Ok((logical, p + |EncIds(ids)| + 4))
    ensures At(i, p + |EncIds(ids)| + 4, tail)
  {
    hide ParseIds, ParseU32, EncIds;
    AtConcat(i, p, EncIds(ids), U32(logical) + tail);
    AtConcat(i, p + |EncIds(ids)|, U32(logical), tail);
    IdsAt(i, p, ids, []);
    assert [] + ids == ids;
    U32At(i, p + |EncIds(ids)|, logical);
  }

  lemma MagicAt(i: bytes, magic: bytes, rest: bytes)
    requires i == magic + rest
    ensures StartsWith(i, magic) && At(i, |magic|, rest)
  {
  }

  lemma V3RoundTrip(e: LogEntry)
    requires SizedEntry(e)
    ensures DecodeLogEntry(EncV3(e)) == Ok(e)
  {
    hide At, EncTail, DecodeTail, ParseIds, ParseU32, EncIds, StartsWith;
    var ids := [e.shardId, e.term, e.index, e.origin, e.configVersion, e.timestamp.physicalMs];
    var body := EncIds(ids) + (U32(e.timestamp.logical) + EncTail(e.command));
    var i := EncV3(e);
    MagicAt(i, MAGIC_V3, body);
    HeaderAt(i, 7, ids, e.timestamp.logical, EncTail(e.command));
    TailAt(i, 7 + |EncIds(ids)| + 4, e.command);
  }

  lemma OtherMagic(i: bytes)
    requires StartsWith(i, MAGIC_V2)
    ensures !StartsWith(i, MAGIC_V3)
  {
    assert MAGIC_V2[5] != MAGIC_V3[5];
  }

  /** An old entry decodes to its fields, with no origin and no configuration version. */
  lemma V2RoundTrip(e: LogEntry)
    requires SizedEntry(e)
    ensures DecodeLogEntry(EncV2(e)) == Ok(e.(origin := 0, configVersion := 0))
  {
    hide At, EncTail, DecodeTail, ParseIds, ParseU32, EncIds, StartsWith;
    var ids := [e.shardId, e.term, e.index, e.timestamp.physicalMs];
    var body := EncIds(ids) + (U32(e.timestamp.logical) + EncTail(e.command));
    var i := EncV2(e);
    MagicAt(i, MAGIC_V2, body);
    OtherMagic(i);
    HeaderAt(i, 7, ids, e.timestamp.logical, EncTail(e.command));
    TailAt(i, 7 + |EncIds(ids)| + 4, e.command);
  }

  // ----- The oldest layout -----

  /** The first bytes of an entry of this shard look like the marker of a newer layout. */
  predicate Marked(shard: ShardId) {
    StartsWith(U64(shard), MAGIC_V2) || StartsWith(U64(shard), MAGIC_V3)
  }

  lemma V1Layout(e: LogEntry)
    ensures var i := EncV1(e);
            && At(i, 0, U64(e.shardId)) && At(i, 8, U64(e.term)) && At(i, 16, U64(e.index))
            && |i| > 28 && i[28] == CommandTag(e.command)
    ensures EncV1(e) == EncIds([e.shardId, e.term, e.index]) + EncTail(e.command)
  {
    hide U64, EncCommandBody;
    var ids, i := [e.shardId, e.term, e.index], EncV1(e);
    assert ids[1..] == [e.term, e.index] && ids[1..][1..] == [e.index] && [e.index][1..] == [];
    assert EncIds([e.index]) == U64(e.index) + EncIds([]);
    assert EncIds(ids) == U64(e.shardId) + (U64(e.term) + (U64(e.index) + []));
    assert i[28] == EncTail(e.command)[4];
  }

  lemma MarkedStart(e: LogEntry, magic: bytes)
    requires |magic| == 7
    ensures StartsWith(EncV1(e), magic) <==> StartsWith(U64(e.shardId), magic)
  {
    hide U64, EncV1;
    V1Layout(e);
    var i := EncV1(e);
    forall j | 0 <= j < 7
      ensures i[j] == U64(e.shardId)[j]
    {
      assert i[0 + j] == U64(e.shardId)[j];
    }
  }

  lemma UnmarkedReads(e: LogEntry)
    requires SizedEntry(e) && !Marked(e.shardId)
    ensures DecodeLogEntry(EncV1(e)) == Ok(PlainEntry(e.shardId, e.term, e.index, e.command))
  {
    hide At, EncTail, DecodeTail, ParseIds, ParseU32, EncIds, StartsWith;
    MarkedStart(e, MAGIC_V2);
    MarkedStart(e, MAGIC_V3);
    var ids := [e.shardId, e.term, e.index];
    var i := EncV1(e);
    AtStart(i, []);
    assert i + [] == i;
    AtConcat(i, 0, EncIds(ids), EncTail(e.command));
    IdsAt(i, 0, ids, []);
    assert [] + ids == ids;
    TailAt(i, |EncIds(ids)|, e.command);
  }

  lemma LastDigit(a: nat, x: byte, b: nat, y: byte)
    requires a * 256 + x == b * 256 + y
    ensures a == b && x == y
  {
  }

  lemma FromBEStep(i: bytes, p: nat, w: nat)
    requires w > 0 && p + w <= |i|
    ensures FromBE(i, p, w) == FromBE(i, p, w - 1) * 256 + i[p + w - 1]
  {
  }

  /** Numbers that read the same have the same bytes. */
  lemma {:induction false} SameBytes(i: bytes, p: nat, j: bytes, q: nat, w: nat, k: nat)
    requires p + w <= |i| && q + w <= |j| && FromBE(i, p, w) == FromBE(j, q, w) && k < w
    ensures i[p + k] == j[q + k]
    decreases w
  {
    hide FromBE;
    FromBEStep(i, p, w);
    FromBEStep(j, q, w);
    LastDigit(FromBE(i, p, w - 1), i[p + w - 1], FromBE(j, q, w - 1), j[q + w - 1]);
    if k < w - 1 { SameBytes(i, p, j, q, w - 1, k); }
  }

  lemma {:induction false} IdsValues(i: bytes, p: nat, n: nat, got: seq<u64>, k: nat)
    requires p <= |i| && k < |got| + n && ParseIds(i, p, n, got).Ok?
    ensures |ParseIds(i, p, n, got).value.0| == |got| + n
    ensures k >= |got| ==> p + 8 * (k - |got|) + 8 <= |i|
    ensures ParseIds(i, p, n, got).value.0[k] == if k < |got| then got[k] else FromBE(i, p + 8 * (k - |got|), 8)
    decreases n
  {
    hide FromBE;
    if n > 0 {
      var (x, q) := ParseU64(i, p).value;
      IdsValues(i, q, n - 1, got + [x], k);
    }
  }

  /** Three numbers that read the same seven bytes later repeat the first byte at 28. */
  lemma Periodic(i: bytes)
    requires |i| >= 31 && FromBE(i, 7, 8) == FromBE(i, 0, 8)
    requires FromBE(i, 15, 8) == FromBE(i, 8, 8) && FromBE(i, 23, 8) == FromBE(i, 16, 8)
    ensures i[28] == i[0]
  {
    hide FromBE;
    SameBytes(i, 7, i, 0, 8, 0);
    SameBytes(i, 7, i, 0, 8, 7);
    SameBytes(i, 15, i, 8, 8, 6);
    SameBytes(i, 23, i, 16, 8, 5);
  }

  lemma ReadLate(i: bytes, n: nat, a: u64, b: u64, c: u64)
    requires At(i, 0, U64(a)) && At(i, 8, U64(b)) && At(i, 16, U64(c)) && |i| > 28
    requires n >= 3 && ParseIds(i, 7, n, []).Ok?
    ensures var ids := ParseIds(i, 7, n, []).value.0;
            |ids| == n && (ids[0] == a && ids[1] == b && ids[2] == c ==> i[28] == i[0])
  {
    hide FromBE, ParseIds, U64, At;
    U64At(i, 0, a);
    U64At(i, 8, b);
    U64At(i, 16, c);
    IdsValues(i, 7, n, [], 0);
    IdsValues(i, 7, n, [], 1);
    IdsValues(i, 7, n, [], 2);
    var ids := ParseIds(i, 7, n, []).value.0;
    if ids[0] == a && ids[1] == b && ids[2] == c { Periodic(i); }
  }

  /** An entry that begins with a marker is never read back as itself. */
  lemma MarkedMisread(e: LogEntry)
    requires Marked(e.shardId)
    ensures DecodeLogEntry(EncV1(e)) != Ok(PlainEntry(e.shardId, e.term, e.index, e.command))
  {
    hide ParseIds, ParseU32, DecodeTail, EncV1, U64, At;
    var i := EncV1(e);
    MarkedStart(e, MAGIC_V2);
    MarkedStart(e, MAGIC_V3);
    V1Layout(e);
    var n := if StartsWith(i, MAGIC_V3) then 6 else 4;
    assert i[0] == 0x4E by {
      if StartsWith(i, MAGIC_V3) { assert i[0] == MAGIC_V3[0]; } else { assert i[0] == MAGIC_V2[0]; }
    }
    if ParseIds(i, 7, n, []).Ok? { ReadLate(i, n, e.shardId, e.term, e.index); }
  }

  /** The oldest entries decode to their fields exactly when their shard does not look like a marker. */
  lemma V1RoundTrip(e: LogEntry)
    requires SizedEntry(e)
    ensures DecodeLogEntry(EncV1(e)) == Ok(PlainEntry(e.shardId, e.term, e.index, e.command)) <==> !Marked(e.shardId)
  {
    hide DecodeLogEntry, EncV1, Marked;
    if Marked(e.shardId) {
      MarkedMisread(e);
    } else {
      UnmarkedReads(e);
    }
  }

  /** No shard below 2^56 does. */
  lemma NoMagic(shard: ShardId)
    requires shard < 0x100_0000_0000_0000
    ensures !Marked(shard)
  {
    assert U64(shard)[0] == Shift(shard, 7) % 256;
    Widths();
    ShiftedOut(shard, 7, 7);
    assert MAGIC_V2[0] == 0x4E && MAGIC_V3[0] == 0x4E;
  }

  /** Some shard does. */
  lemma SomeShardMarked() returns (shard: ShardId)
    ensures Marked(shard)
  {
    hide FromBE;
    var i := MAGIC_V3 + [0];
    Widths();
    shard := FromBE(i, 0, 8);
    var u := U64(shard);
    AtStart(u, []);
    assert u + [] == u;
    U64At(u, 0, shard);
    forall k | 0 <= k < 7
      ensures u[k] == MAGIC_V3[k]
    {
      SameBytes(u, 0, i, 0, 8, k);
    }
  }
}
