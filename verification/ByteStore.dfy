/**
 * The ordered byte map under the graph store, and why the structured store of GraphStore is
 * exactly what its bytes hold.
 */
module ByteStore {
  import opened Basics
  import opened Model
  import opened GraphStore
  import opened Codec
  import opened CommandCodec
  import opened Keys
  import opened KvGraphStoreModel

  type Kv = map<bytes, bytes>

  datatype KvWrite = KvPut(key: bytes, value: bytes) | KvDelete(key: bytes)

  function KvDo(kv: Kv, w: KvWrite): Kv {
    match w
    case KvPut(key, value) => kv[key := value]
    case KvDelete(key) => kv - {key}
  }

  function KvWriteAll(kv: Kv, ws: seq<KvWrite>): Kv {
    if ws == [] then kv else KvDo(KvWriteAll(kv, ws[..|ws| - 1]), ws[|ws| - 1])
  }

  predicate HasPrefix(b: bytes, prefix: bytes) {
    |prefix| <= |b| && forall j {:trigger prefix[j]} :: 0 <= j < |prefix| ==> b[j] == prefix[j]
  }

  lemma PrefixIsAt(b: bytes, prefix: bytes)
    ensures HasPrefix(b, prefix) <==> At(b, 0, prefix)
  {
  }

  // ----- Ordered scans -----

  ghost predicate Ordered(ks: seq<bytes>) {
    forall i, j :: 0 <= i < j < |ks| ==> Less(ks[i], ks[j])
  }

  lemma {:induction false} SortedKeysOrdered(s: set<bytes>)
    ensures Ordered(SortedKeys(s))
  {
    if s != {} {
      var x, rest := First(s), s - {First(s)};
      SortedKeysOrdered(rest);
      SortedKeysElements(rest);
      assert forall j :: 0 <= j < |SortedKeys(rest)| ==> SortedKeys(rest)[j] in rest;
      assert SortedKeys(s) == [x] + SortedKeys(rest);
    }
  }

  /** A key with the prefix is not before the prefix itself. */
  lemma {:induction false} PrefixNotLess(b: bytes, prefix: bytes, k: nat)
    requires HasPrefix(b, prefix) && k <= |prefix|
    ensures !LessFrom(b, prefix, k)
    decreases |prefix| - k
  {
    if k < |prefix| {
      assert b[k] == prefix[k];
      PrefixNotLess(b, prefix, k + 1);
    }
  }

  /** Between the prefix and a key that has it, every key has it. */
  lemma {:induction false} PrefixContiguous(prefix: bytes, a: bytes, b: bytes, k: nat)
    requires HasPrefix(b, prefix) && k <= |prefix| && k <= |a|
    requires forall j {:trigger prefix[j]} :: 0 <= j < k ==> a[j] == prefix[j]
    requires !LessFrom(a, prefix, k) && LessFrom(a, b, k)
    ensures HasPrefix(a, prefix)
    decreases |prefix| - k
  {
    if k < |prefix| {
      assert b[k] == prefix[k];
      PrefixContiguous(prefix, a, b, k + 1);
    }
  }

  // ----- Bytes of a structured store -----

  ghost predicate Held(s: Store, key: Key) {
    match key
    case NodeRecord(n) => n in s.nodes
    case BoundaryRecord(n) => n in s.boundary
    case RelRecord(r) => r in s.rels
    case Index(k) => k in s.keys
  }

  function NodeCommand(n: Node): Command {
    CreateNode(n.id, n.labels, n.properties)
  }

  function BoundaryCommand(b: BoundaryNode): Command {
    UpsertBoundaryNode(b.id, b.ownerShard, b.labels, b.properties, b.version)
  }

  function RelCommand(r: Relationship): Command {
    CreateRelationship(r.id, r.from, r.to, r.relType, r.properties)
  }

  function CellBytes(s: Store, key: Key): bytes {
    match key
    case NodeRecord(n) => if n in s.nodes then EncCommand(NodeCommand(s.nodes[n])) else []
    case BoundaryRecord(n) => if n in s.boundary then EncCommand(BoundaryCommand(s.boundary[n])) else []
    case RelRecord(r) => if r in s.rels then EncCommand(RelCommand(s.rels[r])) else []
    case Index(_) => []
  }

  ghost predicate CellOk(kv: Kv, s: Store, key: Key) {
    Held(s, key) ==> SizedKey(key) && KeyBytes(key) in kv && kv[KeyBytes(key)] == CellBytes(s, key)
  }

  ghost predicate Backed(s: Store, b: bytes) {
    exists key :: Held(s, key) && KeyBytes(key) == b
  }

  /** The bytes are those of the structured store, and nothing else. */
  ghost predicate Represents(kv: Kv, s: Store) {
    && (forall key {:trigger CellOk(kv, s, key)} :: CellOk(kv, s, key))
    && (forall b {:trigger Backed(s, b)} :: b in kv ==> Backed(s, b))
  }

  function EncOp(op: Op): KvWrite {
    match op
    case PutNodeRecord(n) => KvPut(KeyBytes(NodeRecord(n.id)), EncCommand(NodeCommand(n)))
    case DeleteNodeRecord(n) => KvDelete(KeyBytes(NodeRecord(n)))
    case PutBoundaryRecord(b) => KvPut(KeyBytes(BoundaryRecord(b.id)), EncCommand(BoundaryCommand(b)))
    case PutRelRecord(id, r) => KvPut(KeyBytes(RelRecord(id)), EncCommand(RelCommand(r)))
    case DeleteRelRecord(id) => KvDelete(KeyBytes(RelRecord(id)))
    case PutKey(k) => KvPut(KeyBytes(Index(k)), [])
    case DeleteKey(k) => KvDelete(KeyBytes(Index(k)))
  }

  /** The key an operation is about. */
  function KeyOf(op: Op): Key {
    match op
    case PutNodeRecord(n) => NodeRecord(n.id)
    case DeleteNodeRecord(n) => NodeRecord(n)
    case PutBoundaryRecord(b) => BoundaryRecord(b.id)
    case PutRelRecord(id, r) => RelRecord(id)
    case DeleteRelRecord(id) => RelRecord(id)
    case PutKey(k) => Index(k)
    case DeleteKey(k) => Index(k)
  }

  predicate IsPut(op: Op) {
    op.PutNodeRecord? || op.PutBoundaryRecord? || op.PutRelRecord? || op.PutKey?
  }

  /** What an operation does to one key of the structured store. */
  lemma DoReads(s: Store, op: Op, key: Key)
    ensures Held(Do(s, op), key) <==> if key == KeyOf(op) then IsPut(op) else Held(s, key)
    ensures key != KeyOf(op) ==> CellBytes(Do(s, op), key) == CellBytes(s, key)
    ensures EncOp(op) == if IsPut(op) then KvPut(KeyBytes(KeyOf(op)), CellBytes(Do(s, op), KeyOf(op)))
            else KvDelete(KeyBytes(KeyOf(op)))
  {
    hide KeyBytes, EncCommand;
  }

  lemma OpCell(kv: Kv, s: Store, op: Op, key: Key)
    requires Represents(kv, s) && SizedKey(KeyOf(op))
    ensures CellOk(KvDo(kv, EncOp(op)), Do(s, op), key)
  {
    hide KeyBytes, CellBytes, EncOp, Do, SizedKey, Held;
    DoReads(s, op, key);
    assert CellOk(kv, s, key);
    if key != KeyOf(op) && Held(s, key) && KeyBytes(key) == KeyBytes(KeyOf(op)) {
      KeyBytesUnique(key, KeyOf(op));
    }
  }

  lemma OpBacked(kv: Kv, s: Store, op: Op, b: bytes)
    requires Represents(kv, s) && SizedKey(KeyOf(op)) && b in KvDo(kv, EncOp(op))
    ensures Backed(Do(s, op), b)
  {
    hide KeyBytes, CellBytes, EncOp, Do, SizedKey, Held;
    DoReads(s, op, KeyOf(op));
    if b == KeyBytes(KeyOf(op)) {
      assert Held(Do(s, op), KeyOf(op));
    } else {
      assert Backed(s, b);
      var key :| Held(s, key) && KeyBytes(key) == b;
      DoReads(s, op, key);
    }
  }

  /** One byte operation carries out one structured operation. */
  lemma OpLifts(kv: Kv, s: Store, op: Op)
    requires Represents(kv, s) && SizedKey(KeyOf(op))
    ensures Represents(KvDo(kv, EncOp(op)), Do(s, op))
  {
    forall key
      ensures CellOk(KvDo(kv, EncOp(op)), Do(s, op), key)
    {
      OpCell(kv, s, op, key);
    }
    forall b | b in KvDo(kv, EncOp(op))
      ensures Backed(Do(s, op), b)
    {
      OpBacked(kv, s, op, b);
    }
  }

  function EncOps(ops: seq<Op>): seq<KvWrite> {
    if ops == [] then [] else EncOps(ops[..|ops| - 1]) + [EncOp(ops[|ops| - 1])]
  }

  /** A whole write batch on bytes is the batch on the structured store. */
  lemma {:induction false} BatchLifts(kv: Kv, s: Store, ops: seq<Op>)
    requires Represents(kv, s) && forall i :: 0 <= i < |ops| ==> SizedKey(KeyOf(ops[i]))
    ensures Represents(KvWriteAll(kv, EncOps(ops)), Write(s, ops))
  {
    hide Represents, SizedKey, EncOp, KeyOf;
    if ops != [] {
      var front, last := ops[..|ops| - 1], ops[|ops| - 1];
      BatchLifts(kv, s, front);
      assert EncOps(ops)[..|EncOps(ops)| - 1] == EncOps(front);
      OpLifts(KvWriteAll(kv, EncOps(front)), Write(s, front), last);
    }
  }

  // ----- Reads -----

  function DecodeNode(payload: bytes): Option<Node> {
    var c := DecodeCommand(payload);
    if c.Ok? && c.value.CreateNode? then Some(Node(c.value.id, c.value.labels, c.value.properties)) else None
  }

  function DecodeBoundary(payload: bytes): Option<BoundaryNode> {
    var c := DecodeCommand(payload);
    if c.Ok? && c.value.UpsertBoundaryNode?
    then Some(BoundaryNode(c.value.id, c.value.ownerShard, c.value.labels, c.value.properties, c.value.version))
        else None
  }

  function DecodeRel(payload: bytes): Option<Relationship> {
    var c := DecodeCommand(payload);
    if c.Ok? && c.value.CreateRelationship?
    then Some(Relationship(c.value.relId, c.value.from, c.value.to, c.value.relType, c.value.properties)) else None
  }

  /** A record read back from its key is the record written there. */
  lemma NodeReadsBack(kv: Kv, s: Store, id: NodeId)
    requires Represents(kv, s)
    requires id in s.nodes ==> Sized(NodeCommand(s.nodes[id]))
    ensures id in s.nodes <==> KeyBytes(NodeRecord(id)) in kv
    ensures id in s.nodes ==> DecodeNode(kv[KeyBytes(NodeRecord(id))]) == Some(s.nodes[id])
  {
    hide KeyBytes, EncCommand, DecodeCommand, SizedKey;
    assert CellOk(kv, s, NodeRecord(id));
    if id in s.nodes { CommandRoundTrip(NodeCommand(s.nodes[id])); }
    if KeyBytes(NodeRecord(id)) in kv {
      assert Backed(s, KeyBytes(NodeRecord(id)));
      var key :| Held(s, key) && KeyBytes(key) == KeyBytes(NodeRecord(id));
      assert CellOk(kv, s, key);
      assert SizedKey(NodeRecord(id)) by { RecordsSized(NodeRecord(id)); }
      KeyBytesUnique(key, NodeRecord(id));
    }
  }

  lemma RecordsSized(key: Key)
    requires !key.Index?
    ensures SizedKey(key)
  {
  }

  /**
   * The ids scanned under the prefix of `a` are exactly those of the index keys that share
   * its label, value, node or type.
   */
  lemma ScanLifts(kv: Kv, s: Store, a: IndexKey, id: u64)
    requires Represents(kv, s) && SizedKey(Index(a))
    ensures (exists b :: b in kv && Scanned(b, a, id)) <==> (exists k :: k in s.keys && SameScan(a, k) && IdOf(k) == id)
  {
    hide KeyBytes, SizedKey, SameScan, CellBytes;
    if exists b :: b in kv && Scanned(b, a, id) {
      var b :| b in kv && Scanned(b, a, id);
      assert Backed(s, b);
      var key :| Held(s, key) && KeyBytes(key) == b;
      assert CellOk(kv, s, key);
      PrefixIsAt(b, IndexPrefix(a));
      ScanExact(a, key);
      IdFromKey(key.k);
      assert key.k in s.keys && SameScan(a, key.k) && IdOf(key.k) == id;
    }
    if exists k :: k in s.keys && SameScan(a, k) && IdOf(k) == id {
      var k :| k in s.keys && SameScan(a, k) && IdOf(k) == id;
      assert CellOk(kv, s, Index(k));
      ScanExact(a, Index(k));
      PrefixIsAt(KeyBytes(Index(k)), IndexPrefix(a));
      IdFromKey(k);
      assert Scanned(KeyBytes(Index(k)), a, id);
    }
  }

  /** Byte key `b` is returned by the scan for `a`, with `id` in its last eight bytes. */
  ghost predicate Scanned(b: bytes, a: IndexKey, id: u64) {
    HasPrefix(b, IndexPrefix(a)) && |b| >= 8 && FromBE(b, |b| - 8, 8) == id
  }

  // ----- The in-memory store -----

  class MemoryKvStore {
    var data: Kv

    constructor ()
      ensures data == map[]
    {
      data := map[];
    }

    method Get(key: bytes) returns (r: Option<bytes>)
      ensures r == if key in data then Some(data[key]) else None
    {
      r := if key in data then Some(data[key]) else None;
    }

    /** All writes, in order, become visible at once. */
    method WriteBatch(ws: seq<KvWrite>)
      modifies this
      ensures data == KvWriteAll(old(data), ws)
    {
      var copy := data;
      for i := 0 to |ws|
        invariant copy == KvWriteAll(data, ws[..i]) && data == old(data)
      {
        assert ws[..i + 1][..i] == ws[..i];
        match ws[i] {
          case KvPut(key, value) => copy := copy[key := value];
          case KvDelete(key) => copy := copy - {key};
        }
      }
      assert ws[..|ws|] == ws;
      data := copy;
    }

    /**
     * Walk the keys in order from the first that is not before the prefix, as long as they have it.
     * The walk misses none: these are all keys with the prefix, in order.
     */
    method ScanPrefix(prefix: bytes) returns (found: seq<bytes>)
      ensures Ordered(found) && forall b :: b in found <==> b in data && HasPrefix(b, prefix)
    {
      var ks := SortedKeys(data.Keys);
      SortedKeysElements(data.Keys);
      SortedKeysOrdered(data.Keys);
      var i := 0;
      while i < |ks| && Less(ks[i], prefix)
        invariant 0 <= i <= |ks| && forall j :: 0 <= j < i ==> Less(ks[j], prefix)
      {
        i := i + 1;
      }
      var start := i;
      while i < |ks| && HasPrefix(ks[i], prefix)
        invariant start <= i <= |ks| && forall j :: start <= j < i ==> HasPrefix(ks[j], prefix)
      {
        i := i + 1;
      }
      found := ks[start..i];
      ScanMissesNone(ks, prefix, start, i);
      RangeElements(ks, start, i);
    }
  }

  lemma RangeElements(ks: seq<bytes>, start: nat, end: nat)
    requires start <= end <= |ks|
    ensures forall b :: b in ks[start..end] <==> exists j :: start <= j < end && ks[j] == b
  {
    forall b | exists j :: start <= j < end && ks[j] == b
      ensures b in ks[start..end]
    {
      var j :| start <= j < end && ks[j] == b;
      assert ks[start..end][j - start] == b;
    }
  }

  lemma ScanMissesNone(ks: seq<bytes>, prefix: bytes, start: nat, end: nat)
    requires Ordered(ks) && start <= end <= |ks|
    requires forall j :: 0 <= j < start ==> Less(ks[j], prefix)
    requires start < |ks| ==> !Less(ks[start], prefix)
    requires end < |ks| ==> !HasPrefix(ks[end], prefix)
    ensures forall j :: 0 <= j < |ks| && HasPrefix(ks[j], prefix) ==> start <= j < end
  {
    forall j | 0 <= j < |ks| && HasPrefix(ks[j], prefix)
      ensures start <= j < end
    {
      PrefixNotLess(ks[j], prefix, 0);
      if j > end {
        if end > start { LaterNotLess(ks, prefix, start, end); }
        PrefixContiguous(prefix, ks[end], ks[j], 0);
      }
    }
  }

  lemma LaterNotLess(ks: seq<bytes>, prefix: bytes, i: nat, j: nat)
    requires Ordered(ks) && i < j < |ks| && !Less(ks[i], prefix)
    ensures !Less(ks[j], prefix)
  {
    if Less(ks[j], prefix) { LessTransitive(ks[i], ks[j], prefix, 0); }
  }
}
