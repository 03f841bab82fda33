/** Checking and rebuilding the index keys of a byte store from its records. */
module GraphRepair {
  import opened Basics
  import opened Model
  import opened GraphStore
  import opened GraphClean
  import opened Codec
  import opened CommandCodec
  import opened Keys
  import opened KvGraphStoreModel
  import opened ByteStore

  predicate IsIndexKey(b: bytes) {
    HasPrefix(b, L) || HasPrefix(b, LP) || HasPrefix(b, BLP) || HasPrefix(b, OUT)
    || HasPrefix(b, OUTT) || HasPrefix(b, IN) || HasPrefix(b, INT)
  }

  /** Every record under a record prefix can be read. */
  predicate Decodable(kv: Kv) {
    && (forall b :: b in kv && HasPrefix(b, N) ==> DecodeNode(kv[b]).Some?)
    && (forall b :: b in kv && HasPrefix(b, BN) ==> DecodeBoundary(kv[b]).Some?)
    && (forall b :: b in kv && HasPrefix(b, R) ==> DecodeRel(kv[b]).Some?)
  }

  function Bytes(ks: set<IndexKey>): set<bytes> {
    set k | k in ks :: KeyBytes(Index(k))
  }

  /** The keys a relationship calls for; incoming ones only towards a stored node. */
  function RelExpected(kv: Kv, r: Relationship): set<IndexKey> {
    OutKeys(r.id, r) + (if KeyBytes(NodeRecord(r.to)) in kv then InKeys(r.id, r) else {})
  }

  function NodesExpected(kv: Kv): set<bytes>
    requires Decodable(kv)
  {
    set b, x | b in kv && HasPrefix(b, N) && x in Bytes(NodeKeys(DecodeNode(kv[b]).value)) :: x
  }

  function BoundariesExpected(kv: Kv): set<bytes>
    requires Decodable(kv)
  {
    set b, x | b in kv && HasPrefix(b, BN) && x in Bytes(BoundaryKeys(DecodeBoundary(kv[b]).value)) :: x
  }

  function RelsExpected(kv: Kv): set<bytes>
    requires Decodable(kv)
  {
    set b, x | b in kv && HasPrefix(b, R) && x in Bytes(RelExpected(kv, DecodeRel(kv[b]).value)) :: x
  }

  function ExpectedKeys(kv: Kv): set<bytes>
    requires Decodable(kv)
  {
    NodesExpected(kv) + BoundariesExpected(kv) + RelsExpected(kv)
  }

  function ActualKeys(kv: Kv): set<bytes> {
    set b | b in kv && IsIndexKey(b)
  }

  datatype Report = Report(missing: set<bytes>, unexpected: set<bytes>)

  /** What `verify_invariants` reports: nothing missing and nothing unexpected. */
  predicate CleanBytes(kv: Kv)
    requires Decodable(kv)
  {
    ExpectedKeys(kv) - ActualKeys(kv) == {} && ActualKeys(kv) - ExpectedKeys(kv) == {}
  }

  function Repair(kv: Kv): Kv
    requires Decodable(kv)
  {
    if CleanBytes(kv) then kv
    else (kv - ActualKeys(kv)) + (map b | b in ExpectedKeys(kv) :: [])
  }

  // ----- Records and index keys do not meet -----

  lemma IndexBytesAreIndexKeys(k: IndexKey)
    ensures IsIndexKey(KeyBytes(Index(k)))
  {
    hide KeyBytes;
    KeyFamily(Index(k));
    PrefixIsAt(KeyBytes(Index(k)), Family(Index(k)));
  }

  lemma RecordsAreNoIndexKeys(b: bytes, key: Key)
    requires !key.Index? && HasPrefix(b, Family(key))
    ensures !IsIndexKey(b)
  {
    FamilySlashed(key);
    PrefixIsAt(b, Family(key));
    NotIndexFamily(b, key, L);
    NotIndexFamily(b, key, LP);
    NotIndexFamily(b, key, BLP);
    NotIndexFamily(b, key, OUT);
    NotIndexFamily(b, key, OUTT);
    NotIndexFamily(b, key, IN);
    NotIndexFamily(b, key, INT);
  }

  lemma NotIndexFamily(b: bytes, key: Key, f: bytes)
    requires !key.Index? && Slashed(Family(key)) && At(b, 0, Family(key)) && Slashed(f) && f != Family(key)
    ensures !HasPrefix(b, f)
  {
    PrefixIsAt(b, f);
    if HasPrefix(b, f) { FamilyUnique(b, f, Family(key)); }
  }

  lemma ExpectedAreIndexKeys(kv: Kv)
    requires Decodable(kv)
    ensures forall b :: b in ExpectedKeys(kv) ==> IsIndexKey(b)
  {
    hide IsIndexKey, KeyBytes;
    forall b | b in ExpectedKeys(kv)
      ensures IsIndexKey(b)
    {
      var k :| b == KeyBytes(Index(k));
      IndexBytesAreIndexKeys(k);
    }
  }

  /** Same records: the two stores agree on every key that is not an index key. */
  ghost predicate SameRecords(kv: Kv, kv': Kv) {
    forall b {:trigger b in kv} {:trigger b in kv'} :: !IsIndexKey(b) ==>
      (b in kv <==> b in kv') && (b in kv ==> kv[b] == kv'[b])
  }

  lemma RecordKeysAgree(kv: Kv, kv': Kv, b: bytes, key: Key)
    requires SameRecords(kv, kv') && !key.Index? && HasPrefix(b, Family(key))
    ensures (b in kv <==> b in kv') && (b in kv ==> kv[b] == kv'[b])
  {
    RecordsAreNoIndexKeys(b, key);
  }

  lemma SameDecodable(kv: Kv, kv': Kv)
    requires SameRecords(kv, kv') && Decodable(kv)
    ensures Decodable(kv')
  {
    hide SameRecords, IsIndexKey, HasPrefix, DecodeNode, DecodeBoundary, DecodeRel;
    forall b | b in kv' && HasPrefix(b, N)
      ensures DecodeNode(kv'[b]).Some?
    {
      RecordKeysAgree(kv, kv', b, NodeRecord(0));
    }
    forall b | b in kv' && HasPrefix(b, BN)
      ensures DecodeBoundary(kv'[b]).Some?
    {
      RecordKeysAgree(kv, kv', b, BoundaryRecord(0));
    }
    forall b | b in kv' && HasPrefix(b, R)
      ensures DecodeRel(kv'[b]).Some?
    {
      RecordKeysAgree(kv, kv', b, RelRecord(0));
    }
  }

  lemma NodeKeyIsRecord(id: NodeId)
    ensures HasPrefix(KeyBytes(NodeRecord(id)), N)
  {
    hide KeyBytes;
    KeyFamily(NodeRecord(id));
    PrefixIsAt(KeyBytes(NodeRecord(id)), N);
  }

  lemma SameRelExpected(kv: Kv, kv': Kv, r: Relationship)
    requires SameRecords(kv, kv')
    ensures RelExpected(kv, r) == RelExpected(kv', r)
  {
    hide SameRecords, KeyBytes;
    NodeKeyIsRecord(r.to);
    RecordKeysAgree(kv, kv', KeyBytes(NodeRecord(r.to)), NodeRecord(r.to));
  }

  lemma ExpectedPart(kv: Kv, kv': Kv, x: bytes)
    requires SameRecords(kv, kv') && SameRecords(kv', kv) && Decodable(kv) && Decodable(kv') && x in ExpectedKeys(kv)
    ensures x in ExpectedKeys(kv')
  {
    hide SameRecords, IsIndexKey, HasPrefix, DecodeNode, DecodeBoundary, DecodeRel, Bytes, RelExpected;
    if x in NodesExpected(kv) {
      var b :| b in kv && HasPrefix(b, N) && x in Bytes(NodeKeys(DecodeNode(kv[b]).value));
      RecordKeysAgree(kv, kv', b, NodeRecord(0));
      assert x in NodesExpected(kv');
    } else if x in BoundariesExpected(kv) {
      var b :| b in kv && HasPrefix(b, BN) && x in Bytes(BoundaryKeys(DecodeBoundary(kv[b]).value));
      RecordKeysAgree(kv, kv', b, BoundaryRecord(0));
      assert x in BoundariesExpected(kv');
    } else {
      var b :| b in kv && HasPrefix(b, R) && x in Bytes(RelExpected(kv, DecodeRel(kv[b]).value));
      RecordKeysAgree(kv, kv', b, RelRecord(0));
      SameRelExpected(kv, kv', DecodeRel(kv[b]).value);
      assert x in RelsExpected(kv');
    }
  }

  /** What is expected depends on the records alone. */
  lemma SameExpected(kv: Kv, kv': Kv)
    requires SameRecords(kv, kv') && SameRecords(kv', kv) && Decodable(kv) && Decodable(kv')
    ensures ExpectedKeys(kv) == ExpectedKeys(kv')
  {
    hide SameRecords, ExpectedKeys, Decodable;
    forall x
      ensures x in ExpectedKeys(kv) <==> x in ExpectedKeys(kv')
    {
      if x in ExpectedKeys(kv) { ExpectedPart(kv, kv', x); }
      if x in ExpectedKeys(kv') { ExpectedPart(kv', kv, x); }
    }
  }

  /**
   * Repair: from any store with readable records the result is clean, every record is
   * untouched, and repairing again changes nothing.
   */
  lemma RepairIsClean(kv: Kv)
    requires Decodable(kv)
    ensures Decodable(Repair(kv)) && CleanBytes(Repair(kv)) && SameRecords(kv, Repair(kv))
    ensures Repair(Repair(kv)) == Repair(kv)
  {
    hide IsIndexKey, ExpectedKeys;
    var kv' := Repair(kv);
    ExpectedAreIndexKeys(kv);
    RepairKeepsRecords(kv);
    SameDecodable(kv, kv');
    SameExpected(kv, kv');
    if !CleanBytes(kv) { RepairedActual(kv); }
  }

  lemma RepairKeepsRecords(kv: Kv)
    requires Decodable(kv) && forall b :: b in ExpectedKeys(kv) ==> IsIndexKey(b)
    ensures SameRecords(kv, Repair(kv)) && SameRecords(Repair(kv), kv)
  {
    hide IsIndexKey, ExpectedKeys, CleanBytes;
  }

  lemma RepairedActual(kv: Kv)
    requires Decodable(kv) && !CleanBytes(kv) && forall b :: b in ExpectedKeys(kv) ==> IsIndexKey(b)
    ensures ActualKeys(Repair(kv)) == ExpectedKeys(kv)
  {
    hide IsIndexKey, ExpectedKeys, CleanBytes;
  }

  // ----- The same check on the structured store -----

  /** Records decode back, and everything they call for fits into keys. */
  ghost predicate WellSized(s: Store) {
    && (forall n :: n in s.nodes ==> Sized(NodeCommand(s.nodes[n])))
    && (forall n :: n in s.boundary ==> Sized(BoundaryCommand(s.boundary[n])))
    && (forall r :: r in s.rels ==> Sized(RelCommand(s.rels[r])))
    && (forall k {:trigger Expected(s, k)} :: Expected(s, k) ==> SizedKey(Index(k)))
  }

  /** The stored key behind a byte key that has a record prefix. */
  lemma RecordBehind(kv: Kv, s: Store, b: bytes, like: Key) returns (key: Key)
    requires Represents(kv, s) && b in kv && HasPrefix(b, Family(like))
    ensures Held(s, key) && KeyBytes(key) == b && SameFamily(like, key) && kv[b] == CellBytes(s, key)
  {
    hide KeyBytes, CellBytes, SizedKey, Family;
    assert Backed(s, b);
    key :| Held(s, key) && KeyBytes(key) == b;
    assert CellOk(kv, s, key);
    PrefixIsAt(b, Family(like));
    FamilyScanExact(like, key);
  }

  lemma NodeBehind(kv: Kv, s: Store, b: bytes) returns (id: NodeId)
    requires Represents(kv, s) && WellSized(s) && b in kv && HasPrefix(b, N)
    ensures id in s.nodes && b == KeyBytes(NodeRecord(id)) && DecodeNode(kv[b]) == Some(s.nodes[id])
  {
    hide KeyBytes, EncCommand, DecodeCommand, Sized, Represents;
    var key := RecordBehind(kv, s, b, NodeRecord(0));
    id := key.node;
    CommandRoundTrip(NodeCommand(s.nodes[id]));
  }

  lemma BoundaryBehind(kv: Kv, s: Store, b: bytes) returns (id: NodeId)
    requires Represents(kv, s) && WellSized(s) && b in kv && HasPrefix(b, BN)
    ensures id in s.boundary && DecodeBoundary(kv[b]) == Some(s.boundary[id])
  {
    hide KeyBytes, EncCommand, DecodeCommand, Sized, Represents;
    var key := RecordBehind(kv, s, b, BoundaryRecord(0));
    id := key.node;
    CommandRoundTrip(BoundaryCommand(s.boundary[id]));
  }

  lemma RelBehind(kv: Kv, s: Store, b: bytes) returns (id: RelId)
    requires Represents(kv, s) && WellSized(s) && b in kv && HasPrefix(b, R)
    ensures id in s.rels && DecodeRel(kv[b]) == Some(s.rels[id])
  {
    hide KeyBytes, EncCommand, DecodeCommand, Sized, Represents;
    var key := RecordBehind(kv, s, b, RelRecord(0));
    id := key.rel;
    CommandRoundTrip(RelCommand(s.rels[id]));
  }

  lemma RepresentedDecodable(kv: Kv, s: Store)
    requires Represents(kv, s) && WellSized(s)
    ensures Decodable(kv)
  {
    hide Represents, WellSized, HasPrefix, DecodeNode, DecodeBoundary, DecodeRel;
    forall b | b in kv && HasPrefix(b, N)
      ensures DecodeNode(kv[b]).Some?
    {
      var id := NodeBehind(kv, s, b);
    }
    forall b | b in kv && HasPrefix(b, BN)
      ensures DecodeBoundary(kv[b]).Some?
    {
      var id := BoundaryBehind(kv, s, b);
    }
    forall b | b in kv && HasPrefix(b, R)
      ensures DecodeRel(kv[b]).Some?
    {
      var id := RelBehind(kv, s, b);
    }
  }

  lemma ActualMeans(kv: Kv, s: Store, x: bytes)
    requires Represents(kv, s)
    ensures x in ActualKeys(kv) <==> exists k :: k in s.keys && x == KeyBytes(Index(k))
  {
    hide KeyBytes, IsIndexKey, CellBytes, SizedKey;
    if x in ActualKeys(kv) {
      assert Backed(s, x);
      var key :| Held(s, key) && KeyBytes(key) == x;
      if !key.Index? {
        KeyFamily(key);
        PrefixIsAt(x, Family(key));
        RecordsAreNoIndexKeys(x, key);
      }
      assert key.k in s.keys;
    }
    if exists k :: k in s.keys && x == KeyBytes(Index(k)) {
      var k :| k in s.keys && x == KeyBytes(Index(k));
      assert CellOk(kv, s, Index(k));
      IndexBytesAreIndexKeys(k);
    }
  }

  /** Each expected key of the bytes is one the structured store expects. */
  lemma ExpectedSound(kv: Kv, s: Store, x: bytes)
    requires Represents(kv, s) && WellSized(s) && Filed(s) && Decodable(kv) && x in ExpectedKeys(kv)
    ensures exists k :: Expected(s, k) && x == KeyBytes(Index(k))
  {
    hide Represents, WellSized, KeyBytes, Decodable, NodesExpected, BoundariesExpected, RelsExpected;
    if x in NodesExpected(kv) {
      NodesSound(kv, s, x);
    } else if x in BoundariesExpected(kv) {
      BoundariesSound(kv, s, x);
    } else {
      RelsSound(kv, s, x);
    }
  }

  lemma NodesSound(kv: Kv, s: Store, x: bytes)
    requires Represents(kv, s) && WellSized(s) && Filed(s) && Decodable(kv) && x in NodesExpected(kv)
    ensures exists k :: Expected(s, k) && x == KeyBytes(Index(k))
  {
    hide Represents, WellSized, HasPrefix, DecodeNode, KeyBytes;
    var b :| b in kv && HasPrefix(b, N) && x in Bytes(NodeKeys(DecodeNode(kv[b]).value));
    var id := NodeBehind(kv, s, b);
    var k :| k in NodeKeys(s.nodes[id]) && x == KeyBytes(Index(k));
    assert Expected(s, k);
  }

  lemma BoundariesSound(kv: Kv, s: Store, x: bytes)
    requires Represents(kv, s) && WellSized(s) && Filed(s) && Decodable(kv) && x in BoundariesExpected(kv)
    ensures exists k :: Expected(s, k) && x == KeyBytes(Index(k))
  {
    hide Represents, WellSized, HasPrefix, DecodeBoundary, KeyBytes;
    var b :| b in kv && HasPrefix(b, BN) && x in Bytes(BoundaryKeys(DecodeBoundary(kv[b]).value));
    var id := BoundaryBehind(kv, s, b);
    var k :| k in BoundaryKeys(s.boundary[id]) && x == KeyBytes(Index(k));
    assert Expected(s, k);
  }

  lemma RelsSound(kv: Kv, s: Store, x: bytes)
    requires Represents(kv, s) && WellSized(s) && Filed(s) && Decodable(kv) && x in RelsExpected(kv)
    ensures exists k :: Expected(s, k) && x == KeyBytes(Index(k))
  {
    hide Represents, WellSized, HasPrefix, DecodeRel, KeyBytes;
    var b :| b in kv && HasPrefix(b, R) && x in Bytes(RelExpected(kv, DecodeRel(kv[b]).value));
    var id := RelBehind(kv, s, b);
    var k :| k in RelExpected(kv, s.rels[id]) && x == KeyBytes(Index(k));
    NodeStored(kv, s, s.rels[id].to);
    assert Expected(s, k);
  }

  lemma NodeStored(kv: Kv, s: Store, id: NodeId)
    requires Represents(kv, s) && WellSized(s)
    ensures KeyBytes(NodeRecord(id)) in kv <==> id in s.nodes
  {
    hide KeyBytes, Represents, DecodeNode;
    NodeReadsBack(kv, s, id);
  }

  lemma ExpectedComplete(kv: Kv, s: Store, k: IndexKey)
    requires Represents(kv, s) && WellSized(s) && Filed(s) && Decodable(kv) && Expected(s, k)
    ensures KeyBytes(Index(k)) in ExpectedKeys(kv)
  {
    hide KeyBytes, HasPrefix, DecodeCommand, EncCommand, SizedKey, Decodable;
    match k
    case KLabel(_, n) => NodeComplete(kv, s, n, k);
    case KProp(_, n) => NodeComplete(kv, s, n, k);
    case KBoundaryProp(_, n) => BoundaryComplete(kv, s, n, k);
    case KOut(_, r) => RelComplete(kv, s, r, k);
    case KOutType(_, _, r) => RelComplete(kv, s, r, k);
    case KIn(_, r) => RelComplete(kv, s, r, k);
    case KInType(_, _, r) => RelComplete(kv, s, r, k);
  }

  lemma NodeComplete(kv: Kv, s: Store, n: NodeId, k: IndexKey)
    requires Represents(kv, s) && WellSized(s) && Decodable(kv) && n in s.nodes && k in NodeKeys(s.nodes[n])
    ensures KeyBytes(Index(k)) in NodesExpected(kv)
  {
    hide KeyBytes, HasPrefix, DecodeNode, Decodable, Represents, NodeKeys;
    NodeReadsBack(kv, s, n);
    NodeKeyIsRecord(n);
    assert KeyBytes(Index(k)) in Bytes(NodeKeys(s.nodes[n]));
  }

  lemma BoundaryReadsBack(kv: Kv, s: Store, n: NodeId)
    requires Represents(kv, s) && WellSized(s) && n in s.boundary
    ensures var b := KeyBytes(BoundaryRecord(n));
            b in kv && HasPrefix(b, BN) && DecodeBoundary(kv[b]) == Some(s.boundary[n])
  {
    hide KeyBytes, HasPrefix, DecodeCommand, EncCommand, SizedKey, Sized;
    var key := BoundaryRecord(n);
    assert CellOk(kv, s, key);
    CommandRoundTrip(BoundaryCommand(s.boundary[n]));
    KeyFamily(key);
    PrefixIsAt(KeyBytes(key), BN);
  }

  lemma RelReadsBack(kv: Kv, s: Store, r: RelId)
    requires Represents(kv, s) && WellSized(s) && r in s.rels
    ensures var b := KeyBytes(RelRecord(r));
            b in kv && HasPrefix(b, R) && DecodeRel(kv[b]) == Some(s.rels[r])
  {
    hide KeyBytes, HasPrefix, DecodeCommand, EncCommand, SizedKey, Sized;
    var key := RelRecord(r);
    assert CellOk(kv, s, key);
    CommandRoundTrip(RelCommand(s.rels[r]));
    KeyFamily(key);
    PrefixIsAt(KeyBytes(key), R);
  }

  lemma BoundaryComplete(kv: Kv, s: Store, n: NodeId, k: IndexKey)
    requires Represents(kv, s) && WellSized(s) && Decodable(kv) && n in s.boundary && k in BoundaryKeys(s.boundary[n])
    ensures KeyBytes(Index(k)) in BoundariesExpected(kv)
  {
    hide KeyBytes, HasPrefix, DecodeBoundary, Decodable, Represents, BoundaryKeys;
    BoundaryReadsBack(kv, s, n);
    assert KeyBytes(Index(k)) in Bytes(BoundaryKeys(s.boundary[n]));
  }

  lemma RelComplete(kv: Kv, s: Store, r: RelId, k: IndexKey)
    requires Represents(kv, s) && WellSized(s) && Filed(s) && Decodable(kv) && r in s.rels && Expected(s, k)
    requires (k.KOut? || k.KOutType? || k.KIn? || k.KInType?) && k.rel == r
    ensures KeyBytes(Index(k)) in RelsExpected(kv)
  {
    hide KeyBytes, HasPrefix, DecodeRel, Decodable, Represents, WellSized;
    RelReadsBack(kv, s, r);
    NodeStored(kv, s, s.rels[r].to);
    assert k in RelExpected(kv, s.rels[r]);
    assert KeyBytes(Index(k)) in Bytes(RelExpected(kv, s.rels[r]));
  }

  /** The byte-level report is clean exactly when the structured store is. */
  lemma CleanLifts(kv: Kv, s: Store)
    requires Represents(kv, s) && WellSized(s) && Filed(s)
    ensures Decodable(kv) && (CleanBytes(kv) <==> Clean(s))
  {
    RepresentedDecodable(kv, s);
    if Clean(s) {
      forall x
        ensures x in ExpectedKeys(kv) <==> x in ActualKeys(kv)
      {
        CleanByte(kv, s, x);
      }
    }
    if CleanBytes(kv) {
      forall k
        ensures CleanKey(s, k)
      {
        CleanIndexKey(kv, s, k);
      }
    }
  }

  lemma CleanByte(kv: Kv, s: Store, x: bytes)
    requires Represents(kv, s) && WellSized(s) && Filed(s) && Decodable(kv) && Clean(s)
    ensures x in ExpectedKeys(kv) <==> x in ActualKeys(kv)
  {
    hide KeyBytes, Represents, WellSized, ExpectedKeys, ActualKeys, Expected, Decodable;
    ActualMeans(kv, s, x);
    if x in ExpectedKeys(kv) {
      ExpectedSound(kv, s, x);
      var k :| Expected(s, k) && x == KeyBytes(Index(k));
      assert CleanKey(s, k);
    }
    if x in ActualKeys(kv) {
      var k :| k in s.keys && x == KeyBytes(Index(k));
      assert CleanKey(s, k);
      ExpectedComplete(kv, s, k);
    }
  }

  lemma CleanIndexKey(kv: Kv, s: Store, k: IndexKey)
    requires Represents(kv, s) && WellSized(s) && Filed(s) && Decodable(kv) && CleanBytes(kv)
    ensures CleanKey(s, k)
  {
    hide KeyBytes, ExpectedKeys, ActualKeys, Expected, Decodable, SizedKey, CellBytes;
    var x := KeyBytes(Index(k));
    ActualMeans(kv, s, x);
    assert CellOk(kv, s, Index(k));
    assert x in ExpectedKeys(kv) <==> x in ActualKeys(kv);
    if Expected(s, k) {
      ExpectedComplete(kv, s, k);
      var l :| l in s.keys && x == KeyBytes(Index(l));
      assert CellOk(kv, s, Index(l));
      IndexKeyUnique(k, l);
    }
    if k in s.keys {
      ExpectedSound(kv, s, x);
      var l :| Expected(s, l) && x == KeyBytes(Index(l));
      IndexKeyUnique(k, l);
    }
  }

  // ----- The repair command -----

  method DeleteAll(keys: set<bytes>, ghost kv: Kv) returns (ws: seq<KvWrite>)
    ensures KvWriteAll(kv, ws) == kv - keys
  {
    ws := [];
    var todo := keys;
    assert kv - {} == kv;
    while todo != {}
      invariant todo <= keys && KvWriteAll(kv, ws) == kv - (keys - todo)
      decreases |todo|
    {
      var b :| b in todo;
      ghost var before := ws;
      ws := ws + [KvDelete(b)];
      assert ws[..|ws| - 1] == before;
      ghost var done := keys - todo;
      todo := todo - {b};
      assert keys - todo == done + {b};
      assert kv - done - {b} == kv - (done + {b});
    }
    assert keys - {} == keys;
  }

  method PutAll(ws: seq<KvWrite>, keys: set<bytes>, ghost kv: Kv) returns (ws': seq<KvWrite>)
    ensures KvWriteAll(kv, ws') == KvWriteAll(kv, ws) + (map b | b in keys :: [])
  {
    ws' := ws;
    var todo := keys;
    ghost var base := KvWriteAll(kv, ws);
    assert base + Empties({}) == base;
    while todo != {}
      invariant todo <= keys && KvWriteAll(kv, ws') == base + Empties(keys - todo)
      decreases |todo|
    {
      var b :| b in todo;
      ghost var before := ws';
      ws' := ws' + [KvPut(b, [])];
      assert ws'[..|ws'| - 1] == before;
      ghost var done := keys - todo;
      todo := todo - {b};
      assert keys - todo == done + {b};
      assert (base + Empties(done))[b := []] == base + Empties(done + {b});
    }
    assert keys - {} == keys;
    assert Empties(keys) == map b | b in keys :: [];
  }

  ghost function Empties(keys: set<bytes>): Kv {
    map b | b in keys :: []
  }

  /** The report of `verify_invariants`, or nothing if some record cannot be read. */
  method VerifyInvariants(store: MemoryKvStore) returns (r: Option<Report>)
    ensures r.Some? <==> Decodable(store.data)
    ensures r.Some? ==>
              && r.value.missing == ExpectedKeys(store.data) - ActualKeys(store.data)
              && r.value.unexpected == ActualKeys(store.data) - ExpectedKeys(store.data)
    ensures r.Some? ==> (CleanBytes(store.data) <==> r.value == Report({}, {}))
  {
    hide IsIndexKey, Decodable, NodesExpected, BoundariesExpected, RelsExpected;
    if !Decodable(store.data) {
      return None;
    }
    var expected, actual := ExpectedKeys(store.data), ActualKeys(store.data);
    return Some(Report(expected - actual, actual - expected));
  }

  /**
   * Rebuild the index in one atomic batch, all deletions before all insertions, and report what
   * was wrong before. A store with an unreadable record is left alone.
   */
  method RepairIndexes(store: MemoryKvStore) returns (before: Option<Report>)
    modifies store
    ensures before.Some? <==> Decodable(old(store.data))
    ensures before.None? ==> store.data == old(store.data)
    ensures before.Some? ==>
              && store.data == Repair(old(store.data))
              && before.value.missing == ExpectedKeys(old(store.data)) - ActualKeys(old(store.data))
              && before.value.unexpected == ActualKeys(old(store.data)) - ExpectedKeys(old(store.data))
  {
    hide IsIndexKey, CleanBytes, ExpectedKeys, Decodable;
    before := VerifyInvariants(store);
    if before.None? || before == Some(Report({}, {})) {
      return;
    }
    var ws := DeleteAll(ActualKeys(store.data), store.data);
    ws := PutAll(ws, ExpectedKeys(store.data), store.data);
    store.WriteBatch(ws);
  }
}
