/** The byte keys of the graph store: families, components, and value bytes. */
module Keys {
  import opened Basics
  import opened Model
  import opened Graph
  import opened GraphStore
  import opened Codec

  datatype Key =
    | NodeRecord(node: NodeId)
    | BoundaryRecord(node: NodeId)
    | RelRecord(rel: RelId)
    | Index(k: IndexKey)

  // ----- Families -----

  const N: bytes := [0x6E, 0x2F]
  const BN: bytes := [0x62, 0x6E, 0x2F]
  const R: bytes := [0x72, 0x2F]
  const L: bytes := [0x6C, 0x2F]
  const LP: bytes := [0x6C, 0x70, 0x2F]
  const BLP: bytes := [0x62, 0x6C, 0x70, 0x2F]
  const OUT: bytes := [0x6F, 0x75, 0x74, 0x2F]
  const OUTT: bytes := [0x6F, 0x75, 0x74, 0x74, 0x2F]
  const IN: bytes := [0x69, 0x6E, 0x2F]
  const INT: bytes := [0x69, 0x6E, 0x74, 0x2F]

  function Family(key: Key): bytes {
    match key
    case NodeRecord(_) => N
    case BoundaryRecord(_) => BN
    case RelRecord(_) => R
    case Index(KLabel(_, _)) => L
    case Index(KProp(_, _)) => LP
    case Index(KBoundaryProp(_, _)) => BLP
    case Index(KOut(_, _)) => OUT
    case Index(KOutType(_, _, _)) => OUTT
    case Index(KIn(_, _)) => IN
    case Index(KInType(_, _, _)) => INT
  }

  /** Keys of one family come from one builder. */
  predicate SameFamily(a: Key, b: Key) {
    match a
    case NodeRecord(_) => b.NodeRecord?
    case BoundaryRecord(_) => b.BoundaryRecord?
    case RelRecord(_) => b.RelRecord?
    case Index(KLabel(_, _)) => b.Index? && b.k.KLabel?
    case Index(KProp(_, _)) => b.Index? && b.k.KProp?
    case Index(KBoundaryProp(_, _)) => b.Index? && b.k.KBoundaryProp?
    case Index(KOut(_, _)) => b.Index? && b.k.KOut?
    case Index(KOutType(_, _, _)) => b.Index? && b.k.KOutType?
    case Index(KIn(_, _)) => b.Index? && b.k.KIn?
    case Index(KInType(_, _, _)) => b.Index? && b.k.KInType?
  }

  /** A slash ends every family name and stands nowhere else in it. */
  ghost predicate Slashed(f: bytes) {
    f != [] && f[|f| - 1] == 0x2F && forall j {:trigger f[j]} :: 0 <= j < |f| - 1 ==> f[j] != 0x2F
  }

  lemma FamilySlashed(a: Key)
    ensures Slashed(Family(a))
  {
  }

  /** The family name ends at the first slash of the input. */
  lemma FirstSlash(i: bytes, f: bytes)
    requires Slashed(f) && At(i, 0, f)
    ensures |f| <= |i| && i[|f| - 1] == 0x2F && forall n {:trigger i[n]} :: 0 <= n < |f| - 1 ==> i[n] != 0x2F
  {
    assert i[|f| - 1] == f[|f| - 1];
    forall n | 0 <= n < |f| - 1
      ensures i[n] != 0x2F
    {
      assert i[0 + n] == f[n];
    }
  }

  /** Two families that open the same input are the same. */
  lemma FamilyUnique(i: bytes, f: bytes, g: bytes)
    requires Slashed(f) && Slashed(g) && At(i, 0, f) && At(i, 0, g)
    ensures f == g
  {
    FirstSlash(i, f);
    FirstSlash(i, g);
    AtUnique(i, 0, f, g);
  }

  lemma FamilyNames(a: Key, b: Key)
    requires Family(a) == Family(b)
    ensures SameFamily(a, b)
  {
    var f, g := Family(a), Family(b);
    assert |f| == |g| && f[0] == g[0] && f[1] == g[1];
  }

  // ----- Components and values -----

  /** Length, bytes, slash. */
  function Component(bs: bytes): (r: bytes)
    ensures |r| == |bs| + 5
  {
    Len(|bs|) + (bs + [0x2F])
  }

  /** A component can be told from its length. */
  lemma ComponentUnique(i: bytes, p: nat, a: bytes, b: bytes)
    requires |a| < 0x1_0000_0000 && |b| < 0x1_0000_0000 && At(i, p, Component(a)) && At(i, p, Component(b))
    ensures a == b
  {
    AtConcat(i, p, Len(|a|), a + [0x2F]);
    AtConcat(i, p, Len(|b|), b + [0x2F]);
    U32At(i, p, |a|);
    U32At(i, p, |b|);
    AtConcat(i, p + 4, a, [0x2F]);
    AtConcat(i, p + 4, b, [0x2F]);
    AtUnique(i, p + 4, a, b);
  }

  lemma AtUnique(i: bytes, p: nat, a: bytes, b: bytes)
    requires |a| == |b| && At(i, p, a) && At(i, p, b)
    ensures a == b
  {
    forall j | 0 <= j < |a|
      ensures a[j] == b[j]
    {
      assert i[p + j] == a[j] && i[p + j] == b[j];
    }
  }

  lemma U64Unique(i: bytes, p: nat, x: u64, y: u64)
    requires At(i, p, U64(x)) && At(i, p, U64(y))
    ensures x == y
  {
    U64At(i, p, x);
    U64At(i, p, y);
  }

  lemma LenUnique(i: bytes, p: nat, x: nat, y: nat)
    requires x < 0x1_0000_0000 && y < 0x1_0000_0000 && At(i, p, Len(x)) && At(i, p, Len(y))
    ensures x == y
  {
    U32At(i, p, x);
    U32At(i, p, y);
  }

  /** The value part of a property key; strings are not length-prefixed. */
  function ValueBytes(v: Value): bytes
    decreases v, 2
  {
    [Tag(v)] + ValueBody(v)
  }

  function ValueBody(v: Value): bytes
    decreases v, 1
  {
    match v
    case VNull => []
    case VBool(b) => [if b then 1 else 0]
    case VInt(x) => U64(Unsigned(x))
    case VFloat(bits) => U64(bits)
    case VString(s) => s
    case VVector(items) => Len(|items|) + Items(items)
    case VMap(m) =>
      SortedKeysElements(m.Keys);
      Len(|m|) + EntryBytes(v, SortedKeys(m.Keys))
  }

  function EntryBytes(v: Value, keys: seq<Text>): bytes
    requires v.VMap? && forall k :: k in keys ==> k in v.entries
    decreases v, 0, |keys|
  {
    if keys == [] then []
    else
      var x := ValueBytes(v.entries[keys[0]]);
      (Len(|keys[0]|) + (keys[0] + (Len(|x|) + x))) + EntryBytes(v, keys[1..])
  }

  /** Every length written into the bytes of `v` is within 32 bits. */
  predicate SizedForKey(v: Value) {
    match v
    case VVector(items) => |items| < 0x1_0000_0000
    case VMap(m) => |m| < 0x1_0000_0000 && SizedEntries(v) && forall k :: k in m ==> SizedForKey(m[k])
    case _ => true
  }

  predicate SizedEntries(v: Value)
    requires v.VMap?
  {
    forall k :: k in v.entries ==> |k| < 0x1_0000_0000 && |ValueBytes(v.entries[k])| < 0x1_0000_0000
  }

  lemma {:induction false} ItemsUnique(i: bytes, p: nat, a: seq<u32>, b: seq<u32>)
    requires |a| == |b| && At(i, p, Items(a)) && At(i, p, Items(b))
    ensures a == b
  {
    ItemsAt(i, p, a, []);
    ItemsAt(i, p, b, []);
    assert [] + a == a && [] + b == b;
  }

  /** Value bytes are equal exactly when the values are. */
  lemma {:induction false} ValueBytesUnique(v: Value, w: Value)
    requires SizedForKey(v) && SizedForKey(w) && ValueBytes(v) == ValueBytes(w)
    ensures v == w
    decreases v, 2
  {
    var i := ValueBytes(v);
    assert i[0] == Tag(v) == Tag(w);
    assert i[1..] == ValueBody(v) == ValueBody(w);
    BodyUnique(v, w);
  }

  lemma WholeAt(bs: bytes)
    ensures At(bs, 0, bs)
  {
  }

  lemma {:induction false} BodyUnique(v: Value, w: Value)
    requires SizedForKey(v) && SizedForKey(w) && Tag(v) == Tag(w) && ValueBody(v) == ValueBody(w)
    ensures v == w
    decreases v, 1
  {
    var i := ValueBody(v);
    WholeAt(i);
    match v
    case VNull =>
    case VBool(b) => assert i[0] == if b then 1 else 0;
    case VInt(x) => U64Unique(i, 0, Unsigned(x), Unsigned(w.i));
    case VFloat(bits) => U64Unique(i, 0, bits, w.bits);
    case VString(s) =>
    case VVector(items) => VectorUnique(i, items, w.items);
    case VMap(m) => MapUnique(v, w);
  }

  lemma VectorUnique(i: bytes, a: seq<u32>, b: seq<u32>)
    requires |a| < 0x1_0000_0000 && |b| < 0x1_0000_0000 && At(i, 0, Len(|a|) + Items(a))
              && At(i, 0, Len(|b|) + Items(b))
    ensures a == b
  {
    AtConcat(i, 0, Len(|a|), Items(a));
    AtConcat(i, 0, Len(|b|), Items(b));
    LenUnique(i, 0, |a|, |b|);
    ItemsUnique(i, 4, a, b);
  }

  /** Equal bytes give equal key lists and, entry by entry, equal value bytes. */
  lemma {:induction false} EntriesUnique(i: bytes, p: nat, v: Value, w: Value, ks: seq<Text>, ls: seq<Text>)
    requires v.VMap? && w.VMap? && |ks| == |ls|
    requires SizedEntries(v) && (forall k :: k in ks ==> k in v.entries)
    requires SizedEntries(w) && (forall k :: k in ls ==> k in w.entries)
    requires At(i, p, EntryBytes(v, ks)) && At(i, p, EntryBytes(w, ls))
    ensures ks == ls && forall k :: k in ks ==> ValueBytes(v.entries[k]) == ValueBytes(w.entries[k])
    decreases |ks|
  {
    hide At, Len, SortedKeys, ValueBody;
    if ks != [] {
      var k, l := ks[0], ls[0];
      assert k in ks && l in ls;
      var x, y := ValueBytes(v.entries[k]), ValueBytes(w.entries[l]);
      var a, b := Len(|k|) + (k + (Len(|x|) + x)), Len(|l|) + (l + (Len(|y|) + y));
      AtConcat(i, p, a, EntryBytes(v, ks[1..]));
      AtConcat(i, p, b, EntryBytes(w, ls[1..]));
      EntryUnique(i, p, k, x, l, y);
      assert |a| == |b| && forall z :: z in ks[1..] ==> z in ks;
      assert forall z :: z in ls[1..] ==> z in ls;
      EntriesUnique(i, p + |a|, v, w, ks[1..], ls[1..]);
      assert ks == [k] + ks[1..] && ls == [l] + ls[1..];
    }
  }

  lemma EntryUnique(i: bytes, p: nat, k: bytes, x: bytes, l: bytes, y: bytes)
    requires |k| < 0x1_0000_0000 && |x| < 0x1_0000_0000 && |l| < 0x1_0000_0000 && |y| < 0x1_0000_0000
    requires At(i, p, Len(|k|) + (k + (Len(|x|) + x))) && At(i, p, Len(|l|) + (l + (Len(|y|) + y)))
    ensures k == l && x == y
  {
    hide At, Len;
    AtConcat(i, p, Len(|k|), k + (Len(|x|) + x));
    AtConcat(i, p, Len(|l|), l + (Len(|y|) + y));
    LenUnique(i, p, |k|, |l|);
    AtConcat(i, p + 4, k, Len(|x|) + x);
    AtConcat(i, p + 4, l, Len(|y|) + y);
    AtUnique(i, p + 4, k, l);
    AtConcat(i, p + 4 + |k|, Len(|x|), x);
    AtConcat(i, p + 4 + |k|, Len(|y|), y);
    LenUnique(i, p + 4 + |k|, |x|, |y|);
    AtUnique(i, p + 8 + |k|, x, y);
  }

  lemma MapLaidOut(v: Value) returns (ks: seq<Text>)
    requires v.VMap?
    ensures |ks| == |v.entries| && (forall k :: k in ks <==> k in v.entries)
    ensures At(ValueBody(v), 0, Len(|v.entries|)) && At(ValueBody(v), 4, EntryBytes(v, ks))
  {
    ks := SortedKeys(v.entries.Keys);
    SortedKeysElements(v.entries.Keys);
    WholeAt(ValueBody(v));
    AtConcat(ValueBody(v), 0, Len(|v.entries|), EntryBytes(v, ks));
  }

  lemma MapBytesUnique(v: Value, w: Value)
    requires v.VMap? && w.VMap? && SizedForKey(v) && SizedForKey(w) && ValueBody(v) == ValueBody(w)
    ensures v.entries.Keys == w.entries.Keys
    ensures forall k :: k in v.entries ==> ValueBytes(v.entries[k]) == ValueBytes(w.entries[k])
  {
    hide At, Len, ValueBody, EntryBytes, SizedEntries;
    var ks := MapLaidOut(v);
    var ls := MapLaidOut(w);
    LenUnique(ValueBody(v), 0, |v.entries|, |w.entries|);
    EntriesUnique(ValueBody(v), 4, v, w, ks, ls);
  }

  lemma {:induction false} MapUnique(v: Value, w: Value)
    requires v.VMap? && w.VMap? && SizedForKey(v) && SizedForKey(w) && ValueBody(v) == ValueBody(w)
    ensures v == w
    decreases v, 0
  {
    hide ValueBody;
    MapBytesUnique(v, w);
    forall k | k in v.entries
      ensures v.entries[k] == w.entries[k]
    {
      ValueBytesUnique(v.entries[k], w.entries[k]);
    }
    assert v.entries == w.entries;
  }

  // ----- Builders -----

  const SLASH: bytes := [0x2F]

  /** The part of an index key that its scans fix. */
  function IndexPrefix(k: IndexKey): bytes {
    match k
    case KLabel(l, _) => L + Component(l)
    case KProp(lp, _) => LP + PropComponents(lp)
    case KBoundaryProp(lp, _) => BLP + PropComponents(lp)
    case KOut(n, _) => OUT + (U64(n) + SLASH)
    case KOutType(n, t, _) => OUTT + (U64(n) + (SLASH + Component(t)))
    case KIn(n, _) => IN + (U64(n) + SLASH)
    case KInType(n, t, _) => INT + (U64(n) + (SLASH + Component(t)))
  }

  function PropComponents(lp: LabelProp): bytes {
    Component(lp.tag) + (Component(lp.key) + Component(ValueBytes(lp.value)))
  }

  /** The id that ends an index key. */
  function IdOf(k: IndexKey): u64 {
    match k
    case KLabel(_, n) => n
    case KProp(_, n) => n
    case KBoundaryProp(_, n) => n
    case KOut(_, r) => r
    case KOutType(_, _, r) => r
    case KIn(_, r) => r
    case KInType(_, _, r) => r
  }

  function KeyBytes(key: Key): bytes {
    match key
    case NodeRecord(n) => N + U64(n)
    case BoundaryRecord(n) => BN + U64(n)
    case RelRecord(r) => R + U64(r)
    case Index(k) => IndexPrefix(k) + U64(IdOf(k))
  }

  predicate SizedProp(lp: LabelProp) {
    |lp.tag| < 0x1_0000_0000 && |lp.key| < 0x1_0000_0000 && |ValueBytes(lp.value)| < 0x1_0000_0000
        && SizedForKey(lp.value)
  }

  /** Every component within 32 bits. */
  predicate SizedKey(key: Key) {
    key.Index? ==>
      match key.k
      case KLabel(l, _) => |l| < 0x1_0000_0000
      case KProp(lp, _) => SizedProp(lp)
      case KBoundaryProp(lp, _) => SizedProp(lp)
      case KOutType(_, t, _) => |t| < 0x1_0000_0000
      case KInType(_, t, _) => |t| < 0x1_0000_0000
      case _ => true
  }

  lemma PropUnique(i: bytes, p: nat, a: LabelProp, b: LabelProp)
    requires SizedProp(a) && SizedProp(b) && At(i, p, PropComponents(a)) && At(i, p, PropComponents(b))
    ensures a == b
  {
    hide At, Component, ValueBytes, SizedForKey;
    var x, y := ValueBytes(a.value), ValueBytes(b.value);
    AtConcat(i, p, Component(a.tag), Component(a.key) + Component(x));
    AtConcat(i, p, Component(b.tag), Component(b.key) + Component(y));
    ComponentUnique(i, p, a.tag, b.tag);
    var q := p + |Component(a.tag)|;
    AtConcat(i, q, Component(a.key), Component(x));
    AtConcat(i, q, Component(b.key), Component(y));
    ComponentUnique(i, q, a.key, b.key);
    ComponentUnique(i, q + |Component(a.key)|, x, y);
    ValueBytesUnique(a.value, b.value);
  }

  lemma NodeAndTypeUnique(i: bytes, p: nat, n: u64, t: Text, m: u64, u: Text)
    requires |t| < 0x1_0000_0000 && |u| < 0x1_0000_0000
    requires At(i, p, U64(n) + (SLASH + Component(t))) && At(i, p, U64(m) + (SLASH + Component(u)))
    ensures n == m && t == u
  {
    hide At, Component, U64;
    AtConcat(i, p, U64(n), SLASH + Component(t));
    AtConcat(i, p, U64(m), SLASH + Component(u));
    U64Unique(i, p, n, m);
    AtConcat(i, p + 8, SLASH, Component(t));
    AtConcat(i, p + 8, SLASH, Component(u));
    ComponentUnique(i, p + 9, t, u);
  }

  lemma NodeUnique(i: bytes, p: nat, n: u64, m: u64)
    requires At(i, p, U64(n) + SLASH) && At(i, p, U64(m) + SLASH)
    ensures n == m
  {
    hide At, U64;
    AtConcat(i, p, U64(n), SLASH);
    AtConcat(i, p, U64(m), SLASH);
    U64Unique(i, p, n, m);
  }

  /** Same prefix up to the final id: same family, and the same fixed part. */
  predicate SameScan(a: IndexKey, b: IndexKey) {
    match a
    case KLabel(l, _) => b.KLabel? && b.tag == l
    case KProp(lp, _) => b.KProp? && b.lp == lp
    case KBoundaryProp(lp, _) => b.KBoundaryProp? && b.lp == lp
    case KOut(n, _) => b.KOut? && b.node == n
    case KOutType(n, t, _) => b.KOutType? && b.node == n && b.relType == t
    case KIn(n, _) => b.KIn? && b.node == n
    case KInType(n, t, _) => b.KInType? && b.node == n && b.relType == t
  }

  function AfterFamily(k: IndexKey): bytes {
    match k
    case KLabel(l, _) => Component(l)
    case KProp(lp, _) => PropComponents(lp)
    case KBoundaryProp(lp, _) => PropComponents(lp)
    case KOut(n, _) => U64(n) + SLASH
    case KOutType(n, t, _) => U64(n) + (SLASH + Component(t))
    case KIn(n, _) => U64(n) + SLASH
    case KInType(n, t, _) => U64(n) + (SLASH + Component(t))
  }

  lemma IndexPrefixParts(k: IndexKey)
    ensures IndexPrefix(k) == Family(Index(k)) + AfterFamily(k)
  {
  }

  lemma AfterFamilyUnique(i: bytes, p: nat, a: IndexKey, b: IndexKey)
    requires SizedKey(Index(a)) && SizedKey(Index(b)) && SameFamily(Index(a), Index(b))
    requires At(i, p, AfterFamily(a)) && At(i, p, AfterFamily(b))
    ensures SameScan(a, b)
  {
    hide At, Component, PropComponents, U64, SizedProp;
    match a
    case KLabel(l, _) => ComponentUnique(i, p, l, b.tag);
    case KProp(lp, _) => PropUnique(i, p, lp, b.lp);
    case KBoundaryProp(lp, _) => PropUnique(i, p, lp, b.lp);
    case KOut(n, _) => NodeUnique(i, p, n, b.node);
    case KOutType(n, t, _) => NodeAndTypeUnique(i, p, n, t, b.node, b.relType);
    case KIn(n, _) => NodeUnique(i, p, n, b.node);
    case KInType(n, t, _) => NodeAndTypeUnique(i, p, n, t, b.node, b.relType);
  }

  lemma PrefixUnique(i: bytes, a: IndexKey, b: IndexKey)
    requires SizedKey(Index(a)) && SizedKey(Index(b)) && At(i, 0, IndexPrefix(a)) && At(i, 0, IndexPrefix(b))
    ensures SameScan(a, b)
  {
    hide At, IndexPrefix, AfterFamily, Family, SizedKey, Slashed, SameFamily;
    IndexPrefixParts(a);
    IndexPrefixParts(b);
    var f, g := Family(Index(a)), Family(Index(b));
    AtConcat(i, 0, f, AfterFamily(a));
    AtConcat(i, 0, g, AfterFamily(b));
    FamilySlashed(Index(a));
    FamilySlashed(Index(b));
    FamilyUnique(i, f, g);
    FamilyNames(Index(a), Index(b));
    AfterFamilyUnique(i, |f|, a, b);
  }

  lemma SameScanSamePrefix(a: IndexKey, b: IndexKey)
    requires SameScan(a, b)
    ensures IndexPrefix(a) == IndexPrefix(b)
    ensures IdOf(a) == IdOf(b) ==> a == b
  {
    hide Component, PropComponents, U64;
  }

  /** A family opens every key of it, and only those. */
  lemma KeyFamily(key: Key)
    ensures At(KeyBytes(key), 0, Family(key))
  {
    hide AfterFamily, At;
    WholeAt(KeyBytes(key));
    match key
    case Index(k) =>
      IndexPrefixParts(k);
      AtConcat(KeyBytes(key), 0, IndexPrefix(k), U64(IdOf(k)));
      AtConcat(KeyBytes(key), 0, Family(key), AfterFamily(k));
    case NodeRecord(n) => AtConcat(KeyBytes(key), 0, N, U64(n));
    case BoundaryRecord(n) => AtConcat(KeyBytes(key), 0, BN, U64(n));
    case RelRecord(r) => AtConcat(KeyBytes(key), 0, R, U64(r));
  }

  lemma FamilyScanExact(a: Key, b: Key)
    ensures At(KeyBytes(b), 0, Family(a)) <==> SameFamily(a, b)
  {
    hide At, KeyBytes, Slashed;
    KeyFamily(b);
    FamilySlashed(a);
    FamilySlashed(b);
    if At(KeyBytes(b), 0, Family(a)) {
      FamilyUnique(KeyBytes(b), Family(a), Family(b));
      FamilyNames(a, b);
    }
  }

  /**
   * Scanning the prefix of a label, label-property, adjacency or typed-adjacency key finds
   * exactly the keys with the same label, value, node and type.
   */
  lemma ScanExact(a: IndexKey, key: Key)
    requires SizedKey(Index(a)) && SizedKey(key)
    ensures At(KeyBytes(key), 0, IndexPrefix(a)) <==> key.Index? && SameScan(a, key.k)
  {
    hide At, IndexPrefix, AfterFamily, Family, SizedKey, SameScan;
    var i := KeyBytes(key);
    if At(i, 0, IndexPrefix(a)) {
      IndexPrefixParts(a);
      AtConcat(i, 0, Family(Index(a)), AfterFamily(a));
      FamilyScanExact(Index(a), key);
      assert key.Index?;
      WholeAt(i);
      AtConcat(i, 0, IndexPrefix(key.k), U64(IdOf(key.k)));
      PrefixUnique(i, a, key.k);
    } else if key.Index? && SameScan(a, key.k) {
      SameScanSamePrefix(a, key.k);
      WholeAt(i);
      AtConcat(i, 0, IndexPrefix(key.k), U64(IdOf(key.k)));
    }
  }

  /** The last eight bytes of an index key give back its id. */
  lemma IdFromKey(k: IndexKey)
    ensures |KeyBytes(Index(k))| >= 8
    ensures FromBE(KeyBytes(Index(k)), |KeyBytes(Index(k))| - 8, 8) == IdOf(k)
  {
    hide IndexPrefix, At;
    var i := KeyBytes(Index(k));
    WholeAt(i);
    AtConcat(i, 0, IndexPrefix(k), U64(IdOf(k)));
    U64At(i, |i| - 8, IdOf(k));
  }

  lemma PrefixOfKey(k: IndexKey)
    ensures At(KeyBytes(Index(k)), 0, IndexPrefix(k))
  {
    hide At, IndexPrefix, U64;
    WholeAt(KeyBytes(Index(k)));
    AtConcat(KeyBytes(Index(k)), 0, IndexPrefix(k), U64(IdOf(k)));
  }

  lemma IndexKeyUnique(k: IndexKey, l: IndexKey)
    requires SizedKey(Index(k)) && SizedKey(Index(l)) && KeyBytes(Index(k)) == KeyBytes(Index(l))
    ensures k == l
  {
    hide At, IndexPrefix, SizedKey, SameScan, KeyBytes, IdOf, FromBE;
    PrefixOfKey(k);
    ScanExact(k, Index(l));
    IdFromKey(k);
    IdFromKey(l);
    SameScanSamePrefix(k, l);
  }

  /** Key builders are injective across all families. */
  lemma KeyBytesUnique(a: Key, b: Key)
    requires SizedKey(a) && SizedKey(b) && KeyBytes(a) == KeyBytes(b)
    ensures a == b
  {
    hide At, IndexPrefix, SizedKey, Family, U64;
    KeyFamily(a);
    FamilyScanExact(a, b);
    assert SameFamily(a, b);
    match a
    case Index(k) => IndexKeyUnique(k, b.k);
    case NodeRecord(n) => RecordUnique(KeyBytes(a), N, n, b.node);
    case BoundaryRecord(n) => RecordUnique(KeyBytes(a), BN, n, b.node);
    case RelRecord(r) => RecordUnique(KeyBytes(a), R, r, b.rel);
  }

  lemma RecordUnique(i: bytes, f: bytes, x: u64, y: u64)
    requires i == f + U64(x) && i == f + U64(y)
    ensures x == y
  {
    WholeAt(i);
    AtConcat(i, 0, f, U64(x));
    AtConcat(i, 0, f, U64(y));
    U64Unique(i, |f|, x, y);
  }
}
