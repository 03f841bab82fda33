/** Ids stand big-endian at the end of every key, so ordered scans return ascending ids. */
module KeyOrder {
  import opened Basics
  import opened Model
  import opened GraphStore
  import opened Codec
  import opened Keys
  import opened ByteStore

  lemma {:induction false} EqualBytes(a: bytes, b: bytes, p: nat, w: nat)
    requires p + w <= |a| && p + w <= |b| && forall j :: p <= j < p + w ==> a[j] == b[j]
    ensures FromBE(a, p, w) == FromBE(b, p, w)
  {
    if w > 0 { EqualBytes(a, b, p, w - 1); }
  }

  /** The first difference, at `d`, decides which number is smaller. */
  lemma {:induction false} FirstDifference(a: bytes, b: bytes, p: nat, d: nat, w: nat)
    requires p <= d < p + w && p + w <= |a| && p + w <= |b|
    requires (forall j :: p <= j < d ==> a[j] == b[j]) && a[d] < b[d]
    ensures FromBE(a, p, w) < FromBE(b, p, w)
    decreases w
  {
    if p + w == d + 1 {
      EqualBytes(a, b, p, w - 1);
    } else {
      FirstDifference(a, b, p, d, w - 1);
    }
  }

  /** Of two equally long byte strings, the smaller one is smaller at the first difference. */
  lemma {:induction false} LessAt(a: bytes, b: bytes, p: nat) returns (d: nat)
    requires p <= |a| == |b| && LessFrom(a, b, p)
    ensures p <= d < |a| && a[d] < b[d] && forall j :: p <= j < d ==> a[j] == b[j]
    decreases |a| - p
  {
    if a[p] < b[p] {
      d := p;
    } else {
      d := LessAt(a, b, p + 1);
    }
  }

  lemma {:induction false} Compared(a: bytes, b: bytes, p: nat)
    requires p <= |a| == |b|
    ensures LessFrom(a, b, p) || LessFrom(b, a, p) || forall j :: p <= j < |a| ==> a[j] == b[j]
    decreases |a| - p
  {
    if p < |a| { Compared(a, b, p + 1); }
  }

  /** Byte order is number order. */
  lemma NumberOrder(a: bytes, b: bytes, p: nat)
    requires p <= |a| == |b|
    ensures LessFrom(a, b, p) <==> FromBE(a, p, |a| - p) < FromBE(b, p, |a| - p)
  {
    hide FromBE;
    var w := |a| - p;
    if LessFrom(a, b, p) {
      var d := LessAt(a, b, p);
      FirstDifference(a, b, p, d, w);
    } else if LessFrom(b, a, p) {
      var d := LessAt(b, a, p);
      FirstDifference(b, a, p, d, w);
    } else {
      Compared(a, b, p);
      EqualBytes(a, b, p, w);
    }
  }

  lemma {:induction false} CommonStart(a: bytes, b: bytes, k: nat, p: nat)
    requires k <= p <= |a| == |b| && forall j :: k <= j < p ==> a[j] == b[j]
    ensures LessFrom(a, b, k) <==> LessFrom(a, b, p)
    decreases p - k
  {
    if k < p { CommonStart(a, b, k + 1, p); }
  }

  /** Two keys that share everything but the id compare as their ids. */
  lemma SamePrefixOrder(prefix: bytes, x: u64, y: u64)
    ensures Less(prefix + U64(x), prefix + U64(y)) <==> x < y
  {
    hide FromBE, U64;
    var a, b, p := prefix + U64(x), prefix + U64(y), |prefix|;
    CommonStart(a, b, 0, p);
    NumberOrder(a, b, p);
    assert At(a, p, U64(x)) && At(b, p, U64(y));
    U64At(a, p, x);
    U64At(b, p, y);
  }

  /** Index keys of one scan, and records of one family, are ordered by id. */
  lemma KeysByIdOrder(k: IndexKey, l: IndexKey, a: u64, b: u64)
    ensures SameScan(k, l) ==> (Less(KeyBytes(Index(k)), KeyBytes(Index(l))) <==> IdOf(k) < IdOf(l))
    ensures Less(KeyBytes(NodeRecord(a)), KeyBytes(NodeRecord(b))) <==> a < b
    ensures Less(KeyBytes(BoundaryRecord(a)), KeyBytes(BoundaryRecord(b))) <==> a < b
    ensures Less(KeyBytes(RelRecord(a)), KeyBytes(RelRecord(b))) <==> a < b
  {
    hide Less, U64, SameScan, IndexPrefix, IdOf;
    if SameScan(k, l) {
      SameScanSamePrefix(k, l);
      SamePrefixOrder(IndexPrefix(k), IdOf(k), IdOf(l));
    }
    SamePrefixOrder(N, a, b);
    SamePrefixOrder(BN, a, b);
    SamePrefixOrder(R, a, b);
  }

  /** So the ids an ordered scan of one index prefix returns are ascending. */
  lemma ScanAscends(found: seq<bytes>, ks: seq<IndexKey>, i: nat, j: nat)
    requires Ordered(found) && |ks| == |found| && i < j < |found| && SameScan(ks[i], ks[j])
    requires found[i] == KeyBytes(Index(ks[i])) && found[j] == KeyBytes(Index(ks[j]))
    ensures IdOf(ks[i]) < IdOf(ks[j])
  {
    hide Less, KeyBytes, SameScan, IdOf;
    KeysByIdOrder(ks[i], ks[j], 0, 0);
  }
}
