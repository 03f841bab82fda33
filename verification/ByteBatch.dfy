/** The batch and repair theorems, said of the bytes that are stored. */
module ByteBatch {
  import opened Basics
  import opened Model
  import opened GraphStore
  import opened GraphClean
  import opened GraphBatch
  import opened Keys
  import opened KvGraphStoreModel
  import opened ByteStore
  import opened GraphRepair

  /** A byte map is determined by the structured store it represents. */
  lemma RepresentedOnce(kv: Kv, kv': Kv, s: Store)
    requires Represents(kv, s) && Represents(kv', s)
    ensures kv == kv'
  {
    hide KeyBytes, CellBytes, SizedKey, Held;
    forall b
      ensures b in kv <==> b in kv'
      ensures b in kv ==> kv[b] == kv'[b]
    {
      if b in kv || b in kv' {
        assert Backed(s, b);
        var key :| Held(s, key) && KeyBytes(key) == b;
        assert CellOk(kv, s, key) && CellOk(kv', s, key);
      }
    }
  }

  /** A held key is in the bytes, and only a held key is. */
  lemma HeldExactly(kv: Kv, s: Store, key: Key)
    requires Represents(kv, s) && SizedKey(key)
    ensures KeyBytes(key) in kv <==> Held(s, key)
  {
    hide KeyBytes, CellBytes, SizedKey, Held;
    assert CellOk(kv, s, key);
    if KeyBytes(key) in kv {
      assert Backed(s, KeyBytes(key));
      var other :| Held(s, other) && KeyBytes(other) == KeyBytes(key);
      assert CellOk(kv, s, other);
      KeyBytesUnique(other, key);
    }
  }

  ghost predicate SizedOps(ops: seq<Op>) {
    forall i :: 0 <= i < |ops| ==> SizedKey(KeyOf(ops[i]))
  }

  /**
   * Batch equals sequence on bytes: writing the operations of one batch for `cs`, or those of the
   * single commands, leaves the same bytes if and only if nothing is lost.
   */
  lemma BytesEqualExactly(kv: Kv, s0: Store, cs: seq<Command>, batch: seq<Op>, single: seq<Op>)
    requires Represents(kv, s0) && Clean(s0) && Filed(s0) && Orderly(s0, cs)
    requires SizedOps(batch) && Write(s0, batch) == ApplyBatch(s0, cs)
    requires SizedOps(single) && Write(s0, single) == ReplayKv(s0, cs)
    ensures KvWriteAll(kv, EncOps(batch)) == KvWriteAll(kv, EncOps(single)) <==> Lost(s0, cs) == {}
  {
    hide Clean, Filed, Represents, KeyBytes, ApplyBatch, ReplayKv, Write, Lost, EncOps, KvWriteAll;
    var b, s, lost := ApplyBatch(s0, cs), ReplayKv(s0, cs), Lost(s0, cs);
    BatchLifts(kv, s0, batch);
    BatchLifts(kv, s0, single);
    BatchLosesExactly(s0, cs);
    ReplayClean(s0, cs);
    if lost == {} {
      EqualExactly(b, s, lost);
      RepresentedOnce(KvWriteAll(kv, EncOps(batch)), KvWriteAll(kv, EncOps(single)), s);
    } else {
      var x :| x in lost;
      RecordsSized(RelRecord(x));
      HeldExactly(KvWriteAll(kv, EncOps(batch)), b, RelRecord(x));
      HeldExactly(KvWriteAll(kv, EncOps(single)), s, RelRecord(x));
    }
  }

  // ----- Repair -----

  lemma ExpectedByRecords(s: Store, t: Store, k: IndexKey)
    requires s.nodes == t.nodes && s.boundary == t.boundary && s.rels == t.rels
    ensures Expected(s, k) <==> Expected(t, k)
  {
  }

  lemma HeldByRecords(s: Store, t: Store, key: Key)
    requires s.nodes == t.nodes && s.boundary == t.boundary && s.rels == t.rels && !key.Index?
    ensures (Held(s, key) <==> Held(t, key)) && CellBytes(s, key) == CellBytes(t, key)
  {
  }

  lemma RecordIsNoIndexKey(key: Key)
    requires !key.Index?
    ensures !IsIndexKey(KeyBytes(key))
  {
    hide KeyBytes, IsIndexKey;
    KeyFamily(key);
    PrefixIsAt(KeyBytes(key), Family(key));
    RecordsAreNoIndexKeys(KeyBytes(key), key);
  }

  lemma RepairedCell(kv: Kv, s: Store, t: Store, key: Key)
    requires Represents(kv, s) && WellSized(s) && Filed(s) && Decodable(kv) && !CleanBytes(kv)
    requires s.nodes == t.nodes && s.boundary == t.boundary && s.rels == t.rels && Clean(t)
    ensures CellOk(Repair(kv), t, key)
  {
    hide KeyBytes, IsIndexKey, ExpectedKeys, CleanBytes, Filed, Decodable;
    if key.Index? {
      hide WellSized;
      assert CleanKey(t, key.k);
      ExpectedByRecords(s, t, key.k);
      if Expected(s, key.k) {
        ExpectedComplete(kv, s, key.k);
        assert SizedKey(key) by { ExpectedSized(s, key.k); }
      }
    } else {
      hide WellSized;
      HeldByRecords(s, t, key);
      assert CellOk(kv, s, key);
      RecordIsNoIndexKey(key);
      ExpectedAreIndexKeys(kv);
    }
  }

  lemma ExpectedSized(s: Store, k: IndexKey)
    requires WellSized(s) && Expected(s, k)
    ensures SizedKey(Index(k))
  {
  }

  lemma RepairedBacked(kv: Kv, s: Store, t: Store, b: bytes)
    requires Represents(kv, s) && WellSized(s) && Filed(s) && Decodable(kv) && !CleanBytes(kv)
    requires s.nodes == t.nodes && s.boundary == t.boundary && s.rels == t.rels && Clean(t)
    requires b in Repair(kv)
    ensures Backed(t, b)
  {
    hide KeyBytes, IsIndexKey, ExpectedKeys, CleanBytes, Filed, Decodable, WellSized;
    if b in ExpectedKeys(kv) {
      ExpectedSound(kv, s, b);
      var k :| Expected(s, k) && b == KeyBytes(Index(k));
      ExpectedByRecords(s, t, k);
      assert CleanKey(t, k);
      assert Held(t, Index(k));
    } else {
      assert b in kv && Backed(s, b);
      var key :| Held(s, key) && KeyBytes(key) == b;
      if key.Index? {
        IndexBytesAreIndexKeys(key.k);
      } else {
        HeldByRecords(s, t, key);
      }
    }
  }

  /** Repair turns the bytes of any store into those of the clean store with its records. */
  lemma RepairRepresents(kv: Kv, s: Store, t: Store)
    requires Represents(kv, s) && WellSized(s) && Filed(s)
    requires s.nodes == t.nodes && s.boundary == t.boundary && s.rels == t.rels && Clean(t)
    ensures Decodable(kv) && Represents(Repair(kv), t)
  {
    hide Clean, Filed, WellSized, Decodable, CleanBytes;
    CleanLifts(kv, s);
    if CleanBytes(kv) {
      CleanDetermined(s, t);
    } else {
      forall key
        ensures CellOk(Repair(kv), t, key)
      {
        RepairedCell(kv, s, t, key);
      }
      forall b | b in Repair(kv)
        ensures Backed(t, b)
      {
        RepairedBacked(kv, s, t, b);
      }
    }
  }
}
