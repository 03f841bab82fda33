/** A graph store split into local partitions, with batches grouped per partition. */
module Partition {
  import opened Basics
  import opened Model
  import opened Graph
  import opened GraphStore
  import opened GraphClean
  import opened GraphBatch
  import opened KvGraphStoreModel

  datatype Placement = Placement(count: u64, chosen: map<ShardId, u64>) {
    /** At least one partition, and every assignment inside the range. */
    ghost predicate Valid() {
      count > 0 && forall s :: s in chosen ==> chosen[s] < count
    }
  }

  /** An explicit assignment, or the shard id modulo the number of partitions. */
  function PartitionOf(p: Placement, shard: ShardId): (r: u64)
    requires p.Valid()
    ensures r < p.count
  {
    if shard in p.chosen then p.chosen[shard] else shard % p.count
  }

  function NewPlacement(count: u64): (r: Option<Placement>)
    ensures r.Some? <==> count > 0
    ensures r.Some? ==> r.value.Valid() && forall s: ShardId :: PartitionOf(r.value, s) == s % count
  {
    if count == 0 then None else Some(Placement(count, map[]))
  }

  /** An assignment outside the range is refused, so placements stay valid. */
  function WithAssignment(p: Placement, shard: ShardId, partition: u64): (r: Option<Placement>)
    requires p.Valid()
    ensures r.Some? <==> partition < p.count
    ensures r.Some? ==> r.value.Valid() && PartitionOf(r.value, shard) == partition
    ensures r.Some? ==> forall s :: s != shard ==> PartitionOf(r.value, s) == PartitionOf(p, s)
  {
    if partition >= p.count then None else Some(p.(chosen := p.chosen[shard := partition]))
  }

  type Routed = seq<(ShardId, Command)>

  /** The commands of partition `k`, in their original order. */
  function Share(p: Placement, cs: Routed, k: u64): seq<Command>
    requires p.Valid()
  {
    if cs == [] then []
    else
      Share(p, cs[..|cs| - 1], k)
      + (if PartitionOf(p, cs[|cs| - 1].0) == k then [cs[|cs| - 1].1] else [])
  }

  /** Applying every command, in order, to its own partition. */
  function InOrder(p: Placement, stores: seq<Store>, cs: Routed): (r: seq<Store>)
    requires p.Valid() && |stores| == p.count
    ensures |r| == |stores|
  {
    if cs == [] then stores
    else
      var before := InOrder(p, stores, cs[..|cs| - 1]);
      var k := PartitionOf(p, cs[|cs| - 1].0);
      before[k := ApplyKv(before[k], cs[|cs| - 1].1)]
  }

  /** Partitions do not see each other: each holds the replay of its own share. */
  lemma {:induction false} InOrderIsPerPartition(p: Placement, stores: seq<Store>, cs: Routed, k: u64)
    requires p.Valid() && |stores| == p.count && k < p.count
    ensures InOrder(p, stores, cs)[k] == ReplayKv(stores[k], Share(p, cs, k))
  {
    hide ApplyKv, PartitionOf;
    if cs != [] {
      var front, last := cs[..|cs| - 1], cs[|cs| - 1];
      InOrderIsPerPartition(p, stores, front, k);
      var before := Share(p, front, k);
      if PartitionOf(p, last.0) == k {
        assert Share(p, cs, k) == before + [last.1] && (before + [last.1])[..|before|] == before;
      } else {
        assert Share(p, cs, k) == before;
      }
    }
  }

  /** Every partition is clean, and its share is accepted and adopts nothing. */
  ghost predicate Ready(p: Placement, stores: seq<Store>, cs: Routed)
    requires p.Valid() && |stores| == p.count
  {
    forall k: u64 {:trigger stores[k]} :: k < p.count ==>
      Clean(stores[k]) && Filed(stores[k]) && Orderly(stores[k], Share(p, cs, k))
  }

  /** No share re-creates a relationship of its partition. */
  ghost predicate NoneRevived(p: Placement, stores: seq<Store>, cs: Routed)
    requires p.Valid() && |stores| == p.count
  {
    forall k: u64 {:trigger stores[k]} :: k < p.count ==> NoRevival(stores[k], Share(p, cs, k))
  }

  /** Grouped per partition and batched, as `apply_batch` does it. */
  function Grouped(p: Placement, stores: seq<Store>, cs: Routed): (r: seq<Store>)
    requires p.Valid() && |stores| == p.count
    ensures |r| == |stores|
  {
    seq(|stores|, k requires 0 <= k < |stores| => GraphBatch.ApplyBatch(stores[k], Share(p, cs, k)))
  }

  /** The grouped batch equals in-order application exactly when no partition loses a relationship. */
  lemma GroupedExactly(p: Placement, stores: seq<Store>, cs: Routed)
    requires p.Valid() && |stores| == p.count && Ready(p, stores, cs)
    ensures Grouped(p, stores, cs) == InOrder(p, stores, cs) <==>
            forall k: u64 {:trigger stores[k]} :: k < p.count ==> Lost(stores[k], Share(p, cs, k)) == {}
  {
    hide InOrder, Share, Clean, Filed, Orderly, Lost, Behind, Coherent, GraphBatch.ApplyBatch, ReplayKv;
    var a, b := Grouped(p, stores, cs), InOrder(p, stores, cs);
    forall k: u64 | k < p.count
      ensures a[k] == b[k] <==> Lost(stores[k], Share(p, cs, k)) == {}
    {
      InOrderIsPerPartition(p, stores, cs, k);
      BatchEqualsWhenNothingLost(stores[k], Share(p, cs, k));
    }
    if a == b {
      assert forall k: u64 {:trigger stores[k]} :: k < p.count ==> a[k] == b[k];
    } else {
      var k: nat :| k < |a| && a[k] != b[k];
      assert stores[k] == stores[k];
    }
  }

  /** The partition-grouped batch equals in-order application across partitions. */
  lemma GroupedEqualsInOrder(p: Placement, stores: seq<Store>, cs: Routed)
    requires p.Valid() && |stores| == p.count && Ready(p, stores, cs) && NoneRevived(p, stores, cs)
    ensures Grouped(p, stores, cs) == InOrder(p, stores, cs)
  {
    hide InOrder, Share, Clean, Filed, Orderly, NoRevival, GraphBatch.ApplyBatch, ReplayKv;
    var a, b := Grouped(p, stores, cs), InOrder(p, stores, cs);
    forall k: nat | k < |stores|
      ensures a[k] == b[k]
    {
      InOrderIsPerPartition(p, stores, cs, k);
      BatchEqualsSequence(stores[k], Share(p, cs, k));
    }
  }

  // ----- The partitioned store -----

  class PartitionedGraphStore {
    const partitions: seq<KvGraphStore>
    const placement: Placement

    /** One distinct store object per partition of a valid placement. */
    ghost predicate Valid() {
      && placement.Valid() && |partitions| == placement.count
      && forall i, j :: 0 <= i < j < |partitions| ==> partitions[i] != partitions[j]
    }

    ghost function Stores(): (r: seq<Store>)
      reads partitions
      ensures |r| == |partitions|
    {
      seq(|partitions|, k requires 0 <= k < |partitions| reads partitions => partitions[k].store)
    }

    constructor (partitions: seq<KvGraphStore>, placement: Placement)
      requires placement.Valid() && |partitions| == placement.count
      requires forall i, j :: 0 <= i < j < |partitions| ==> partitions[i] != partitions[j]
      ensures Valid() && this.partitions == partitions && this.placement == placement
    {
      this.partitions := partitions;
      this.placement := placement;
    }

    method Apply(shard: ShardId, c: Command)
      requires Valid()
      modifies partitions
      ensures Stores() ==
              old(Stores())[PartitionOf(placement, shard) := ApplyKv(old(Stores())[PartitionOf(placement, shard)], c)]
    {
      var k := PartitionOf(placement, shard);
      partitions[k].Apply(c);
    }

    /** Collect each partition's commands, keeping their order. */
    method Group(cs: Routed) returns (groups: map<u64, seq<Command>>)
      requires Valid()
      ensures forall k: u64 :: k < placement.count ==> GetOr(groups, k, []) == Share(placement, cs, k)
      ensures forall k :: k in groups ==> k < placement.count
    {
      groups := map[];
      for i := 0 to |cs|
        invariant forall k: u64 :: k < placement.count ==> GetOr(groups, k, []) == Share(placement, cs[..i], k)
        invariant forall k :: k in groups ==> k < placement.count
      {
        assert cs[..i + 1][..i] == cs[..i];
        var k := PartitionOf(placement, cs[i].0);
        groups := groups[k := GetOr(groups, k, []) + [cs[i].1]];
      }
      assert cs[..|cs|] == cs;
    }

    method ApplyBatch(cs: Routed)
      requires Valid()
      modifies partitions
      ensures Stores() == Grouped(placement, old(Stores()), cs)
    {
      hide GraphBatch.ApplyBatch, Share;
      var groups := Group(cs);
      ghost var before := Stores();
      for k := 0 to |partitions|
        invariant forall j :: 0 <= j < k ==>
                  partitions[j].store == GraphBatch.ApplyBatch(before[j], Share(placement, cs, j))
        invariant forall j :: k <= j < |partitions| ==> partitions[j].store == before[j]
      {
        if k in groups {
          partitions[k].ApplyBatch(groups[k]);
        } else {
          EmptyBatch(before[k]);
        }
      }
    }
  }

  lemma EmptyBatch(s: Store)
    ensures GraphBatch.ApplyBatch(s, []) == s
  {
  }
}
