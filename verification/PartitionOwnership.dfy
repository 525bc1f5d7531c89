/** Who owns a key: range tablets are disjoint, hash tablets fill distinct buckets. */
module PartitionOwnership {
  import opened Base
  import opened ByteOrder
  import opened Schema
  import opened MetadataTypes
  import opened Validation
  import opened MetadataSpec
  import opened MetadataInvariant
  import opened MetadataRuns

  /** The key lies in the half-open range; an empty end means no upper bound. */
  predicate InRange(key: Key, startKey: Key, endKey: Key) {
    Leq(startKey, key) && (endKey == [] || Less(key, endKey))
  }

  lemma LeftmostStartIsShared(ls: Key, le: Key, rs: Key, re: Key)
    requires (re != [] ==> Less(rs, re)) && Leq(ls, rs)
    requires !(le != [] && rs != [] && Leq(le, rs))
    ensures InRange(rs, ls, le) && InRange(rs, rs, re)
  {
    if le != [] {
      LessOrGeq(rs, le);
    }
  }

  lemma BeforeMeansDisjoint(le: Key, rs: Key, key: Key)
    requires Leq(le, rs) && Leq(rs, key)
    ensures !Less(key, le)
  {
    LessOrGeq(key, le);
    if Less(key, le) {
      LessLeqTransitive(key, le, rs);
      LessOrGeq(key, rs);
    }
  }

  /** Two valid ranges overlap exactly when some key lies in both. */
  lemma OverlapIffSharedKey(ls: Key, le: Key, rs: Key, re: Key)
    requires ValidPartition(Range(ls, le)) && ValidPartition(Range(rs, re))
    ensures RangesOverlap(ls, le, rs, re) <==> exists key :: InRange(key, ls, le) && InRange(key, rs, re)
  {
    if RangesOverlap(ls, le, rs, re) {
      LessTotal(ls, rs);
      if Leq(ls, rs) {
        LeftmostStartIsShared(ls, le, rs, re);
      } else {
        LeftmostStartIsShared(rs, re, ls, le);
      }
    }
    if key :| InRange(key, ls, le) && InRange(key, rs, re) {
      if Leq(le, rs) {
        BeforeMeansDisjoint(le, rs, key);
      }
      if Leq(re, ls) {
        BeforeMeansDisjoint(re, ls, key);
      }
    }
  }

  /** In every reachable state a key lies in at most one range tablet of a table. */
  lemma AtMostOneRangeOwner(log: seq<Entry>, i: nat, a: U64, b: U64, key: Key)
    requires i <= |log| && a in At(log, i).topology.tablets && b in At(log, i).topology.tablets
    requires var ts := At(log, i).topology.tablets;
             && ts[a].tableId == ts[b].tableId && ts[a].partition.Range? && ts[b].partition.Range?
             && InRange(key, ts[a].partition.startKey, ts[a].partition.endKey)
             && InRange(key, ts[b].partition.startKey, ts[b].partition.endKey)
    ensures a == b
  {
    ReachableInv(log, i);
    var t := At(log, i).topology;
    OneOwner(t.tables, t.tablets, a, b, key);
  }

  lemma OneOwner(tables: map<U64, TableSchema>, tablets: map<U64, TabletDescriptor>, a: U64, b: U64, key: Key)
    requires TabletsInv(tables, tablets) && a in tablets && b in tablets
    requires tablets[a].tableId == tablets[b].tableId
    requires tablets[a].partition.Range? && tablets[b].partition.Range?
    requires InRange(key, tablets[a].partition.startKey, tablets[a].partition.endKey)
    requires InRange(key, tablets[b].partition.startKey, tablets[b].partition.endKey)
    ensures a == b
  {
    var p, q := tablets[a].partition, tablets[b].partition;
    assert TabletInv(tables, a, tablets[a]) && TabletInv(tables, b, tablets[b]);
    OverlapIffSharedKey(p.startKey, p.endKey, q.startKey, q.endKey);
    assert OverlappingTablets(tablets[a], tablets[b]);
  }

  /** In every reachable state the hash tablets of a table own distinct buckets within its tablet count. */
  lemma HashBucketsAreDistinct(log: seq<Entry>, i: nat, a: U64, b: U64)
    requires i <= |log| && a in At(log, i).topology.tablets && b in At(log, i).topology.tablets
    requires var ts := At(log, i).topology.tablets;
             ts[a].tableId == ts[b].tableId && ts[a].partition.Hash? && ts[b].partition.Hash?
    ensures var ts := At(log, i).topology.tablets;
            && ts[a].tableId in At(log, i).topology.tables
            && ts[a].partition.bucket < At(log, i).topology.tables[ts[a].tableId].tabletCount
            && (ts[a].partition.bucket == ts[b].partition.bucket ==> a == b)
  {
    ReachableInv(log, i);
    var t := At(log, i).topology;
    BucketInTable(t.tables, t.tablets, a);
    DistinctBuckets(t.tablets, t.tabletIdsByPartition, a, b);
  }

  lemma BucketInTable(tables: map<U64, TableSchema>, tablets: map<U64, TabletDescriptor>, a: U64)
    requires TabletsInv(tables, tablets) && a in tablets && tablets[a].partition.Hash?
    ensures tablets[a].tableId in tables
    ensures tablets[a].partition.bucket < tables[tablets[a].tableId].tabletCount
  {
    assert TabletInv(tables, a, tablets[a]);
  }

  lemma DistinctBuckets(tablets: map<U64, TabletDescriptor>, byPartition: map<(U64, U32), U64>, a: U64, b: U64)
    requires PartitionIndexInv(tablets, byPartition) && a in tablets && b in tablets
    requires tablets[a].tableId == tablets[b].tableId
    requires tablets[a].partition.Hash? && tablets[b].partition.Hash?
    ensures tablets[a].partition.bucket == tablets[b].partition.bucket ==> a == b
  {
    assert byPartition[BucketOf(tablets[a])] == a;
    assert byPartition[BucketOf(tablets[b])] == b;
  }

  // ---------- admission of a tablet ----------

  ghost predicate SharesKey(a: TabletDescriptor, b: TabletDescriptor)
    requires a.partition.Range? && b.partition.Range?
  {
    exists key ::
      InRange(key, a.partition.startKey, a.partition.endKey) && InRange(key, b.partition.startKey, b.partition.endKey)
  }

  /** No tablet of the table owns anything that the new one would own. */
  ghost predicate OwnsAnew(tablets: map<U64, TabletDescriptor>, tablet: TabletDescriptor) {
    forall k | k in tablets && tablets[k].tableId == tablet.tableId ::
      match (tablets[k].partition, tablet.partition)
      case (Hash(b, _), Hash(c, _)) => b != c
      case (Range(_, _), Range(_, _)) => !SharesKey(tablets[k], tablet)
      case _ => true
  }

  lemma BucketFreeIff(t: Topology, tablet: TabletDescriptor)
    requires PartitionIndexInv(t.tablets, t.tabletIdsByPartition) && tablet.partition.Hash?
    ensures (tablet.tableId, tablet.partition.bucket) !in t.tabletIdsByPartition <==> OwnsAnew(t.tablets, tablet)
  {
    var b := (tablet.tableId, tablet.partition.bucket);
    if b in t.tabletIdsByPartition {
      assert BucketOf(t.tablets[t.tabletIdsByPartition[b]]) == b;
    } else {
      forall k | k in t.tablets && t.tablets[k].tableId == tablet.tableId && t.tablets[k].partition.Hash?
        ensures t.tablets[k].partition.bucket != tablet.partition.bucket
      {
        assert BucketOf(t.tablets[k]) in t.tabletIdsByPartition;
      }
    }
  }

  lemma RangeFreeIff(t: Topology, tablet: TabletDescriptor)
    requires TabletsInv(t.tables, t.tablets) && ValidTablet(tablet) && tablet.partition.Range?
    ensures !(exists id :: id in t.tablets && OverlappingTablets(tablet, t.tablets[id])) <==> OwnsAnew(t.tablets, tablet)
  {
    forall k | k in t.tablets && t.tablets[k].tableId == tablet.tableId && t.tablets[k].partition.Range?
      ensures OverlappingTablets(tablet, t.tablets[k]) <==> SharesKey(t.tablets[k], tablet)
    {
      var p, q := tablet.partition, t.tablets[k].partition;
      assert TabletInv(t.tables, k, t.tablets[k]);
      OverlapIffSharedKey(p.startKey, p.endKey, q.startKey, q.endKey);
    }
  }

  /** Within its table the new tablet duplicates nothing and, for a Hash tablet, finds room. */
  ghost predicate FitsTable(t: Topology, tablet: TabletDescriptor)
    requires tablet.tableId in t.tables
  {
    && OwnsAnew(t.tablets, tablet)
    && (tablet.partition.Hash? ==>
          && tablet.partition.bucketCount == t.tables[tablet.tableId].tabletCount
          && |TabletsOf(t.tablets, tablet.tableId)| < t.tables[tablet.tableId].tabletCount)
  }

  lemma PartitionAcceptedIff(t: Topology, tablet: TabletDescriptor)
    requires TabletsInv(t.tables, t.tablets) && PartitionIndexInv(t.tablets, t.tabletIdsByPartition)
    requires ValidTablet(tablet) && tablet.tableId in t.tables
    ensures PartitionRejection(t, tablet).None? <==> FitsTable(t, tablet)
  {
    if tablet.partition.Hash? {
      BucketFreeIff(t, tablet);
    } else {
      RangeFreeIff(t, tablet);
    }
  }

  /**
   * A new tablet is accepted exactly when its identities are new, its table exists and, within
   * that table, no key and no bucket would have two owners; a Hash tablet must also agree with the
   * table's tablet count and find the table below it.
   */
  lemma TabletAcceptedIff(t: Topology, tablet: TabletDescriptor)
    requires TopologyInv(t) && ValidTablet(tablet)
    ensures AddTablet(t, tablet).outcome.Applied?
       <==> && tablet.tabletId !in t.tablets
            && (forall k | k in t.tablets :: t.tablets[k].raftGroupId != tablet.raftGroupId)
            && tablet.tableId in t.tables
            && FitsTable(t, tablet)
  {
    GroupFreeIff(t.tablets, t.tabletIdsByRaftGroup, tablet.raftGroupId);
    AppliedIff(t, tablet);
    if tablet.tableId in t.tables {
      PartitionAcceptedIff(t, tablet);
    }
  }

  lemma AppliedIff(t: Topology, tablet: TabletDescriptor)
    ensures AddTablet(t, tablet).outcome.Applied?
       <==> && tablet.tabletId !in t.tablets
            && tablet.raftGroupId !in t.tabletIdsByRaftGroup
            && tablet.tableId in t.tables
            && PartitionRejection(t, tablet).None?
  {
  }

  lemma GroupFreeIff(tablets: map<U64, TabletDescriptor>, byGroup: map<U64, U64>, group: U64)
    requires GroupIndexInv(tablets, byGroup)
    ensures group !in byGroup <==> forall k | k in tablets :: tablets[k].raftGroupId != group
  {
    if group in byGroup {
      assert tablets[byGroup[group]].raftGroupId == group;
    }
  }

  // ---------- the tablet count by pigeonhole ----------

  function Buckets(tablets: map<U64, TabletDescriptor>, ids: set<U64>): (bs: set<U32>)
    requires forall id | id in ids :: id in tablets && tablets[id].partition.Hash?
  {
    set id | id in ids :: tablets[id].partition.bucket
  }

  lemma {:induction false} OneBucketEach(tablets: map<U64, TabletDescriptor>, ids: set<U64>)
    requires forall id | id in ids :: id in tablets && tablets[id].partition.Hash?
    requires forall a, b | a in ids && b in ids && a != b ::
               tablets[a].partition.bucket != tablets[b].partition.bucket
    ensures |Buckets(tablets, ids)| == |ids|
  {
    if ids != {} {
      var id :| id in ids;
      var rest := ids - {id};
      OneBucketEach(tablets, rest);
      assert Buckets(tablets, ids) == Buckets(tablets, rest) + {tablets[id].partition.bucket};
    }
  }

  lemma {:induction false} FewBuckets(bs: set<U32>, n: nat)
    requires forall b | b in bs :: b < n
    ensures |bs| <= n
  {
    if n == 0 {
      if b :| b in bs {
        assert false;
      }
    } else {
      FewBuckets(bs - {n - 1}, n - 1);
    }
  }

  /** Distinct buckets below `n`, with one of them still free, number fewer than `n`. */
  lemma Pigeonhole(tablets: map<U64, TabletDescriptor>, ids: set<U64>, free: U32, n: nat)
    requires forall id | id in ids ::
               id in tablets && tablets[id].partition.Hash? && free != tablets[id].partition.bucket < n
    requires forall a, b | a in ids && b in ids && a != b ::
               tablets[a].partition.bucket != tablets[b].partition.bucket
    requires free < n
    ensures |ids| < n
  {
    OneBucketEach(tablets, ids);
    FewBuckets(Buckets(tablets, ids) + {free}, n);
  }

  lemma FreeBucketMeansRoom(t: Topology, tableId: U64, free: U32)
    requires TabletsInv(t.tables, t.tablets) && PartitionIndexInv(t.tablets, t.tabletIdsByPartition)
    requires tableId in t.tables && free < t.tables[tableId].tabletCount
    requires (tableId, free) !in t.tabletIdsByPartition
    requires forall id | id in TabletsOf(t.tablets, tableId) :: t.tablets[id].partition.Hash?
    ensures |TabletsOf(t.tablets, tableId)| < t.tables[tableId].tabletCount
  {
    var ids, n := TabletsOf(t.tablets, tableId), t.tables[tableId].tabletCount;
    forall id | id in ids ensures free != t.tablets[id].partition.bucket < n {
      BucketInTable(t.tables, t.tablets, id);
      assert BucketOf(t.tablets[id]) in t.tabletIdsByPartition;
    }
    forall a, b | a in ids && b in ids && a != b
      ensures t.tablets[a].partition.bucket != t.tablets[b].partition.bucket
    {
      DistinctBuckets(t.tablets, t.tabletIdsByPartition, a, b);
    }
    Pigeonhole(t.tablets, ids, free, n);
  }

  lemma NoFalseExcess(t: Topology, tablet: TabletDescriptor)
    requires TabletsInv(t.tables, t.tablets) && PartitionIndexInv(t.tablets, t.tabletIdsByPartition)
    requires ValidTablet(tablet) && tablet.tableId in t.tables
    requires forall id | id in TabletsOf(t.tablets, tablet.tableId) :: t.tablets[id].partition.Hash?
    ensures PartitionRejection(t, tablet) != Some(TabletCountExceeded)
  {
    var p := tablet.partition;
    if p.Hash? && (tablet.tableId, p.bucket) !in t.tabletIdsByPartition
       && p.bucketCount == t.tables[tablet.tableId].tabletCount {
      FreeBucketMeansRoom(t, tablet.tableId, p.bucket);
    }
  }

  lemma ExcessComesFromPartition(t: Topology, tablet: TabletDescriptor)
    ensures AddTablet(t, tablet).outcome == Rejected(TabletCountExceeded) ==>
              tablet.tableId in t.tables && PartitionRejection(t, tablet) == Some(TabletCountExceeded)
  {
  }

  /**
   * A tablet of a table whose tablets are all hash tablets is never refused for exceeding the
   * tablet count: every taken bucket is distinct and the requested one is free.
   */
  lemma HashTableHasRoom(t: Topology, tablet: TabletDescriptor)
    requires TopologyInv(t) && ValidTablet(tablet)
    requires forall id | id in TabletsOf(t.tablets, tablet.tableId) :: t.tablets[id].partition.Hash?
    ensures AddTablet(t, tablet).outcome != Rejected(TabletCountExceeded)
  {
    ExcessComesFromPartition(t, tablet);
    if tablet.tableId in t.tables {
      NoFalseExcess(t, tablet);
    }
  }
}
