/** When the snapshot of a state passes its own validation. */
module SnapshotValidity {
  import opened Base
  import opened SortedKeys
  import opened Schema
  import opened MetadataTypes
  import opened Validation
  import opened InitialPlacement
  import opened MetadataSpec
  import opened MetadataInvariant
  import opened Snapshot

  /** Every cached identity can be written as a request identity. */
  predicate UsableIds(cache: Cache) {
    forall id | id in cache :: id.clientId != 0 && id.requestSequence != 0
  }

  predicate PlacementsBelow(m: map<U64, Placement>, mark: U64) {
    forall k | k in m :: MaxReplica(m[k].replicas) <= mark
  }

  predicate RetiredBelow(m: map<(U64, U64), Retirement>, mark: U64) {
    forall k | k in m :: k.1 <= mark
  }

  /** The replica mark is at or above every desired and retired replica identity. */
  predicate ReplicaMarkDominates(t: Topology) {
    PlacementsBelow(t.desiredPlacements, t.allocator.maxReplicaId) && RetiredBelow(t.retiredReplicas, t.allocator.maxReplicaId)
  }

  lemma NodesListed(nodes: Directory)
    requires NodesInv(nodes) && Injective(IdRank)
    ensures var vs := Values(nodes, IdRank);
            && (forall i | 0 <= i < |vs| :: ValidNode(vs[i]))
            && (forall i | 0 <= i < |vs| - 1 :: vs[i].nodeId < vs[i + 1].nodeId)
  {
    ValuesAre(nodes, IdRank, ValidNode);
    ValuesAscend(nodes, IdRank, (n: NodeDescriptor) => n.nodeId);
  }

  lemma TablesListed(tables: map<U64, TableSchema>, byName: map<string, U64>)
    requires TablesInv(tables, byName) && Injective(IdRank)
    ensures var vs := Values(tables, IdRank);
            && (forall i | 0 <= i < |vs| :: ValidTableShape(vs[i]))
            && (forall i | 0 <= i < |vs| - 1 :: vs[i].id < vs[i + 1].id)
  {
    ValuesAre(tables, IdRank, ValidTableShape);
    ValuesAscend(tables, IdRank, (t: TableSchema) => t.id);
  }

  lemma TabletsListed(tables: map<U64, TableSchema>, tablets: map<U64, TabletDescriptor>)
    requires TabletsInv(tables, tablets) && Injective(IdRank)
    ensures var vs := Values(tablets, IdRank);
            && (forall i | 0 <= i < |vs| :: ValidTablet(vs[i]))
            && (forall i | 0 <= i < |vs| - 1 :: vs[i].tabletId < vs[i + 1].tabletId)
  {
    assert forall k | k in tablets :: TabletInv(tables, k, tablets[k]);
    ValuesAre(tablets, IdRank, ValidTablet);
    ValuesAscend(tablets, IdRank, (t: TabletDescriptor) => t.tabletId);
  }

  lemma PlacementsListed(nodes: Directory, tablets: map<U64, TabletDescriptor>, placements: map<U64, Placement>)
    requires PlacementsInv(nodes, tablets, placements) && Injective(IdRank)
    ensures var vs := Values(placements, IdRank);
            && (forall i | 0 <= i < |vs| :: ValidPlacement(vs[i]))
            && (forall i | 0 <= i < |vs| - 1 :: vs[i].tabletId < vs[i + 1].tabletId)
  {
    ValuesAre(placements, IdRank, ValidPlacement);
    ValuesAscend(placements, IdRank, (p: Placement) => p.tabletId);
  }

  lemma RetiredListed(byGroup: map<U64, U64>, placements: map<U64, Placement>, retired: map<(U64, U64), Retirement>)
    requires RetiredInv(byGroup, placements, retired) && Injective(PairRank)
    ensures var vs := Values(retired, PairRank);
            && (forall i | 0 <= i < |vs| :: ValidRetirement(vs[i]))
            && (forall i | 0 <= i < |vs| - 1 :: RetirementRank(vs[i]) < RetirementRank(vs[i + 1]))
  {
    ValuesAre(retired, PairRank, ValidRetirement);
    ValuesAscend(retired, PairRank, RetirementRank);
  }

  lemma ProtectionsListed(g: Gc)
    requires GcInv(g) && Injective(WidePairRank)
    ensures var vs := Values(g.protections, WidePairRank);
            && (forall i | 0 <= i < |vs| :: ValidProtection(g.safePoint, vs[i]))
            && (forall i | 0 <= i < |vs| - 1 :: ProtectionRank(vs[i]) < ProtectionRank(vs[i + 1]))
  {
    forall k | k in g.protections
      ensures ValidProtection(g.safePoint, g.protections[k]) && ProtectionRank(g.protections[k]) == WidePairRank(k)
    {
      assert ProtectionInv(g.safePoint, k, g.protections[k]);
    }
    ValuesAre(g.protections, WidePairRank, (p: GcProtection) => ValidProtection(g.safePoint, p));
    ValuesAscend(g.protections, WidePairRank, ProtectionRank);
  }

  lemma SessionsListed(m: Sessions)
    requires SessionsInv(m) && Injective(ClientRank)
    ensures var vs := Values(m, ClientRank);
            && (forall i | 0 <= i < |vs| :: ValidSession(vs[i]))
            && (forall i | 0 <= i < |vs| - 1 :: vs[i].clientId < vs[i + 1].clientId)
  {
    ValuesAre(m, ClientRank, ValidSession);
    ValuesAscend(m, ClientRank, (c: ClientSession) => c.clientId);
  }

  lemma CacheListed(tables: map<U64, TableSchema>, tablets: map<U64, TabletDescriptor>, cache: Cache)
    requires CacheInv(tables, tablets, cache) && Injective(CommandRank)
    ensures var ds := Values(CacheEntries(cache), CommandRank);
            && ((forall i | 0 <= i < |ds| :: ValidDeduplication(ds[i])) <==> UsableIds(cache))
            && (forall i | 0 <= i < |ds| - 1 :: CommandRank(ds[i].id) < CommandRank(ds[i + 1].id))
  {
    var es := CacheEntries(cache);
    assert (forall id | id in es :: ValidDeduplication(es[id])) <==> UsableIds(cache) by {
      forall id | id in cache
        ensures ValidDeduplication(es[id]) <==> id.clientId != 0 && id.requestSequence != 0
      {
        assert CachedInv(tables, tablets, cache[id]);
      }
    }
    ValuesAre(es, CommandRank, ValidDeduplication);
    ValuesAscend(es, CommandRank, (d: Deduplication) => CommandRank(d.id));
  }

  lemma TableMarksListed(a: Allocator, tables: map<U64, TableSchema>, byName: map<string, U64>)
    requires TablesInv(tables, byName) && Injective(IdRank) && forall k | k in tables :: k <= a.maxTableId
    ensures var vs := Values(tables, IdRank); forall i | 0 <= i < |vs| :: vs[i].id <= a.maxTableId
  {
    ValuesAre(tables, IdRank, (t: TableSchema) => t.id <= a.maxTableId);
  }

  predicate TabletUnder(a: Allocator, t: TabletDescriptor) {
    t.tabletId <= a.maxTabletId && t.raftGroupId <= a.maxRaftGroupId
  }

  lemma TabletMarksListed(a: Allocator, tables: map<U64, TableSchema>, tablets: map<U64, TabletDescriptor>)
    requires TabletsInv(tables, tablets) && Injective(IdRank) && MarksInv(a, tables, tablets)
    ensures var vs := Values(tablets, IdRank); forall i | 0 <= i < |vs| :: TabletUnder(a, vs[i])
  {
    forall k | k in tablets ensures TabletUnder(a, tablets[k]) {
      assert TabletInv(tables, k, tablets[k]);
    }
    ValuesAre(tablets, IdRank, t => TabletUnder(a, t));
  }

  lemma RetiredGroupsListed(t: Topology)
    requires TopologyInv(t) && Injective(PairRank)
    ensures var vs := Values(t.retiredReplicas, PairRank);
            forall i | 0 <= i < |vs| :: vs[i].raftGroupId <= t.allocator.maxRaftGroupId
  {
    ValuesAre(t.retiredReplicas, PairRank, (r: Retirement) => r.raftGroupId <= t.allocator.maxRaftGroupId);
  }

  lemma CatalogMarksListed(s: State)
    requires TopologyInv(s.topology)
    ensures CatalogMarksDominate(ToSnapshot(s))
  {
    RanksAreInjective();
    var t := s.topology;
    TableMarksListed(t.allocator, t.tables, t.tableIdsByName);
    TabletMarksListed(t.allocator, t.tables, t.tablets);
    RetiredGroupsListed(t);
  }

  lemma PlacementMarksListed(m: map<U64, Placement>, mark: U64)
    requires Injective(IdRank)
    ensures PlacementsCovered(Values(m, IdRank), mark) <==> PlacementsBelow(m, mark)
  {
    ValuesAre(m, IdRank, (p: Placement) => MaxReplica(p.replicas) <= mark);
  }

  lemma RetiredMarksListed(m: map<(U64, U64), Retirement>, mark: U64)
    requires Injective(PairRank) && forall k | k in m :: m[k].replicaId == k.1
    ensures RetiredCovered(Values(m, PairRank), mark) <==> RetiredBelow(m, mark)
  {
    ValuesAre(m, PairRank, (r: Retirement) => r.replicaId <= mark);
    assert RetiredBelow(m, mark) <==> forall k | k in m :: m[k].replicaId <= mark;
  }

  lemma ReplicaMarkListed(s: State)
    requires RetiredInv(s.topology.tabletIdsByRaftGroup, s.topology.desiredPlacements, s.topology.retiredReplicas)
    ensures ReplicaMarkCovers(ToSnapshot(s)) <==> ReplicaMarkDominates(s.topology)
  {
    RanksAreInjective();
    PlacementMarksListed(s.topology.desiredPlacements, s.topology.allocator.maxReplicaId);
    RetiredMarksListed(s.topology.retiredReplicas, s.topology.allocator.maxReplicaId);
  }

  lemma OrderListed(s: State)
    requires Inv(s)
    ensures Canonical(ToSnapshot(s))
  {
    RanksAreInjective();
    CommandRankIsInjective();
    var t := s.topology;
    NodesListed(t.nodes);
    TablesListed(t.tables, t.tableIdsByName);
    TabletsListed(t.tables, t.tablets);
    PlacementsListed(t.nodes, t.tablets, t.desiredPlacements);
    RetiredListed(t.tabletIdsByRaftGroup, t.desiredPlacements, t.retiredReplicas);
    ProtectionsListed(s.gc);
    SessionsListed(s.clientSessions);
    CacheListed(t.tables, t.tablets, s.requestDeduplication);
  }

  lemma EntriesListed(s: State)
    requires Inv(s)
    ensures EntriesAreValid(ToSnapshot(s)) <==> UsableIds(s.requestDeduplication)
  {
    RanksAreInjective();
    CommandRankIsInjective();
    var t := s.topology;
    NodesListed(t.nodes);
    TablesListed(t.tables, t.tableIdsByName);
    TabletsListed(t.tables, t.tablets);
    PlacementsListed(t.nodes, t.tablets, t.desiredPlacements);
    RetiredListed(t.tabletIdsByRaftGroup, t.desiredPlacements, t.retiredReplicas);
    ProtectionsListed(s.gc);
    SessionsListed(s.clientSessions);
    CacheListed(t.tables, t.tablets, s.requestDeduplication);
  }

  lemma BlankListed(s: State)
    requires Inv(s) && s.clusterId.None?
    ensures BlankSnapshot(ToSnapshot(s)) <==> s.requestDeduplication == map[]
  {
    var es := CacheEntries(s.requestDeduplication);
    assert es.Keys == s.requestDeduplication.Keys;
  }

  /** What a state must satisfy for its snapshot to be accepted at all. */
  predicate Snapshotable(s: State) {
    && (s.clusterId.None? ==> s.requestDeduplication == map[])
    && UsableIds(s.requestDeduplication)
    && ReplicaMarkDominates(s.topology)
  }

  lemma ValidIff(s: State)
    requires Inv(s)
    ensures ValidSnapshot(ToSnapshot(s)) <==> Snapshotable(s)
  {
    CatalogMarksListed(s);
    ReplicaMarkListed(s);
    OrderListed(s);
    EntriesListed(s);
    if s.clusterId.None? {
      BlankListed(s);
    }
  }
}
