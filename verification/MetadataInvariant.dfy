/** The inductive invariant of the metadata state machine. */
module MetadataInvariant {
  import opened Base
  import opened Schema
  import opened MetadataTypes
  import opened Validation
  import opened InitialPlacement
  import opened MetadataSpec

  ghost predicate DisjointEndpoints(a: NodeDescriptor, b: NodeDescriptor) {
    forall e | e in Endpoints(a) :: e !in Endpoints(b)
  }

  ghost predicate NodesInv(nodes: Directory) {
    && (forall k | k in nodes :: nodes[k].nodeId == k && ValidNode(nodes[k]))
    && (forall a, b | a in nodes && b in nodes && a != b :: DisjointEndpoints(nodes[a], nodes[b]))
  }

  /** Stored schemas are valid under their own identity, and names index them exactly. */
  ghost predicate TablesInv(tables: map<U64, TableSchema>, byName: map<string, U64>) {
    && (forall k | k in tables :: tables[k].id == k && ValidSchema(tables[k]))
    && (forall k | k in tables :: tables[k].name in byName && byName[tables[k].name] == k)
    && (forall n | n in byName :: byName[n] in tables && tables[byName[n]].name == n)
  }

  ghost predicate TabletInv(tables: map<U64, TableSchema>, k: U64, t: TabletDescriptor) {
    && t.tabletId == k
    && ValidTablet(t)
    && t.tableId in tables
    && (t.partition.Hash? ==> t.partition.bucketCount == tables[t.tableId].tabletCount)
  }

  ghost predicate TabletsInv(tables: map<U64, TableSchema>, tablets: map<U64, TabletDescriptor>) {
    && (forall k | k in tablets :: TabletInv(tables, k, tablets[k]))
    && (forall a, b | a in tablets && b in tablets && a != b ::
          !OverlappingTablets(tablets[a], tablets[b]))
  }

  ghost predicate GroupIndexInv(tablets: map<U64, TabletDescriptor>, byGroup: map<U64, U64>) {
    && (forall k | k in tablets :: tablets[k].raftGroupId in byGroup && byGroup[tablets[k].raftGroupId] == k)
    && (forall g | g in byGroup :: byGroup[g] in tablets && tablets[byGroup[g]].raftGroupId == g)
  }

  /** The bucket a Hash tablet owns, as the partition index keys it. */
  function BucketOf(t: TabletDescriptor): (U64, U32)
    requires t.partition.Hash?
  {
    (t.tableId, t.partition.bucket)
  }

  ghost predicate PartitionIndexInv(tablets: map<U64, TabletDescriptor>, byPartition: map<(U64, U32), U64>) {
    && (forall k | k in tablets && tablets[k].partition.Hash? ::
          BucketOf(tablets[k]) in byPartition && byPartition[BucketOf(tablets[k])] == k)
    && (forall b | b in byPartition ::
          && byPartition[b] in tablets
          && tablets[byPartition[b]].partition.Hash?
          && BucketOf(tablets[byPartition[b]]) == b)
  }

  ghost predicate MarksInv(a: Allocator, tables: map<U64, TableSchema>, tablets: map<U64, TabletDescriptor>) {
    && INITIAL_TABLE_MARK <= a.maxTableId
    && INITIAL_TABLET_MARK <= a.maxTabletId
    && INITIAL_RAFT_GROUP_MARK <= a.maxRaftGroupId
    && (forall k | k in tables :: k <= a.maxTableId)
    && (forall k | k in tablets :: k <= a.maxTabletId && tablets[k].raftGroupId <= a.maxRaftGroupId)
  }

  /** The host exists, can still serve, and has the storage class the policy asks for. */
  ghost predicate GoodHost(nodes: Directory, policy: PlacementPolicy, nodeId: U64) {
    && nodeId in nodes
    && !Terminal(nodes[nodeId].lifecycle)
    && (policy.storageClass.Some? ==> nodes[nodeId].storageClass == policy.storageClass.value)
  }

  ghost predicate Satisfied(nodes: Directory, p: Placement) {
    && (forall r | r in p.replicas :: GoodHost(nodes, p.policy, r.nodeId))
    && (forall d: Domain :: MinimumOf(p.policy, d) <= |Labels(nodes, Hosts(p.replicas), d)|)
  }

  ghost predicate PlacementsInv(nodes: Directory, tablets: map<U64, TabletDescriptor>,
                                placements: map<U64, Placement>) {
    forall k | k in placements ::
      && k in tablets
      && placements[k].tabletId == k
      && ValidPlacement(placements[k])
      && Satisfied(nodes, placements[k])
  }

  ghost predicate RetiredInv(byGroup: map<U64, U64>, placements: map<U64, Placement>,
                             retired: map<(U64, U64), Retirement>) {
    forall k | k in retired ::
      && (retired[k].raftGroupId, retired[k].replicaId) == k
      && ValidRetirement(retired[k])
      && k.0 in byGroup
      && !Desires(placements, byGroup[k.0], k.1)
  }

  ghost predicate ProtectionInv(safePoint: U64, k: (U128, U128), p: GcProtection) {
    && (p.ownerId, p.protectionId) == k
    && ValidGcIdentity(p.ownerId, p.protectionId)
    && p.timestamp != 0
    && p.deadlineMs != 0
    && safePoint <= p.timestamp
  }

  ghost predicate GcInv(g: Gc) {
    forall k | k in g.protections :: ProtectionInv(g.safePoint, k, g.protections[k])
  }

  ghost predicate SessionsInv(sessions: Sessions) {
    forall k | k in sessions ::
      && sessions[k].clientId == k
      && k != 0
      && sessions[k].epoch != 0
      && sessions[k].firstRetained == sessions[k].acknowledgedThrough + 1
  }

  ghost predicate CreatedInv(tables: map<U64, TableSchema>, tablets: map<U64, TabletDescriptor>,
                             tableId: U64, tabletId: U64, group: U64) {
    && INITIAL_TABLE_MARK < tableId
    && INITIAL_TABLET_MARK < tabletId
    && INITIAL_RAFT_GROUP_MARK < group
    && tableId in tables
    && tabletId in tablets
    && tablets[tabletId].tableId == tableId
    && tablets[tabletId].raftGroupId == group
  }

  ghost predicate CachedInv(tables: map<U64, TableSchema>, tablets: map<U64, TabletDescriptor>,
                            c: CachedOutcome) {
    match c
    case CachedClientRegistered(clientId, epoch) => clientId != 0 && epoch != 0
    case CachedTableCreated(tableId, tabletId, group) => CreatedInv(tables, tablets, tableId, tabletId, group)
    case CachedTimestampsReserved(from, until) => from != 0 && from <= until
    case CachedReservationRegressed(current, received) => current != 0 && received != 0
    case _ => true
  }

  ghost predicate CacheInv(tables: map<U64, TableSchema>, tablets: map<U64, TabletDescriptor>,
                           cache: Cache) {
    forall id | id in cache :: CachedInv(tables, tablets, cache[id])
  }

  /** The whole topology. Written as an equation so that the verifier carries it as one fact. */
  ghost predicate TopologyInv(t: Topology) {
    true == (
      && NodesInv(t.nodes)
      && TablesInv(t.tables, t.tableIdsByName)
      && TabletsInv(t.tables, t.tablets)
      && GroupIndexInv(t.tablets, t.tabletIdsByRaftGroup)
      && PartitionIndexInv(t.tablets, t.tabletIdsByPartition)
      && MarksInv(t.allocator, t.tables, t.tablets)
      && PlacementsInv(t.nodes, t.tablets, t.desiredPlacements)
      && RetiredInv(t.tabletIdsByRaftGroup, t.desiredPlacements, t.retiredReplicas))
  }

  /** Before initialization only the retry cache can differ from the initial state. */
  ghost predicate BlankUntilInitialized(s: State) {
    && (s.clusterId.None? ==> s == Init().(requestDeduplication := s.requestDeduplication))
    && (s.clusterId.Some? ==> !IsBlank(s.clusterId.value))
  }

  ghost predicate Inv(s: State) {
    && BlankUntilInitialized(s)
    && TopologyInv(s.topology)
    && GcInv(s.gc)
    && SessionsInv(s.clientSessions)
    && CacheInv(s.topology.tables, s.topology.tablets, s.requestDeduplication)
  }
}
