/** The canonical metadata snapshot: building it, checking it and restoring from it. */
module Snapshot {
  import opened Base
  import opened SortedKeys
  import opened Schema
  import opened MetadataTypes
  import opened Validation
  import opened MetadataSpec

  datatype Deduplication = Deduplication(requestId: RequestId, id: LogicalCommandId, outcome: CachedOutcome)

  datatype Snapshot = Snapshot(
    clusterId: Option<string>,
    nodes: seq<NodeDescriptor>,
    tables: seq<TableSchema>,
    tablets: seq<TabletDescriptor>,
    placements: seq<Placement>,
    retired: seq<Retirement>,
    allocator: Allocator,
    timestampReservedUntil: U64,
    safePoint: U64,
    protections: seq<GcProtection>,
    deduplication: seq<Deduplication>,
    sessions: seq<ClientSession>)

  // ---------- key order of the ordered maps ----------

  function ClientRank(id: U128): int {
    id
  }

  function PairRank(k: (U64, U64)): int {
    k.0 * 0x1_0000_0000_0000_0000 + k.1
  }

  function WidePairRank(k: (U128, U128)): int {
    k.0 * 0x1_0000_0000_0000_0000_0000_0000_0000_0000 + k.1
  }

  function KindRank(k: CommandKind): int {
    match k
    case Read => 1
    case Prewrite => 2
    case Commit => 3
    case Rollback => 4
    case ResolveIntent => 5
    case SingleShardCommit => 6
    case Catalog => 7
    case Noop => 8
  }

  function CommandRank(id: LogicalCommandId): int {
    (((id.clientId * 0x1_0000_0000_0000_0000 + id.sessionEpoch) * 0x1_0000_0000_0000_0000
      + id.requestSequence) * 0x1_0000_0000 + id.ordinal) * 0x10 + KindRank(id.kind)
  }

  /** The ranks order keys exactly as the derived comparisons of the key types do. */
  lemma RanksAreLexicographic(a: (U64, U64), b: (U64, U64), c: (U128, U128), d: (U128, U128))
    ensures PairRank(a) < PairRank(b) <==> a.0 < b.0 || (a.0 == b.0 && a.1 < b.1)
    ensures WidePairRank(c) < WidePairRank(d) <==> c.0 < d.0 || (c.0 == d.0 && c.1 < d.1)
  {
  }

  /** The kinds in the order in which they are declared. */
  lemma KindsAscend()
    ensures KindRank(Read) < KindRank(Prewrite) < KindRank(Commit) < KindRank(Rollback) < KindRank(ResolveIntent)
         < KindRank(SingleShardCommit) < KindRank(Catalog) < KindRank(Noop)
  {
  }

  predicate CommandBefore(a: LogicalCommandId, b: LogicalCommandId) {
    if a.clientId != b.clientId then a.clientId < b.clientId
    else if a.sessionEpoch != b.sessionEpoch then a.sessionEpoch < b.sessionEpoch
    else if a.requestSequence != b.requestSequence then a.requestSequence < b.requestSequence
    else if a.ordinal != b.ordinal then a.ordinal < b.ordinal
    else KindRank(a.kind) < KindRank(b.kind)
  }

  lemma CommandRankIsLexicographic(a: LogicalCommandId, b: LogicalCommandId)
    ensures CommandRank(a) < CommandRank(b) <==> CommandBefore(a, b)
  {
  }

  lemma RanksAreInjective()
    ensures Injective(IdRank) && Injective(ClientRank)
    ensures Injective(PairRank) && Injective(WidePairRank)
  {
  }

  lemma CommandRankIsInjective()
    ensures Injective(CommandRank)
  {
    forall a, b | CommandRank(a) == CommandRank(b) ensures a == b {
      CommandRankIsLexicographic(a, b);
      CommandRankIsLexicographic(b, a);
    }
  }

  // ---------- building ----------

  function RequestIdFor(id: LogicalCommandId): RequestId {
    RequestId(id.clientId, id.requestSequence, METADATA_RAFT_GROUP)
  }

  function CacheEntries(cache: Cache): map<LogicalCommandId, Deduplication> {
    map id | id in cache :: Deduplication(RequestIdFor(id), id, cache[id])
  }

  function ToSnapshot(s: State): Snapshot {
    RanksAreInjective();
    CommandRankIsInjective();
    var t := s.topology;
    Snapshot(s.clusterId, Values(t.nodes, IdRank), Values(t.tables, IdRank), Values(t.tablets, IdRank),
             Values(t.desiredPlacements, IdRank), Values(t.retiredReplicas, PairRank), t.allocator,
             s.timestampReservedUntil, s.gc.safePoint, Values(s.gc.protections, WidePairRank),
             Values(CacheEntries(s.requestDeduplication), CommandRank), Values(s.clientSessions, ClientRank))
  }

  // ---------- checking ----------

  predicate ValidProtection(safePoint: U64, p: GcProtection) {
    ValidGcIdentity(p.ownerId, p.protectionId) && p.timestamp != 0 && p.deadlineMs != 0 && safePoint <= p.timestamp
  }

  predicate ValidSession(s: ClientSession) {
    s.clientId != 0 && s.epoch != 0 && s.firstRetained != 0 && s.acknowledgedThrough < s.firstRetained
  }

  /** The displayed text of a rejection is never blank, so a cached rejection always passes. */
  predicate ValidCached(o: CachedOutcome) {
    match o
    case CachedClientRegistered(clientId, epoch) => clientId != 0 && epoch != 0
    case CachedTableCreated(tableId, tabletId, group) =>
      INITIAL_TABLE_MARK < tableId && INITIAL_TABLET_MARK < tabletId
      && group != 0 && group != LEGACY_RAFT_GROUP && group != METADATA_RAFT_GROUP
    case CachedTimestampsReserved(from, until) => from != 0 && from <= until
    case CachedReservationRegressed(current, received) => current != 0 && received != 0
    case _ => true
  }

  predicate ValidDeduplication(d: Deduplication) {
    && d.requestId.clientId != 0
    && d.requestId.sequence != 0
    && d.requestId.raftGroupId == METADATA_RAFT_GROUP
    && ValidCached(d.outcome)
  }

  predicate BlankSnapshot(n: Snapshot) {
    && n.nodes == [] && n.tables == [] && n.tablets == [] && n.placements == [] && n.retired == []
    && n.sessions == [] && n.deduplication == [] && n.timestampReservedUntil == 0 && n.safePoint == 0
    && n.protections == []
  }

  predicate EntriesAreValid(n: Snapshot) {
    && (forall i | 0 <= i < |n.nodes| :: ValidNode(n.nodes[i]))
    && (forall i | 0 <= i < |n.tables| :: ValidTableShape(n.tables[i]))
    && (forall i | 0 <= i < |n.tablets| :: ValidTablet(n.tablets[i]))
    && (forall i | 0 <= i < |n.placements| :: ValidPlacement(n.placements[i]))
    && (forall i | 0 <= i < |n.retired| :: ValidRetirement(n.retired[i]))
    && (forall i | 0 <= i < |n.deduplication| :: ValidDeduplication(n.deduplication[i]))
    && (forall i | 0 <= i < |n.sessions| :: ValidSession(n.sessions[i]))
    && (forall i | 0 <= i < |n.protections| :: ValidProtection(n.safePoint, n.protections[i]))
  }

  /** The table, tablet and group marks are at or above the floor and every such identity. */
  predicate CatalogMarksDominate(n: Snapshot) {
    && INITIAL_TABLE_MARK <= n.allocator.maxTableId
    && INITIAL_TABLET_MARK <= n.allocator.maxTabletId
    && INITIAL_RAFT_GROUP_MARK <= n.allocator.maxRaftGroupId
    && (forall i | 0 <= i < |n.tables| :: n.tables[i].id <= n.allocator.maxTableId)
    && (forall i | 0 <= i < |n.tablets| ::
          && n.tablets[i].tabletId <= n.allocator.maxTabletId
          && n.tablets[i].raftGroupId <= n.allocator.maxRaftGroupId)
    && (forall i | 0 <= i < |n.retired| :: n.retired[i].raftGroupId <= n.allocator.maxRaftGroupId)
  }

  predicate PlacementsCovered(ps: seq<Placement>, mark: U64) {
    forall i | 0 <= i < |ps| :: MaxReplica(ps[i].replicas) <= mark
  }

  predicate RetiredCovered(rs: seq<Retirement>, mark: U64) {
    forall i | 0 <= i < |rs| :: rs[i].replicaId <= mark
  }

  predicate ReplicaMarkCovers(n: Snapshot) {
    PlacementsCovered(n.placements, n.allocator.maxReplicaId) && RetiredCovered(n.retired, n.allocator.maxReplicaId)
  }

  /** Consecutive keys strictly ascend. */
  predicate Canonical(n: Snapshot) {
    && (forall i | 0 <= i < |n.nodes| - 1 :: n.nodes[i].nodeId < n.nodes[i + 1].nodeId)
    && (forall i | 0 <= i < |n.tables| - 1 :: n.tables[i].id < n.tables[i + 1].id)
    && (forall i | 0 <= i < |n.tablets| - 1 :: n.tablets[i].tabletId < n.tablets[i + 1].tabletId)
    && (forall i | 0 <= i < |n.placements| - 1 :: n.placements[i].tabletId < n.placements[i + 1].tabletId)
    && (forall i | 0 <= i < |n.retired| - 1 :: RetirementRank(n.retired[i]) < RetirementRank(n.retired[i + 1]))
    && (forall i | 0 <= i < |n.deduplication| - 1 ::
          CommandRank(n.deduplication[i].id) < CommandRank(n.deduplication[i + 1].id))
    && (forall i | 0 <= i < |n.sessions| - 1 :: n.sessions[i].clientId < n.sessions[i + 1].clientId)
    && (forall i | 0 <= i < |n.protections| - 1 ::
          ProtectionRank(n.protections[i]) < ProtectionRank(n.protections[i + 1]))
  }

  function RetirementRank(r: Retirement): int {
    PairRank((r.raftGroupId, r.replicaId))
  }

  function ProtectionRank(p: GcProtection): int {
    WidePairRank((p.ownerId, p.protectionId))
  }

  predicate ValidSnapshot(n: Snapshot) {
    && (if n.clusterId.Some? then !IsBlank(n.clusterId.value) else BlankSnapshot(n))
    && EntriesAreValid(n)
    && CatalogMarksDominate(n)
    && ReplicaMarkCovers(n)
    && Canonical(n)
  }

  // ---------- restoring ----------

  /** Re-run one command; a rejection means the snapshot is corrupt. */
  function Replay(s: State, c: Command): Option<State> {
    var step := Apply(s, c);
    if step.outcome.Rejected? then None else Some(step.state)
  }

  const LATER_LIFECYCLES: seq<Lifecycle> := [Draining, Decommissioning, Decommissioned, Tombstoned]

  /** Apply the later lifecycles from position `i` on, as far as the target. */
  function Walk(s: State, nodeId: U64, target: Lifecycle, i: nat): Option<State>
    requires i <= 4
    decreases 4 - i
  {
    if i == 4 then Some(s)
    else if LifecycleRank(LATER_LIFECYCLES[i]) > LifecycleRank(target) then Walk(s, nodeId, target, i + 1)
    else
      match Replay(s, SetNodeLifecycle(nodeId, LATER_LIFECYCLES[i]))
      case None => None
      case Some(t) => Walk(t, nodeId, target, i + 1)
  }

  /** Register the node as Active, then walk it to its lifecycle. */
  function RestoreNode(s: State, n: NodeDescriptor): Option<State> {
    match Replay(s, RegisterNode(n.(lifecycle := Active)))
    case None => None
    case Some(t) => Walk(t, n.nodeId, n.lifecycle, 0)
  }

  function RestoreNodes(s: State, ns: seq<NodeDescriptor>): Option<State>
    decreases |ns|
  {
    if ns == [] then Some(s)
    else
      match RestoreNode(s, ns[0])
      case None => None
      case Some(t) => RestoreNodes(t, ns[1..])
  }

  function RestoreTables(s: State, ts: seq<TableSchema>): Option<State>
    decreases |ts|
  {
    if ts == [] then Some(s)
    else
      match Replay(s, CreateTable(ts[0]))
      case None => None
      case Some(t) => RestoreTables(t, ts[1..])
  }

  function RestoreTablets(s: State, ts: seq<TabletDescriptor>): Option<State>
    decreases |ts|
  {
    if ts == [] then Some(s)
    else
      match Replay(s, CreateTablet(ts[0]))
      case None => None
      case Some(t) => RestoreTablets(t, ts[1..])
  }

  /** The placement refers to a known tablet and known nodes and reuses no retired replica. */
  predicate RestorablePlacement(t: Topology, p: Placement) {
    && p.tabletId in t.tablets
    && (forall r | r in p.replicas ::
          && r.nodeId in t.nodes
          && (t.tablets[p.tabletId].raftGroupId, r.replicaId) !in t.retiredReplicas)
  }

  function RestorePlacements(t: Topology, m: map<U64, Placement>, ps: seq<Placement>): Option<map<U64, Placement>>
    decreases |ps|
  {
    if ps == [] then Some(m)
    else if !RestorablePlacement(t, ps[0]) then None
    else RestorePlacements(t, m[ps[0].tabletId := ps[0]], ps[1..])
  }

  predicate RestorableRetirement(t: Topology, placements: map<U64, Placement>, r: Retirement) {
    && r.raftGroupId in t.tabletIdsByRaftGroup
    && !Desires(placements, t.tabletIdsByRaftGroup[r.raftGroupId], r.replicaId)
  }

  function RestoreRetired(t: Topology, placements: map<U64, Placement>, m: Retirements, rs: seq<Retirement>)
    : Option<Retirements>
    decreases |rs|
  {
    if rs == [] then Some(m)
    else if !RestorableRetirement(t, placements, rs[0]) then None
    else RestoreRetired(t, placements, m[(rs[0].raftGroupId, rs[0].replicaId) := rs[0]], rs[1..])
  }

  /** Collect into a map; a later entry replaces an earlier one with the same key. */
  function RestoreProtections(m: Protections, ps: seq<GcProtection>): Protections
    decreases |ps|
  {
    if ps == [] then m
    else RestoreProtections(m[(ps[0].ownerId, ps[0].protectionId) := ps[0]], ps[1..])
  }

  /** A cached CREATE TABLE result must name a table and the tablet and group created with it. */
  predicate RestorableOutcome(t: Topology, o: CachedOutcome) {
    o.CachedTableCreated? ==>
      && o.tableId in t.tables
      && o.tabletId in t.tablets
      && t.tablets[o.tabletId].tableId == o.tableId
      && t.tablets[o.tabletId].raftGroupId == o.raftGroupId
  }

  function RestoreCache(t: Topology, m: Cache, ds: seq<Deduplication>): Option<Cache>
    decreases |ds|
  {
    if ds == [] then Some(m)
    else if !RestorableOutcome(t, ds[0].outcome) then None
    else RestoreCache(t, m[ds[0].id := ds[0].outcome], ds[1..])
  }

  function RestoreSessions(m: Sessions, ss: seq<ClientSession>): Option<Sessions>
    decreases |ss|
  {
    if ss == [] then Some(m)
    else if ss[0].clientId in m then None
    else RestoreSessions(m[ss[0].clientId := ss[0]], ss[1..])
  }

  function RestoreSchemas(s: State, n: Snapshot): Option<State> {
    match RestoreTables(s, n.tables)
    case None => None
    case Some(t) => RestoreTablets(t, n.tablets)
  }

  function RestoreContents(s: State, n: Snapshot): Option<State> {
    match RestoreNodes(s, n.nodes)
    case None => None
    case Some(t) => RestoreSchemas(t, n)
  }

  /** Nodes, tables and tablets, through the state machine's own commands. */
  function RestoreCatalog(n: Snapshot): Option<State>
    requires n.clusterId.Some?
  {
    match Replay(Init(), ClusterInitialized(n.clusterId.value))
    case None => None
    case Some(s) => RestoreContents(s, n)
  }

  function RestoreReplicas(t: Topology, n: Snapshot): Option<(map<U64, Placement>, Retirements)> {
    match RestorePlacements(t, t.desiredPlacements, n.placements)
    case None => None
    case Some(placements) =>
      match RestoreRetired(t, placements, t.retiredReplicas, n.retired)
      case None => None
      case Some(retired) => Some((placements, retired))
  }

  function RestoreClients(s: State, n: Snapshot): Option<(Cache, Sessions)> {
    match RestoreCache(s.topology, s.requestDeduplication, n.deduplication)
    case None => None
    case Some(cache) =>
      match RestoreSessions(s.clientSessions, n.sessions)
      case None => None
      case Some(sessions) => Some((cache, sessions))
  }

  /** Everything else, on top of the restored catalog; the marks come from the snapshot. */
  function RestoreRest(s: State, n: Snapshot): Option<State> {
    match RestoreReplicas(s.topology, n)
    case None => None
    case Some((placements, retired)) =>
      match RestoreClients(s, n)
      case None => None
      case Some((cache, sessions)) =>
        Some(State(s.clusterId, n.timestampReservedUntil,
                   Gc(n.safePoint, RestoreProtections(map[], n.protections)),
                   s.topology.(allocator := n.allocator, desiredPlacements := placements,
                               retiredReplicas := retired),
                   cache, sessions))
  }

  /** An uninitialized cluster has nothing but its marks. */
  function RestoreBlank(n: Snapshot): State {
    Init().(timestampReservedUntil := n.timestampReservedUntil,
            gc := Gc(n.safePoint, RestoreProtections(map[], n.protections)),
            topology := EMPTY_TOPOLOGY.(allocator := n.allocator))
  }

  function Restore(n: Snapshot): Option<State> {
    if !ValidSnapshot(n) then None
    else if n.clusterId.None? then Some(RestoreBlank(n))
    else
      match RestoreCatalog(n)
      case None => None
      case Some(s) => RestoreRest(s, n)
  }
}
