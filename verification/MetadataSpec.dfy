/** The metadata state machine as a function from state and command to state and outcome. */
module MetadataSpec {
  import opened Base
  import opened SortedKeys
  import opened ByteOrder
  import opened Schema
  import opened MetadataTypes
  import opened Validation
  import opened InitialPlacement

  const INITIAL_TABLET_COUNT: U32 := 1

  datatype Allocator = Allocator(
    maxTableId: U64,
    maxTabletId: U64,
    maxRaftGroupId: U64,
    maxReplicaId: U64)

  /** Desired topology and SQL catalog: the directory, tables, tablets and placements. */
  datatype Topology = Topology(
    allocator: Allocator,
    nodes: Directory,
    tables: map<U64, TableSchema>,
    tableIdsByName: map<string, U64>,
    tablets: map<U64, TabletDescriptor>,
    tabletIdsByRaftGroup: map<U64, U64>,
    tabletIdsByPartition: map<(U64, U32), U64>,
    desiredPlacements: map<U64, Placement>,
    retiredReplicas: map<(U64, U64), Retirement>)

  type Protections = map<(U128, U128), GcProtection>
  type Sessions = map<U128, ClientSession>
  type Cache = map<LogicalCommandId, CachedOutcome>

  /** The MVCC history floor and the leases that hold it back. */
  datatype Gc = Gc(safePoint: U64, protections: Protections)

  datatype State = State(
    clusterId: Option<string>,
    timestampReservedUntil: U64,
    gc: Gc,
    topology: Topology,
    requestDeduplication: Cache,
    clientSessions: Sessions)

  datatype Step = Step(state: State, outcome: Outcome)
  datatype GcStep = GcStep(gc: Gc, outcome: Outcome)
  datatype SessionStep = SessionStep(sessions: Sessions, outcome: Outcome)
  datatype TopologyStep = TopologyStep(topology: Topology, outcome: Outcome)

  const INITIAL_ALLOCATOR: Allocator :=
    Allocator(INITIAL_TABLE_MARK, INITIAL_TABLET_MARK, INITIAL_RAFT_GROUP_MARK, 0)

  const EMPTY_TOPOLOGY: Topology :=
    Topology(INITIAL_ALLOCATOR, map[], map[], map[], map[], map[], map[], map[], map[])

  function Init(): State {
    State(None, 0, Gc(0, map[]), EMPTY_TOPOLOGY, map[], map[])
  }

  function Reject(s: State, cause: Cause): Step {
    Step(s, Rejected(cause))
  }

  function RejectTopology(t: Topology, cause: Cause): TopologyStep {
    TopologyStep(t, Rejected(cause))
  }

  // ---------- cluster and timestamps ----------

  function InitializeCluster(s: State, clusterId: string): Step {
    match s.clusterId
    case None => Step(s.(clusterId := Some(clusterId)), Applied)
    case Some(existing) =>
      if existing == clusterId then Step(s, AlreadyApplied) else Reject(s, ClusterConflict)
  }

  function ReserveUntil(s: State, until: U64): Step {
    if until <= s.timestampReservedUntil then
      Step(s, ReservationRegressed(s.timestampReservedUntil, until))
    else
      Step(s.(timestampReservedUntil := until),
           TimestampsReserved(s.timestampReservedUntil + 1, until))
  }

  // ---------- garbage collection ----------

  function AddProtection(g: Gc, p: GcProtection): GcStep {
    var key := (p.ownerId, p.protectionId);
    if p.timestamp < g.safePoint then GcStep(g, Rejected(GcProtectionBelowSafePoint))
    else if key in g.protections then
      if g.protections[key].timestamp != p.timestamp then
        GcStep(g, Rejected(GcProtectionIdentityConflict))
      else
        GcStep(g, Rejected(GcProtectionRegistrationConflict))
    else
      GcStep(g.(protections := g.protections[key := p]), Applied)
  }

  function ReplaceProtection(g: Gc, p: GcProtection, nowMs: U64): GcStep {
    var key := (p.ownerId, p.protectionId);
    if p.timestamp < g.safePoint then GcStep(g, Rejected(GcProtectionBelowSafePoint))
    else if key !in g.protections then GcStep(g, Rejected(UnknownGcProtection))
    else
      var existing := g.protections[key];
      if existing.deadlineMs <= nowMs then GcStep(g, Rejected(ExpiredGcProtection))
      else if p.deadlineMs < existing.deadlineMs then
        GcStep(g, Rejected(GcProtectionDeadlineRegressed))
      else if p.timestamp == existing.timestamp && p.deadlineMs == existing.deadlineMs then
        GcStep(g, AlreadyApplied)
      else
        GcStep(g.(protections := g.protections[key := p]), Applied)
  }

  function RenewProtection(g: Gc, ownerId: U128, protectionId: U128, deadlineMs: U64, nowMs: U64)
    : GcStep
  {
    var key := (ownerId, protectionId);
    if key !in g.protections then GcStep(g, Rejected(UnknownGcProtection))
    else
      var existing := g.protections[key];
      if existing.deadlineMs <= nowMs then GcStep(g, Rejected(ExpiredGcProtection))
      else if deadlineMs == existing.deadlineMs then GcStep(g, AlreadyApplied)
      else if deadlineMs < existing.deadlineMs then
        GcStep(g, Rejected(GcProtectionDeadlineRegressed))
      else
        GcStep(g.(protections := g.protections[key := existing.(deadlineMs := deadlineMs)]), Applied)
  }

  function ReleaseProtection(g: Gc, ownerId: U128, protectionId: U128): GcStep {
    var key := (ownerId, protectionId);
    if key in g.protections then GcStep(g.(protections := g.protections - {key}), Applied)
    else GcStep(g, AlreadyApplied)
  }

  /** The protections whose lease is still live at `nowMs`. */
  function LiveProtections(ps: Protections, nowMs: U64): Protections {
    map k | k in ps && ps[k].deadlineMs > nowMs :: ps[k]
  }

  function ProtectedTimestamps(ps: Protections): set<U64> {
    set k | k in ps :: ps[k].timestamp
  }

  function LeastOf(stamps: set<U64>): (m: U64)
    requires stamps != {}
    ensures m in stamps && forall t | t in stamps :: m <= t
  {
    assert exists m :: m in stamps && forall t | t in stamps :: m <= t by {
      var m := LeastExists(stamps, (t: U64) => t);
    }
    var m :| m in stamps && forall t | t in stamps :: m <= t;
    m
  }

  /** The candidate, or the least protected timestamp when that is lower. */
  function ClampToProtections(candidate: U64, ps: Protections): (r: U64)
    ensures r <= candidate
    ensures forall k | k in ps :: r <= ps[k].timestamp
    ensures r == candidate || r in ProtectedTimestamps(ps)
  {
    if ps == map[] then candidate
    else
      var stamps := ProtectedTimestamps(ps);
      assert stamps != {} by {
        var k :| k in ps;
        assert ps[k].timestamp in stamps;
      }
      var floor := LeastOf(stamps);
      assert forall k | k in ps :: ps[k].timestamp in stamps;
      if candidate < floor then candidate else floor
  }

  function AdvanceSafePoint(g: Gc, candidate: U64, nowMs: U64): GcStep {
    if candidate < g.safePoint then GcStep(g, Rejected(GcSafePointRegressed))
    else
      var live := LiveProtections(g.protections, nowMs);
      var point := ClampToProtections(candidate, live);
      var expired := |live| != |g.protections|;
      GcStep(Gc(point, live),
             if point == g.safePoint && !expired then AlreadyApplied else Applied)
  }

  // ---------- client sessions ----------

  function OpenSession(m: Sessions, clientId: U128, epoch: U64): SessionStep {
    SessionStep(m[clientId := ClientSession(clientId, epoch, 0, 1)], ClientRegistered(clientId, epoch))
  }

  function RegisterSession(m: Sessions, clientId: U128, requested: U64): SessionStep {
    if clientId !in m then OpenSession(m, clientId, Max(requested, 1))
    else
      var existing := m[clientId].epoch;
      if requested == existing then SessionStep(m, AlreadyApplied)
      else if requested != 0 && requested < existing then
        SessionStep(m, Rejected(ClientSessionEpochConflict))
      else
        match Next(existing)
        case None => SessionStep(m, Rejected(ClientSessionEpochExhausted))
        case Some(epoch) =>
          if requested == 0 || requested == epoch then OpenSession(m, clientId, epoch)
          else SessionStep(m, Rejected(ClientSessionEpochConflict))
  }

  function RenewSession(m: Sessions, clientId: U128, epoch: U64, acknowledged: U64): SessionStep {
    if clientId !in m then SessionStep(m, Rejected(UnknownClient))
    else
      var session := m[clientId];
      if session.epoch != epoch then SessionStep(m, Rejected(ClientSessionEpochConflict))
      else if acknowledged < session.acknowledgedThrough then
        SessionStep(m, Rejected(AcknowledgementRegression))
      else if acknowledged == session.acknowledgedThrough then SessionStep(m, AlreadyApplied)
      else
        match Next(acknowledged)
        case None => SessionStep(m, Rejected(RetryHorizonExhausted))
        case Some(first) =>
          SessionStep(m[clientId := session.(acknowledgedThrough := acknowledged, firstRetained := first)],
                      ClientRenewed)
  }

  // ---------- nodes ----------

  function LifecycleRank(l: Lifecycle): nat {
    match l
    case Active => 0
    case Draining => 1
    case Decommissioning => 2
    case Decommissioned => 3
    case Tombstoned => 4
  }

  predicate CanAdvance(from: Lifecycle, to: Lifecycle) {
    || (from.Active? && to.Draining?)
    || (from.Draining? && to.Decommissioning?)
    || (from.Decommissioning? && to.Decommissioned?)
    || (from.Decommissioned? && to.Tombstoned?)
  }

  predicate Terminal(l: Lifecycle) {
    l.Decommissioned? || l.Tombstoned?
  }

  predicate SameDirectory(a: NodeDescriptor, b: NodeDescriptor) {
    a.(lifecycle := b.lifecycle) == b
  }

  predicate ShareEndpoint(a: NodeDescriptor, b: NodeDescriptor) {
    exists e :: e in Endpoints(a) && e in Endpoints(b)
  }

  /** Some registered node already owns one of the new node's endpoints. */
  predicate EndpointTaken(nodes: Directory, node: NodeDescriptor) {
    exists k :: k in nodes && ShareEndpoint(node, nodes[k])
  }

  /** Some tablet's desired placement still uses the node. */
  predicate StillExpected(tablets: map<U64, TabletDescriptor>, placements: map<U64, Placement>, nodeId: U64) {
    exists k, r :: k in tablets && k in placements && r in placements[k].replicas && r.nodeId == nodeId
  }

  function AdvanceLifecycle(s: Topology, nodeId: U64, to: Lifecycle): TopologyStep {
    if nodeId !in s.nodes then RejectTopology(s, UnknownNode)
    else
      var existing := s.nodes[nodeId];
      if existing.lifecycle == to then TopologyStep(s, AlreadyApplied)
      else if !CanAdvance(existing.lifecycle, to) then
        RejectTopology(s, InvalidLifecycleTransition)
      else if Terminal(to) && StillExpected(s.tablets, s.desiredPlacements, nodeId) then
        RejectTopology(s, NodeStillExpected)
      else
        TopologyStep(s.(nodes := s.nodes[nodeId := existing.(lifecycle := to)]), Applied)
  }

  function AddNode(s: Topology, node: NodeDescriptor): TopologyStep {
    if node.nodeId in s.nodes then
      var existing := s.nodes[node.nodeId];
      if existing == node then TopologyStep(s, AlreadyApplied)
      else if SameDirectory(existing, node) then AdvanceLifecycle(s, node.nodeId, node.lifecycle)
      else RejectTopology(s, NodeIdConflict)
    else if EndpointTaken(s.nodes, node) then RejectTopology(s, NodeEndpointConflict)
    else if !node.lifecycle.Active? then RejectTopology(s, InvalidLifecycleTransition)
    else TopologyStep(s.(nodes := s.nodes[node.nodeId := node]), Applied)
  }

  // ---------- tables and tablets ----------

  function AddTable(s: Topology, t: TableSchema): TopologyStep {
    if !ValidSchema(t) then RejectTopology(s, InvalidTable)
    else if t.id in s.tables then
      if s.tables[t.id] == t then TopologyStep(s, AlreadyApplied) else RejectTopology(s, TableIdConflict)
    else if t.name in s.tableIdsByName then RejectTopology(s, TableNameConflict)
    else
      TopologyStep(s.(tables := s.tables[t.id := t],
              tableIdsByName := s.tableIdsByName[t.name := t.id],
              allocator := s.allocator.(maxTableId := Max(s.allocator.maxTableId, t.id))),
           Applied)
  }

  predicate RangesOverlap(leftStart: Key, leftEnd: Key, rightStart: Key, rightEnd: Key) {
    var leftBeforeRight := leftEnd != [] && rightStart != [] && Leq(leftEnd, rightStart);
    var rightBeforeLeft := rightEnd != [] && leftStart != [] && Leq(rightEnd, leftStart);
    !(leftBeforeRight || rightBeforeLeft)
  }

  /** Both tablets own key ranges of the same table and the ranges overlap. */
  predicate OverlappingTablets(a: TabletDescriptor, b: TabletDescriptor) {
    && a.tableId == b.tableId
    && a.partition.Range? && b.partition.Range?
    && RangesOverlap(a.partition.startKey, a.partition.endKey, b.partition.startKey, b.partition.endKey)
  }

  function TabletsOf(tablets: map<U64, TabletDescriptor>, tableId: U64): set<U64> {
    set id | id in tablets && tablets[id].tableId == tableId
  }

  function PartitionRejection(s: Topology, t: TabletDescriptor): Option<Cause>
    requires t.tableId in s.tables
  {
    var table := s.tables[t.tableId];
    match t.partition
    case Hash(bucket, bucketCount) =>
      if bucketCount != table.tabletCount then
        Some(PartitionCountMismatch)
      else if (t.tableId, bucket) in s.tabletIdsByPartition then
        Some(PartitionConflict)
      else if |TabletsOf(s.tablets, t.tableId)| >= table.tabletCount then
        Some(TabletCountExceeded)
      else None
    case Range(_, _) =>
      if exists id :: id in s.tablets && OverlappingTablets(t, s.tablets[id]) then
        Some(RangeOverlap)
      else None
  }

  function AddTablet(s: Topology, t: TabletDescriptor): TopologyStep {
    if t.tabletId in s.tablets then
      if s.tablets[t.tabletId] == t then TopologyStep(s, AlreadyApplied)
      else RejectTopology(s, TabletIdConflict)
    else if t.raftGroupId in s.tabletIdsByRaftGroup then RejectTopology(s, RaftGroupConflict)
    else if t.tableId !in s.tables then RejectTopology(s, UnknownTable)
    else
      match PartitionRejection(s, t)
      case Some(r) => RejectTopology(s, r)
      case None =>
        TopologyStep(s.(tabletIdsByRaftGroup := s.tabletIdsByRaftGroup[t.raftGroupId := t.tabletId],
                tabletIdsByPartition :=
                  if t.partition.Hash?
                  then s.tabletIdsByPartition[(t.tableId, t.partition.bucket) := t.tabletId]
                  else s.tabletIdsByPartition,
                tablets := s.tablets[t.tabletId := t],
                allocator := s.allocator.(
                  maxTabletId := Max(s.allocator.maxTabletId, t.tabletId),
                  maxRaftGroupId := Max(s.allocator.maxRaftGroupId, t.raftGroupId))),
             Applied)
  }

  // ---------- replica placement ----------

  function MaxReplica(rs: seq<Replica>): (m: U64)
    ensures forall i | 0 <= i < |rs| :: rs[i].replicaId <= m
    ensures rs == [] ==> m == 0
    ensures rs != [] ==> exists i :: 0 <= i < |rs| && rs[i].replicaId == m
  {
    if rs == [] then 0
    else
      var n := |rs| - 1;
      var m := MaxReplica(rs[..n]);
      if m > rs[n].replicaId then m else rs[n].replicaId
  }

  /** Voters with replica identities 1, 2, ... in selection order. */
  function VoterReplicas(voters: seq<U64>): (rs: seq<Replica>)
    requires |voters| <= REPLICATION_FACTOR
    ensures |rs| == |voters|
    ensures forall i | 0 <= i < |rs| :: rs[i] == Replica(i + 1, voters[i], Voter)
  {
    seq(|voters|, i requires 0 <= i < |voters| => Replica(i + 1, voters[i], Voter))
  }

  function FirstTablet(tableId: U64, tabletId: U64, group: U64): TabletDescriptor {
    TabletDescriptor(tabletId, tableId, group, 1, Range([], []))
  }

  function FirstPlacement(nodes: Directory, tabletId: U64): Placement {
    InitialVotersAreDistinctActive(nodes);
    var voters := InitialVoters(nodes);
    Placement(tabletId, 1, VoterReplicas(voters), InitialPolicy(nodes, voters))
  }

  /** Atomic publication of one table, its tablet and its first placement. */
  function PublishTopology(s: Topology, table: TableSchema, tablet: TabletDescriptor, placement: Placement)
    : Topology
  {
    s.(tables := s.tables[table.id := table],
       tableIdsByName := s.tableIdsByName[table.name := table.id],
       tabletIdsByRaftGroup := s.tabletIdsByRaftGroup[tablet.raftGroupId := tablet.tabletId],
       tablets := s.tablets[tablet.tabletId := tablet],
       desiredPlacements := s.desiredPlacements[tablet.tabletId := placement],
       allocator := Allocator(
         table.id, tablet.tabletId, tablet.raftGroupId,
         if placement.replicas == [] then s.allocator.maxReplicaId
         else MaxReplica(placement.replicas)))
  }

  function NewTable(tableId: U64, request: CreateTableRequest): TableSchema {
    TableSchema(tableId, request.name, request.columns, request.primaryKey, 1, INITIAL_TABLET_COUNT)
  }

  /** The last checks before publication; everything is validated before anything is written. */
  function CheckAndPublish(s: Topology, table: TableSchema, tablet: TabletDescriptor, placement: Placement)
    : TopologyStep
  {
    if !ValidSchema(table) then RejectTopology(s, InvalidTable)
    else if !ValidTablet(tablet) then RejectTopology(s, Malformed)
    else if !ValidPlacement(placement) then RejectTopology(s, Malformed)
    else if table.id in s.tables || tablet.tabletId in s.tablets
            || tablet.raftGroupId in s.tabletIdsByRaftGroup then
      RejectTopology(s, OccupiedIdentity)
    else
      TopologyStep(PublishTopology(s, table, tablet, placement),
                   TableCreated(table.id, tablet.tabletId, tablet.raftGroupId))
  }

  function CreateTopology(s: Topology, request: CreateTableRequest): TopologyStep {
    if request.name in s.tableIdsByName then RejectTopology(s, TableNameConflict)
    else if ActiveNodes(s.nodes) == {} then RejectTopology(s, NoRegisteredNodes)
    else if Next(s.allocator.maxTableId).None? then RejectTopology(s, TableIdentitiesExhausted)
    else if Next(s.allocator.maxTabletId).None? then RejectTopology(s, TabletIdentitiesExhausted)
    else if Next(s.allocator.maxRaftGroupId).None? then
      RejectTopology(s, RaftGroupIdentitiesExhausted)
    else
      var tableId := Next(s.allocator.maxTableId).value;
      var tabletId := Next(s.allocator.maxTabletId).value;
      var group := Next(s.allocator.maxRaftGroupId).value;
      CheckAndPublish(s, NewTable(tableId, request), FirstTablet(tableId, tabletId, group),
                      FirstPlacement(s.nodes, tabletId))
  }

  predicate Desires(placements: map<U64, Placement>, tabletId: U64, replicaId: U64) {
    tabletId in placements && exists r :: r in placements[tabletId].replicas && r.replicaId == replicaId
  }

  function Retire(s: Topology, r: Retirement): TopologyStep {
    var key := (r.raftGroupId, r.replicaId);
    if r.raftGroupId !in s.tabletIdsByRaftGroup then RejectTopology(s, UnknownRaftGroup)
    else
      var tabletId := s.tabletIdsByRaftGroup[r.raftGroupId];
      if Desires(s.desiredPlacements, tabletId, r.replicaId) then
        RejectTopology(s, RetirementStillDesired)
      else if key in s.retiredReplicas then
        if s.retiredReplicas[key] == r then TopologyStep(s, AlreadyApplied)
        else RejectTopology(s, RetirementProofConflict)
      else if tabletId !in s.desiredPlacements then RejectTopology(s, UnknownTablet)
      else if s.desiredPlacements[tabletId].epoch != r.desiredEpoch then
        RejectTopology(s, PlacementEpochMismatch)
      else
        TopologyStep(s.(retiredReplicas := s.retiredReplicas[key := r]), Applied)
  }

  /** The previous placement already had this replica on this node. */
  predicate Retained(existing: Option<Placement>, r: Replica) {
    && existing.Some?
    && exists prior :: prior in existing.value.replicas && prior.replicaId == r.replicaId && prior.nodeId == r.nodeId
  }

  type Retirements = map<(U64, U64), Retirement>

  function ReplicaRejection(nodes: Directory, retired: Retirements, group: U64, existing: Option<Placement>,
                            policy: PlacementPolicy, r: Replica): Option<Cause>
  {
    if r.nodeId !in nodes then Some(UnknownNode)
    else
      var node := nodes[r.nodeId];
      if !node.lifecycle.Active?
         && !(Retained(existing, r) && (node.lifecycle.Draining? || node.lifecycle.Decommissioning?)) then
        Some(NodeNotEligible)
      else if policy.storageClass.Some? && node.storageClass != policy.storageClass.value then
        Some(PlacementStorageClassMismatch)
      else if (group, r.replicaId) in retired then
        Some(RetiredReplicaReuse)
      else None
  }

  function FirstReplicaRejection(nodes: Directory, retired: Retirements, group: U64, existing: Option<Placement>,
                                 policy: PlacementPolicy, rs: seq<Replica>): (o: Option<Cause>)
    ensures o.None? <==> forall r | r in rs :: ReplicaRejection(nodes, retired, group, existing, policy, r).None?
    decreases |rs|
  {
    if rs == [] then None
    else
      match ReplicaRejection(nodes, retired, group, existing, policy, rs[0])
      case Some(r) => Some(r)
      case None => FirstReplicaRejection(nodes, retired, group, existing, policy, rs[1..])
  }

  function FirstLeaderRejection(nodes: Directory, leaders: seq<U64>): Option<Cause> {
    if leaders == [] then None
    else if leaders[0] !in nodes then Some(UnknownNode)
    else if !nodes[leaders[0]].lifecycle.Active? then
      Some(NodeNotEligible)
    else FirstLeaderRejection(nodes, leaders[1..])
  }

  function Hosts(rs: seq<Replica>): set<U64> {
    set r | r in rs :: r.nodeId
  }

  function MinimumOf(policy: PlacementPolicy, d: Domain): U32 {
    match d
    case Region => policy.minRegions
    case Zone => policy.minZones
    case Rack => policy.minRacks
  }

  function DomainRejection(nodes: Directory, p: Placement, d: Domain): Option<Cause> {
    var required, observed := MinimumOf(p.policy, d), |Labels(nodes, Hosts(p.replicas), d)|;
    if required > 0 && observed < required then Some(PlacementDomainUnsatisfied)
    else None
  }

  function FirstDomainRejection(nodes: Directory, p: Placement): (o: Option<Cause>)
    ensures o.None? <==> forall d: Domain :: DomainRejection(nodes, p, d).None?
  {
    if DomainRejection(nodes, p, Region).Some? then DomainRejection(nodes, p, Region)
    else if DomainRejection(nodes, p, Zone).Some? then DomainRejection(nodes, p, Zone)
    else DomainRejection(nodes, p, Rack)
  }

  /** If `r` is kept from `prior`, it stays on its node and is not demoted. */
  predicate KeptSafely(prior: seq<Replica>, r: Replica) {
    forall x | x in prior && x.replicaId == r.replicaId ::
      x.nodeId == r.nodeId && !(x.role.Voter? && r.role.Learner?)
  }

  function MemberRejection(prior: seq<Replica>, r: Replica): (o: Option<Cause>)
    ensures o.None? <==> KeptSafely(prior, r)
  {
    if prior == [] then None
    else if prior[0].replicaId == r.replicaId && prior[0].nodeId != r.nodeId then
      Some(ReplicaHostChanged)
    else if prior[0].replicaId == r.replicaId && prior[0].role.Voter? && r.role.Learner? then
      Some(UnsupportedVoterDemotion)
    else MemberRejection(prior[1..], r)
  }

  function FirstMemberRejection(prior: seq<Replica>, rs: seq<Replica>): (o: Option<Cause>)
    ensures o.None? <==> forall r | r in rs :: KeptSafely(prior, r)
  {
    if rs == [] then None
    else
      assert rs == [rs[0]] + rs[1..];
      match MemberRejection(prior, rs[0])
      case Some(r) => Some(r)
      case None => FirstMemberRejection(prior, rs[1..])
  }

  function EpochRejection(existing: Option<Placement>, p: Placement): Option<Cause> {
    match existing
    case None => if p.epoch != 1 then Some(InitialPlacementEpoch) else None
    case Some(prior) =>
      match Next(prior.epoch)
      case None => Some(PlacementEpochExhausted)
      case Some(expected) =>
        if p.epoch != expected then Some(PlacementEpochMismatch)
        else FirstMemberRejection(prior.replicas, p.replicas)
  }

  function Existing(s: Topology, tabletId: U64): Option<Placement> {
    if tabletId in s.desiredPlacements then Some(s.desiredPlacements[tabletId]) else None
  }

  function PlacementRejection(s: Topology, p: Placement): Option<Cause>
    requires p.tabletId in s.tablets
  {
    var group, existing := s.tablets[p.tabletId].raftGroupId, Existing(s, p.tabletId);
    if FirstReplicaRejection(s.nodes, s.retiredReplicas, group, existing, p.policy, p.replicas).Some? then
      FirstReplicaRejection(s.nodes, s.retiredReplicas, group, existing, p.policy, p.replicas)
    else if FirstLeaderRejection(s.nodes, p.policy.preferredLeaders).Some? then
      FirstLeaderRejection(s.nodes, p.policy.preferredLeaders)
    else if FirstDomainRejection(s.nodes, p).Some? then FirstDomainRejection(s.nodes, p)
    else EpochRejection(existing, p)
  }

  function SetPlacement(s: Topology, p: Placement): TopologyStep {
    if p.tabletId !in s.tablets then RejectTopology(s, UnknownTablet)
    else if Existing(s, p.tabletId) == Some(p) then TopologyStep(s, AlreadyApplied)
    else
      match PlacementRejection(s, p)
      case Some(r) => RejectTopology(s, r)
      case None =>
        TopologyStep(s.(allocator := s.allocator.(
                  maxReplicaId := Max(s.allocator.maxReplicaId, MaxReplica(p.replicas))),
                desiredPlacements := s.desiredPlacements[p.tabletId := p]),
             Applied)
  }

  // ---------- schema evolution ----------

  function MaxColumnId(columns: seq<Column>): (m: U64)
    ensures forall i | 0 <= i < |columns| :: columns[i].id <= m
    ensures columns != [] ==> exists i :: 0 <= i < |columns| && columns[i].id == m
  {
    if columns == [] then 0
    else
      var n := |columns| - 1;
      var m := MaxColumnId(columns[..n]);
      if m > columns[n].id then m else columns[n].id
  }

  /** The first existing column, from position `i` on, that the update does not repeat. */
  function ChangedColumn(prior: seq<Column>, updated: seq<Column>, i: nat): (r: Option<U64>)
    requires i <= |prior| <= |updated|
    ensures r.None? <==> forall j | i <= j < |prior| :: updated[j] == prior[j]
    decreases |prior| - i
  {
    if i == |prior| then None
    else if prior[i] != updated[i] then Some(prior[i].id)
    else ChangedColumn(prior, updated, i + 1)
  }

  function AddedColumnRejection(added: seq<Column>, maxExisting: U64): (r: Option<Cause>)
    ensures r.None? <==> forall c | c in added :: c.id > maxExisting && c.nullable
  {
    if added == [] then None
    else if added[0].id <= maxExisting then Some(ColumnIdReuse)
    else if !added[0].nullable then Some(AddedColumnMustBeNullable)
    else AddedColumnRejection(added[1..], maxExisting)
  }

  function EvolutionRejection(expectedVersion: U64, prior: TableSchema, updated: TableSchema)
    : Option<Cause>
  {
    if expectedVersion != prior.version then
      Some(SchemaPreconditionMismatch)
    else if Next(prior.version).None? then Some(SchemaVersionExhausted)
    else if updated.version != Next(prior.version).value then
      Some(SchemaVersionNotNext)
    else if updated.name != prior.name then Some(TableRenameNotSupported)
    else if updated.tabletCount != prior.tabletCount then Some(TabletCountChangeNotSupported)
    else if updated.primaryKey != prior.primaryKey then Some(PrimaryKeyChangeNotSupported)
    else if |updated.columns| < |prior.columns| then
      Some(ExistingColumnChanged)
    else if ChangedColumn(prior.columns, updated.columns, 0).Some? then
      Some(ExistingColumnChanged)
    else AddedColumnRejection(updated.columns[|prior.columns|..], MaxColumnId(prior.columns))
  }

  function EvolveTable(s: Topology, expectedVersion: U64, t: TableSchema): TopologyStep {
    if !ValidSchema(t) then RejectTopology(s, InvalidTable)
    else if t.id !in s.tables then RejectTopology(s, UnknownTable)
    else if s.tables[t.id] == t then TopologyStep(s, AlreadyApplied)
    else
      match EvolutionRejection(expectedVersion, s.tables[t.id], t)
      case Some(r) => RejectTopology(s, r)
      case None =>
        TopologyStep(s.(tables := s.tables[t.id := t],
                tableIdsByName := s.tableIdsByName[t.name := t.id]),
             Applied)
  }

  // ---------- the step function ----------

  function OnGc(s: State, r: GcStep): Step {
    Step(s.(gc := r.gc), r.outcome)
  }

  function OnSessions(s: State, r: SessionStep): Step {
    Step(s.(clientSessions := r.sessions), r.outcome)
  }

  function OnTopology(s: State, r: TopologyStep): Step {
    Step(s.(topology := r.topology), r.outcome)
  }

  function ApplyGc(g: Gc, c: Command): GcStep
    requires IsGcCommand(c)
  {
    match c
    case RegisterGcProtection(p, _) => AddProtection(g, p)
    case UpdateGcProtection(p, nowMs) => ReplaceProtection(g, p, nowMs)
    case RenewGcProtection(ownerId, protectionId, deadlineMs, nowMs) =>
      RenewProtection(g, ownerId, protectionId, deadlineMs, nowMs)
    case ReleaseGcProtection(ownerId, protectionId) => ReleaseProtection(g, ownerId, protectionId)
    case AdvanceGcSafePoint(candidate, nowMs) => AdvanceSafePoint(g, candidate, nowMs)
  }

  predicate IsGcCommand(c: Command) {
    || c.RegisterGcProtection? || c.UpdateGcProtection? || c.RenewGcProtection?
    || c.ReleaseGcProtection? || c.AdvanceGcSafePoint?
  }

  function ApplySession(m: Sessions, c: Command): SessionStep
    requires IsSessionCommand(c)
  {
    match c
    case RegisterClient(clientId, requested) => RegisterSession(m, clientId, requested)
    case RenewClient(clientId, epoch, acknowledged) => RenewSession(m, clientId, epoch, acknowledged)
  }

  predicate IsSessionCommand(c: Command) {
    c.RegisterClient? || c.RenewClient?
  }

  function ApplyTopology(t: Topology, c: Command): TopologyStep
    requires IsTopologyCommand(c)
  {
    match c
    case RegisterNode(node) => AddNode(t, node)
    case SetNodeLifecycle(nodeId, lifecycle) => AdvanceLifecycle(t, nodeId, lifecycle)
    case CreateTable(table) => AddTable(t, table)
    case CreateTablet(tablet) => AddTablet(t, tablet)
    case CreateTableTopology(request) => CreateTopology(t, request)
    case SetDesiredPlacement(placement) => SetPlacement(t, placement)
    case RecordRetirement(retirement) => Retire(t, retirement)
    case UpdateTableSchema(expectedVersion, table) => EvolveTable(t, expectedVersion, table)
  }

  predicate IsTopologyCommand(c: Command) {
    || c.RegisterNode? || c.SetNodeLifecycle? || c.CreateTable? || c.CreateTablet?
    || c.CreateTableTopology? || c.SetDesiredPlacement? || c.RecordRetirement? || c.UpdateTableSchema?
  }

  /** The handler of a well-formed command. All but initialization need an initialized cluster. */
  function Dispatch(s: State, c: Command): Step {
    if c.ClusterInitialized? then InitializeCluster(s, c.clusterId)
    else if s.clusterId.None? then Reject(s, NotInitialized)
    else if c.ReserveTimestamps? then ReserveUntil(s, c.reservedUntil)
    else if IsGcCommand(c) then OnGc(s, ApplyGc(s.gc, c))
    else if IsSessionCommand(c) then OnSessions(s, ApplySession(s.clientSessions, c))
    else OnTopology(s, ApplyTopology(s.topology, c))
  }

  /** One committed command. */
  function Apply(s: State, c: Command): Step {
    if ValidCommand(c) then Dispatch(s, c) else Reject(s, Malformed)
  }

  // ---------- the retry cache ----------

  function ToCached(o: Outcome): CachedOutcome {
    match o
    case Applied => CachedApplied
    case AlreadyApplied => CachedAlreadyApplied
    case ClientRegistered(clientId, epoch) => CachedClientRegistered(clientId, epoch)
    case ClientRenewed => CachedClientRenewed
    case TimestampsReserved(from, until) => CachedTimestampsReserved(from, until)
    case TableCreated(tableId, tabletId, group) => CachedTableCreated(tableId, tabletId, group)
    case Rejected(cause) => CachedRejected(cause)
    case ReservationRegressed(current, received) => CachedReservationRegressed(current, received)
    case RejectedAgain(cause) => CachedRejected(cause)
  }

  function FromCached(c: CachedOutcome): Outcome {
    match c
    case CachedApplied => Applied
    case CachedAlreadyApplied => AlreadyApplied
    case CachedClientRegistered(clientId, epoch) => ClientRegistered(clientId, epoch)
    case CachedClientRenewed => ClientRenewed
    case CachedTimestampsReserved(from, until) => TimestampsReserved(from, until)
    case CachedTableCreated(tableId, tabletId, group) => TableCreated(tableId, tabletId, group)
    case CachedReservationRegressed(current, received) => ReservationRegressed(current, received)
    case CachedRejected(cause) => RejectedAgain(cause)
  }

  /** Apply a command once per logical identity; a replay returns the cached outcome. */
  function ApplyLogged(s: State, id: LogicalCommandId, c: Command): Step {
    if id in s.requestDeduplication then Step(s, FromCached(s.requestDeduplication[id]))
    else
      var step := Apply(s, c);
      Step(step.state.(requestDeduplication :=
             step.state.requestDeduplication[id := ToCached(step.outcome)]),
           step.outcome)
  }

  /** The identity given to requests from before session-bearing identities. */
  function CompatibilityId(r: RequestId): LogicalCommandId {
    LogicalCommandId(r.clientId, 1, r.sequence, 1, Catalog)
  }

  /** One committed log entry: a bare command, or a command with its retry identity. */
  datatype Entry = Bare(command: Command) | Logged(id: LogicalCommandId, command: Command)

  function ApplyEntry(s: State, e: Entry): Step {
    match e
    case Bare(c) => Apply(s, c)
    case Logged(id, c) => ApplyLogged(s, id, c)
  }

  function Run(s: State, log: seq<Entry>): State
    decreases |log|
  {
    if log == [] then s else Run(ApplyEntry(s, log[0]).state, log[1..])
  }

  /** The state before entry `i` of the log. */
  function StateAt(s: State, log: seq<Entry>, i: nat): State
    requires i <= |log|
  {
    Run(s, log[..i])
  }

  function OutcomeAt(s: State, log: seq<Entry>, i: nat): Outcome
    requires i < |log|
  {
    ApplyEntry(StateAt(s, log, i), log[i]).outcome
  }
}
