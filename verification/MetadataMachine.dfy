/** The metadata state as it is updated in place, command by command. */
module MetadataMachine {
  import opened Base
  import opened Schema
  import opened MetadataTypes
  import opened Validation
  import opened InitialPlacement
  import opened MetadataSpec
  import opened MetadataInvariant
  import opened MetadataRuns
  import opened MetadataChecks

  /** A handler's effect on an initialized cluster; without one it only refuses. */
  ghost function OnceInitialized(clusterId: Option<string>, t: Topology, r: TopologyStep): TopologyStep {
    if clusterId.None? then TopologyStep(t, Rejected(NotInitialized)) else r
  }

  ghost function GcOnceInitialized(clusterId: Option<string>, g: Gc, r: GcStep): GcStep {
    if clusterId.None? then GcStep(g, Rejected(NotInitialized)) else r
  }

  ghost function SessionsOnceInitialized(clusterId: Option<string>, m: Sessions, r: SessionStep): SessionStep {
    if clusterId.None? then SessionStep(m, Rejected(NotInitialized)) else r
  }

  class MetadataState {
    var clusterId: Option<string>
    var allocator: Allocator
    var timestampReservedUntil: U64
    var gcSafePoint: U64
    var gcProtections: Protections
    var nodes: Directory
    var tables: map<U64, TableSchema>
    var tableIdsByName: map<string, U64>
    var tablets: map<U64, TabletDescriptor>
    var tabletIdsByRaftGroup: map<U64, U64>
    var tabletIdsByPartition: map<(U64, U32), U64>
    var desiredPlacements: map<U64, Placement>
    var retiredReplicas: Retirements
    var requestDeduplication: Cache
    var clientSessions: Sessions

    ghost function GcView(): Gc
      reads this
    {
      Gc(gcSafePoint, gcProtections)
    }

    ghost function TopologyView(): Topology
      reads this
    {
      Topology(allocator, nodes, tables, tableIdsByName, tablets, tabletIdsByRaftGroup, tabletIdsByPartition,
               desiredPlacements, retiredReplicas)
    }

    ghost function View(): State
      reads this
    {
      State(clusterId, timestampReservedUntil, GcView(), TopologyView(), requestDeduplication, clientSessions)
    }

    /** The invariant, as one fact. */
    ghost predicate Valid()
      reads this
    {
      true == Inv(View())
    }

    constructor ()
      ensures View() == Init()
    {
      clusterId, allocator, timestampReservedUntil := None, INITIAL_ALLOCATOR, 0;
      gcSafePoint, gcProtections := 0, map[];
      nodes, tables, tableIdsByName, tablets := map[], map[], map[], map[];
      tabletIdsByRaftGroup, tabletIdsByPartition := map[], map[];
      desiredPlacements, retiredReplicas := map[], map[];
      requestDeduplication, clientSessions := map[], map[];
    }

    // ---------- cluster and timestamps ----------

    method ApplyClusterInitialized(id: string) returns (o: Outcome)
      modifies this`clusterId
      ensures Step(View(), o) == InitializeCluster(old(View()), id)
    {
      match clusterId
      case None =>
        clusterId := Some(id);
        o := Applied;
      case Some(existing) =>
        o := if existing == id then AlreadyApplied else Rejected(ClusterConflict);
    }

    method ApplyReserveTimestamps(until: U64) returns (o: Outcome)
      modifies this`timestampReservedUntil
      ensures Step(View(), o)
           == if old(clusterId).None? then Step(old(View()), Rejected(NotInitialized))
              else ReserveUntil(old(View()), until)
    {
      if clusterId.None? {
        return Rejected(NotInitialized);
      }
      if until <= timestampReservedUntil {
        return ReservationRegressed(timestampReservedUntil, until);
      }
      var from := timestampReservedUntil + 1;
      timestampReservedUntil := until;
      o := TimestampsReserved(from, until);
    }

    // ---------- garbage collection ----------

    method ApplyRegisterGcProtection(p: GcProtection) returns (o: Outcome)
      modifies this`gcProtections
      ensures GcStep(GcView(), o) == GcOnceInitialized(clusterId, old(GcView()), AddProtection(old(GcView()), p))
    {
      if clusterId.None? {
        return Rejected(NotInitialized);
      }
      if p.timestamp < gcSafePoint {
        return Rejected(GcProtectionBelowSafePoint);
      }
      var key := (p.ownerId, p.protectionId);
      if key in gcProtections {
        if gcProtections[key].timestamp != p.timestamp {
          return Rejected(GcProtectionIdentityConflict);
        }
        return Rejected(GcProtectionRegistrationConflict);
      }
      gcProtections := gcProtections[key := p];
      o := Applied;
    }

    method ApplyUpdateGcProtection(p: GcProtection, nowMs: U64) returns (o: Outcome)
      modifies this`gcProtections
      ensures GcStep(GcView(), o)
           == GcOnceInitialized(clusterId, old(GcView()), ReplaceProtection(old(GcView()), p, nowMs))
    {
      if clusterId.None? {
        return Rejected(NotInitialized);
      }
      if p.timestamp < gcSafePoint {
        return Rejected(GcProtectionBelowSafePoint);
      }
      var key := (p.ownerId, p.protectionId);
      if key !in gcProtections {
        return Rejected(UnknownGcProtection);
      }
      var existing := gcProtections[key];
      if existing.deadlineMs <= nowMs {
        return Rejected(ExpiredGcProtection);
      }
      if p.deadlineMs < existing.deadlineMs {
        return Rejected(GcProtectionDeadlineRegressed);
      }
      if p.timestamp == existing.timestamp && p.deadlineMs == existing.deadlineMs {
        return AlreadyApplied;
      }
      gcProtections := gcProtections[key := p];
      o := Applied;
    }

    method ApplyRenewGcProtection(ownerId: U128, protectionId: U128, deadlineMs: U64, nowMs: U64)
      returns (o: Outcome)
      modifies this`gcProtections
      ensures GcStep(GcView(), o)
           == GcOnceInitialized(clusterId, old(GcView()),
                                RenewProtection(old(GcView()), ownerId, protectionId, deadlineMs, nowMs))
    {
      if clusterId.None? {
        return Rejected(NotInitialized);
      }
      var key := (ownerId, protectionId);
      if key !in gcProtections {
        return Rejected(UnknownGcProtection);
      }
      var existing := gcProtections[key];
      if existing.deadlineMs <= nowMs {
        return Rejected(ExpiredGcProtection);
      }
      if deadlineMs == existing.deadlineMs {
        return AlreadyApplied;
      }
      if deadlineMs < existing.deadlineMs {
        return Rejected(GcProtectionDeadlineRegressed);
      }
      gcProtections := gcProtections[key := existing.(deadlineMs := deadlineMs)];
      o := Applied;
    }

    method ApplyReleaseGcProtection(ownerId: U128, protectionId: U128) returns (o: Outcome)
      modifies this`gcProtections
      ensures GcStep(GcView(), o)
           == GcOnceInitialized(clusterId, old(GcView()), ReleaseProtection(old(GcView()), ownerId, protectionId))
    {
      if clusterId.None? {
        return Rejected(NotInitialized);
      }
      var key := (ownerId, protectionId);
      var present := key in gcProtections;
      gcProtections := gcProtections - {key};
      o := if present then Applied else AlreadyApplied;
    }

    method ApplyAdvanceGcSafePoint(candidate: U64, nowMs: U64) returns (o: Outcome)
      modifies this`gcSafePoint, this`gcProtections
      ensures GcStep(GcView(), o)
           == GcOnceInitialized(clusterId, old(GcView()), AdvanceSafePoint(old(GcView()), candidate, nowMs))
    {
      if clusterId.None? {
        return Rejected(NotInitialized);
      }
      if candidate < gcSafePoint {
        return Rejected(GcSafePointRegressed);
      }
      var previous, countBefore := gcSafePoint, |gcProtections|;
      gcProtections := map k | k in gcProtections && gcProtections[k].deadlineMs > nowMs :: gcProtections[k];
      var expired := countBefore != |gcProtections|;
      gcSafePoint := ClampToProtections(candidate, gcProtections);
      o := if previous == gcSafePoint && !expired then AlreadyApplied else Applied;
      assert gcProtections == LiveProtections(old(gcProtections), nowMs);
    }

    // ---------- client sessions ----------

    method ApplyRegisterClient(clientId: U128, requested: U64) returns (o: Outcome)
      modifies this`clientSessions
      ensures SessionStep(clientSessions, o)
           == SessionsOnceInitialized(clusterId, old(clientSessions),
                                      RegisterSession(old(clientSessions), clientId, requested))
    {
      if clusterId.None? {
        return Rejected(NotInitialized);
      }
      var epoch: U64;
      if clientId !in clientSessions {
        epoch := Max(requested, 1);
      } else {
        var existing := clientSessions[clientId].epoch;
        if requested == existing {
          return AlreadyApplied;
        }
        if requested != 0 && requested < existing {
          return Rejected(ClientSessionEpochConflict);
        }
        match Next(existing)
        case None => return Rejected(ClientSessionEpochExhausted);
        case Some(next) =>
          if requested != 0 && requested != next {
            return Rejected(ClientSessionEpochConflict);
          }
          epoch := next;
      }
      clientSessions := clientSessions[clientId := ClientSession(clientId, epoch, 0, 1)];
      o := ClientRegistered(clientId, epoch);
    }

    method ApplyRenewClient(clientId: U128, epoch: U64, acknowledged: U64) returns (o: Outcome)
      modifies this`clientSessions
      ensures SessionStep(clientSessions, o)
           == SessionsOnceInitialized(clusterId, old(clientSessions),
                                      RenewSession(old(clientSessions), clientId, epoch, acknowledged))
    {
      if clusterId.None? {
        return Rejected(NotInitialized);
      }
      if clientId !in clientSessions {
        return Rejected(UnknownClient);
      }
      var session := clientSessions[clientId];
      if session.epoch != epoch {
        return Rejected(ClientSessionEpochConflict);
      }
      if acknowledged < session.acknowledgedThrough {
        return Rejected(AcknowledgementRegression);
      }
      if acknowledged == session.acknowledgedThrough {
        return AlreadyApplied;
      }
      match Next(acknowledged)
      case None => o := Rejected(RetryHorizonExhausted);
      case Some(first) =>
        clientSessions := clientSessions[clientId := session.(acknowledgedThrough := acknowledged, firstRetained := first)];
        o := ClientRenewed;
    }

    // ---------- nodes ----------

    method ApplySetNodeLifecycle(nodeId: U64, to: Lifecycle) returns (o: Outcome)
      modifies this`nodes
      ensures TopologyStep(TopologyView(), o)
           == OnceInitialized(clusterId, old(TopologyView()), AdvanceLifecycle(old(TopologyView()), nodeId, to))
    {
      if clusterId.None? {
        return Rejected(NotInitialized);
      }
      if nodeId !in nodes {
        return Rejected(UnknownNode);
      }
      var existing := nodes[nodeId];
      if existing.lifecycle == to {
        return AlreadyApplied;
      }
      if !CanAdvance(existing.lifecycle, to) {
        return Rejected(InvalidLifecycleTransition);
      }
      if Terminal(to) && StillExpected(tablets, desiredPlacements, nodeId) {
        return Rejected(NodeStillExpected);
      }
      nodes := nodes[nodeId := existing.(lifecycle := to)];
      o := Applied;
    }

    method ApplyRegisterNode(node: NodeDescriptor) returns (o: Outcome)
      modifies this`nodes
      ensures TopologyStep(TopologyView(), o)
           == OnceInitialized(clusterId, old(TopologyView()), AddNode(old(TopologyView()), node))
    {
      if clusterId.None? {
        return Rejected(NotInitialized);
      }
      if node.nodeId in nodes {
        var existing := nodes[node.nodeId];
        if existing == node {
          return AlreadyApplied;
        }
        if SameDirectory(existing, node) {
          o := ApplySetNodeLifecycle(node.nodeId, node.lifecycle);
          return;
        }
        return Rejected(NodeIdConflict);
      }
      var taken := EndpointConflict(nodes, node);
      if taken {
        return Rejected(NodeEndpointConflict);
      }
      if !node.lifecycle.Active? {
        return Rejected(InvalidLifecycleTransition);
      }
      nodes := nodes[node.nodeId := node];
      o := Applied;
    }

    // ---------- tables and tablets ----------

    method ApplyCreateTable(table: TableSchema) returns (o: Outcome)
      modifies this`tables, this`tableIdsByName, this`allocator
      ensures TopologyStep(TopologyView(), o)
           == OnceInitialized(clusterId, old(TopologyView()), AddTable(old(TopologyView()), table))
    {
      if clusterId.None? {
        return Rejected(NotInitialized);
      }
      var valid := ValidateSchema(table);
      if !valid {
        return Rejected(InvalidTable);
      }
      if table.id in tables {
        return if tables[table.id] == table then AlreadyApplied else Rejected(TableIdConflict);
      }
      if table.name in tableIdsByName {
        return Rejected(TableNameConflict);
      }
      tables := tables[table.id := table];
      tableIdsByName := tableIdsByName[table.name := table.id];
      allocator := allocator.(maxTableId := Max(allocator.maxTableId, table.id));
      o := Applied;
    }

    method ApplyCreateTablet(tablet: TabletDescriptor) returns (o: Outcome)
      modifies this`tablets, this`tabletIdsByRaftGroup, this`tabletIdsByPartition, this`allocator
      ensures TopologyStep(TopologyView(), o)
           == OnceInitialized(clusterId, old(TopologyView()), AddTablet(old(TopologyView()), tablet))
    {
      if clusterId.None? {
        return Rejected(NotInitialized);
      }
      if tablet.tabletId in tablets {
        return if tablets[tablet.tabletId] == tablet then AlreadyApplied else Rejected(TabletIdConflict);
      }
      if tablet.raftGroupId in tabletIdsByRaftGroup {
        return Rejected(RaftGroupConflict);
      }
      if tablet.tableId !in tables {
        return Rejected(UnknownTable);
      }
      var table := tables[tablet.tableId];
      match tablet.partition {
        case Hash(bucket, bucketCount) =>
          if bucketCount != table.tabletCount {
            return Rejected(PartitionCountMismatch);
          }
          if (tablet.tableId, bucket) in tabletIdsByPartition {
            return Rejected(PartitionConflict);
          }
          if |TabletsOf(tablets, tablet.tableId)| >= table.tabletCount {
            return Rejected(TabletCountExceeded);
          }
        case Range(startKey, endKey) =>
          if exists id :: id in tablets && OverlappingTablets(tablet, tablets[id]) {
            return Rejected(RangeOverlap);
          }
      }
      tabletIdsByRaftGroup := tabletIdsByRaftGroup[tablet.raftGroupId := tablet.tabletId];
      if tablet.partition.Hash? {
        tabletIdsByPartition := tabletIdsByPartition[(tablet.tableId, tablet.partition.bucket) := tablet.tabletId];
      }
      tablets := tablets[tablet.tabletId := tablet];
      allocator := allocator.(maxTabletId := Max(allocator.maxTabletId, tablet.tabletId));
      allocator := allocator.(maxRaftGroupId := Max(allocator.maxRaftGroupId, tablet.raftGroupId));
      o := Applied;
    }

    method ApplyCreateTableTopology(request: CreateTableRequest) returns (o: Outcome)
      modifies this`tables, this`tableIdsByName, this`tabletIdsByRaftGroup, this`tablets, this`desiredPlacements,
               this`allocator
      ensures TopologyStep(TopologyView(), o)
           == OnceInitialized(clusterId, old(TopologyView()), CreateTopology(old(TopologyView()), request))
    {
      if clusterId.None? {
        return Rejected(NotInitialized);
      }
      if request.name in tableIdsByName {
        return Rejected(TableNameConflict);
      }
      var selected := SelectInitialPlacement(nodes);
      if selected.None? {
        return Rejected(NoRegisteredNodes);
      }
      var (voters, policy) := selected.value;
      var tableId, tabletId, group :=
        Next(allocator.maxTableId), Next(allocator.maxTabletId), Next(allocator.maxRaftGroupId);
      if tableId.None? {
        return Rejected(TableIdentitiesExhausted);
      }
      if tabletId.None? {
        return Rejected(TabletIdentitiesExhausted);
      }
      if group.None? {
        return Rejected(RaftGroupIdentitiesExhausted);
      }
      o := Publish(
        TableSchema(tableId.value, request.name, request.columns, request.primaryKey, 1, INITIAL_TABLET_COUNT),
        TabletDescriptor(tabletId.value, tableId.value, group.value, 1, Range([], [])),
        Placement(tabletId.value, 1, VoterReplicas(voters), policy));
    }

    method CheckPublication(table: TableSchema, tablet: TabletDescriptor, placement: Placement)
      returns (refusal: Option<Cause>)
      ensures refusal.Some? ==>
                CheckAndPublish(TopologyView(), table, tablet, placement)
                == RejectTopology(TopologyView(), refusal.value)
      ensures refusal.None? ==>
                CheckAndPublish(TopologyView(), table, tablet, placement)
                == TopologyStep(PublishTopology(TopologyView(), table, tablet, placement),
                                TableCreated(table.id, tablet.tabletId, tablet.raftGroupId))
    {
      var valid := ValidateSchema(table);
      if !valid {
        return Some(InvalidTable);
      }
      if !ValidTablet(tablet) {
        return Some(Malformed);
      }
      valid := ValidatePlacement(placement);
      if !valid {
        return Some(Malformed);
      }
      if table.id in tables || tablet.tabletId in tablets || tablet.raftGroupId in tabletIdsByRaftGroup {
        return Some(OccupiedIdentity);
      }
      return None;
    }

    /** Check everything, then write everything: observers never see a table without its tablet. */
    method Publish(table: TableSchema, tablet: TabletDescriptor, placement: Placement) returns (o: Outcome)
      modifies this`tables, this`tableIdsByName, this`tabletIdsByRaftGroup, this`tablets, this`desiredPlacements,
               this`allocator
      ensures TopologyStep(TopologyView(), o) == CheckAndPublish(old(TopologyView()), table, tablet, placement)
    {
      var refusal := CheckPublication(table, tablet, placement);
      if refusal.Some? {
        return Rejected(refusal.value);
      }
      WriteTopology(table, tablet, placement);
      o := TableCreated(table.id, tablet.tabletId, tablet.raftGroupId);
    }

    /** The publication itself: infallible insertions, then the marks. */
    method WriteTopology(table: TableSchema, tablet: TabletDescriptor, placement: Placement)
      modifies this`tables, this`tableIdsByName, this`tabletIdsByRaftGroup, this`tablets, this`desiredPlacements,
               this`allocator
      ensures TopologyView() == PublishTopology(old(TopologyView()), table, tablet, placement)
    {
      tables := tables[table.id := table];
      tableIdsByName := tableIdsByName[table.name := table.id];
      tabletIdsByRaftGroup := tabletIdsByRaftGroup[tablet.raftGroupId := tablet.tabletId];
      tablets := tablets[tablet.tabletId := tablet];
      desiredPlacements := desiredPlacements[tablet.tabletId := placement];
      allocator := allocator.(maxTableId := table.id, maxTabletId := tablet.tabletId, maxRaftGroupId := tablet.raftGroupId);
      if placement.replicas != [] {
        allocator := allocator.(maxReplicaId := MaxReplica(placement.replicas));
      }
    }

    // ---------- placements and retirements ----------

    method ApplyReplicaRetirement(r: Retirement) returns (o: Outcome)
      modifies this`retiredReplicas
      ensures TopologyStep(TopologyView(), o)
           == OnceInitialized(clusterId, old(TopologyView()), Retire(old(TopologyView()), r))
    {
      if clusterId.None? {
        return Rejected(NotInitialized);
      }
      if r.raftGroupId !in tabletIdsByRaftGroup {
        return Rejected(UnknownRaftGroup);
      }
      var tabletId, key := tabletIdsByRaftGroup[r.raftGroupId], (r.raftGroupId, r.replicaId);
      if tabletId in desiredPlacements
         && (exists x :: x in desiredPlacements[tabletId].replicas && x.replicaId == r.replicaId) {
        return Rejected(RetirementStillDesired);
      }
      if key in retiredReplicas {
        return if retiredReplicas[key] == r then AlreadyApplied else Rejected(RetirementProofConflict);
      }
      if tabletId !in desiredPlacements {
        return Rejected(UnknownTablet);
      }
      if desiredPlacements[tabletId].epoch != r.desiredEpoch {
        return Rejected(PlacementEpochMismatch);
      }
      retiredReplicas := retiredReplicas[key := r];
      o := Applied;
    }

    method ApplyDesiredPlacement(p: Placement) returns (o: Outcome)
      requires p.tabletId in desiredPlacements ==> CanonicalReplicas(desiredPlacements[p.tabletId].replicas)
      modifies this`desiredPlacements, this`allocator
      ensures TopologyStep(TopologyView(), o)
           == OnceInitialized(clusterId, old(TopologyView()), SetPlacement(old(TopologyView()), p))
    {
      if clusterId.None? {
        return Rejected(NotInitialized);
      }
      if p.tabletId !in tablets {
        return Rejected(UnknownTablet);
      }
      if p.tabletId in desiredPlacements && desiredPlacements[p.tabletId] == p {
        return AlreadyApplied;
      }
      var refusal := CheckPlacement(
        Topology(allocator, nodes, tables, tableIdsByName, tablets, tabletIdsByRaftGroup, tabletIdsByPartition,
                 desiredPlacements, retiredReplicas), p);
      if refusal.Some? {
        return Rejected(refusal.value);
      }
      allocator := allocator.(maxReplicaId := Max(allocator.maxReplicaId, MaxReplica(p.replicas)));
      desiredPlacements := desiredPlacements[p.tabletId := p];
      o := Applied;
    }

    method ApplySchemaUpdate(expectedVersion: U64, table: TableSchema) returns (o: Outcome)
      modifies this`tables, this`tableIdsByName
      ensures TopologyStep(TopologyView(), o)
           == OnceInitialized(clusterId, old(TopologyView()), EvolveTable(old(TopologyView()), expectedVersion, table))
    {
      if clusterId.None? {
        return Rejected(NotInitialized);
      }
      var valid := ValidateSchema(table);
      if !valid {
        return Rejected(InvalidTable);
      }
      if table.id !in tables {
        return Rejected(UnknownTable);
      }
      if tables[table.id] == table {
        return AlreadyApplied;
      }
      var refusal := CheckEvolution(expectedVersion, tables[table.id], table);
      if refusal.Some? {
        return Rejected(refusal.value);
      }
      tables := tables[table.id := table];
      tableIdsByName := tableIdsByName[table.name := table.id];
      o := Applied;
    }

    // ---------- commands and retries ----------

    method ApplyGcCommand(c: Command) returns (o: Outcome)
      requires IsGcCommand(c)
      modifies this`gcSafePoint, this`gcProtections
      ensures GcStep(GcView(), o) == GcOnceInitialized(clusterId, old(GcView()), ApplyGc(old(GcView()), c))
    {
      match c
      case RegisterGcProtection(p, _) => o := ApplyRegisterGcProtection(p);
      case UpdateGcProtection(p, nowMs) => o := ApplyUpdateGcProtection(p, nowMs);
      case RenewGcProtection(ownerId, protectionId, deadlineMs, nowMs) =>
        o := ApplyRenewGcProtection(ownerId, protectionId, deadlineMs, nowMs);
      case ReleaseGcProtection(ownerId, protectionId) => o := ApplyReleaseGcProtection(ownerId, protectionId);
      case AdvanceGcSafePoint(candidate, nowMs) => o := ApplyAdvanceGcSafePoint(candidate, nowMs);
    }

    method ApplySessionCommand(c: Command) returns (o: Outcome)
      requires IsSessionCommand(c)
      modifies this`clientSessions
      ensures SessionStep(clientSessions, o)
           == SessionsOnceInitialized(clusterId, old(clientSessions), ApplySession(old(clientSessions), c))
    {
      match c
      case RegisterClient(clientId, requested) => o := ApplyRegisterClient(clientId, requested);
      case RenewClient(clientId, epoch, acknowledged) => o := ApplyRenewClient(clientId, epoch, acknowledged);
    }

    method ApplyTopologyCommand(c: Command) returns (o: Outcome)
      requires IsTopologyCommand(c)
      requires forall k | k in desiredPlacements :: CanonicalReplicas(desiredPlacements[k].replicas)
      modifies this`allocator, this`nodes, this`tables, this`tableIdsByName, this`tablets, this`tabletIdsByRaftGroup,
               this`tabletIdsByPartition, this`desiredPlacements, this`retiredReplicas
      ensures TopologyStep(TopologyView(), o)
           == OnceInitialized(clusterId, old(TopologyView()), ApplyTopology(old(TopologyView()), c))
    {
      match c
      case RegisterNode(node) => o := ApplyRegisterNode(node);
      case SetNodeLifecycle(nodeId, to) => o := ApplySetNodeLifecycle(nodeId, to);
      case CreateTable(table) => o := ApplyCreateTable(table);
      case CreateTablet(tablet) => o := ApplyCreateTablet(tablet);
      case CreateTableTopology(request) => o := ApplyCreateTableTopology(request);
      case SetDesiredPlacement(p) => o := ApplyDesiredPlacement(p);
      case RecordRetirement(r) => o := ApplyReplicaRetirement(r);
      case UpdateTableSchema(expectedVersion, table) => o := ApplySchemaUpdate(expectedVersion, table);
    }

    ghost predicate CanonicalPlacements()
      reads this
    {
      forall k | k in desiredPlacements :: CanonicalReplicas(desiredPlacements[k].replicas)
    }

    method ApplyOnGc(c: Command) returns (o: Outcome)
      requires IsGcCommand(c)
      modifies this`gcSafePoint, this`gcProtections
      ensures Step(View(), o) == Dispatch(old(View()), c)
    {
      o := ApplyGcCommand(c);
      assert View() == old(View()).(gc := GcView());
    }

    method ApplyOnSessions(c: Command) returns (o: Outcome)
      requires IsSessionCommand(c)
      modifies this`clientSessions
      ensures Step(View(), o) == Dispatch(old(View()), c)
    {
      o := ApplySessionCommand(c);
      assert View() == old(View()).(clientSessions := clientSessions);
    }

    method ApplyOnTopology(c: Command) returns (o: Outcome)
      requires IsTopologyCommand(c) && CanonicalPlacements()
      modifies this
      ensures Step(View(), o) == Dispatch(old(View()), c)
    {
      o := ApplyTopologyCommand(c);
      assert View() == old(View()).(topology := TopologyView());
    }

    /** A command on one component: leases, sessions or topology. */
    method ApplyComponent(c: Command) returns (o: Outcome)
      requires CanonicalPlacements() && !c.ClusterInitialized? && !c.ReserveTimestamps?
      modifies this
      ensures Step(View(), o) == Dispatch(old(View()), c)
    {
      if IsGcCommand(c) {
        o := ApplyOnGc(c);
      } else if IsSessionCommand(c) {
        o := ApplyOnSessions(c);
      } else {
        o := ApplyOnTopology(c);
      }
    }

    method ApplyValid(c: Command) returns (o: Outcome)
      requires CanonicalPlacements()
      modifies this
      ensures Step(View(), o) == Dispatch(old(View()), c)
    {
      if c.ClusterInitialized? {
        o := ApplyClusterInitialized(c.clusterId);
      } else if c.ReserveTimestamps? {
        o := ApplyReserveTimestamps(c.reservedUntil);
      } else {
        o := ApplyComponent(c);
      }
    }

    /** Validate, then dispatch to the handler. */
    method ApplyCommand(c: Command) returns (o: Outcome)
      requires CanonicalPlacements()
      modifies this
      ensures Step(View(), o) == MetadataSpec.Apply(old(View()), c)
    {
      var valid := ValidateCommand(c);
      if !valid {
        return Rejected(Malformed);
      }
      o := ApplyValid(c);
    }

    /** One committed command. */
    method Apply(c: Command) returns (o: Outcome)
      requires Valid()
      modifies this
      ensures Step(View(), o) == MetadataSpec.Apply(old(View()), c)
      ensures Valid()
    {
      StoredPlacementsAreCanonical(View());
      EntryKeepsInv(View(), Bare(c));
      o := ApplyCommand(c);
    }

    /** Execute once per identity, answer from the cache afterwards. */
    method ApplyOnce(id: LogicalCommandId, c: Command) returns (o: Outcome)
      requires CanonicalPlacements()
      modifies this
      ensures Step(View(), o) == ApplyLogged(old(View()), id, c)
    {
      if id in requestDeduplication {
        return FromCached(requestDeduplication[id]);
      }
      o := ApplyCommand(c);
      requestDeduplication := requestDeduplication[id := ToCached(o)];
    }

    /** One committed command under its retry identity. */
    method ApplyWithLogicalCommandId(id: LogicalCommandId, c: Command) returns (o: Outcome)
      requires Valid()
      modifies this
      ensures Step(View(), o) == ApplyLogged(old(View()), id, c)
      ensures Valid()
    {
      StoredPlacementsAreCanonical(View());
      EntryKeepsInv(View(), Logged(id, c));
      o := ApplyOnce(id, c);
    }

    method ApplyWithRequestId(request: RequestId, c: Command) returns (o: Outcome)
      requires Valid()
      modifies this
      ensures Step(View(), o) == ApplyLogged(old(View()), CompatibilityId(request), c)
      ensures Valid()
    {
      o := ApplyWithLogicalCommandId(CompatibilityId(request), c);
    }
  }

  lemma StoredPlacementsAreCanonical(s: State)
    requires Inv(s)
    ensures forall k | k in s.topology.desiredPlacements :: CanonicalReplicas(s.topology.desiredPlacements[k].replicas)
  {
  }
}
