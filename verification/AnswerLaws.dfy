/** What commands answer: initialization, reservations, retry identities, and why one is refused. */
module AnswerLaws {
  import opened Base
  import opened Schema
  import opened MetadataTypes
  import opened InitialPlacement
  import opened MetadataSpec
  import opened Locality
  import opened MetadataEffects
  import opened MetadataSteps
  import opened MetadataRuns
  import opened TopologyLaws

  // ---------- initialization and reservations ----------

  /** The first proper identity is kept; the same one again is repeated, any other conflicts. */
  lemma InitializationLaw(s: State, clusterId: string)
    requires clusterId != [] && !IsWhiteSpace(clusterId[0])
    ensures var r := Apply(s, ClusterInitialized(clusterId));
            && (r.outcome == Applied <==> s.clusterId == None)
            && (r.outcome == AlreadyApplied <==> s.clusterId == Some(clusterId))
            && (r.outcome == Rejected(ClusterConflict) <==> s.clusterId.Some? && s.clusterId.value != clusterId)
            && r.state == if s.clusterId == None then s.(clusterId := Some(clusterId)) else s
  {
  }

  /** Over a run the identity that was set first is the one that stays. */
  lemma {:induction false} ClusterIsPermanent(log: seq<Entry>, i: nat, j: nat)
    requires i <= j <= |log| && At(log, i).clusterId.Some?
    ensures At(log, j).clusterId == At(log, i).clusterId
    decreases j - i
  {
    if i < j {
      ClusterIsPermanent(log, i, j - 1);
      AtProgress(log, j - 1);
    }
  }

  /** A reservation hands out exactly what lies above the frontier, or names both numbers. */
  lemma ReservationLaw(s: State, until: U64)
    requires s.clusterId.Some? && until != 0
    ensures Apply(s, ReserveTimestamps(until))
         == if s.timestampReservedUntil < until
            then Step(s.(timestampReservedUntil := until), TimestampsReserved(s.timestampReservedUntil + 1, until))
            else Step(s, ReservationRegressed(s.timestampReservedUntil, until))
  {
  }

  // ---------- retry identities ----------

  /** Requests of the metadata group keep different retry identities, in the catalog's first session. */
  lemma CompatibilityIdLaw(a: RequestId, b: RequestId)
    ensures CompatibilityId(a) == CompatibilityId(b) <==> a.clientId == b.clientId && a.sequence == b.sequence
    ensures CompatibilityId(a).clientId == a.clientId && CompatibilityId(a).requestSequence == a.sequence
    ensures CompatibilityId(a).sessionEpoch == 1 && CompatibilityId(a).ordinal == 1 && CompatibilityId(a).kind == Catalog
  {
  }

  // ---------- rejections ----------

  /** The stated cause is a fact about the leases before a garbage-collection command. */
  predicate GcCauseHolds(g: Gc, c: Command, cause: Cause) {
    match c
    case RegisterGcProtection(p, _) =>
      var key := (p.ownerId, p.protectionId);
      && (cause == GcProtectionBelowSafePoint ==> p.timestamp < g.safePoint)
      && (cause == GcProtectionIdentityConflict ==> key in g.protections && g.protections[key].timestamp != p.timestamp)
      && (cause == GcProtectionRegistrationConflict ==>
            key in g.protections && g.protections[key].timestamp == p.timestamp)
      && cause in {GcProtectionBelowSafePoint, GcProtectionIdentityConflict, GcProtectionRegistrationConflict}
    case UpdateGcProtection(p, nowMs) =>
      var key := (p.ownerId, p.protectionId);
      && (cause == GcProtectionBelowSafePoint ==> p.timestamp < g.safePoint)
      && (cause == UnknownGcProtection ==> key !in g.protections)
      && (cause == ExpiredGcProtection ==> key in g.protections && g.protections[key].deadlineMs <= nowMs)
      && (cause == GcProtectionDeadlineRegressed ==> key in g.protections && p.deadlineMs < g.protections[key].deadlineMs)
      && cause in {GcProtectionBelowSafePoint, UnknownGcProtection, ExpiredGcProtection, GcProtectionDeadlineRegressed}
    case RenewGcProtection(ownerId, protectionId, deadlineMs, nowMs) =>
      var key := (ownerId, protectionId);
      && (cause == UnknownGcProtection ==> key !in g.protections)
      && (cause == ExpiredGcProtection ==> key in g.protections && g.protections[key].deadlineMs <= nowMs)
      && (cause == GcProtectionDeadlineRegressed ==> key in g.protections && deadlineMs < g.protections[key].deadlineMs)
      && cause in {UnknownGcProtection, ExpiredGcProtection, GcProtectionDeadlineRegressed}
    case AdvanceGcSafePoint(candidate, _) => cause == GcSafePointRegressed && candidate < g.safePoint
    case _ => false
  }

  lemma GcRejectionsAreTrue(g: Gc, c: Command, cause: Cause)
    requires IsGcCommand(c) && ApplyGc(g, c).outcome == Rejected(cause)
    ensures GcCauseHolds(g, c, cause)
  {
  }

  predicate SessionCauseHolds(m: Sessions, c: Command, cause: Cause) {
    match c
    case RegisterClient(clientId, requested) =>
      && clientId in m
      && (cause == ClientSessionEpochConflict ==> requested != m[clientId].epoch && requested != 0
                                                  && requested != m[clientId].epoch + 1)
      && (cause == ClientSessionEpochExhausted ==> m[clientId].epoch == U64_MAX)
      && cause in {ClientSessionEpochConflict, ClientSessionEpochExhausted}
    case RenewClient(clientId, epoch, acknowledged) =>
      && (cause == UnknownClient ==> clientId !in m)
      && (cause == ClientSessionEpochConflict ==> clientId in m && m[clientId].epoch != epoch)
      && (cause == AcknowledgementRegression ==> clientId in m && acknowledged < m[clientId].acknowledgedThrough)
      && (cause == RetryHorizonExhausted ==> clientId in m && acknowledged == U64_MAX)
      && cause in {UnknownClient, ClientSessionEpochConflict, AcknowledgementRegression, RetryHorizonExhausted}
    case _ => false
  }

  lemma SessionRejectionsAreTrue(m: Sessions, c: Command, cause: Cause)
    requires IsSessionCommand(c) && ApplySession(m, c).outcome == Rejected(cause)
    ensures SessionCauseHolds(m, c, cause)
  {
  }

  predicate NodeCauseHolds(t: Topology, nodeId: U64, to: Lifecycle, cause: Cause) {
    && (cause == UnknownNode ==> nodeId !in t.nodes)
    && (cause == InvalidLifecycleTransition ==> nodeId in t.nodes && !OneStep(t.nodes[nodeId].lifecycle, to))
    && (cause == NodeStillExpected ==>
          && to in {Decommissioned, Tombstoned}
          && exists k, r :: k in t.desiredPlacements && r in t.desiredPlacements[k].replicas && r.nodeId == nodeId)
    && cause in {UnknownNode, InvalidLifecycleTransition, NodeStillExpected}
  }

  lemma LifecycleRejectionsAreTrue(t: Topology, nodeId: U64, to: Lifecycle, cause: Cause)
    requires AdvanceLifecycle(t, nodeId, to).outcome == Rejected(cause)
    ensures NodeCauseHolds(t, nodeId, to, cause)
  {
  }

  predicate TableCauseHolds(t: Topology, table: TableSchema, cause: Cause) {
    && (cause == InvalidTable ==> !ValidSchema(table))
    && (cause == TableIdConflict ==> table.id in t.tables && t.tables[table.id] != table)
    && (cause == TableNameConflict ==> table.name in t.tableIdsByName)
    && cause in {InvalidTable, TableIdConflict, TableNameConflict}
  }

  lemma TableRejectionsAreTrue(t: Topology, table: TableSchema, cause: Cause)
    requires AddTable(t, table).outcome == Rejected(cause)
    ensures TableCauseHolds(t, table, cause)
  {
  }

  /** The table already has as many tablets as it may have. */
  predicate Full(t: Topology, tableId: U64) {
    && tableId in t.tables
    && |set k | k in t.tablets && t.tablets[k].tableId == tableId| >= t.tables[tableId].tabletCount
  }

  predicate PartitionCauseHolds(t: Topology, tablet: TabletDescriptor, cause: Cause) {
    match tablet.partition
    case Hash(bucket, bucketCount) =>
      && tablet.tableId in t.tables
      && (cause == PartitionCountMismatch ==> bucketCount != t.tables[tablet.tableId].tabletCount)
      && (cause == PartitionConflict ==> (tablet.tableId, bucket) in t.tabletIdsByPartition)
      && (cause == TabletCountExceeded ==> Full(t, tablet.tableId))
      && cause in {PartitionCountMismatch, PartitionConflict, TabletCountExceeded}
    case Range(_, _) => cause == RangeOverlap && exists k :: k in t.tablets && OverlappingTablets(tablet, t.tablets[k])
  }

  lemma PartitionRejectionsAreTrue(t: Topology, tablet: TabletDescriptor, cause: Cause)
    requires tablet.tableId in t.tables && PartitionRejection(t, tablet) == Some(cause)
    ensures PartitionCauseHolds(t, tablet, cause)
  {
    assert TabletsOf(t.tablets, tablet.tableId) == set k | k in t.tablets && t.tablets[k].tableId == tablet.tableId;
  }

  predicate TabletCauseHolds(t: Topology, tablet: TabletDescriptor, cause: Cause) {
    match cause
    case TabletIdConflict => tablet.tabletId in t.tablets && t.tablets[tablet.tabletId] != tablet
    case RaftGroupConflict => tablet.raftGroupId in t.tabletIdsByRaftGroup
    case UnknownTable => tablet.tableId !in t.tables
    case _ => PartitionCauseHolds(t, tablet, cause)
  }

  lemma TabletRejectionsAreTrue(t: Topology, tablet: TabletDescriptor, cause: Cause)
    requires AddTablet(t, tablet).outcome == Rejected(cause)
    ensures TabletCauseHolds(t, tablet, cause)
  {
    if tablet.tableId in t.tables && PartitionRejection(t, tablet) == Some(cause) {
      PartitionRejectionsAreTrue(t, tablet, cause);
    }
  }

  predicate CreateCauseHolds(t: Topology, request: CreateTableRequest, cause: Cause) {
    && (cause == TableNameConflict ==> request.name in t.tableIdsByName)
    && (cause == NoRegisteredNodes ==> forall k | k in t.nodes :: t.nodes[k].lifecycle != Active)
    && (cause == TableIdentitiesExhausted ==> t.allocator.maxTableId == U64_MAX)
    && (cause == TabletIdentitiesExhausted ==> t.allocator.maxTabletId == U64_MAX)
    && (cause == RaftGroupIdentitiesExhausted ==> t.allocator.maxRaftGroupId == U64_MAX)
  }

  lemma NoneActive(nodes: Directory)
    requires ActiveNodes(nodes) == {}
    ensures forall k | k in nodes :: nodes[k].lifecycle != Active
  {
    forall k | k in nodes ensures nodes[k].lifecycle != Active {
      assert k !in ActiveNodes(nodes);
    }
  }

  lemma EarlyCreateCause(t: Topology, request: CreateTableRequest)
    requires || request.name in t.tableIdsByName || ActiveNodes(t.nodes) == {} || t.allocator.maxTableId == U64_MAX
             || t.allocator.maxTabletId == U64_MAX || t.allocator.maxRaftGroupId == U64_MAX
    ensures CreateTopology(t, request).outcome.Rejected?
    ensures CreateCauseHolds(t, request, CreateTopology(t, request).outcome.cause)
  {
    if ActiveNodes(t.nodes) == {} {
      NoneActive(t.nodes);
    }
  }

  lemma LateCreateCause(t: Topology, table: TableSchema, tablet: TabletDescriptor, p: Placement, cause: Cause)
    requires CheckAndPublish(t, table, tablet, p).outcome == Rejected(cause)
    ensures cause in {InvalidTable, Malformed, OccupiedIdentity}
  {
  }

  lemma CreateRejectionsAreTrue(t: Topology, request: CreateTableRequest, cause: Cause)
    requires CreateTopology(t, request).outcome == Rejected(cause)
    ensures CreateCauseHolds(t, request, cause)
  {
    var a := t.allocator;
    if request.name in t.tableIdsByName || ActiveNodes(t.nodes) == {} || a.maxTableId == U64_MAX
       || a.maxTabletId == U64_MAX || a.maxRaftGroupId == U64_MAX {
      EarlyCreateCause(t, request);
    } else {
      var tableId, tabletId, group := a.maxTableId + 1, a.maxTabletId + 1, a.maxRaftGroupId + 1;
      CreateUnfolds(t, request, tableId, tabletId, group);
      LateCreateCause(t, NewTable(tableId, request), FirstTablet(tableId, tabletId, group),
                      FirstPlacement(t.nodes, tabletId), cause);
    }
  }

  predicate RetirementCauseHolds(t: Topology, r: Retirement, cause: Cause) {
    && (cause == UnknownRaftGroup ==> r.raftGroupId !in t.tabletIdsByRaftGroup)
    && (cause != UnknownRaftGroup ==>
          && r.raftGroupId in t.tabletIdsByRaftGroup
          && var k := t.tabletIdsByRaftGroup[r.raftGroupId];
             && (cause == RetirementStillDesired ==>
                   k in t.desiredPlacements
                   && exists x :: x in t.desiredPlacements[k].replicas && x.replicaId == r.replicaId)
             && (cause == RetirementProofConflict ==>
                   (r.raftGroupId, r.replicaId) in t.retiredReplicas
                   && t.retiredReplicas[(r.raftGroupId, r.replicaId)] != r)
             && (cause == UnknownTablet ==> k !in t.desiredPlacements)
             && (cause == PlacementEpochMismatch ==>
                   k in t.desiredPlacements && t.desiredPlacements[k].epoch != r.desiredEpoch))
    && cause in {UnknownRaftGroup, RetirementStillDesired, RetirementProofConflict, UnknownTablet, PlacementEpochMismatch}
  }

  lemma RetirementRejectionsAreTrue(t: Topology, r: Retirement, cause: Cause)
    requires Retire(t, r).outcome == Rejected(cause)
    ensures RetirementCauseHolds(t, r, cause)
  {
  }

  predicate EvolutionCauseHolds(expectedVersion: U64, prior: TableSchema, table: TableSchema, cause: Cause) {
    match cause
    case SchemaPreconditionMismatch => expectedVersion != prior.version
    case SchemaVersionExhausted => prior.version == U64_MAX
    case SchemaVersionNotNext => table.version != prior.version + 1
    case TableRenameNotSupported => table.name != prior.name
    case TabletCountChangeNotSupported => table.tabletCount != prior.tabletCount
    case PrimaryKeyChangeNotSupported => table.primaryKey != prior.primaryKey
    case ExistingColumnChanged => !(prior.columns <= table.columns)
    case ColumnIdReuse =>
      exists j :: |prior.columns| <= j < |table.columns| && table.columns[j].id <= MaxColumnId(prior.columns)
    case AddedColumnMustBeNullable =>
      exists j :: |prior.columns| <= j < |table.columns| && !table.columns[j].nullable
    case _ => false
  }

  lemma {:induction false} AddedCause(added: seq<Column>, maxExisting: U64, cause: Cause) returns (j: nat)
    requires AddedColumnRejection(added, maxExisting) == Some(cause)
    ensures j < |added|
    ensures (cause == ColumnIdReuse && added[j].id <= maxExisting)
         || (cause == AddedColumnMustBeNullable && !added[j].nullable)
  {
    if added[0].id <= maxExisting || !added[0].nullable {
      j := 0;
    } else {
      j := AddedCause(added[1..], maxExisting, cause);
      j := j + 1;
    }
  }

  lemma AddedRejectionsAreTrue(expectedVersion: U64, prior: TableSchema, table: TableSchema, cause: Cause)
    requires |prior.columns| <= |table.columns|
    requires AddedColumnRejection(table.columns[|prior.columns|..], MaxColumnId(prior.columns)) == Some(cause)
    ensures EvolutionCauseHolds(expectedVersion, prior, table, cause)
  {
    var n := |prior.columns|;
    var j := AddedCause(table.columns[n..], MaxColumnId(prior.columns), cause);
    assert table.columns[n + j] == table.columns[n..][j];
  }

  lemma EvolutionRejectionsAreTrue(expectedVersion: U64, prior: TableSchema, table: TableSchema, cause: Cause)
    requires EvolutionRejection(expectedVersion, prior, table) == Some(cause)
    ensures EvolutionCauseHolds(expectedVersion, prior, table, cause)
  {
    var n := |prior.columns|;
    if n <= |table.columns| {
      if AddedColumnRejection(table.columns[n..], MaxColumnId(prior.columns)) == Some(cause) {
        AddedRejectionsAreTrue(expectedVersion, prior, table, cause);
      }
      if prior.columns <= table.columns {
        assert forall i | 0 <= i < n :: table.columns[i] == prior.columns[i];
      }
    }
  }

  /** Why a schema update is refused. */
  lemma UpdateRejectionsAreTrue(t: Topology, expectedVersion: U64, table: TableSchema, cause: Cause)
    requires EvolveTable(t, expectedVersion, table).outcome == Rejected(cause)
    ensures if !ValidSchema(table) then cause == InvalidTable
            else if table.id !in t.tables then cause == UnknownTable
            else EvolutionCauseHolds(expectedVersion, t.tables[table.id], table, cause)
  {
    if ValidSchema(table) && table.id in t.tables {
      EvolutionRejectionsAreTrue(expectedVersion, t.tables[table.id], table, cause);
    }
  }

  // ---------- refused placements ----------

  predicate ReplicaCauseHolds(t: Topology, p: Placement, cause: Cause)
    requires p.tabletId in t.tablets
  {
    match cause
    case UnknownNode => exists r :: r in p.replicas && r.nodeId !in t.nodes
    case NodeNotEligible => exists r :: r in p.replicas && r.nodeId in t.nodes && t.nodes[r.nodeId].lifecycle != Active
    case PlacementStorageClassMismatch =>
      && p.policy.storageClass.Some?
      && exists r :: r in p.replicas && r.nodeId in t.nodes && t.nodes[r.nodeId].storageClass != p.policy.storageClass.value
    case RetiredReplicaReuse =>
      exists r :: r in p.replicas && (t.tablets[p.tabletId].raftGroupId, r.replicaId) in t.retiredReplicas
    case _ => false
  }

  lemma {:induction false} ReplicaCause(nodes: Directory, retired: Retirements, group: U64, existing: Option<Placement>,
                                        policy: PlacementPolicy, rs: seq<Replica>, cause: Cause) returns (r: Replica)
    requires FirstReplicaRejection(nodes, retired, group, existing, policy, rs) == Some(cause)
    ensures r in rs && ReplicaRejection(nodes, retired, group, existing, policy, r) == Some(cause)
    decreases |rs|
  {
    if ReplicaRejection(nodes, retired, group, existing, policy, rs[0]).Some? {
      r := rs[0];
    } else {
      r := ReplicaCause(nodes, retired, group, existing, policy, rs[1..], cause);
    }
  }

  predicate LeaderCauseHolds(nodes: Directory, leaders: seq<U64>, cause: Cause) {
    match cause
    case UnknownNode => exists n :: n in leaders && n !in nodes
    case NodeNotEligible => exists n :: n in leaders && n in nodes && nodes[n].lifecycle != Active
    case _ => false
  }

  lemma {:induction false} LeaderCause(nodes: Directory, leaders: seq<U64>, cause: Cause)
    requires FirstLeaderRejection(nodes, leaders) == Some(cause)
    ensures LeaderCauseHolds(nodes, leaders, cause)
  {
    assert leaders[0] in leaders;
    if leaders[0] in nodes && nodes[leaders[0]].lifecycle.Active? {
      LeaderCause(nodes, leaders[1..], cause);
    }
  }

  predicate MemberCauseHolds(prior: seq<Replica>, rs: seq<Replica>, cause: Cause) {
    match cause
    case ReplicaHostChanged =>
      exists x, r :: x in prior && r in rs && x.replicaId == r.replicaId && x.nodeId != r.nodeId
    case UnsupportedVoterDemotion =>
      exists x, r :: x in prior && r in rs && x.replicaId == r.replicaId && x.role == Voter && r.role == Learner
    case _ => false
  }

  lemma {:induction false} MemberCause(prior: seq<Replica>, r: Replica, cause: Cause) returns (x: Replica)
    requires MemberRejection(prior, r) == Some(cause)
    ensures x in prior && x.replicaId == r.replicaId
    ensures (cause == ReplicaHostChanged && x.nodeId != r.nodeId)
         || (cause == UnsupportedVoterDemotion && x.role == Voter && r.role == Learner)
  {
    if prior[0].replicaId == r.replicaId && (prior[0].nodeId != r.nodeId || (prior[0].role.Voter? && r.role.Learner?)) {
      x := prior[0];
    } else {
      x := MemberCause(prior[1..], r, cause);
    }
  }

  lemma {:induction false} MembersCause(prior: seq<Replica>, rs: seq<Replica>, cause: Cause)
    requires FirstMemberRejection(prior, rs) == Some(cause)
    ensures MemberCauseHolds(prior, rs, cause)
  {
    assert rs[0] in rs;
    if MemberRejection(prior, rs[0]).Some? {
      var x := MemberCause(prior, rs[0], cause);
    } else {
      MembersCause(prior, rs[1..], cause);
    }
  }

  predicate EpochCauseHolds(t: Topology, p: Placement, cause: Cause) {
    if p.tabletId !in t.desiredPlacements then cause == InitialPlacementEpoch && p.epoch != 1
    else
      var prior := t.desiredPlacements[p.tabletId];
      match cause
      case PlacementEpochExhausted => prior.epoch == U64_MAX
      case PlacementEpochMismatch => p.epoch != prior.epoch + 1
      case _ => MemberCauseHolds(prior.replicas, p.replicas, cause)
  }

  lemma EpochRejectionsAreTrue(t: Topology, p: Placement, cause: Cause)
    requires EpochRejection(Existing(t, p.tabletId), p) == Some(cause)
    ensures EpochCauseHolds(t, p, cause)
  {
    if p.tabletId in t.desiredPlacements {
      var prior := t.desiredPlacements[p.tabletId];
      if FirstMemberRejection(prior.replicas, p.replicas) == Some(cause) {
        MembersCause(prior.replicas, p.replicas, cause);
      }
    }
  }

  lemma ReplicaRejectionsAreTrue(t: Topology, p: Placement, cause: Cause)
    requires p.tabletId in t.tablets
    requires FirstReplicaRejection(t.nodes, t.retiredReplicas, t.tablets[p.tabletId].raftGroupId,
                                   Existing(t, p.tabletId), p.policy, p.replicas) == Some(cause)
    ensures ReplicaCauseHolds(t, p, cause)
  {
    var r := ReplicaCause(t.nodes, t.retiredReplicas, t.tablets[p.tabletId].raftGroupId, Existing(t, p.tabletId),
                          p.policy, p.replicas, cause);
  }

  predicate CheckCauseHolds(t: Topology, p: Placement, cause: Cause)
    requires p.tabletId in t.tablets
  {
    || ReplicaCauseHolds(t, p, cause)
    || LeaderCauseHolds(t.nodes, p.policy.preferredLeaders, cause)
    || (cause == PlacementDomainUnsatisfied && !MeetsMinimums(t.nodes, p))
    || EpochCauseHolds(t, p, cause)
  }

  lemma DomainCause(nodes: Directory, p: Placement, cause: Cause)
    requires FirstDomainRejection(nodes, p) == Some(cause)
    ensures cause == PlacementDomainUnsatisfied && !MeetsMinimums(nodes, p)
  {
    DomainsAcceptedIff(nodes, p);
  }

  lemma CheckRejectionsAreTrue(t: Topology, p: Placement, cause: Cause)
    requires p.tabletId in t.tablets && PlacementRejection(t, p) == Some(cause)
    ensures CheckCauseHolds(t, p, cause)
  {
    var group, existing := t.tablets[p.tabletId].raftGroupId, Existing(t, p.tabletId);
    if FirstReplicaRejection(t.nodes, t.retiredReplicas, group, existing, p.policy, p.replicas).Some? {
      ReplicaRejectionsAreTrue(t, p, cause);
    } else if FirstLeaderRejection(t.nodes, p.policy.preferredLeaders).Some? {
      LeaderCause(t.nodes, p.policy.preferredLeaders, cause);
    } else if FirstDomainRejection(t.nodes, p).Some? {
      DomainCause(t.nodes, p, cause);
    } else {
      EpochRejectionsAreTrue(t, p, cause);
    }
  }

  /** Why a desired placement is refused. */
  lemma PlacementRejectionsAreTrue(t: Topology, p: Placement, cause: Cause)
    requires SetPlacement(t, p).outcome == Rejected(cause)
    ensures if p.tabletId !in t.tablets then cause == UnknownTablet else CheckCauseHolds(t, p, cause)
  {
    if p.tabletId in t.tablets {
      CheckRejectionsAreTrue(t, p, cause);
    }
  }
}
