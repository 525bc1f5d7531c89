/** Commands, descriptors and outcomes of the metadata Raft group. */
module MetadataTypes {
  import opened Base
  import opened ByteOrder
  import opened Schema

  /** An endpoint text together with the verdict of the socket-address parser on it. */
  datatype Endpoint = Endpoint(text: string, parses: bool)

  datatype Lifecycle = Active | Draining | Decommissioning | Decommissioned | Tombstoned

  datatype NodeDescriptor = NodeDescriptor(
    nodeId: U64,
    raftAddr: Endpoint,
    snapshotAddr: Endpoint,
    sqlAddr: Endpoint,
    adminAddr: Endpoint,
    region: Option<string>,
    zone: Option<string>,
    rack: Option<string>,
    storageClass: string,
    lifecycle: Lifecycle)

  datatype Partition =
    | Hash(bucket: U32, bucketCount: U32)
    | Range(startKey: Key, endKey: Key)

  datatype TabletDescriptor = TabletDescriptor(
    tabletId: U64,
    tableId: U64,
    raftGroupId: U64,
    tabletEpoch: U64,
    partition: Partition)

  datatype Role = Voter | Learner

  datatype Replica = Replica(replicaId: U64, nodeId: U64, role: Role)

  datatype PlacementPolicy = PlacementPolicy(
    replicationFactor: U32,
    minRegions: U32,
    minZones: U32,
    minRacks: U32,
    storageClass: Option<string>,
    preferredLeaders: seq<U64>)

  datatype Placement = Placement(
    tabletId: U64,
    epoch: U64,
    replicas: seq<Replica>,
    policy: PlacementPolicy)

  datatype Retirement = Retirement(
    raftGroupId: U64,
    replicaId: U64,
    desiredEpoch: U64,
    confStateVersion: U64,
    removalIndex: U64,
    removalTerm: U64)

  datatype GcProtection = GcProtection(
    ownerId: U128,
    protectionId: U128,
    timestamp: U64,
    deadlineMs: U64)

  datatype ClientSession = ClientSession(
    clientId: U128,
    epoch: U64,
    acknowledgedThrough: U64,
    firstRetained: U64)

  datatype CreateTableRequest = CreateTableRequest(
    name: string,
    columns: seq<Column>,
    primaryKey: seq<U64>)

  datatype Command =
    | ClusterInitialized(clusterId: string)
    | RegisterClient(clientId: U128, requestedEpoch: U64)
    | RenewClient(clientId: U128, epoch: U64, acknowledgedThrough: U64)
    | ReserveTimestamps(reservedUntil: U64)
    | RegisterGcProtection(protection: GcProtection, nowMs: U64)
    | UpdateGcProtection(protection: GcProtection, nowMs: U64)
    | RenewGcProtection(ownerId: U128, protectionId: U128, deadlineMs: U64, nowMs: U64)
    | ReleaseGcProtection(ownerId: U128, protectionId: U128)
    | AdvanceGcSafePoint(candidate: U64, nowMs: U64)
    | RegisterNode(node: NodeDescriptor)
    | SetNodeLifecycle(nodeId: U64, lifecycle: Lifecycle)
    | CreateTable(table: TableSchema)
    | CreateTablet(tablet: TabletDescriptor)
    | CreateTableTopology(request: CreateTableRequest)
    | SetDesiredPlacement(placement: Placement)
    | RecordRetirement(retirement: Retirement)
    | UpdateTableSchema(expectedVersion: U64, table: TableSchema)

  /**
   * Why a committed command was refused. The identities and counts that would only feed error
   * text are not kept.
   */
  datatype Cause =
    | Malformed
    | RangeOverlap
    | OccupiedIdentity
    | NotInitialized
    | ClusterConflict
    | UnknownClient
    | ClientSessionEpochConflict
    | ClientSessionEpochExhausted
    | AcknowledgementRegression
    | RetryHorizonExhausted
    | NodeIdConflict
    | InvalidLifecycleTransition
    | NodeStillExpected
    | NodeEndpointConflict
    | InvalidTable
    | TableIdConflict
    | TableNameConflict
    | NoRegisteredNodes
    | TableIdentitiesExhausted
    | TabletIdentitiesExhausted
    | RaftGroupIdentitiesExhausted
    | UnknownGcProtection
    | GcProtectionIdentityConflict
    | GcProtectionRegistrationConflict
    | ExpiredGcProtection
    | GcProtectionDeadlineRegressed
    | GcProtectionBelowSafePoint
    | GcSafePointRegressed
    | UnknownTable
    | TabletIdConflict
    | RaftGroupConflict
    | PartitionCountMismatch
    | PartitionConflict
    | TabletCountExceeded
    | UnknownTablet
    | UnknownNode
    | NodeNotEligible
    | PlacementDomainUnsatisfied
    | PlacementStorageClassMismatch
    | InitialPlacementEpoch
    | PlacementEpochMismatch
    | PlacementEpochExhausted
    | RetiredReplicaReuse
    | UnknownRaftGroup
    | RetirementStillDesired
    | RetirementProofConflict
    | ReplicaHostChanged
    | UnsupportedVoterDemotion
    | SchemaPreconditionMismatch
    | SchemaVersionExhausted
    | SchemaVersionNotNext
    | TableRenameNotSupported
    | TabletCountChangeNotSupported
    | PrimaryKeyChangeNotSupported
    | ExistingColumnChanged
    | AddedColumnMustBeNullable
    | ColumnIdReuse

  /** The three locality labels a placement policy counts. */
  datatype Domain = Region | Zone | Rack

  datatype Outcome =
    | Applied
    | AlreadyApplied
    | ClientRegistered(clientId: U128, epoch: U64)
    | ClientRenewed
    | TimestampsReserved(reservedFrom: U64, reservedUntil: U64)
    | TableCreated(tableId: U64, tabletId: U64, raftGroupId: U64)
    | Rejected(cause: Cause)
    /** The rejection `TimestampReservationRegressed`, the only one cached with its numbers. */
    | ReservationRegressed(current: U64, received: U64)
    /** `InvalidCommand` carrying the displayed text of the original cause. */
    | RejectedAgain(cause: Cause)
  {
    predicate ChangedState() {
      !AlreadyApplied? && !Rejected? && !ReservationRegressed? && !RejectedAgain?
    }
  }

  datatype CachedOutcome =
    | CachedApplied
    | CachedAlreadyApplied
    | CachedClientRegistered(clientId: U128, epoch: U64)
    | CachedClientRenewed
    | CachedTableCreated(tableId: U64, tabletId: U64, raftGroupId: U64)
    | CachedTimestampsReserved(reservedFrom: U64, reservedUntil: U64)
    | CachedReservationRegressed(current: U64, received: U64)
    /** The displayed text of the cause. */
    | CachedRejected(cause: Cause)

  datatype CommandKind =
    Read | Prewrite | Commit | Rollback | ResolveIntent | SingleShardCommit | Catalog | Noop

  datatype LogicalCommandId = LogicalCommandId(
    clientId: U128,
    sessionEpoch: U64,
    requestSequence: U64,
    ordinal: U32,
    kind: CommandKind)

  datatype RequestId = RequestId(clientId: U128, sequence: U64, raftGroupId: U64)

  const METADATA_RAFT_GROUP: U64 := 2
  const LEGACY_RAFT_GROUP: U64 := 1
  const INITIAL_TABLE_MARK: U64 := 1
  const INITIAL_TABLET_MARK: U64 := 1
  const INITIAL_RAFT_GROUP_MARK: U64 := METADATA_RAFT_GROUP
}
