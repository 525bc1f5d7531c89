/** Structural checks every committed command passes before it reaches the state machine. */
module Validation {
  import opened Base
  import opened ByteOrder
  import opened Schema
  import opened MetadataTypes

  function Endpoints(n: NodeDescriptor): (es: seq<Endpoint>)
    ensures |es| == 4
  {
    [n.raftAddr, n.snapshotAddr, n.sqlAddr, n.adminAddr]
  }

  predicate ValidEndpoint(e: Endpoint) {
    !IsBlank(e.text) && e.parses
  }

  predicate ValidNode(n: NodeDescriptor) {
    && n.nodeId != 0
    && (forall i | 0 <= i < 4 :: ValidEndpoint(Endpoints(n)[i]))
    && (forall i, j | 0 <= i < j < 4 :: Endpoints(n)[i] != Endpoints(n)[j])
    && !IsBlank(n.storageClass)
  }

  /** The codec's shallow table check; the catalog's full check is `ValidSchema`. */
  predicate ValidTableShape(t: TableSchema) {
    t.id != 0 && !IsBlank(t.name) && t.version != 0 && t.tabletCount != 0
  }

  predicate ValidRequest(r: CreateTableRequest) {
    && !IsBlank(r.name)
    && r.columns != []
    && ValidColumns(r.columns)
    && r.primaryKey != []
    && (forall i | 0 <= i < |r.primaryKey| :: r.primaryKey[i] != 0)
    && ValidPrimaryKey(r.columns, r.primaryKey)
  }

  predicate ValidPartition(p: Partition) {
    match p
    case Hash(bucket, bucketCount) => bucketCount != 0 && bucket < bucketCount
    case Range(startKey, endKey) => endKey != [] ==> Less(startKey, endKey)
  }

  predicate ValidTablet(t: TabletDescriptor) {
    && t.tabletId != 0
    && t.tableId != 0
    && t.raftGroupId != 0
    && t.raftGroupId != METADATA_RAFT_GROUP
    && t.tabletEpoch != 0
    && ValidPartition(t.partition)
  }

  predicate ValidPolicy(p: PlacementPolicy) {
    && p.replicationFactor != 0
    && p.minRegions <= p.replicationFactor
    && p.minZones <= p.replicationFactor
    && p.minRacks <= p.replicationFactor
    && (p.storageClass.Some? ==> !IsBlank(p.storageClass.value))
    && (forall i | 0 <= i < |p.preferredLeaders| :: p.preferredLeaders[i] != 0)
    && (forall i, j | 0 <= i < j < |p.preferredLeaders| ::
          p.preferredLeaders[i] != p.preferredLeaders[j])
  }

  function VoterCount(rs: seq<Replica>): (n: nat)
    ensures n <= |rs|
  {
    if rs == [] then 0
    else VoterCount(rs[..|rs| - 1]) + (if rs[|rs| - 1].role.Voter? then 1 else 0)
  }

  /** Non-zero identities, strictly ascending replicas, one replica per node. */
  predicate CanonicalReplicas(rs: seq<Replica>) {
    && (forall i | 0 <= i < |rs| :: rs[i].replicaId != 0 && rs[i].nodeId != 0)
    && (forall i, j | 0 <= i < j < |rs| :: rs[i].replicaId < rs[j].replicaId)
    && (forall i, j | 0 <= i < j < |rs| :: rs[i].nodeId != rs[j].nodeId)
  }

  predicate ValidPlacement(p: Placement) {
    && ValidPolicy(p.policy)
    && p.tabletId != 0
    && p.epoch != 0
    && p.replicas != []
    && CanonicalReplicas(p.replicas)
    && VoterCount(p.replicas) == p.policy.replicationFactor
  }

  predicate ValidRetirement(r: Retirement) {
    && r.raftGroupId != 0
    && r.replicaId != 0
    && r.desiredEpoch != 0
    && r.confStateVersion != 0
    && r.removalIndex != 0
    && r.removalTerm != 0
  }

  predicate ValidGcIdentity(ownerId: U128, protectionId: U128) {
    ownerId != 0 && protectionId != 0
  }

  predicate LiveLease(deadlineMs: U64, nowMs: U64) {
    deadlineMs != 0 && nowMs < deadlineMs
  }

  predicate ValidCommand(c: Command) {
    match c
    case ClusterInitialized(clusterId) => !IsBlank(clusterId)
    case RegisterClient(clientId, _) => clientId != 0
    case RenewClient(clientId, epoch, _) => clientId != 0 && epoch != 0
    case ReserveTimestamps(reservedUntil) => reservedUntil != 0
    case RegisterGcProtection(p, nowMs) =>
      ValidGcIdentity(p.ownerId, p.protectionId) && p.timestamp != 0 && LiveLease(p.deadlineMs, nowMs)
    case UpdateGcProtection(p, nowMs) =>
      ValidGcIdentity(p.ownerId, p.protectionId) && p.timestamp != 0 && LiveLease(p.deadlineMs, nowMs)
    case RenewGcProtection(ownerId, protectionId, deadlineMs, nowMs) =>
      ValidGcIdentity(ownerId, protectionId) && LiveLease(deadlineMs, nowMs)
    case ReleaseGcProtection(ownerId, protectionId) => ValidGcIdentity(ownerId, protectionId)
    case AdvanceGcSafePoint(candidate, _) => candidate != 0
    case RegisterNode(node) => ValidNode(node)
    case SetNodeLifecycle(nodeId, _) => nodeId != 0
    case CreateTable(table) => ValidTableShape(table)
    case CreateTablet(tablet) => ValidTablet(tablet)
    case CreateTableTopology(request) => ValidRequest(request)
    case SetDesiredPlacement(placement) => ValidPlacement(placement)
    case RecordRetirement(retirement) => ValidRetirement(retirement)
    case UpdateTableSchema(expectedVersion, table) => expectedVersion != 0 && ValidTableShape(table)
  }

  /**
   * A request that passes the codec check always becomes a publishable schema, so the
   * state machine's second validation of a CREATE TABLE request cannot fail.
   */
  lemma RequestMakesValidSchema(r: CreateTableRequest, id: U64)
    requires ValidRequest(r) && id != 0
    ensures ValidSchema(TableSchema(id, r.name, r.columns, r.primaryKey, 1, 1))
  {
  }

  method ValidateNode(n: NodeDescriptor) returns (ok: bool)
    ensures ok <==> ValidNode(n)
  {
    if n.nodeId == 0 {
      return false;
    }
    var endpoints := Endpoints(n);
    var unique: set<Endpoint> := {};
    for i := 0 to 4
      invariant unique == set j | 0 <= j < i :: endpoints[j]
      invariant forall j | 0 <= j < i :: ValidEndpoint(endpoints[j])
      invariant forall j, k | 0 <= j < k < i :: endpoints[j] != endpoints[k]
    {
      if !ValidEndpoint(endpoints[i]) || endpoints[i] in unique {
        return false;
      }
      unique := unique + {endpoints[i]};
    }
    return !IsBlank(n.storageClass);
  }

  method ValidatePolicy(p: PlacementPolicy) returns (ok: bool)
    ensures ok <==> ValidPolicy(p)
  {
    if p.replicationFactor == 0 {
      return false;
    }
    if p.minRegions > p.replicationFactor || p.minZones > p.replicationFactor
       || p.minRacks > p.replicationFactor {
      return false;
    }
    if p.storageClass.Some? && IsBlank(p.storageClass.value) {
      return false;
    }
    var preferred: set<U64> := {};
    for i := 0 to |p.preferredLeaders|
      invariant preferred == set j | 0 <= j < i :: p.preferredLeaders[j]
      invariant forall j | 0 <= j < i :: p.preferredLeaders[j] != 0
      invariant forall j, k | 0 <= j < k < i :: p.preferredLeaders[j] != p.preferredLeaders[k]
    {
      if p.preferredLeaders[i] == 0 || p.preferredLeaders[i] in preferred {
        return false;
      }
      preferred := preferred + {p.preferredLeaders[i]};
    }
    return true;
  }

  method ValidateReplicas(rs: seq<Replica>) returns (ok: bool, voters: nat)
    ensures ok <==> CanonicalReplicas(rs)
    ensures ok ==> voters == VoterCount(rs)
  {
    var nodes: set<U64> := {};
    var previous: Option<U64> := None;
    voters := 0;
    for i := 0 to |rs|
      invariant nodes == set j | 0 <= j < i :: rs[j].nodeId
      invariant previous == if i == 0 then None else Some(rs[i - 1].replicaId)
      invariant voters == VoterCount(rs[..i])
      invariant forall j | 0 <= j < i :: rs[j].replicaId != 0 && rs[j].nodeId != 0
      invariant forall j, k | 0 <= j < k < i :: rs[j].replicaId < rs[k].replicaId
      invariant forall j, k | 0 <= j < k < i :: rs[j].nodeId != rs[k].nodeId
    {
      var r := rs[i];
      if r.replicaId == 0 || r.nodeId == 0 {
        return false, voters;
      }
      if previous.Some? && previous.value >= r.replicaId {
        return false, voters;
      }
      if r.nodeId in nodes {
        return false, voters;
      }
      nodes := nodes + {r.nodeId};
      assert rs[..i + 1][..i] == rs[..i];
      if r.role.Voter? {
        voters := voters + 1;
      }
      previous := Some(r.replicaId);
    }
    assert rs[..|rs|] == rs;
    return true, voters;
  }

  method ValidatePlacement(p: Placement) returns (ok: bool)
    ensures ok <==> ValidPlacement(p)
  {
    ok := ValidatePolicy(p.policy);
    if !ok || p.tabletId == 0 || p.epoch == 0 || p.replicas == [] {
      return false;
    }
    var voters;
    ok, voters := ValidateReplicas(p.replicas);
    return ok && voters != 0 && voters == p.policy.replicationFactor;
  }

  method ValidateRequest(r: CreateTableRequest) returns (ok: bool)
    ensures ok <==> ValidRequest(r)
  {
    if IsBlank(r.name) || r.columns == [] {
      return false;
    }
    ok := ValidateColumns(r.columns);
    if !ok || r.primaryKey == [] {
      return false;
    }
    var ids: set<U64> := {};
    for i := 0 to |r.primaryKey|
      invariant ids == set j | 0 <= j < i :: r.primaryKey[j]
      invariant forall j | 0 <= j < i :: r.primaryKey[j] != 0
      invariant ValidPrimaryKey(r.columns, r.primaryKey[..i])
    {
      var id := r.primaryKey[i];
      assert r.primaryKey[..i + 1] == r.primaryKey[..i] + [id];
      if id == 0 || id in ids {
        return false;
      }
      ids := ids + {id};
      var column := FindColumn(r.columns, id);
      if column.None? || column.value.nullable {
        assert !IsKeyColumn(r.columns, r.primaryKey[i]);
        return false;
      }
      assert IsKeyColumn(r.columns, id);
    }
    assert r.primaryKey[..|r.primaryKey|] == r.primaryKey;
    return true;
  }

  method ValidateTableShape(t: TableSchema) returns (ok: bool)
    ensures ok <==> ValidTableShape(t)
  {
    if t.id == 0 || IsBlank(t.name) || t.version == 0 {
      return false;
    }
    return t.tabletCount != 0;
  }

  method ValidateTablet(t: TabletDescriptor) returns (ok: bool)
    ensures ok <==> ValidTablet(t)
  {
    if t.tabletId == 0 || t.tableId == 0 {
      return false;
    }
    if t.raftGroupId == 0 || t.raftGroupId == METADATA_RAFT_GROUP || t.tabletEpoch == 0 {
      return false;
    }
    match t.partition
    case Hash(bucket, bucketCount) =>
      if bucketCount == 0 {
        return false;
      }
      return bucket < bucketCount;
    case Range(startKey, endKey) =>
      if endKey == [] {
        return true;
      }
      return Less(startKey, endKey);
  }

  method ValidateRetirement(r: Retirement) returns (ok: bool)
    ensures ok <==> ValidRetirement(r)
  {
    if r.raftGroupId == 0 || r.replicaId == 0 || r.desiredEpoch == 0 {
      return false;
    }
    return r.confStateVersion != 0 && r.removalIndex != 0 && r.removalTerm != 0;
  }

  /** The identity and the lease that a protection command carries. */
  method ValidateLease(ownerId: U128, protectionId: U128, deadlineMs: U64, nowMs: U64) returns (ok: bool)
    ensures ok <==> ValidGcIdentity(ownerId, protectionId) && LiveLease(deadlineMs, nowMs)
  {
    if ownerId == 0 || protectionId == 0 || deadlineMs == 0 {
      return false;
    }
    return nowMs < deadlineMs;
  }

  method ValidateCommand(c: Command) returns (ok: bool)
    ensures ok <==> ValidCommand(c)
  {
    match c
    case ClusterInitialized(clusterId) => ok := !IsBlank(clusterId);
    case RegisterClient(clientId, _) => ok := clientId != 0;
    case RenewClient(clientId, epoch, _) => ok := clientId != 0 && epoch != 0;
    case ReserveTimestamps(reservedUntil) => ok := reservedUntil != 0;
    case RegisterGcProtection(p, nowMs) =>
      ok := ValidateLease(p.ownerId, p.protectionId, p.deadlineMs, nowMs);
      ok := ok && p.timestamp != 0;
    case UpdateGcProtection(p, nowMs) =>
      ok := ValidateLease(p.ownerId, p.protectionId, p.deadlineMs, nowMs);
      ok := ok && p.timestamp != 0;
    case RenewGcProtection(ownerId, protectionId, deadlineMs, nowMs) =>
      ok := ValidateLease(ownerId, protectionId, deadlineMs, nowMs);
    case ReleaseGcProtection(ownerId, protectionId) => ok := ownerId != 0 && protectionId != 0;
    case AdvanceGcSafePoint(candidate, _) => ok := candidate != 0;
    case RegisterNode(node) => ok := ValidateNode(node);
    case SetNodeLifecycle(nodeId, _) => ok := nodeId != 0;
    case CreateTable(table) => ok := ValidateTableShape(table);
    case CreateTablet(tablet) => ok := ValidateTablet(tablet);
    case CreateTableTopology(request) => ok := ValidateRequest(request);
    case SetDesiredPlacement(placement) => ok := ValidatePlacement(placement);
    case RecordRetirement(retirement) => ok := ValidateRetirement(retirement);
    case UpdateTableSchema(expectedVersion, table) =>
      ok := ValidateTableShape(table);
      ok := ok && expectedVersion != 0;
  }
}
