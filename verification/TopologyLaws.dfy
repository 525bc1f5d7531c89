/**
 * Each topology command in the terms of its caller: exactly when it is accepted and exactly what it
 * leaves behind, over the fields of the directory, tables, tablets and placements.
 */
module TopologyLaws {
  import opened Base
  import opened ByteOrder
  import opened Schema
  import opened MetadataTypes
  import opened Validation
  import opened InitialPlacement
  import opened PlacementSelection
  import opened MetadataSpec
  import opened Locality
  import opened MetadataInvariant
  import opened MetadataEffects
  import opened MetadataSteps
  import opened PartitionOwnership
  import opened PlacementSafety

  // ---------- nodes ----------

  /** The next lifecycle, one step on. */
  predicate OneStep(from: Lifecycle, to: Lifecycle) {
    || (from == Active && to == Draining)
    || (from == Draining && to == Decommissioning)
    || (from == Decommissioning && to == Decommissioned)
    || (from == Decommissioned && to == Tombstoned)
  }

  /** No desired replica of any tablet is on the node. */
  ghost predicate HostsNothing(t: Topology, nodeId: U64) {
    forall k, r | k in t.desiredPlacements && r in t.desiredPlacements[k].replicas :: r.nodeId != nodeId
  }

  lemma ExpectedIffHosting(t: Topology, nodeId: U64)
    requires PlacementsInv(t.nodes, t.tablets, t.desiredPlacements)
    ensures !StillExpected(t.tablets, t.desiredPlacements, nodeId) <==> HostsNothing(t, nodeId)
  {
  }

  /**
   * A registered node moves exactly one step on, and out of service only once it hosts nothing;
   * then its lifecycle is all that changes. Asking for its own lifecycle changes nothing.
   */
  lemma LifecycleLaw(t: Topology, nodeId: U64, to: Lifecycle)
    requires PlacementsInv(t.nodes, t.tablets, t.desiredPlacements) && nodeId in t.nodes
    ensures var r, from := AdvanceLifecycle(t, nodeId, to), t.nodes[nodeId].lifecycle;
            && (r.outcome.Applied?
                <==> OneStep(from, to) && (to == Decommissioned || to == Tombstoned ==> HostsNothing(t, nodeId)))
            && (r.outcome.AlreadyApplied? <==> to == from)
            && r.topology == if r.outcome.Applied?
                             then t.(nodes := t.nodes[nodeId := t.nodes[nodeId].(lifecycle := to)])
                             else t
  {
    ExpectedIffHosting(t, nodeId);
  }

  lemma TakenIff(nodes: Directory, node: NodeDescriptor)
    ensures !EndpointTaken(nodes, node)
       <==> (forall k | k in nodes :: Addresses(node) * Addresses(nodes[k]) == {})
  {
    AddressesAreEndpoints(node);
    forall k | k in nodes ensures !ShareEndpoint(node, nodes[k]) <==> Addresses(node) * Addresses(nodes[k]) == {} {
      AddressesAreEndpoints(nodes[k]);
      if e :| e in Endpoints(node) && e in Endpoints(nodes[k]) {
        assert e in Addresses(node) * Addresses(nodes[k]);
      }
    }
  }

  /**
   * A node joins exactly when its identity is new, it starts Active and no address of it is in
   * use; registering it again as it is changes nothing; registering it with only another
   * lifecycle is asking for that lifecycle.
   */
  lemma RegistrationLaw(t: Topology, node: NodeDescriptor)
    ensures var r := AddNode(t, node);
            if node.nodeId !in t.nodes then
              && (r.outcome.Applied?
                  <==> && node.lifecycle == Active
                       && forall k | k in t.nodes :: Addresses(node) * Addresses(t.nodes[k]) == {})
              && !r.outcome.AlreadyApplied?
              && r.topology == if r.outcome.Applied? then t.(nodes := t.nodes[node.nodeId := node]) else t
            else if t.nodes[node.nodeId] == node then r == TopologyStep(t, AlreadyApplied)
            else if t.nodes[node.nodeId].(lifecycle := node.lifecycle) == node then
              r == AdvanceLifecycle(t, node.nodeId, node.lifecycle)
            else r == TopologyStep(t, Rejected(NodeIdConflict))
  {
    TakenIff(t.nodes, node);
  }

  // ---------- tables ----------

  lemma NameFreeIff(tables: map<U64, TableSchema>, byName: map<string, U64>, name: string)
    requires TablesInv(tables, byName)
    ensures name !in byName <==> forall k | k in tables :: tables[k].name != name
  {
    if name in byName {
      assert tables[byName[name]].name == name;
    }
  }

  /** A table joins exactly when it is valid and neither its identity nor its name is in use. */
  lemma TableLaw(t: Topology, table: TableSchema)
    requires TablesInv(t.tables, t.tableIdsByName)
    ensures var r := AddTable(t, table);
            && (r.outcome.Applied?
                <==> && ValidSchema(table)
                     && table.id !in t.tables
                     && (forall k | k in t.tables :: t.tables[k].name != table.name))
            && (r.outcome.AlreadyApplied? <==> ValidSchema(table) && table.id in t.tables && t.tables[table.id] == table)
            && (if r.outcome.Applied? then
                  && r.topology.(allocator := t.allocator)
                     == t.(tables := t.tables[table.id := table],
                           tableIdsByName := t.tableIdsByName[table.name := table.id])
                  && RaisedTo(t.allocator.maxTableId, table.id, r.topology.allocator.maxTableId)
                  && r.topology.allocator.(maxTableId := t.allocator.maxTableId) == t.allocator
                else r.topology == t)
  {
    NameFreeIff(t.tables, t.tableIdsByName, table.name);
  }

  /** `after` is the larger of the two. */
  predicate RaisedTo(before: U64, seen: U64, after: U64) {
    before <= after && seen <= after && (after == before || after == seen)
  }

  // ---------- tablets ----------

  /** What an accepted tablet leaves behind; `TabletAcceptedIff` says when it is accepted. */
  lemma TabletLaw(t: Topology, tablet: TabletDescriptor)
    ensures var r, u := AddTablet(t, tablet), AddTablet(t, tablet).topology;
            && (r.outcome.AlreadyApplied? <==> tablet.tabletId in t.tablets && t.tablets[tablet.tabletId] == tablet)
            && (if r.outcome.Applied? then
                  && u.tablets == t.tablets[tablet.tabletId := tablet]
                  && u.tabletIdsByRaftGroup == t.tabletIdsByRaftGroup[tablet.raftGroupId := tablet.tabletId]
                  && (tablet.partition.Range? ==> u.tabletIdsByPartition == t.tabletIdsByPartition)
                  && (tablet.partition.Hash? ==>
                        u.tabletIdsByPartition
                        == t.tabletIdsByPartition[(tablet.tableId, tablet.partition.bucket) := tablet.tabletId])
                  && RaisedTo(t.allocator.maxTabletId, tablet.tabletId, u.allocator.maxTabletId)
                  && RaisedTo(t.allocator.maxRaftGroupId, tablet.raftGroupId, u.allocator.maxRaftGroupId)
                  && u.allocator.maxTableId == t.allocator.maxTableId
                  && u.allocator.maxReplicaId == t.allocator.maxReplicaId
                  && u.nodes == t.nodes && u.tables == t.tables && u.tableIdsByName == t.tableIdsByName
                  && u.desiredPlacements == t.desiredPlacements && u.retiredReplicas == t.retiredReplicas
                else u == t)
  {
    TabletEffect(t, tablet);
  }

  // ---------- CREATE TABLE ----------

  /** The first placement of a tablet over a directory: what is placed, where and under which policy. */
  ghost predicate IsFirstPlacement(nodes: Directory, tabletId: U64, p: Placement) {
    && p.tabletId == tabletId
    && p.epoch == 1
    && (forall i | 0 <= i < |p.replicas| :: p.replicas[i].replicaId == i + 1 && p.replicas[i].role == Voter)
    && WellSpread(nodes, NodesOf(p.replicas))
    && p.policy.replicationFactor == |p.replicas|
    && p.policy.minRegions == |HostRegions(nodes, p.replicas)|
    && p.policy.minZones == |HostZones(nodes, p.replicas)|
    && p.policy.minRacks == |HostRacks(nodes, p.replicas)|
    && p.policy.storageClass == None
    && p.policy.preferredLeaders == []
  }

  function NodesOf(rs: seq<Replica>): seq<U64> {
    seq(|rs|, i requires 0 <= i < |rs| => rs[i].nodeId)
  }

  lemma FirstPlacementLaw(nodes: Directory, tabletId: U64)
    ensures IsFirstPlacement(nodes, tabletId, FirstPlacement(nodes, tabletId))
  {
    var p, voters := FirstPlacement(nodes, tabletId), InitialVoters(nodes);
    InitialVotersAreDistinctActive(nodes);
    InitialVotersAreWellSpread(nodes);
    assert NodesOf(p.replicas) == voters;
    HostLabels(nodes, p.replicas);
    HostsAreVoters(p.replicas, voters);
  }

  lemma HostsAreVoters(rs: seq<Replica>, voters: seq<U64>)
    requires NodesOf(rs) == voters
    ensures Hosts(rs) == Elements(voters)
  {
    forall id | id in Hosts(rs) ensures id in Elements(voters) {
      var r :| r in rs && r.nodeId == id;
      var i :| 0 <= i < |rs| && rs[i] == r;
      assert voters[i] == id;
    }
    forall id | id in Elements(voters) ensures id in Hosts(rs) {
      var i :| 0 <= i < |voters| && voters[i] == id;
      assert rs[i] in rs && rs[i].nodeId == id;
    }
  }

  /** A first tablet of the table that every key falls into. */
  ghost predicate OwnsEverything(tablet: TabletDescriptor, tableId: U64, tabletId: U64, group: U64) {
    && tablet.tabletId == tabletId
    && tablet.tableId == tableId
    && tablet.raftGroupId == group
    && tablet.tabletEpoch == 1
    && tablet.partition.Range?
    && (forall key :: InRange(key, tablet.partition.startKey, tablet.partition.endKey))
  }

  lemma FirstTabletOwnsEverything(tableId: U64, tabletId: U64, group: U64)
    ensures OwnsEverything(FirstTablet(tableId, tabletId, group), tableId, tabletId, group)
  {
    forall key: Key ensures Leq([], key) {
    }
  }

  lemma LastReplica(rs: seq<Replica>)
    requires rs != [] && forall i | 0 <= i < |rs| :: rs[i].replicaId == i + 1
    ensures MaxReplica(rs) == |rs|
  {
    assert rs[|rs| - 1].replicaId == |rs|;
  }

  /** The new table, tablet and placement under the handed-out identities, and everything else as it was. */
  ghost predicate Created(t: Topology, request: CreateTableRequest, tableId: U64, tabletId: U64, group: U64, u: Topology) {
    && tabletId in u.tablets && tabletId in u.desiredPlacements
    && OwnsEverything(u.tablets[tabletId], tableId, tabletId, group)
    && IsFirstPlacement(t.nodes, tabletId, u.desiredPlacements[tabletId])
    && u.allocator == Allocator(tableId, tabletId, group, |u.desiredPlacements[tabletId].replicas|)
    && u == t.(allocator := u.allocator,
               tables := t.tables[tableId := TableSchema(tableId, request.name, request.columns, request.primaryKey, 1, 1)],
               tableIdsByName := t.tableIdsByName[request.name := tableId],
               tablets := t.tablets[tabletId := u.tablets[tabletId]],
               tabletIdsByRaftGroup := t.tabletIdsByRaftGroup[group := tabletId],
               desiredPlacements := t.desiredPlacements[tabletId := u.desiredPlacements[tabletId]])
  }

  lemma PublishedIsCreated(t: Topology, u: Topology, request: CreateTableRequest, table: TableSchema,
                           tablet: TabletDescriptor, p: Placement)
    requires table == TableSchema(table.id, request.name, request.columns, request.primaryKey, 1, 1)
    requires OwnsEverything(tablet, table.id, tablet.tabletId, tablet.raftGroupId)
    requires IsFirstPlacement(t.nodes, tablet.tabletId, p) && p.replicas != []
    requires u == PublishTopology(t, table, tablet, p)
    ensures Created(t, request, table.id, tablet.tabletId, tablet.raftGroupId, u)
  {
    LastReplica(p.replicas);
  }

  /** A successful CREATE TABLE publishes exactly this; `CreateSucceedsIff` says when it succeeds. */
  lemma CreationLaw(t: Topology, request: CreateTableRequest)
    ensures var r := CreateTopology(t, request);
            if r.outcome.TableCreated?
            then Created(t, request, r.outcome.tableId, r.outcome.tabletId, r.outcome.raftGroupId, r.topology)
            else r.topology == t
  {
    CreateEffect(t, request);
    var r := CreateTopology(t, request);
    if r.outcome.TableCreated? {
      var tableId, tabletId, group := r.outcome.tableId, r.outcome.tabletId, r.outcome.raftGroupId;
      FirstTabletOwnsEverything(tableId, tabletId, group);
      FirstPlacementLaw(t.nodes, tabletId);
      PublishedIsCreated(t, r.topology, request, NewTable(tableId, request), FirstTablet(tableId, tabletId, group),
                         FirstPlacement(t.nodes, tabletId));
    }
  }

  // ---------- placements ----------

  /**
   * A desired placement of a known tablet is stored exactly when it is acceptable and not the one
   * stored; only it and, upwards, the replica mark change.
   */
  lemma PlacementLaw(t: Topology, p: Placement)
    ensures var r, u := SetPlacement(t, p), SetPlacement(t, p).topology;
            && (r.outcome.AlreadyApplied?
                <==> p.tabletId in t.tablets && p.tabletId in t.desiredPlacements && t.desiredPlacements[p.tabletId] == p)
            && (r.outcome.Applied?
                <==> && p.tabletId in t.tablets
                     && (p.tabletId in t.desiredPlacements ==> t.desiredPlacements[p.tabletId] != p)
                     && AcceptablePlacement(t, p))
            && (if r.outcome.Applied? then
                  && u.(allocator := t.allocator) == t.(desiredPlacements := t.desiredPlacements[p.tabletId := p])
                  && u.allocator.(maxReplicaId := t.allocator.maxReplicaId) == t.allocator
                  && t.allocator.maxReplicaId <= u.allocator.maxReplicaId
                  && (forall x | x in p.replicas :: x.replicaId <= u.allocator.maxReplicaId)
                  && (|| u.allocator.maxReplicaId == t.allocator.maxReplicaId
                      || exists x :: x in p.replicas && x.replicaId == u.allocator.maxReplicaId)
                else u == t)
  {
    if p.tabletId in t.tablets {
      PlacementAcceptedIff(t, p);
      MarkOfReplicas(p.replicas, t.allocator.maxReplicaId);
    }
  }

  lemma MarkOfReplicas(rs: seq<Replica>, mark: U64)
    ensures var m := Max(mark, MaxReplica(rs));
            && (forall x | x in rs :: x.replicaId <= m)
            && (m == mark || exists x :: x in rs && x.replicaId == m)
  {
    var m := Max(mark, MaxReplica(rs));
    if m != mark {
      var i :| 0 <= i < |rs| && rs[i].replicaId == MaxReplica(rs);
      assert rs[i] in rs;
    }
  }

  // ---------- retirements ----------

  /** Tablet `k` of the group is placed at the proven epoch without the replica. */
  ghost predicate RetiresFrom(t: Topology, r: Retirement, k: U64) {
    && k in t.tablets && t.tablets[k].raftGroupId == r.raftGroupId
    && k in t.desiredPlacements && t.desiredPlacements[k].epoch == r.desiredEpoch
    && (forall x | x in t.desiredPlacements[k].replicas :: x.replicaId != r.replicaId)
  }

  /**
   * The proof of a removal is stored exactly when it is the first for its replica and the group's
   * tablet is placed at that epoch without the replica; the same proof again changes nothing.
   */
  lemma RetirementLaw(t: Topology, r: Retirement)
    requires GroupIndexInv(t.tablets, t.tabletIdsByRaftGroup)
    requires RetiredInv(t.tabletIdsByRaftGroup, t.desiredPlacements, t.retiredReplicas)
    ensures var a, key := Retire(t, r), (r.raftGroupId, r.replicaId);
            && (a.outcome.Applied? <==> key !in t.retiredReplicas && exists k :: RetiresFrom(t, r, k))
            && (a.outcome.AlreadyApplied? <==> key in t.retiredReplicas && t.retiredReplicas[key] == r)
            && a.topology == if a.outcome.Applied? then t.(retiredReplicas := t.retiredReplicas[key := r]) else t
  {
    if k :| RetiresFrom(t, r, k) {
      assert t.tabletIdsByRaftGroup[r.raftGroupId] == k;
    }
    if Retire(t, r).outcome.Applied? {
      var k := t.tabletIdsByRaftGroup[r.raftGroupId];
      assert t.tablets[k].raftGroupId == r.raftGroupId;
      assert RetiresFrom(t, r, k);
    }
  }

  // ---------- schemas ----------

  /** The next version: only columns appended, all of them nullable and with unused higher identities. */
  ghost predicate NextVersion(prior: TableSchema, table: TableSchema) {
    && table.id == prior.id
    && table.name == prior.name
    && table.primaryKey == prior.primaryKey
    && table.tabletCount == prior.tabletCount
    && table.version == prior.version + 1
    && |prior.columns| <= |table.columns|
    && (forall i | 0 <= i < |prior.columns| :: table.columns[i] == prior.columns[i])
    && (forall i, j | 0 <= i < |prior.columns| <= j < |table.columns| ::
          prior.columns[i].id < table.columns[j].id && table.columns[j].nullable)
  }

  lemma NextVersionIff(prior: TableSchema, table: TableSchema)
    requires prior.columns != []
    ensures NextVersion(prior, table) <==> Evolves(prior, table)
  {
    if NextVersion(prior, table) {
      assert prior.columns == table.columns[..|prior.columns|];
      forall j | |prior.columns| <= j < |table.columns| ensures table.columns[j].nullable {
        assert prior.columns[0].id < table.columns[j].id;
      }
    }
  }

  lemma SameIndex(byName: map<string, U64>, name: string, id: U64)
    requires name in byName && byName[name] == id
    ensures byName[name := id] == byName
  {
  }

  /** A schema is replaced exactly by its next version, expected at the stored one. */
  lemma EvolutionLaw(t: Topology, expectedVersion: U64, table: TableSchema)
    requires TablesInv(t.tables, t.tableIdsByName)
    ensures var r := EvolveTable(t, expectedVersion, table);
            && (r.outcome.Applied?
                <==> && ValidSchema(table)
                     && table.id in t.tables
                     && expectedVersion == t.tables[table.id].version
                     && NextVersion(t.tables[table.id], table))
            && (r.outcome.AlreadyApplied?
                <==> ValidSchema(table) && table.id in t.tables && t.tables[table.id] == table)
            && r.topology == if r.outcome.Applied? then t.(tables := t.tables[table.id := table]) else t
  {
    if table.id in t.tables {
      var prior := t.tables[table.id];
      assert prior.id == table.id && t.tableIdsByName[prior.name] == table.id;
      EvolutionAcceptedIff(expectedVersion, prior, table);
      NextVersionIff(prior, table);
      SameIndex(t.tableIdsByName, prior.name, table.id);
    }
  }
}
