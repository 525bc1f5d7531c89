/** What each topology command may change, as guarded updates free of the handlers' control flow. */
module MetadataEffects {
  import opened Base
  import opened Schema
  import opened MetadataTypes
  import opened Validation
  import opened InitialPlacement
  import opened MetadataSpec

  ghost predicate NodeAdded(t: Topology, u: Topology, node: NodeDescriptor) {
    && node.nodeId !in t.nodes
    && !EndpointTaken(t.nodes, node)
    && node.lifecycle.Active?
    && u == t.(nodes := t.nodes[node.nodeId := node])
  }

  ghost predicate LifecycleMoved(t: Topology, u: Topology, nodeId: U64, to: Lifecycle) {
    && nodeId in t.nodes
    && CanAdvance(t.nodes[nodeId].lifecycle, to)
    && (Terminal(to) ==> !StillExpected(t.tablets, t.desiredPlacements, nodeId))
    && u == t.(nodes := t.nodes[nodeId := t.nodes[nodeId].(lifecycle := to)])
  }

  ghost predicate TableAdded(t: Topology, u: Topology, table: TableSchema) {
    && ValidSchema(table)
    && table.id !in t.tables
    && table.name !in t.tableIdsByName
    && u == t.(tables := t.tables[table.id := table],
               tableIdsByName := t.tableIdsByName[table.name := table.id],
               allocator := t.allocator.(maxTableId := Max(t.allocator.maxTableId, table.id)))
  }

  /** The partition index after a tablet joins: only Hash tablets are indexed by bucket. */
  function IndexBucket(byPartition: map<(U64, U32), U64>, t: TabletDescriptor): map<(U64, U32), U64> {
    if t.partition.Hash? then byPartition[(t.tableId, t.partition.bucket) := t.tabletId] else byPartition
  }

  ghost predicate TabletAdded(t: Topology, u: Topology, tablet: TabletDescriptor) {
    && tablet.tabletId !in t.tablets
    && tablet.raftGroupId !in t.tabletIdsByRaftGroup
    && tablet.tableId in t.tables
    && PartitionRejection(t, tablet).None?
    && u == t.(tabletIdsByRaftGroup := t.tabletIdsByRaftGroup[tablet.raftGroupId := tablet.tabletId],
               tabletIdsByPartition := IndexBucket(t.tabletIdsByPartition, tablet),
               tablets := t.tablets[tablet.tabletId := tablet],
               allocator := t.allocator.(
                 maxTabletId := Max(t.allocator.maxTabletId, tablet.tabletId),
                 maxRaftGroupId := Max(t.allocator.maxRaftGroupId, tablet.raftGroupId)))
  }

  ghost predicate Published(t: Topology, u: Topology, table: TableSchema, tablet: TabletDescriptor, p: Placement) {
    && ValidSchema(table) && ValidTablet(tablet) && ValidPlacement(p)
    && table.name !in t.tableIdsByName
    && table.id == t.allocator.maxTableId + 1 && table.id !in t.tables
    && tablet.tabletId == t.allocator.maxTabletId + 1 && tablet.tabletId !in t.tablets
    && tablet.raftGroupId == t.allocator.maxRaftGroupId + 1
    && tablet.raftGroupId !in t.tabletIdsByRaftGroup
    && tablet.tableId == table.id
    && tablet.partition.Range?
    && p.tabletId == tablet.tabletId
    && p.epoch == 1
    && u == PublishTopology(t, table, tablet, p)
  }

  ghost predicate PlacementSet(t: Topology, u: Topology, p: Placement) {
    && p.tabletId in t.tablets
    && Existing(t, p.tabletId) != Some(p)
    && PlacementRejection(t, p).None?
    && u == t.(allocator := t.allocator.(
                 maxReplicaId := Max(t.allocator.maxReplicaId, MaxReplica(p.replicas))),
               desiredPlacements := t.desiredPlacements[p.tabletId := p])
  }

  ghost predicate ReplicaRetired(t: Topology, u: Topology, r: Retirement) {
    && r.raftGroupId in t.tabletIdsByRaftGroup
    && (r.raftGroupId, r.replicaId) !in t.retiredReplicas
    && !Desires(t.desiredPlacements, t.tabletIdsByRaftGroup[r.raftGroupId], r.replicaId)
    && t.tabletIdsByRaftGroup[r.raftGroupId] in t.desiredPlacements
    && t.desiredPlacements[t.tabletIdsByRaftGroup[r.raftGroupId]].epoch == r.desiredEpoch
    && u == t.(retiredReplicas := t.retiredReplicas[(r.raftGroupId, r.replicaId) := r])
  }

  ghost predicate TableEvolved(t: Topology, u: Topology, expectedVersion: U64, table: TableSchema) {
    && ValidSchema(table)
    && table.id in t.tables
    && EvolutionRejection(expectedVersion, t.tables[table.id], table).None?
    && u == t.(tables := t.tables[table.id := table],
               tableIdsByName := t.tableIdsByName[table.name := table.id])
  }

  /** The update one accepted topology command performs. */
  ghost predicate Effect(t: Topology, c: Command, u: Topology, o: Outcome)
    requires IsTopologyCommand(c)
  {
    match c
    case RegisterNode(node) =>
      o.Applied? && if node.nodeId in t.nodes
                    then SameDirectory(t.nodes[node.nodeId], node)
                         && LifecycleMoved(t, u, node.nodeId, node.lifecycle)
                    else NodeAdded(t, u, node)
    case SetNodeLifecycle(nodeId, to) => o.Applied? && LifecycleMoved(t, u, nodeId, to)
    case CreateTable(table) => o.Applied? && TableAdded(t, u, table)
    case CreateTablet(tablet) => o.Applied? && TabletAdded(t, u, tablet)
    case CreateTableTopology(request) =>
      o.TableCreated? && ActiveNodes(t.nodes) != {} &&
      Published(t, u, NewTable(o.tableId, request), FirstTablet(o.tableId, o.tabletId, o.raftGroupId),
                FirstPlacement(t.nodes, o.tabletId))
    case SetDesiredPlacement(p) => o.Applied? && PlacementSet(t, u, p)
    case RecordRetirement(r) => o.Applied? && ReplicaRetired(t, u, r)
    case UpdateTableSchema(expectedVersion, table) => o.Applied? && TableEvolved(t, u, expectedVersion, table)
  }

  /** A refused or repeated command leaves the topology alone; an accepted one performs its effect. */
  ghost predicate Honest(t: Topology, c: Command, u: Topology, o: Outcome)
    requires IsTopologyCommand(c)
  {
    if o.ChangedState() then Effect(t, c, u, o) else u == t
  }

  lemma LifecycleEffect(t: Topology, nodeId: U64, to: Lifecycle)
    ensures var r := AdvanceLifecycle(t, nodeId, to);
            if r.outcome.Applied? then LifecycleMoved(t, r.topology, nodeId, to)
            else r.topology == t && !r.outcome.ChangedState()
  {
  }

  lemma NodeEffect(t: Topology, node: NodeDescriptor)
    ensures var a := AddNode(t, node);
            if !a.outcome.Applied? then a.topology == t && !a.outcome.ChangedState()
            else if node.nodeId in t.nodes then
              SameDirectory(t.nodes[node.nodeId], node) && LifecycleMoved(t, a.topology, node.nodeId, node.lifecycle)
            else NodeAdded(t, a.topology, node)
  {
    LifecycleEffect(t, node.nodeId, node.lifecycle);
  }

  lemma TableEffect(t: Topology, table: TableSchema)
    ensures var a := AddTable(t, table);
            if a.outcome.Applied? then TableAdded(t, a.topology, table) else a.topology == t && !a.outcome.ChangedState()
  {
  }

  lemma TabletEffect(t: Topology, tablet: TabletDescriptor)
    ensures var a := AddTablet(t, tablet);
            if a.outcome.Applied? then TabletAdded(t, a.topology, tablet) else a.topology == t && !a.outcome.ChangedState()
  {
  }

  lemma PublishEffect(t: Topology, table: TableSchema, tablet: TabletDescriptor, p: Placement)
    requires table.name !in t.tableIdsByName
    requires table.id == t.allocator.maxTableId + 1 && tablet.tabletId == t.allocator.maxTabletId + 1
    requires tablet.raftGroupId == t.allocator.maxRaftGroupId + 1
    requires tablet.tableId == table.id && tablet.partition.Range? && p.tabletId == tablet.tabletId
    requires p.epoch == 1
    ensures var r := CheckAndPublish(t, table, tablet, p);
            if r.outcome.ChangedState() then
              && r.outcome == TableCreated(table.id, tablet.tabletId, tablet.raftGroupId)
              && Published(t, r.topology, table, tablet, p)
            else r.topology == t
  {
  }

  lemma CreateEffect(t: Topology, request: CreateTableRequest)
    ensures var a := CreateTopology(t, request);
            if a.outcome.TableCreated? then
              ActiveNodes(t.nodes) != {} &&
              Published(t, a.topology, NewTable(a.outcome.tableId, request),
                        FirstTablet(a.outcome.tableId, a.outcome.tabletId, a.outcome.raftGroupId),
                        FirstPlacement(t.nodes, a.outcome.tabletId))
            else a.topology == t && !a.outcome.ChangedState()
  {
    var a := t.allocator;
    if a.maxTableId < U64_MAX && a.maxTabletId < U64_MAX && a.maxRaftGroupId < U64_MAX
       && request.name !in t.tableIdsByName {
      var tableId, tabletId, group := a.maxTableId + 1, a.maxTabletId + 1, a.maxRaftGroupId + 1;
      assert Next(a.maxTableId) == Some(tableId);
      assert Next(a.maxTabletId) == Some(tabletId);
      assert Next(a.maxRaftGroupId) == Some(group);
      PublishEffect(t, NewTable(tableId, request), FirstTablet(tableId, tabletId, group),
                    FirstPlacement(t.nodes, tabletId));
    }
  }

  lemma PlacementEffect(t: Topology, p: Placement)
    ensures var a := SetPlacement(t, p);
            if a.outcome.Applied? then PlacementSet(t, a.topology, p) else a.topology == t && !a.outcome.ChangedState()
  {
  }

  lemma RetirementEffect(t: Topology, r: Retirement)
    ensures var a := Retire(t, r);
            if a.outcome.Applied? then ReplicaRetired(t, a.topology, r) else a.topology == t && !a.outcome.ChangedState()
  {
  }

  lemma EvolutionEffect(t: Topology, expectedVersion: U64, table: TableSchema)
    ensures var a := EvolveTable(t, expectedVersion, table);
            if a.outcome.Applied? then TableEvolved(t, a.topology, expectedVersion, table)
            else a.topology == t && !a.outcome.ChangedState()
  {
  }

  lemma TopologyEffect(t: Topology, c: Command)
    requires IsTopologyCommand(c)
    ensures Honest(t, c, ApplyTopology(t, c).topology, ApplyTopology(t, c).outcome)
  {
    match c
    case RegisterNode(node) => NodeEffect(t, node);
    case SetNodeLifecycle(nodeId, lifecycle) => LifecycleEffect(t, nodeId, lifecycle);
    case CreateTable(table) => TableEffect(t, table);
    case CreateTablet(tablet) => TabletEffect(t, tablet);
    case CreateTableTopology(request) => CreateEffect(t, request);
    case SetDesiredPlacement(placement) => PlacementEffect(t, placement);
    case RecordRetirement(retirement) => RetirementEffect(t, retirement);
    case UpdateTableSchema(expectedVersion, table) => EvolutionEffect(t, expectedVersion, table);
  }

  // ---------- the effects are performed ----------

  lemma LifecyclePerformed(t: Topology, u: Topology, nodeId: U64, to: Lifecycle)
    requires LifecycleMoved(t, u, nodeId, to)
    ensures AdvanceLifecycle(t, nodeId, to) == TopologyStep(u, Applied)
  {
  }

  lemma NodePerformed(t: Topology, u: Topology, node: NodeDescriptor)
    requires Effect(t, RegisterNode(node), u, Applied)
    ensures AddNode(t, node) == TopologyStep(u, Applied)
  {
    if node.nodeId in t.nodes {
      LifecyclePerformed(t, u, node.nodeId, node.lifecycle);
    }
  }

  lemma PublishPerformed(t: Topology, u: Topology, table: TableSchema, tablet: TabletDescriptor, p: Placement)
    requires Published(t, u, table, tablet, p)
    ensures CheckAndPublish(t, table, tablet, p)
         == TopologyStep(u, TableCreated(table.id, tablet.tabletId, tablet.raftGroupId))
  {
  }

  /** A creation that the early checks let through is a publication under the next identities. */
  lemma CreateUnfolds(t: Topology, request: CreateTableRequest, tableId: U64, tabletId: U64, group: U64)
    requires request.name !in t.tableIdsByName && ActiveNodes(t.nodes) != {}
    requires tableId == t.allocator.maxTableId + 1 && tabletId == t.allocator.maxTabletId + 1
    requires group == t.allocator.maxRaftGroupId + 1
    ensures CreateTopology(t, request)
         == CheckAndPublish(t, NewTable(tableId, request), FirstTablet(tableId, tabletId, group),
                            FirstPlacement(t.nodes, tabletId))
  {
    assert Next(t.allocator.maxTableId) == Some(tableId);
    assert Next(t.allocator.maxTabletId) == Some(tabletId);
    assert Next(t.allocator.maxRaftGroupId) == Some(group);
  }

  lemma CreatePerformed(t: Topology, u: Topology, request: CreateTableRequest,
                        table: TableSchema, tablet: TabletDescriptor, p: Placement)
    requires Published(t, u, table, tablet, p) && ActiveNodes(t.nodes) != {}
    requires table == NewTable(table.id, request)
    requires tablet == FirstTablet(table.id, tablet.tabletId, tablet.raftGroupId)
    requires p == FirstPlacement(t.nodes, tablet.tabletId)
    ensures CreateTopology(t, request)
         == TopologyStep(u, TableCreated(table.id, tablet.tabletId, tablet.raftGroupId))
  {
    CreateUnfolds(t, request, table.id, tablet.tabletId, tablet.raftGroupId);
    PublishPerformed(t, u, table, tablet, p);
  }

  lemma EvolutionPerformed(t: Topology, u: Topology, expectedVersion: U64, table: TableSchema)
    requires TableEvolved(t, u, expectedVersion, table)
    ensures EvolveTable(t, expectedVersion, table) == TopologyStep(u, Applied)
  {
  }

  /** A command whose guarded update is enabled is accepted, and performs exactly that update. */
  lemma EffectIsPerformed(t: Topology, c: Command, u: Topology, o: Outcome)
    requires IsTopologyCommand(c) && Effect(t, c, u, o)
    ensures ApplyTopology(t, c) == TopologyStep(u, o)
  {
    match c
    case RegisterNode(node) => NodePerformed(t, u, node);
    case SetNodeLifecycle(nodeId, lifecycle) => LifecyclePerformed(t, u, nodeId, lifecycle);
    case CreateTableTopology(request) =>
      CreatePerformed(t, u, request, NewTable(o.tableId, request),
                      FirstTablet(o.tableId, o.tabletId, o.raftGroupId), FirstPlacement(t.nodes, o.tabletId));
    case UpdateTableSchema(expectedVersion, table) => EvolutionPerformed(t, u, expectedVersion, table);
    case CreateTable(_) =>
    case CreateTablet(_) =>
    case SetDesiredPlacement(_) =>
    case RecordRetirement(_) =>
  }
}
