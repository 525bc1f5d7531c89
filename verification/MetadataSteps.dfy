/** What one step of the metadata state machine can and cannot change. */
module MetadataSteps {
  import opened Base
  import opened Schema
  import opened MetadataTypes
  import opened Validation
  import opened InitialPlacement
  import opened MetadataSpec
  import opened Locality
  import opened MetadataInvariant
  import opened MetadataEffects
  import opened MetadataPreservation

  /** Directory entries are permanent; only the lifecycle moves, and only one step forward. */
  ghost predicate NodesAdvance(before: Directory, after: Directory) {
    && (forall k | k in before ::
          && k in after
          && SameDirectory(before[k], after[k])
          && (after[k].lifecycle == before[k].lifecycle || CanAdvance(before[k].lifecycle, after[k].lifecycle)))
    && (forall k | k in after && k !in before :: after[k].lifecycle.Active?)
  }

  /** The next version of a schema: everything kept, nullable columns with new identifiers appended. */
  ghost predicate Evolves(prior: TableSchema, next: TableSchema) {
    && next.(version := prior.version, columns := prior.columns) == prior
    && next.version == prior.version + 1
    && prior.columns <= next.columns
    && (forall j | |prior.columns| <= j < |next.columns| :: next.columns[j].nullable)
    && (forall i, j | 0 <= i < |prior.columns| <= j < |next.columns| ::
          prior.columns[i].id < next.columns[j].id)
  }

  ghost predicate TablesAdvance(before: map<U64, TableSchema>, after: map<U64, TableSchema>) {
    forall k | k in before ::
      k in after && (after[k] == before[k] || Evolves(before[k], after[k]))
  }

  ghost predicate TabletsAdvance(before: map<U64, TabletDescriptor>, after: map<U64, TabletDescriptor>) {
    forall k | k in before :: k in after && after[k] == before[k]
  }

  /** The next placement of a tablet: epoch plus one, kept replicas stay put and are not demoted. */
  ghost predicate Succeeds(prior: Placement, next: Placement) {
    && next.epoch == prior.epoch + 1
    && (forall r | r in next.replicas :: KeptSafely(prior.replicas, r))
  }

  ghost predicate PlacementsAdvance(before: map<U64, Placement>, after: map<U64, Placement>) {
    && (forall k | k in before :: k in after && (after[k] == before[k] || Succeeds(before[k], after[k])))
    && (forall k | k in after && k !in before :: after[k].epoch == 1)
  }

  ghost predicate RetiredAdvance(before: map<(U64, U64), Retirement>, after: map<(U64, U64), Retirement>) {
    forall k | k in before :: k in after && after[k] == before[k]
  }

  ghost predicate MarksAdvance(before: Allocator, after: Allocator) {
    && before.maxTableId <= after.maxTableId
    && before.maxTabletId <= after.maxTabletId
    && before.maxRaftGroupId <= after.maxRaftGroupId
  }

  ghost predicate Advances(t: Topology, u: Topology) {
    && NodesAdvance(t.nodes, u.nodes)
    && TablesAdvance(t.tables, u.tables)
    && TabletsAdvance(t.tablets, u.tablets)
    && PlacementsAdvance(t.desiredPlacements, u.desiredPlacements)
    && RetiredAdvance(t.retiredReplicas, u.retiredReplicas)
    && MarksAdvance(t.allocator, u.allocator)
  }

  lemma NodeAdvances(t: Topology, u: Topology, node: NodeDescriptor)
    requires NodeAdded(t, u, node)
    ensures Advances(t, u)
  {
  }

  lemma LifecycleAdvances(t: Topology, u: Topology, nodeId: U64, to: Lifecycle)
    requires LifecycleMoved(t, u, nodeId, to)
    ensures Advances(t, u)
  {
  }

  lemma TableAdvances(t: Topology, u: Topology, table: TableSchema)
    requires TableAdded(t, u, table)
    ensures Advances(t, u)
  {
  }

  lemma TabletAdvances(t: Topology, u: Topology, tablet: TabletDescriptor)
    requires TabletAdded(t, u, tablet)
    ensures Advances(t, u)
  {
  }

  lemma PublishAdvances(t: Topology, u: Topology, table: TableSchema, tablet: TabletDescriptor, p: Placement)
    requires Published(t, u, table, tablet, p)
    requires p.tabletId !in t.desiredPlacements
    ensures Advances(t, u)
  {
  }

  lemma AcceptedSucceeds(t: Topology, p: Placement)
    requires p.tabletId in t.tablets && PlacementRejection(t, p).None?
    ensures match Existing(t, p.tabletId)
            case None => p.epoch == 1
            case Some(prior) => Succeeds(prior, p)
  {
  }

  /** The tablet's stored placement has this replica on this node. */
  ghost predicate AlreadyHosted(t: Topology, tabletId: U64, r: Replica) {
    && tabletId in t.desiredPlacements
    && exists x :: x in t.desiredPlacements[tabletId].replicas && x.replicaId == r.replicaId && x.nodeId == r.nodeId
  }

  /** A host for this replica: known, able to serve it, of the right class, and not a retired identity. */
  ghost predicate AcceptableReplica(t: Topology, p: Placement, r: Replica)
    requires p.tabletId in t.tablets
  {
    && r.nodeId in t.nodes
    && (|| t.nodes[r.nodeId].lifecycle.Active?
        || (AlreadyHosted(t, p.tabletId, r)
            && (t.nodes[r.nodeId].lifecycle.Draining? || t.nodes[r.nodeId].lifecycle.Decommissioning?)))
    && (p.policy.storageClass.Some? ==> t.nodes[r.nodeId].storageClass == p.policy.storageClass.value)
    && (t.tablets[p.tabletId].raftGroupId, r.replicaId) !in t.retiredReplicas
  }

  /** The placement is the tablet's first, or one epoch later with every kept replica in its place. */
  ghost predicate ComesNext(t: Topology, p: Placement) {
    if p.tabletId !in t.desiredPlacements then p.epoch == 1
    else
      var prior := t.desiredPlacements[p.tabletId];
      && p.epoch == prior.epoch + 1
      && (forall x, r | x in prior.replicas && r in p.replicas && x.replicaId == r.replicaId ::
            x.nodeId == r.nodeId && (x.role.Voter? ==> r.role.Voter?))
  }

  ghost predicate AcceptablePlacement(t: Topology, p: Placement)
    requires p.tabletId in t.tablets
  {
    && (forall r | r in p.replicas :: AcceptableReplica(t, p, r))
    && (forall n | n in p.policy.preferredLeaders :: n in t.nodes && t.nodes[n].lifecycle.Active?)
    && MeetsMinimums(t.nodes, p)
    && ComesNext(t, p)
  }

  lemma {:induction false} LeadersAcceptedIff(nodes: Directory, leaders: seq<U64>)
    ensures FirstLeaderRejection(nodes, leaders).None?
       <==> (forall n | n in leaders :: n in nodes && nodes[n].lifecycle.Active?)
  {
    if leaders != [] {
      assert leaders == [leaders[0]] + leaders[1..];
      LeadersAcceptedIff(nodes, leaders[1..]);
    }
  }

  lemma ReplicasAcceptedIff(t: Topology, p: Placement)
    requires p.tabletId in t.tablets
    ensures FirstReplicaRejection(t.nodes, t.retiredReplicas, t.tablets[p.tabletId].raftGroupId,
                                  Existing(t, p.tabletId), p.policy, p.replicas).None?
       <==> (forall r | r in p.replicas :: AcceptableReplica(t, p, r))
  {
    forall r | r in p.replicas
      ensures ReplicaRejection(t.nodes, t.retiredReplicas, t.tablets[p.tabletId].raftGroupId,
                               Existing(t, p.tabletId), p.policy, r).None?
         <==> AcceptableReplica(t, p, r)
    {
    }
  }

  lemma DomainsAcceptedIff(nodes: Directory, p: Placement)
    ensures FirstDomainRejection(nodes, p).None? <==> MeetsMinimums(nodes, p)
  {
    MinimumsByDomain(nodes, p);
    forall d: Domain
      ensures DomainRejection(nodes, p, d).None? <==> MinimumOf(p.policy, d) <= |Labels(nodes, Hosts(p.replicas), d)|
    {
    }
  }

  lemma EpochAcceptedIff(t: Topology, p: Placement)
    ensures EpochRejection(Existing(t, p.tabletId), p).None? <==> ComesNext(t, p)
  {
    if p.tabletId in t.desiredPlacements {
      var prior := t.desiredPlacements[p.tabletId];
      assert (forall r | r in p.replicas :: KeptSafely(prior.replicas, r))
        <==> (forall x, r | x in prior.replicas && r in p.replicas && x.replicaId == r.replicaId ::
                x.nodeId == r.nodeId && (x.role.Voter? ==> r.role.Voter?));
    }
  }

  /** The ordered chain of placement checks accepts exactly the acceptable placements. */
  lemma PlacementAcceptedIff(t: Topology, p: Placement)
    requires p.tabletId in t.tablets
    ensures PlacementRejection(t, p).None? <==> AcceptablePlacement(t, p)
  {
    ReplicasAcceptedIff(t, p);
    LeadersAcceptedIff(t.nodes, p.policy.preferredLeaders);
    DomainsAcceptedIff(t.nodes, p);
    EpochAcceptedIff(t, p);
  }

  lemma PlacementAdvances(t: Topology, u: Topology, p: Placement)
    requires PlacementSet(t, u, p)
    ensures Advances(t, u)
  {
    AcceptedSucceeds(t, p);
  }

  lemma RetirementAdvances(t: Topology, u: Topology, r: Retirement)
    requires ReplicaRetired(t, u, r)
    ensures Advances(t, u)
  {
  }

  lemma AcceptedEvolves(expectedVersion: U64, prior: TableSchema, updated: TableSchema)
    requires updated.id == prior.id && EvolutionRejection(expectedVersion, prior, updated).None?
    ensures Evolves(prior, updated)
  {
    var n := |prior.columns|;
    assert forall i | 0 <= i < n :: updated.columns[i] == prior.columns[i];
    assert prior.columns == updated.columns[..n];
    forall j | n <= j < |updated.columns|
      ensures updated.columns[j].id > MaxColumnId(prior.columns) && updated.columns[j].nullable
    {
      assert updated.columns[n..][j - n] == updated.columns[j];
    }
  }

  /** A schema update is accepted exactly when it is the expected next evolution. */
  lemma EvolutionAcceptedIff(expectedVersion: U64, prior: TableSchema, updated: TableSchema)
    requires ValidSchema(prior) && updated.id == prior.id
    ensures EvolutionRejection(expectedVersion, prior, updated).None?
       <==> expectedVersion == prior.version && Evolves(prior, updated)
  {
    if EvolutionRejection(expectedVersion, prior, updated).None? {
      AcceptedEvolves(expectedVersion, prior, updated);
    }
    if expectedVersion == prior.version && Evolves(prior, updated) {
      var added := updated.columns[|prior.columns|..];
      forall c | c in added ensures c.id > MaxColumnId(prior.columns) && c.nullable {
        var j :| 0 <= j < |added| && added[j] == c;
        assert updated.columns[|prior.columns| + j] == c;
      }
      assert forall j | 0 <= j < |prior.columns| :: updated.columns[j] == prior.columns[j];
    }
  }

  lemma EvolutionAdvances(t: Topology, u: Topology, expectedVersion: U64, table: TableSchema)
    requires TableEvolved(t, u, expectedVersion, table) && t.tables[table.id].id == table.id
    ensures Advances(t, u)
  {
    AcceptedEvolves(expectedVersion, t.tables[table.id], table);
  }

  /**
   * A step that keeps the invariant and only moves forward. Written as an equation so that
   * the verifier carries it as one fact instead of its many conjuncts.
   */
  ghost predicate Safe(t: Topology, u: Topology) {
    true == (TopologyInv(u) && Advances(t, u))
  }

  lemma StayingIsSafe(t: Topology)
    requires TopologyInv(t)
    ensures Safe(t, t)
  {
  }

  lemma LifecycleSafe(t: Topology, nodeId: U64, to: Lifecycle)
    requires TopologyInv(t)
    ensures Safe(t, AdvanceLifecycle(t, nodeId, to).topology)
  {
    LifecycleEffect(t, nodeId, to);
    var u := AdvanceLifecycle(t, nodeId, to).topology;
    if u != t {
      LifecycleKeepsInv(t, u, nodeId, to);
      LifecycleAdvances(t, u, nodeId, to);
    } else {
      StayingIsSafe(t);
    }
  }

  lemma NodeSafe(t: Topology, node: NodeDescriptor)
    requires TopologyInv(t) && ValidNode(node)
    ensures Safe(t, AddNode(t, node).topology)
  {
    NodeEffect(t, node);
    var u := AddNode(t, node).topology;
    if u == t {
      StayingIsSafe(t);
    } else if node.nodeId in t.nodes {
      LifecycleKeepsInv(t, u, node.nodeId, node.lifecycle);
      LifecycleAdvances(t, u, node.nodeId, node.lifecycle);
    } else {
      NodeKeepsInv(t, u, node);
      NodeAdvances(t, u, node);
    }
  }

  lemma TableSafe(t: Topology, table: TableSchema)
    requires TopologyInv(t)
    ensures Safe(t, AddTable(t, table).topology)
  {
    TableEffect(t, table);
    var u := AddTable(t, table).topology;
    if u != t {
      TableKeepsInv(t, u, table);
      TableAdvances(t, u, table);
    } else {
      StayingIsSafe(t);
    }
  }

  lemma TabletSafe(t: Topology, tablet: TabletDescriptor)
    requires TopologyInv(t) && ValidTablet(tablet)
    ensures Safe(t, AddTablet(t, tablet).topology)
  {
    TabletEffect(t, tablet);
    var u := AddTablet(t, tablet).topology;
    if u != t {
      TabletKeepsInv(t, u, tablet);
      TabletAdvances(t, u, tablet);
    } else {
      StayingIsSafe(t);
    }
  }

  lemma CreateSafe(t: Topology, request: CreateTableRequest)
    requires TopologyInv(t)
    ensures Safe(t, CreateTopology(t, request).topology)
  {
    CreateEffect(t, request);
    var u, o := CreateTopology(t, request).topology, CreateTopology(t, request).outcome;
    if u != t {
      var table, tablet := NewTable(o.tableId, request), FirstTablet(o.tableId, o.tabletId, o.raftGroupId);
      CreateKeepsInv(t, u, table, tablet);
      PublishAdvances(t, u, table, tablet, FirstPlacement(t.nodes, o.tabletId));
    } else {
      StayingIsSafe(t);
    }
  }

  lemma PlacementSafe(t: Topology, p: Placement)
    requires TopologyInv(t) && ValidPlacement(p)
    ensures Safe(t, SetPlacement(t, p).topology)
  {
    PlacementEffect(t, p);
    var u := SetPlacement(t, p).topology;
    if u != t {
      PlacementKeepsInv(t, u, p);
      PlacementAdvances(t, u, p);
    } else {
      StayingIsSafe(t);
    }
  }

  lemma RetirementSafe(t: Topology, r: Retirement)
    requires TopologyInv(t) && ValidRetirement(r)
    ensures Safe(t, Retire(t, r).topology)
  {
    RetirementEffect(t, r);
    var u := Retire(t, r).topology;
    if u != t {
      RetirementKeepsInv(t, u, r);
      RetirementAdvances(t, u, r);
    } else {
      StayingIsSafe(t);
    }
  }

  lemma EvolutionSafe(t: Topology, expectedVersion: U64, table: TableSchema)
    requires TopologyInv(t)
    ensures Safe(t, EvolveTable(t, expectedVersion, table).topology)
  {
    EvolutionEffect(t, expectedVersion, table);
    var u := EvolveTable(t, expectedVersion, table).topology;
    if u != t {
      EvolutionKeepsInv(t, u, expectedVersion, table);
      EvolutionAdvances(t, u, expectedVersion, table);
    } else {
      StayingIsSafe(t);
    }
  }

  lemma TopologySafe(t: Topology, c: Command)
    requires TopologyInv(t) && ValidCommand(c) && IsTopologyCommand(c)
    ensures Safe(t, ApplyTopology(t, c).topology)
  {
    match c
    case RegisterNode(node) => NodeSafe(t, node);
    case SetNodeLifecycle(nodeId, lifecycle) => LifecycleSafe(t, nodeId, lifecycle);
    case CreateTable(table) => TableSafe(t, table);
    case CreateTablet(tablet) => TabletSafe(t, tablet);
    case CreateTableTopology(request) => CreateSafe(t, request);
    case SetDesiredPlacement(placement) => PlacementSafe(t, placement);
    case RecordRetirement(retirement) => RetirementSafe(t, retirement);
    case UpdateTableSchema(expectedVersion, table) => EvolutionSafe(t, expectedVersion, table);
  }
}
