/** Every command keeps the invariant of the metadata state machine. */
module MetadataPreservation {
  import opened Base
  import opened Schema
  import opened MetadataTypes
  import opened Validation
  import opened InitialPlacement
  import opened MetadataSpec
  import opened MetadataInvariant
  import opened MetadataEffects

  lemma InitInv()
    ensures Inv(Init())
  {
  }

  // ---------- preservation: garbage collection and sessions ----------

  lemma GcKeeps(g: Gc, c: Command)
    requires GcInv(g) && ValidCommand(c) && IsGcCommand(c)
    ensures GcInv(ApplyGc(g, c).gc)
  {
    var h := ApplyGc(g, c).gc;
    forall k | k in h.protections ensures ProtectionInv(h.safePoint, k, h.protections[k]) {
      assert k in g.protections ==> ProtectionInv(g.safePoint, k, g.protections[k]);
    }
  }

  lemma SessionsKeep(m: Sessions, c: Command)
    requires SessionsInv(m) && ValidCommand(c) && IsSessionCommand(c)
    ensures SessionsInv(ApplySession(m, c).sessions)
  {
  }

  // ---------- preservation: nodes ----------

  /** Labels depend only on the label fields of the listed nodes. */
  lemma LabelsSame(a: Directory, b: Directory, ids: set<U64>, d: Domain)
    requires ids <= a.Keys && ids <= b.Keys
    requires forall id | id in ids :: LabelOf(a[id], d) == LabelOf(b[id], d)
    ensures Labels(a, ids, d) == Labels(b, ids, d)
  {
  }

  /** A directory change that keeps every host's labels, class and ability to serve. */
  lemma SatisfiedSame(a: Directory, b: Directory, p: Placement)
    requires Satisfied(a, p)
    requires forall r | r in p.replicas ::
               && r.nodeId in b
               && SameDirectory(a[r.nodeId], b[r.nodeId])
               && !Terminal(b[r.nodeId].lifecycle)
    ensures Satisfied(b, p)
  {
    forall d: Domain ensures Labels(b, Hosts(p.replicas), d) == Labels(a, Hosts(p.replicas), d) {
      LabelsSame(a, b, Hosts(p.replicas), d);
    }
  }

  lemma LifecycleKeepsPlacements(s: Topology, nodeId: U64, to: Lifecycle)
    requires PlacementsInv(s.nodes, s.tablets, s.desiredPlacements) && nodeId in s.nodes
    requires Terminal(to) ==> !StillExpected(s.tablets, s.desiredPlacements, nodeId)
    ensures PlacementsInv(s.nodes[nodeId := s.nodes[nodeId].(lifecycle := to)], s.tablets, s.desiredPlacements)
  {
    var nodes := s.nodes[nodeId := s.nodes[nodeId].(lifecycle := to)];
    forall k | k in s.desiredPlacements ensures Satisfied(nodes, s.desiredPlacements[k]) {
      SatisfiedSame(s.nodes, nodes, s.desiredPlacements[k]);
    }
  }

  lemma NewNodeKeepsPlacements(s: Topology, node: NodeDescriptor)
    requires PlacementsInv(s.nodes, s.tablets, s.desiredPlacements) && node.nodeId !in s.nodes
    ensures PlacementsInv(s.nodes[node.nodeId := node], s.tablets, s.desiredPlacements)
  {
    var nodes := s.nodes[node.nodeId := node];
    forall k | k in s.desiredPlacements ensures Satisfied(nodes, s.desiredPlacements[k]) {
      SatisfiedSame(s.nodes, nodes, s.desiredPlacements[k]);
    }
  }

  lemma LifecycleKeepsNodes(nodes: Directory, nodeId: U64, to: Lifecycle)
    requires NodesInv(nodes) && nodeId in nodes
    ensures NodesInv(nodes[nodeId := nodes[nodeId].(lifecycle := to)])
  {
    var after := nodes[nodeId := nodes[nodeId].(lifecycle := to)];
    forall k | k in nodes ensures Endpoints(after[k]) == Endpoints(nodes[k]) {
    }
    forall a, b | a in after && b in after && a != b ensures DisjointEndpoints(after[a], after[b]) {
      assert DisjointEndpoints(nodes[a], nodes[b]);
    }
  }

  lemma NewNodeKeepsNodes(nodes: Directory, node: NodeDescriptor)
    requires NodesInv(nodes) && ValidNode(node) && node.nodeId !in nodes && !EndpointTaken(nodes, node)
    ensures NodesInv(nodes[node.nodeId := node])
  {
    var after := nodes[node.nodeId := node];
    forall a, b | a in after && b in after && a != b ensures DisjointEndpoints(after[a], after[b]) {
      if a in nodes && b in nodes {
        assert DisjointEndpoints(nodes[a], nodes[b]);
      } else {
        assert !ShareEndpoint(node, nodes[if a in nodes then a else b]);
      }
    }
  }

  lemma LifecycleKeepsInv(t: Topology, u: Topology, nodeId: U64, to: Lifecycle)
    requires TopologyInv(t) && LifecycleMoved(t, u, nodeId, to)
    ensures TopologyInv(u)
  {
    LifecycleKeepsNodes(t.nodes, nodeId, to);
    LifecycleKeepsPlacements(t, nodeId, to);
  }

  lemma NodeKeepsInv(t: Topology, u: Topology, node: NodeDescriptor)
    requires TopologyInv(t) && ValidNode(node) && NodeAdded(t, u, node)
    ensures TopologyInv(u)
  {
    NewNodeKeepsNodes(t.nodes, node);
    NewNodeKeepsPlacements(t, node);
  }

  // ---------- preservation: tables ----------

  lemma TablesGrow(tables: map<U64, TableSchema>, byName: map<string, U64>, t: TableSchema)
    requires TablesInv(tables, byName) && ValidSchema(t) && t.id !in tables && t.name !in byName
    ensures TablesInv(tables[t.id := t], byName[t.name := t.id])
  {
  }

  lemma TabletsSeeNewTable(tables: map<U64, TableSchema>, tablets: map<U64, TabletDescriptor>, t: TableSchema)
    requires TabletsInv(tables, tablets)
    requires t.id in tables ==> tables[t.id].tabletCount == t.tabletCount
    ensures TabletsInv(tables[t.id := t], tablets)
  {
    forall k | k in tablets ensures TabletInv(tables[t.id := t], k, tablets[k]) {
      assert TabletInv(tables, k, tablets[k]);
    }
  }

  /** Cached CREATE TABLE results stay true while tables and tablets are only added. */
  lemma CacheSeesMore(tables: map<U64, TableSchema>, tablets: map<U64, TabletDescriptor>,
                      moreTables: map<U64, TableSchema>, moreTablets: map<U64, TabletDescriptor>,
                      cache: Cache)
    requires CacheInv(tables, tablets, cache)
    requires tables.Keys <= moreTables.Keys
    requires forall k | k in tablets :: k in moreTablets && moreTablets[k] == tablets[k]
    ensures CacheInv(moreTables, moreTablets, cache)
  {
    forall id | id in cache ensures CachedInv(moreTables, moreTablets, cache[id]) {
      assert CachedInv(tables, tablets, cache[id]);
    }
  }

  lemma AddTableApplied(s: Topology, t: TableSchema)
    requires TopologyInv(s)
    requires ValidSchema(t) && t.id !in s.tables && t.name !in s.tableIdsByName
    ensures TopologyInv(s.(tables := s.tables[t.id := t],
                   tableIdsByName := s.tableIdsByName[t.name := t.id],
                   allocator := s.allocator.(maxTableId := Max(s.allocator.maxTableId, t.id))))
  {
    var tables, byName := s.tables[t.id := t], s.tableIdsByName[t.name := t.id];
    var a := s.allocator.(maxTableId := Max(s.allocator.maxTableId, t.id));
    TablesGrow(s.tables, s.tableIdsByName, t);
    TabletsSeeNewTable(s.tables, s.tablets, t);
    assert MarksInv(a, tables, s.tablets);
  }

  lemma TableReplaced(tables: map<U64, TableSchema>, byName: map<string, U64>, t: TableSchema)
    requires TablesInv(tables, byName) && ValidSchema(t) && t.id in tables && t.name == tables[t.id].name
    ensures TablesInv(tables[t.id := t], byName[t.name := t.id])
  {
    assert byName[t.name := t.id] == byName;
  }

  lemma EvolutionKeeps(expectedVersion: U64, prior: TableSchema, updated: TableSchema)
    requires EvolutionRejection(expectedVersion, prior, updated).None?
    ensures updated.name == prior.name && updated.tabletCount == prior.tabletCount
  {
  }

  lemma EvolveTableApplied(s: Topology, t: TableSchema)
    requires TopologyInv(s) && ValidSchema(t) && t.id in s.tables
    requires t.name == s.tables[t.id].name && t.tabletCount == s.tables[t.id].tabletCount
    ensures TopologyInv(s.(tables := s.tables[t.id := t], tableIdsByName := s.tableIdsByName[t.name := t.id]))
  {
    var tables, byName := s.tables[t.id := t], s.tableIdsByName[t.name := t.id];
    TableReplaced(s.tables, s.tableIdsByName, t);
    TabletsSeeNewTable(s.tables, s.tablets, t);
    assert MarksInv(s.allocator, tables, s.tablets);
  }

  lemma EvolutionKeepsInv(t: Topology, u: Topology, expectedVersion: U64, table: TableSchema)
    requires TopologyInv(t) && TableEvolved(t, u, expectedVersion, table)
    ensures TopologyInv(u)
  {
    EvolutionKeeps(expectedVersion, t.tables[table.id], table);
    EvolveTableApplied(t, table);
  }

  // ---------- preservation: tablets ----------

  lemma TabletsGrow(tables: map<U64, TableSchema>, tablets: map<U64, TabletDescriptor>, t: TabletDescriptor)
    requires TabletsInv(tables, tablets) && TabletInv(tables, t.tabletId, t) && t.tabletId !in tablets
    requires forall id | id in tablets :: !OverlappingTablets(t, tablets[id])
    ensures TabletsInv(tables, tablets[t.tabletId := t])
  {
    var after := tablets[t.tabletId := t];
    forall a, b | a in after && b in after && a != b ensures !OverlappingTablets(after[a], after[b]) {
      assert b != t.tabletId ==> !OverlappingTablets(t, tablets[b]);
      assert a != t.tabletId ==> !OverlappingTablets(t, tablets[a]);
    }
  }

  lemma GroupsGrow(tablets: map<U64, TabletDescriptor>, byGroup: map<U64, U64>, t: TabletDescriptor)
    requires GroupIndexInv(tablets, byGroup) && t.tabletId !in tablets && t.raftGroupId !in byGroup
    ensures GroupIndexInv(tablets[t.tabletId := t], byGroup[t.raftGroupId := t.tabletId])
  {
  }

  lemma BucketsGrow(tablets: map<U64, TabletDescriptor>, byPartition: map<(U64, U32), U64>, t: TabletDescriptor)
    requires PartitionIndexInv(tablets, byPartition) && t.tabletId !in tablets
    requires t.partition.Hash? ==> BucketOf(t) !in byPartition
    ensures PartitionIndexInv(tablets[t.tabletId := t], IndexBucket(byPartition, t))
  {
  }

  lemma PlacementsSeeNewTablet(nodes: Directory, tablets: map<U64, TabletDescriptor>,
                               placements: map<U64, Placement>, t: TabletDescriptor)
    requires PlacementsInv(nodes, tablets, placements)
    ensures PlacementsInv(nodes, tablets[t.tabletId := t], placements)
  {
  }

  lemma RetiredSeesNewGroup(byGroup: map<U64, U64>, placements: map<U64, Placement>,
                            retired: map<(U64, U64), Retirement>, group: U64, tabletId: U64)
    requires RetiredInv(byGroup, placements, retired) && group !in byGroup
    ensures RetiredInv(byGroup[group := tabletId], placements, retired)
  {
  }

  lemma AcceptedTablet(s: Topology, t: TabletDescriptor)
    requires t.tableId in s.tables && PartitionRejection(s, t).None?
    ensures t.partition.Hash? ==> BucketOf(t) !in s.tabletIdsByPartition
    ensures t.partition.Hash? ==> t.partition.bucketCount == s.tables[t.tableId].tabletCount
    ensures forall id | id in s.tablets :: !OverlappingTablets(t, s.tablets[id])
  {
  }

  lemma AddTabletApplied(s: Topology, t: TabletDescriptor)
    requires TopologyInv(s) && TabletInv(s.tables, t.tabletId, t)
    requires t.tabletId !in s.tablets && t.raftGroupId !in s.tabletIdsByRaftGroup
    requires t.partition.Hash? ==> BucketOf(t) !in s.tabletIdsByPartition
    requires forall id | id in s.tablets :: !OverlappingTablets(t, s.tablets[id])
    ensures TopologyInv(s.(tabletIdsByRaftGroup := s.tabletIdsByRaftGroup[t.raftGroupId := t.tabletId],
                   tabletIdsByPartition := IndexBucket(s.tabletIdsByPartition, t),
                   tablets := s.tablets[t.tabletId := t],
                   allocator := s.allocator.(
                     maxTabletId := Max(s.allocator.maxTabletId, t.tabletId),
                     maxRaftGroupId := Max(s.allocator.maxRaftGroupId, t.raftGroupId))))
  {
    var tablets := s.tablets[t.tabletId := t];
    var byGroup := s.tabletIdsByRaftGroup[t.raftGroupId := t.tabletId];
    var byPartition := IndexBucket(s.tabletIdsByPartition, t);
    var a := s.allocator.(maxTabletId := Max(s.allocator.maxTabletId, t.tabletId),
                          maxRaftGroupId := Max(s.allocator.maxRaftGroupId, t.raftGroupId));
    TabletsGrow(s.tables, s.tablets, t);
    GroupsGrow(s.tablets, s.tabletIdsByRaftGroup, t);
    BucketsGrow(s.tablets, s.tabletIdsByPartition, t);
    PlacementsSeeNewTablet(s.nodes, s.tablets, s.desiredPlacements, t);
    RetiredSeesNewGroup(s.tabletIdsByRaftGroup, s.desiredPlacements, s.retiredReplicas,
                        t.raftGroupId, t.tabletId);
    assert MarksInv(a, s.tables, tablets);
  }

  lemma TabletKeepsInv(t: Topology, u: Topology, tablet: TabletDescriptor)
    requires TopologyInv(t) && ValidTablet(tablet) && TabletAdded(t, u, tablet)
    ensures TopologyInv(u)
  {
    AcceptedTablet(t, tablet);
    AddTabletApplied(t, tablet);
  }

  // ---------- preservation: placements ----------

  lemma AcceptedPlacement(s: Topology, p: Placement)
    requires p.tabletId in s.tablets && PlacementRejection(s, p).None?
    ensures Satisfied(s.nodes, p)
    ensures forall r | r in p.replicas ::
              (s.tablets[p.tabletId].raftGroupId, r.replicaId) !in s.retiredReplicas
  {
    var group, existing := s.tablets[p.tabletId].raftGroupId, Existing(s, p.tabletId);
    forall r | r in p.replicas
      ensures GoodHost(s.nodes, p.policy, r.nodeId) && (group, r.replicaId) !in s.retiredReplicas
    {
      assert ReplicaRejection(s.nodes, s.retiredReplicas, group, existing, p.policy, r).None?;
    }
    forall d: Domain ensures MinimumOf(p.policy, d) <= |Labels(s.nodes, Hosts(p.replicas), d)| {
      assert DomainRejection(s.nodes, p, d).None?;
    }
  }

  lemma PlacementAdded(nodes: Directory, tablets: map<U64, TabletDescriptor>,
                       placements: map<U64, Placement>, p: Placement)
    requires PlacementsInv(nodes, tablets, placements)
    requires p.tabletId in tablets && ValidPlacement(p) && Satisfied(nodes, p)
    ensures PlacementsInv(nodes, tablets, placements[p.tabletId := p])
  {
  }

  lemma RetiredSeesPlacement(tablets: map<U64, TabletDescriptor>, byGroup: map<U64, U64>,
                             placements: map<U64, Placement>,
                             retired: map<(U64, U64), Retirement>, p: Placement)
    requires RetiredInv(byGroup, placements, retired) && GroupIndexInv(tablets, byGroup)
    requires p.tabletId in tablets
    requires forall r | r in p.replicas :: (tablets[p.tabletId].raftGroupId, r.replicaId) !in retired
    ensures RetiredInv(byGroup, placements[p.tabletId := p], retired)
  {
    var after := placements[p.tabletId := p];
    forall k | k in retired ensures !Desires(after, byGroup[k.0], k.1) {
      assert !Desires(placements, byGroup[k.0], k.1);
      if byGroup[k.0] == p.tabletId {
        assert tablets[p.tabletId].raftGroupId == k.0;
        assert forall r | r in p.replicas :: (k.0, r.replicaId) !in retired;
      }
    }
  }

  lemma ReplicaMarkIsFree(a: Allocator, m: U64, tables: map<U64, TableSchema>,
                          tablets: map<U64, TabletDescriptor>)
    requires MarksInv(a, tables, tablets)
    ensures MarksInv(a.(maxReplicaId := m), tables, tablets)
  {
  }

  lemma SetPlacementApplied(s: Topology, p: Placement, mark: U64)
    requires TopologyInv(s) && ValidPlacement(p) && p.tabletId in s.tablets && Satisfied(s.nodes, p)
    requires forall r | r in p.replicas ::
               (s.tablets[p.tabletId].raftGroupId, r.replicaId) !in s.retiredReplicas
    ensures TopologyInv(s.(desiredPlacements := s.desiredPlacements[p.tabletId := p],
                           allocator := s.allocator.(maxReplicaId := mark)))
  {
    ReplicaMarkIsFree(s.allocator, mark, s.tables, s.tablets);
    PlacementAdded(s.nodes, s.tablets, s.desiredPlacements, p);
    RetiredSeesPlacement(s.tablets, s.tabletIdsByRaftGroup, s.desiredPlacements, s.retiredReplicas, p);
  }

  lemma PlacementKeepsInv(t: Topology, u: Topology, p: Placement)
    requires TopologyInv(t) && ValidPlacement(p) && PlacementSet(t, u, p)
    ensures TopologyInv(u)
  {
    AcceptedPlacement(t, p);
    SetPlacementApplied(t, p, Max(t.allocator.maxReplicaId, MaxReplica(p.replicas)));
  }

  lemma RetiredAdded(byGroup: map<U64, U64>, placements: map<U64, Placement>,
                     retired: map<(U64, U64), Retirement>, r: Retirement)
    requires RetiredInv(byGroup, placements, retired) && ValidRetirement(r)
    requires r.raftGroupId in byGroup && !Desires(placements, byGroup[r.raftGroupId], r.replicaId)
    ensures RetiredInv(byGroup, placements, retired[(r.raftGroupId, r.replicaId) := r])
  {
  }

  lemma RetirementKeepsInv(t: Topology, u: Topology, r: Retirement)
    requires TopologyInv(t) && ValidRetirement(r) && ReplicaRetired(t, u, r)
    ensures TopologyInv(u)
  {
    RetiredAdded(t.tabletIdsByRaftGroup, t.desiredPlacements, t.retiredReplicas, r);
  }

  // ---------- preservation: atomic CREATE TABLE ----------

  lemma {:induction false} AllVotersCount(rs: seq<Replica>)
    requires forall i | 0 <= i < |rs| :: rs[i].role.Voter?
    ensures VoterCount(rs) == |rs|
  {
    if rs != [] {
      AllVotersCount(rs[..|rs| - 1]);
    }
  }

  lemma FirstPlacementValid(nodes: Directory, tabletId: U64)
    requires NodesInv(nodes) && ActiveNodes(nodes) != {} && tabletId != 0
    ensures ValidPlacement(FirstPlacement(nodes, tabletId))
  {
    var voters, p := InitialVoters(nodes), FirstPlacement(nodes, tabletId);
    InitialVotersAreDistinctActive(nodes);
    SmallLabels(nodes, voters);
    AllVotersCount(p.replicas);
    forall i | 0 <= i < |p.replicas| ensures p.replicas[i].nodeId != 0 {
      assert voters[i] in ActiveNodes(nodes);
    }
  }

  lemma VotersHost(voters: seq<U64>)
    requires |voters| <= REPLICATION_FACTOR
    ensures Hosts(VoterReplicas(voters)) == Elements(voters)
  {
    var rs := VoterReplicas(voters);
    forall x | x in Elements(voters) ensures x in Hosts(rs) {
      var i :| 0 <= i < |voters| && voters[i] == x;
      assert rs[i].nodeId == x;
    }
  }

  lemma VotersAreGoodHosts(nodes: Directory, voters: seq<U64>, policy: PlacementPolicy, r: Replica)
    requires |voters| <= REPLICATION_FACTOR && r in VoterReplicas(voters) && policy.storageClass.None?
    requires forall i | 0 <= i < |voters| :: voters[i] in ActiveNodes(nodes)
    ensures GoodHost(nodes, policy, r.nodeId)
  {
    var i :| 0 <= i < |voters| && r == VoterReplicas(voters)[i];
    assert voters[i] in ActiveNodes(nodes);
  }

  /** The initial policy asks for exactly the diversity its voters have. */
  lemma InitialPolicyIsMet(nodes: Directory, voters: seq<U64>, d: Domain)
    requires |voters| <= REPLICATION_FACTOR
    ensures MinimumOf(InitialPolicy(nodes, voters), d) == |Labels(nodes, Hosts(VoterReplicas(voters)), d)|
  {
    VotersHost(voters);
  }

  lemma FirstPlacementSatisfied(nodes: Directory, tabletId: U64)
    ensures Satisfied(nodes, FirstPlacement(nodes, tabletId))
  {
    var voters, p := InitialVoters(nodes), FirstPlacement(nodes, tabletId);
    InitialVotersAreDistinctActive(nodes);
    forall r | r in p.replicas ensures GoodHost(nodes, p.policy, r.nodeId) {
      VotersAreGoodHosts(nodes, voters, p.policy, r);
    }
    forall d: Domain ensures MinimumOf(p.policy, d) <= |Labels(nodes, Hosts(p.replicas), d)| {
      InitialPolicyIsMet(nodes, voters, d);
    }
  }

  /** No existing tablet overlaps a tablet of a table that does not exist yet. */
  lemma NewTableHasRoom(tables: map<U64, TableSchema>, tablets: map<U64, TabletDescriptor>, t: TabletDescriptor)
    requires TabletsInv(tables, tablets) && t.tableId !in tables
    ensures forall id | id in tablets :: !OverlappingTablets(t, tablets[id])
  {
    forall id | id in tablets ensures !OverlappingTablets(t, tablets[id]) {
      assert TabletInv(tables, id, tablets[id]);
    }
  }

  lemma NewGroupHasNoRetirements(s: Topology, group: U64)
    requires TopologyInv(s) && group !in s.tabletIdsByRaftGroup
    ensures forall id: U64 :: (group, id) !in s.retiredReplicas
  {
  }

  /** One table and its tablet, added together, keep everything but the replica mark. */
  lemma TableAndTabletAdded(s: Topology, table: TableSchema, tablet: TabletDescriptor)
    requires TopologyInv(s) && ValidSchema(table) && ValidTablet(tablet)
    requires table.name !in s.tableIdsByName && table.id !in s.tables
    requires tablet.tabletId !in s.tablets && tablet.raftGroupId !in s.tabletIdsByRaftGroup
    requires tablet.tableId == table.id && tablet.partition.Range?
    requires table.id > s.allocator.maxTableId && tablet.tabletId > s.allocator.maxTabletId
    requires tablet.raftGroupId > s.allocator.maxRaftGroupId
    ensures TopologyInv(s.(tables := s.tables[table.id := table],
                           tableIdsByName := s.tableIdsByName[table.name := table.id],
                           tabletIdsByRaftGroup := s.tabletIdsByRaftGroup[tablet.raftGroupId := tablet.tabletId],
                           tablets := s.tablets[tablet.tabletId := tablet],
                           allocator := s.allocator.(maxTableId := table.id, maxTabletId := tablet.tabletId,
                                                     maxRaftGroupId := tablet.raftGroupId)))
  {
    NewTableHasRoom(s.tables, s.tablets, tablet);
    AddTableApplied(s, table);
    AddTabletApplied(s.(tables := s.tables[table.id := table],
                        tableIdsByName := s.tableIdsByName[table.name := table.id],
                        allocator := s.allocator.(maxTableId := table.id)), tablet);
  }

  lemma PublishKeepsInv(t: Topology, u: Topology, table: TableSchema, tablet: TabletDescriptor, p: Placement)
    requires TopologyInv(t) && Published(t, u, table, tablet, p) && Satisfied(t.nodes, p)
    ensures TopologyInv(u)
  {
    TableAndTabletAdded(t, table, tablet);
    NewGroupHasNoRetirements(t, tablet.raftGroupId);
    SetPlacementApplied(
      t.(tables := t.tables[table.id := table],
         tableIdsByName := t.tableIdsByName[table.name := table.id],
         tabletIdsByRaftGroup := t.tabletIdsByRaftGroup[tablet.raftGroupId := tablet.tabletId],
         tablets := t.tablets[tablet.tabletId := tablet],
         allocator := t.allocator.(maxTableId := table.id, maxTabletId := tablet.tabletId,
                                   maxRaftGroupId := tablet.raftGroupId)),
      p, MaxReplica(p.replicas));
  }

  // ---------- preservation: every command and every run ----------

  lemma TableKeepsInv(t: Topology, u: Topology, table: TableSchema)
    requires TopologyInv(t) && TableAdded(t, u, table)
    ensures TopologyInv(u)
  {
    AddTableApplied(t, table);
  }

  lemma CreateKeepsInv(t: Topology, u: Topology, table: TableSchema, tablet: TabletDescriptor)
    requires TopologyInv(t) && Published(t, u, table, tablet, FirstPlacement(t.nodes, tablet.tabletId))
    ensures TopologyInv(u)
  {
    FirstPlacementSatisfied(t.nodes, tablet.tabletId);
    PublishKeepsInv(t, u, table, tablet, FirstPlacement(t.nodes, tablet.tabletId));
  }
}
