/** Which reachable states do not survive a snapshot, and what rules each case out. */
module SnapshotGaps {
  import opened Base
  import opened Schema
  import opened MetadataTypes
  import opened Validation
  import opened InitialPlacement
  import opened MetadataSpec
  import opened MetadataInvariant
  import opened MetadataEffects
  import opened MetadataPreservation
  import opened MetadataSteps
  import opened MetadataRuns
  import opened PartitionOwnership
  import opened IdentityAllocation
  import opened Snapshot
  import opened SnapshotValidity
  import opened SnapshotRestore
  import opened SnapshotTransparency

  // ---------- hash and range tablets in one table ----------

  /** No table has both hash and range tablets. */
  predicate Unmixed(t: Topology) {
    forall a, b | a in t.tablets && b in t.tablets && t.tablets[a].tableId == t.tablets[b].tableId ::
      t.tablets[a].partition.Hash? == t.tablets[b].partition.Hash?
  }

  lemma UnmixedHasRoom(t: Topology, k: U64)
    requires TabletsInv(t.tables, t.tablets) && PartitionIndexInv(t.tablets, t.tabletIdsByPartition)
    requires Unmixed(t) && k in t.tablets && t.tablets[k].partition.Hash?
    ensures HasRoom(t.tables, t.tablets, k)
  {
    var ids := Earlier(t.tablets, k);
    BucketInTable(t.tables, t.tablets, k);
    forall id | id in ids
      ensures t.tablets[id].partition.Hash?
      ensures t.tablets[k].partition.bucket != t.tablets[id].partition.bucket < t.tables[t.tablets[k].tableId].tabletCount
    {
      BucketInTable(t.tables, t.tablets, id);
      DistinctBuckets(t.tablets, t.tabletIdsByPartition, id, k);
    }
    forall a, b | a in ids && b in ids && a != b
      ensures t.tablets[a].partition.bucket != t.tablets[b].partition.bucket
    {
      DistinctBuckets(t.tablets, t.tabletIdsByPartition, a, b);
    }
    Pigeonhole(t.tablets, ids, t.tablets[k].partition.bucket, t.tables[t.tablets[k].tableId].tabletCount);
  }

  /** Tables that do not mix partition kinds always restore, by pigeonhole. */
  lemma UnmixedTabletsFit(t: Topology)
    requires TopologyInv(t) && Unmixed(t)
    ensures HashTabletsFit(t)
  {
    forall k | k in t.tablets ensures HasRoom(t.tables, t.tablets, k) {
      if t.tablets[k].partition.Hash? {
        UnmixedHasRoom(t, k);
      }
    }
  }

  const SMALL_TABLE: TableSchema := TableSchema(10, "t", [Column(1, "id", Int, false)], [1], 1, 1)
  const HASH_TABLET: TabletDescriptor := TabletDescriptor(5, 10, 5, 1, Hash(0, 1))
  const RANGE_TABLET: TabletDescriptor := TabletDescriptor(3, 10, 3, 1, Range([], []))

  lemma SmallTableIsValid()
    ensures ValidSchema(SMALL_TABLE)
  {
    assert !IsWhiteSpace("t"[0]) && !IsWhiteSpace("id"[0]);
    assert SMALL_TABLE.columns[0] in SMALL_TABLE.columns;
  }

  /** One hash tablet, then a range tablet with a smaller identity: reachable, but not restorable. */
  lemma MixedTopology(t: Topology)
    requires t.tables == map[] && t.tableIdsByName == map[] && t.tablets == map[]
    requires t.tabletIdsByRaftGroup == map[] && t.tabletIdsByPartition == map[]
    ensures var t1 := AddTable(t, SMALL_TABLE);
            var t2 := AddTablet(t1.topology, HASH_TABLET);
            var t3 := AddTablet(t2.topology, RANGE_TABLET);
            t1.outcome.Applied? && t2.outcome.Applied? && t3.outcome.Applied? && !HashTabletsFit(t3.topology)
  {
    SmallTableIsValid();
    var t1 := AddTable(t, SMALL_TABLE).topology;
    assert TabletsOf(t1.tablets, 10) == {};
    var t2 := AddTablet(t1, HASH_TABLET).topology;
    assert t2.tablets == map[5 := HASH_TABLET];
    var t3 := AddTablet(t2, RANGE_TABLET).topology;
    assert t3.tablets == map[5 := HASH_TABLET, 3 := RANGE_TABLET];
    assert Earlier(t3.tablets, 5) == {3};
  }

  lemma RunTopology(s: State, c: Command, rest: seq<Entry>)
    requires s.clusterId.Some? && ValidCommand(c) && IsTopologyCommand(c)
    ensures Run(s, [Bare(c)] + rest) == Run(s.(topology := ApplyTopology(s.topology, c).topology), rest)
  {
    assert ([Bare(c)] + rest)[1..] == rest;
  }

  lemma RunInitialize(clusterId: string, rest: seq<Entry>)
    requires !IsBlank(clusterId)
    ensures Run(Init(), [Bare(ClusterInitialized(clusterId))] + rest)
         == Run(Init().(clusterId := Some(clusterId)), rest)
  {
    assert ([Bare(ClusterInitialized(clusterId))] + rest)[1..] == rest;
  }

  const MIXED_LOG: seq<Entry> :=
    [Bare(ClusterInitialized("c"))] + ([Bare(CreateTable(SMALL_TABLE))]
      + ([Bare(CreateTablet(HASH_TABLET))] + ([Bare(CreateTablet(RANGE_TABLET))] + [])))

  lemma MixedTableIsLost()
    ensures Inv(Run(Init(), MIXED_LOG)) && Restore(ToSnapshot(Run(Init(), MIXED_LOG))) == None
  {
    assert !IsWhiteSpace("c"[0]);
    SmallTableIsValid();
    InitInv();
    RunKeepsInv(Init(), MIXED_LOG);
    var s0 := Init().(clusterId := Some("c"));
    var t1 := AddTable(s0.topology, SMALL_TABLE).topology;
    var t2 := AddTablet(t1, HASH_TABLET).topology;
    MixedTopology(s0.topology);
    var rest3 := [Bare(CreateTablet(RANGE_TABLET))] + [];
    var rest2 := [Bare(CreateTablet(HASH_TABLET))] + rest3;
    RunInitialize("c", [Bare(CreateTable(SMALL_TABLE))] + rest2);
    RunTopology(s0, CreateTable(SMALL_TABLE), rest2);
    RunTopology(s0.(topology := t1), CreateTablet(HASH_TABLET), rest3);
    RunTopology(s0.(topology := t2), CreateTablet(RANGE_TABLET), []);
    SnapshotIsTransparent(Run(Init(), MIXED_LOG));
  }

  // ---------- the retry cache ----------

  /** An entry cached before initialization makes the state unrestorable, whatever the entry. */
  lemma EarlyCacheIsLost(id: LogicalCommandId, c: Command)
    requires !(c.ClusterInitialized? && ValidCommand(c))
    ensures Restore(ToSnapshot(ApplyLogged(Init(), id, c).state)) == None
  {
    var s := ApplyLogged(Init(), id, c).state;
    InitInv();
    EntryKeepsInv(Init(), Logged(id, c));
    assert id in s.requestDeduplication;
    SnapshotIsTransparent(s);
  }

  /** So does an identity that cannot be written as a request identity, at any time. */
  lemma UnusableIdIsLost(s: State, id: LogicalCommandId, c: Command)
    requires Inv(s) && (id.clientId == 0 || id.requestSequence == 0)
    ensures Restore(ToSnapshot(ApplyLogged(s, id, c).state)) == None
  {
    var u := ApplyLogged(s, id, c).state;
    EntryKeepsInv(s, Logged(id, c));
    assert id in u.requestDeduplication;
    SnapshotIsTransparent(u);
  }

  // ---------- the replica mark ----------

  lemma VoterMark(voters: seq<U64>)
    requires 0 < |voters| <= REPLICATION_FACTOR
    ensures MaxReplica(VoterReplicas(voters)) == |voters|
  {
    var rs := VoterReplicas(voters);
    assert rs[|voters| - 1].replicaId == |voters|;
  }

  lemma PublishMark(t: Topology, u: Topology, table: TableSchema, tablet: TabletDescriptor)
    requires Published(t, u, table, tablet, FirstPlacement(t.nodes, tablet.tabletId)) && ActiveNodes(t.nodes) != {}
    ensures u.allocator.maxReplicaId == |InitialVoters(t.nodes)|
  {
    InitialVotersAreDistinctActive(t.nodes);
    VoterMark(InitialVoters(t.nodes));
  }

  /**
   * CREATE TABLE sets the replica mark to the number of voters it just placed, so the mark still
   * dominates exactly when no earlier desired or retired replica identity exceeds that number.
   */
  lemma CreateKeepsMarkIff(t: Topology, request: CreateTableRequest)
    requires TopologyInv(t) && CreateTopology(t, request).outcome.TableCreated?
    ensures ReplicaMarkDominates(CreateTopology(t, request).topology)
       <==> PlacementsBelow(t.desiredPlacements, |InitialVoters(t.nodes)|)
            && RetiredBelow(t.retiredReplicas, |InitialVoters(t.nodes)|)
  {
    var u, o := CreateTopology(t, request).topology, CreateTopology(t, request).outcome;
    CreateEffect(t, request);
    var table, tablet := NewTable(o.tableId, request), FirstTablet(o.tableId, o.tabletId, o.raftGroupId);
    PublishMark(t, u, table, tablet);
    MarkAfterPublish(t, u, table, tablet, FirstPlacement(t.nodes, o.tabletId), |InitialVoters(t.nodes)|);
  }

  lemma MarkAfterPublish(t: Topology, u: Topology, table: TableSchema, tablet: TabletDescriptor, p: Placement, mark: U64)
    requires PlacementsInv(t.nodes, t.tablets, t.desiredPlacements) && Published(t, u, table, tablet, p)
    requires u.allocator.maxReplicaId == mark
    ensures ReplicaMarkDominates(u) <==> PlacementsBelow(t.desiredPlacements, mark) && RetiredBelow(t.retiredReplicas, mark)
  {
    assert u.desiredPlacements == t.desiredPlacements[tablet.tabletId := p] && u.retiredReplicas == t.retiredReplicas;
    assert tablet.tabletId !in t.desiredPlacements;
    assert MaxReplica(p.replicas) == mark;
    if PlacementsBelow(u.desiredPlacements, mark) {
      forall k | k in t.desiredPlacements ensures MaxReplica(t.desiredPlacements[k].replicas) <= mark {
        assert u.desiredPlacements[k] == t.desiredPlacements[k];
      }
    }
  }

  /** A retirement keeps the mark dominant exactly when the retired identity is not above it. */
  lemma RetirementKeepsMarkIff(t: Topology, r: Retirement)
    requires Retire(t, r).outcome.Applied?
    ensures ReplicaMarkDominates(Retire(t, r).topology)
       <==> ReplicaMarkDominates(t) && r.replicaId <= t.allocator.maxReplicaId
  {
    RetirementEffect(t, r);
    var u, key := Retire(t, r).topology, (r.raftGroupId, r.replicaId);
    assert u.retiredReplicas == t.retiredReplicas[key := r];
    if RetiredBelow(u.retiredReplicas, u.allocator.maxReplicaId) {
      assert key in u.retiredReplicas;
      forall k | k in t.retiredReplicas ensures k.1 <= t.allocator.maxReplicaId {
        assert k in u.retiredReplicas;
      }
    }
  }

  /** A desired placement never breaks the mark. */
  lemma PlacementKeepsMark(t: Topology, p: Placement)
    requires ReplicaMarkDominates(t)
    ensures ReplicaMarkDominates(SetPlacement(t, p).topology)
  {
    PlacementEffect(t, p);
  }

  const NODE: NodeDescriptor :=
    NodeDescriptor(1, Endpoint("a", true), Endpoint("b", true), Endpoint("c", true), Endpoint("d", true),
                   None, None, None, "s", Active)
  const FIRST_REQUEST: CreateTableRequest := CreateTableRequest("x", [Column(1, "k", Int, false)], [1])
  const SECOND_REQUEST: CreateTableRequest := CreateTableRequest("y", [Column(1, "k", Int, false)], [1])
  const MOVED: Placement := Placement(2, 2, [Replica(7, 1, Voter)], PlacementPolicy(1, 0, 0, 0, None, []))

  lemma WitnessesAreValid()
    ensures ValidNode(NODE) && ValidRequest(FIRST_REQUEST) && ValidRequest(SECOND_REQUEST)
    ensures !IsBlank("c")
  {
    assert !IsWhiteSpace("a"[0]) && !IsWhiteSpace("b"[0]) && !IsWhiteSpace("c"[0]) && !IsWhiteSpace("d"[0]);
    assert !IsWhiteSpace("s"[0]) && !IsWhiteSpace("x"[0]) && !IsWhiteSpace("y"[0]) && !IsWhiteSpace("k"[0]);
    assert FIRST_REQUEST.columns[0] in FIRST_REQUEST.columns && SECOND_REQUEST.columns[0] in SECOND_REQUEST.columns;
  }

  lemma MovedIsValid()
    ensures ValidPlacement(MOVED) && MaxReplica(MOVED.replicas) == 7
  {
    assert MOVED.replicas[..0] == [];
  }

  /** A topology with one node and one table, as CREATE TABLE leaves it. */
  ghost predicate OneTable(t: Topology) {
    && t.nodes == map[1 := NODE]
    && t.allocator.maxTableId == 2 && t.allocator.maxTabletId == 2 && t.allocator.maxRaftGroupId == 3
    && "y" !in t.tableIdsByName
    && 2 in t.tablets && 2 in t.desiredPlacements
    && 3 in t.tabletIdsByRaftGroup && t.tabletIdsByRaftGroup[3] == 2
    && t.retiredReplicas == map[]
  }

  lemma OneNodeVoters()
    ensures ActiveNodes(map[1 := NODE]) == {1} && |InitialVoters(map[1 := NODE])| == 1
  {
    InitialVotersAreDistinctActive(map[1 := NODE]);
  }

  lemma PublishedOneTable(t: Topology, u: Topology, table: TableSchema, tablet: TabletDescriptor, p: Placement)
    requires Published(t, u, table, tablet, p)
    requires t.nodes == map[1 := NODE] && t.tableIdsByName == map[] && table.name == "x"
    requires t.allocator == INITIAL_ALLOCATOR && t.retiredReplicas == map[]
    ensures OneTable(u) && u.desiredPlacements[2] == p
    ensures u.allocator.maxReplicaId == MaxReplica(p.replicas)
  {
    assert u.tableIdsByName == map["x" := table.id];
    assert "x"[0] != "y"[0];
  }

  lemma FirstVoters(nodes: Directory, tabletId: U64)
    requires nodes == map[1 := NODE]
    ensures FirstPlacement(nodes, tabletId).epoch == 1 && MaxReplica(FirstPlacement(nodes, tabletId).replicas) == 1
  {
    OneNodeVoters();
    VoterMark(InitialVoters(nodes));
  }

  lemma FirstStage(t: Topology)
    requires TopologyInv(t) && t.nodes == map[1 := NODE] && t.tableIdsByName == map[]
    requires t.allocator == INITIAL_ALLOCATOR && t.retiredReplicas == map[]
    ensures var u := CreateTopology(t, FIRST_REQUEST).topology;
            && TopologyInv(u)
            && OneTable(u) && u.desiredPlacements[2].epoch == 1 && MaxReplica(u.desiredPlacements[2].replicas) == 1
            && u.allocator.maxReplicaId == 1
  {
    WitnessesAreValid();
    OneNodeVoters();
    CreateSucceedsIff(t, FIRST_REQUEST);
    CreateEffect(t, FIRST_REQUEST);
    CreateSafe(t, FIRST_REQUEST);
    FirstVoters(t.nodes, 2);
    PublishedOneTable(t, CreateTopology(t, FIRST_REQUEST).topology, NewTable(2, FIRST_REQUEST),
                      FirstTablet(2, 2, 3), FirstPlacement(t.nodes, 2));
  }

  lemma MoveHasHosts(t: Topology, group: U64, prior: Placement)
    requires t.nodes == map[1 := NODE] && t.retiredReplicas == map[]
    ensures FirstReplicaRejection(t.nodes, t.retiredReplicas, group, Some(prior), MOVED.policy, MOVED.replicas).None?
    ensures FirstDomainRejection(t.nodes, MOVED).None?
  {
    assert forall r | r in MOVED.replicas :: r == Replica(7, 1, Voter);
    assert ReplicaRejection(t.nodes, t.retiredReplicas, group, Some(prior), MOVED.policy, Replica(7, 1, Voter)).None?;
  }

  lemma MoveIsNext(prior: Placement)
    requires prior.epoch == 1 && MaxReplica(prior.replicas) == 1
    ensures EpochRejection(Some(prior), MOVED).None?
  {
    assert forall r | r in MOVED.replicas :: r == Replica(7, 1, Voter);
    assert KeptSafely(prior.replicas, Replica(7, 1, Voter));
  }

  lemma MoveAccepted(t: Topology)
    requires t.nodes == map[1 := NODE] && t.retiredReplicas == map[] && 2 in t.tablets && 2 in t.desiredPlacements
    requires t.desiredPlacements[2].epoch == 1 && MaxReplica(t.desiredPlacements[2].replicas) == 1
    ensures PlacementRejection(t, MOVED).None?
  {
    MoveHasHosts(t, t.tablets[2].raftGroupId, t.desiredPlacements[2]);
    MoveIsNext(t.desiredPlacements[2]);
  }

  lemma SecondStage(t: Topology)
    requires TopologyInv(t)
    requires OneTable(t) && t.desiredPlacements[2].epoch == 1 && MaxReplica(t.desiredPlacements[2].replicas) == 1
    ensures var r := SetPlacement(t, MOVED);
            TopologyInv(r.topology) && OneTable(r.topology) && r.topology.desiredPlacements[2] == MOVED
  {
    MoveAccepted(t);
    MovedIsValid();
    PlacementSafe(t, MOVED);
  }

  lemma ThirdStage(t: Topology)
    requires TopologyInv(t) && OneTable(t) && t.desiredPlacements[2] == MOVED
    ensures var r := CreateTopology(t, SECOND_REQUEST);
            r.outcome == TableCreated(3, 3, 4) && !ReplicaMarkDominates(r.topology)
  {
    WitnessesAreValid();
    OneNodeVoters();
    MovedIsValid();
    CreateSucceedsIff(t, SECOND_REQUEST);
    CreateKeepsMarkIff(t, SECOND_REQUEST);
  }

  const LOWERED_MARK_LOG: seq<Entry> :=
    [Bare(ClusterInitialized("c"))] + ([Bare(RegisterNode(NODE))] + ([Bare(CreateTableTopology(FIRST_REQUEST))]
      + ([Bare(SetDesiredPlacement(MOVED))] + ([Bare(CreateTableTopology(SECOND_REQUEST))] + []))))

  lemma FourSteps(s: State, a: Command, b: Command, c: Command, d: Command)
    requires s.clusterId.Some? && ValidCommand(a) && ValidCommand(b) && ValidCommand(c) && ValidCommand(d)
    requires IsTopologyCommand(a) && IsTopologyCommand(b) && IsTopologyCommand(c) && IsTopologyCommand(d)
    ensures var t1 := ApplyTopology(s.topology, a).topology;
            var t2 := ApplyTopology(t1, b).topology;
            var t3 := ApplyTopology(t2, c).topology;
            Run(s, [Bare(a)] + ([Bare(b)] + ([Bare(c)] + ([Bare(d)] + []))))
            == s.(topology := ApplyTopology(t3, d).topology)
  {
    var t1 := ApplyTopology(s.topology, a).topology;
    var t2 := ApplyTopology(t1, b).topology;
    var t3 := ApplyTopology(t2, c).topology;
    var last := [Bare(d)] + [];
    RunTopology(s, a, [Bare(b)] + ([Bare(c)] + last));
    RunTopology(s.(topology := t1), b, [Bare(c)] + last);
    RunTopology(s.(topology := t2), c, last);
    RunTopology(s.(topology := t3), d, []);
  }

  lemma LoweredTopology(t: Topology)
    requires t == EMPTY_TOPOLOGY
    ensures var t1 := AddNode(t, NODE).topology;
            var t2 := CreateTopology(t1, FIRST_REQUEST).topology;
            var t3 := SetPlacement(t2, MOVED).topology;
            !ReplicaMarkDominates(CreateTopology(t3, SECOND_REQUEST).topology)
  {
    InitInv();
    WitnessesAreValid();
    NodeSafe(t, NODE);
    var t1 := AddNode(t, NODE).topology;
    assert t1 == t.(nodes := map[1 := NODE]);
    FirstStage(t1);
    var t2 := CreateTopology(t1, FIRST_REQUEST).topology;
    SecondStage(t2);
    ThirdStage(SetPlacement(t2, MOVED).topology);
  }

  /** A second CREATE TABLE lowers the replica mark below a replica in use: reachable, not restorable. */
  lemma LoweredMarkIsLost()
    ensures Inv(Run(Init(), LOWERED_MARK_LOG)) && Restore(ToSnapshot(Run(Init(), LOWERED_MARK_LOG))) == None
  {
    WitnessesAreValid();
    MovedIsValid();
    InitInv();
    RunKeepsInv(Init(), LOWERED_MARK_LOG);
    RunInitialize("c", LOWERED_MARK_LOG[1..]);
    FourSteps(Init().(clusterId := Some("c")), RegisterNode(NODE), CreateTableTopology(FIRST_REQUEST),
              SetDesiredPlacement(MOVED), CreateTableTopology(SECOND_REQUEST));
    LoweredTopology(EMPTY_TOPOLOGY);
    SnapshotIsTransparent(Run(Init(), LOWERED_MARK_LOG));
  }

  const HIGH_RETIREMENT: Retirement := Retirement(3, 9, 1, 1, 1, 1)

  const HIGH_RETIREMENT_LOG: seq<Entry> :=
    [Bare(ClusterInitialized("c"))] + ([Bare(RegisterNode(NODE))] + ([Bare(CreateTableTopology(FIRST_REQUEST))]
      + ([Bare(RecordRetirement(HIGH_RETIREMENT))] + [])))

  /** The proof of a removal above the mark is accepted, and the mark stays where it was. */
  lemma RetirementStage(t: Topology)
    requires OneTable(t) && t.desiredPlacements[2].epoch == 1 && MaxReplica(t.desiredPlacements[2].replicas) == 1
    requires t.allocator.maxReplicaId == 1
    ensures var r := Retire(t, HIGH_RETIREMENT);
            r.outcome.Applied? && !ReplicaMarkDominates(r.topology)
  {
    assert !Desires(t.desiredPlacements, 2, 9);
    RetirementKeepsMarkIff(t, HIGH_RETIREMENT);
  }

  lemma HighRetirementTopology(t: Topology)
    requires t == EMPTY_TOPOLOGY
    ensures var t1 := AddNode(t, NODE).topology;
            var t2 := CreateTopology(t1, FIRST_REQUEST).topology;
            !ReplicaMarkDominates(Retire(t2, HIGH_RETIREMENT).topology)
  {
    InitInv();
    WitnessesAreValid();
    NodeSafe(t, NODE);
    var t1 := AddNode(t, NODE).topology;
    assert t1 == t.(nodes := map[1 := NODE]);
    FirstStage(t1);
    RetirementStage(CreateTopology(t1, FIRST_REQUEST).topology);
  }

  /** A retirement above the replica mark: reachable, not restorable. */
  lemma HighRetirementIsLost()
    ensures Inv(Run(Init(), HIGH_RETIREMENT_LOG)) && Restore(ToSnapshot(Run(Init(), HIGH_RETIREMENT_LOG))) == None
  {
    WitnessesAreValid();
    InitInv();
    RunKeepsInv(Init(), HIGH_RETIREMENT_LOG);
    var s0 := Init().(clusterId := Some("c"));
    var t1 := AddNode(s0.topology, NODE).topology;
    var t2 := CreateTopology(t1, FIRST_REQUEST).topology;
    var rest3 := [Bare(RecordRetirement(HIGH_RETIREMENT))] + [];
    var rest2 := [Bare(CreateTableTopology(FIRST_REQUEST))] + rest3;
    RunInitialize("c", [Bare(RegisterNode(NODE))] + rest2);
    RunTopology(s0, RegisterNode(NODE), rest2);
    RunTopology(s0.(topology := t1), CreateTableTopology(FIRST_REQUEST), rest3);
    RunTopology(s0.(topology := t2), RecordRetirement(HIGH_RETIREMENT), []);
    HighRetirementTopology(EMPTY_TOPOLOGY);
    SnapshotIsTransparent(Run(Init(), HIGH_RETIREMENT_LOG));
  }
}
