/** Restoring the snapshot of a state rebuilds exactly that state, or fails. */
module SnapshotRestore {
  import opened Base
  import opened SortedKeys
  import opened Schema
  import opened MetadataTypes
  import opened Validation
  import opened InitialPlacement
  import opened MetadataSpec
  import opened MetadataInvariant
  import opened MetadataSteps
  import opened Snapshot

  /**
   * A catalog part-way through restoration: an initialized state with just these entries.
   * Written as an equation so that the verifier carries it as one fact.
   */
  ghost predicate Partial(u: State, clusterId: string, nodes: Directory, tables: map<U64, TableSchema>,
                          tablets: map<U64, TabletDescriptor>) {
    true == (
      && u == Init().(clusterId := Some(clusterId), topology := u.topology)
      && TopologyInv(u.topology)
      && u.topology.nodes == nodes
      && u.topology.tables == tables
      && u.topology.tablets == tablets
      && u.topology.desiredPlacements == map[]
      && u.topology.retiredReplicas == map[])
  }

  lemma ReplayTopology(u: State, c: Command)
    requires u.clusterId.Some? && ValidCommand(c) && IsTopologyCommand(c)
    ensures Replay(u, c)
         == if ApplyTopology(u.topology, c).outcome.Rejected? then None
            else Some(u.(topology := ApplyTopology(u.topology, c).topology))
  {
  }

  // ---------- nodes ----------

  function LifecycleAt(rank: nat): Lifecycle
    requires rank <= 4
  {
    if rank == 0 then Active else LATER_LIFECYCLES[rank - 1]
  }

  lemma RegistersNode(t: Topology, n: NodeDescriptor)
    requires n.nodeId !in t.nodes && n.lifecycle.Active? && !EndpointTaken(t.nodes, n)
    ensures AddNode(t, n) == TopologyStep(t.(nodes := t.nodes[n.nodeId := n]), Applied)
  {
  }

  lemma MovesNode(t: Topology, nodeId: U64, rank: nat)
    requires rank < 4 && nodeId in t.nodes && t.nodes[nodeId].lifecycle == LifecycleAt(rank)
    requires t.desiredPlacements == map[]
    ensures AdvanceLifecycle(t, nodeId, LifecycleAt(rank + 1))
         == TopologyStep(t.(nodes := t.nodes[nodeId := t.nodes[nodeId].(lifecycle := LifecycleAt(rank + 1))]), Applied)
  {
  }

  lemma NodeMoved(u: State, clusterId: string, nodes: Directory, nodeId: U64, rank: nat) returns (v: State)
    requires rank < 4 && nodeId != 0 && nodeId in nodes && nodes[nodeId].lifecycle == LifecycleAt(rank)
    requires Partial(u, clusterId, nodes, map[], map[])
    ensures Replay(u, SetNodeLifecycle(nodeId, LifecycleAt(rank + 1))) == Some(v)
    ensures Partial(v, clusterId, WithLifecycle(nodes, nodeId, LifecycleAt(rank + 1)), map[], map[])
  {
    var c := SetNodeLifecycle(nodeId, LifecycleAt(rank + 1));
    ReplayTopology(u, c);
    MovesNode(u.topology, nodeId, rank);
    TopologySafe(u.topology, c);
    v := u.(topology := ApplyTopology(u.topology, c).topology);
  }

  /** The directory with one node's lifecycle replaced. */
  function WithLifecycle(nodes: Directory, nodeId: U64, to: Lifecycle): (r: Directory)
    requires nodeId in nodes
    ensures nodeId in r && r[nodeId].lifecycle == to
  {
    nodes[nodeId := nodes[nodeId].(lifecycle := to)]
  }

  lemma LastLifecycleWins(nodes: Directory, nodeId: U64, a: Lifecycle, b: Lifecycle)
    requires nodeId in nodes
    ensures WithLifecycle(WithLifecycle(nodes, nodeId, a), nodeId, b) == WithLifecycle(nodes, nodeId, b)
    ensures WithLifecycle(nodes, nodeId, nodes[nodeId].lifecycle) == nodes
  {
  }

  /** The remaining lifecycles are all beyond the target. */
  lemma {:induction false} WalkEnds(u: State, nodeId: U64, target: Lifecycle, i: nat)
    requires LifecycleRank(target) <= i <= 4
    ensures Walk(u, nodeId, target, i) == Some(u)
    decreases 4 - i
  {
    if i < 4 {
      WalkEnds(u, nodeId, target, i + 1);
    }
  }

  lemma WalkStep(u: State, v: State, nodeId: U64, target: Lifecycle, i: nat)
    requires i < LifecycleRank(target)
    requires Replay(u, SetNodeLifecycle(nodeId, LATER_LIFECYCLES[i])) == Some(v)
    ensures Walk(u, nodeId, target, i) == Walk(v, nodeId, target, i + 1)
  {
  }

  lemma WalkedOne(u: State, clusterId: string, nodes: Directory, nodeId: U64, target: Lifecycle, i: nat)
    returns (v: State)
    requires i < LifecycleRank(target) && nodeId != 0 && nodeId in nodes && nodes[nodeId].lifecycle == LifecycleAt(i)
    requires Partial(u, clusterId, nodes, map[], map[])
    ensures Walk(u, nodeId, target, i) == Walk(v, nodeId, target, i + 1)
    ensures Partial(v, clusterId, WithLifecycle(nodes, nodeId, LifecycleAt(i + 1)), map[], map[])
  {
    v := NodeMoved(u, clusterId, nodes, nodeId, i);
    WalkStep(u, v, nodeId, target, i);
  }

  lemma {:induction false} NodeWalked(u: State, clusterId: string, nodes: Directory, nodeId: U64, target: Lifecycle,
                                      i: nat, goal: Directory) returns (v: State)
    requires i <= LifecycleRank(target) && nodeId != 0 && nodeId in nodes && nodes[nodeId].lifecycle == LifecycleAt(i)
    requires Partial(u, clusterId, nodes, map[], map[]) && goal == WithLifecycle(nodes, nodeId, target)
    ensures Walk(u, nodeId, target, i) == Some(v)
    ensures Partial(v, clusterId, goal, map[], map[])
    decreases 4 - i
  {
    if i == LifecycleRank(target) {
      v := u;
      WalkEnds(u, nodeId, target, i);
      LastLifecycleWins(nodes, nodeId, target, target);
    } else {
      var w := WalkedOne(u, clusterId, nodes, nodeId, target, i);
      LastLifecycleWins(nodes, nodeId, LifecycleAt(i + 1), target);
      v := NodeWalked(w, clusterId, WithLifecycle(nodes, nodeId, LifecycleAt(i + 1)), nodeId, target, i + 1, goal);
    }
  }

  lemma NodeRegistered(u: State, clusterId: string, nodes: Directory, n: NodeDescriptor) returns (v: State)
    requires Partial(u, clusterId, nodes, map[], map[])
    requires ValidNode(n) && n.lifecycle.Active? && n.nodeId !in nodes && !EndpointTaken(nodes, n)
    ensures Replay(u, RegisterNode(n)) == Some(v)
    ensures Partial(v, clusterId, nodes[n.nodeId := n], map[], map[])
  {
    ReplayTopology(u, RegisterNode(n));
    RegistersNode(u.topology, n);
    TopologySafe(u.topology, RegisterNode(n));
    v := u.(topology := AddNode(u.topology, n).topology);
  }

  lemma ActiveForm(nodes: Directory, n: NodeDescriptor)
    requires ValidNode(n) && !EndpointTaken(nodes, n)
    ensures ValidNode(n.(lifecycle := Active)) && !EndpointTaken(nodes, n.(lifecycle := Active))
    ensures WithLifecycle(nodes[n.nodeId := n.(lifecycle := Active)], n.nodeId, n.lifecycle) == nodes[n.nodeId := n]
  {
    assert Endpoints(n.(lifecycle := Active)) == Endpoints(n);
    forall k | k in nodes ensures !ShareEndpoint(n.(lifecycle := Active), nodes[k]) {
      assert !ShareEndpoint(n, nodes[k]);
    }
  }

  lemma NodeRestored(u: State, clusterId: string, nodes: Directory, n: NodeDescriptor) returns (v: State)
    requires Partial(u, clusterId, nodes, map[], map[])
    requires ValidNode(n) && n.nodeId !in nodes && !EndpointTaken(nodes, n)
    ensures RestoreNode(u, n) == Some(v)
    ensures Partial(v, clusterId, nodes[n.nodeId := n], map[], map[])
  {
    var active := n.(lifecycle := Active);
    ActiveForm(nodes, n);
    var w := NodeRegistered(u, clusterId, nodes, active);
    v := NodeWalked(w, clusterId, nodes[n.nodeId := active], n.nodeId, n.lifecycle, 0, nodes[n.nodeId := n]);
  }

  /** No earlier node of the same directory holds one of the node's endpoints. */
  lemma PrefixLeavesEndpointsFree(nodes: Directory, part: Directory, k: U64)
    requires NodesInv(nodes) && k in nodes && k !in part
    requires forall j | j in part :: j in nodes && part[j] == nodes[j]
    ensures !EndpointTaken(part, nodes[k])
  {
    forall j | j in part ensures !ShareEndpoint(nodes[k], part[j]) {
      assert DisjointEndpoints(nodes[k], nodes[j]);
    }
  }

  lemma RestoreNodesFirst(u: State, vs: seq<NodeDescriptor>, n: nat, v: State)
    requires n < |vs| && RestoreNode(u, vs[n]) == Some(v)
    ensures RestoreNodes(u, vs[n..]) == RestoreNodes(v, vs[n + 1..])
  {
    assert vs[n..][1..] == vs[n + 1..];
  }

  lemma NextNodeRestored(u: State, clusterId: string, nodes: Directory, ks: seq<U64>, n: nat) returns (v: State)
    requires Lists(ks, nodes) && n < |ks| && NodesInv(nodes)
    requires Partial(u, clusterId, FirstKeys(nodes, ks, n), map[], map[])
    ensures RestoreNode(u, nodes[ks[n]]) == Some(v)
    ensures Partial(v, clusterId, FirstKeys(nodes, ks, n + 1), map[], map[])
  {
    FirstKeysGrows(nodes, ks, n);
    PrefixLeavesEndpointsFree(nodes, FirstKeys(nodes, ks, n), ks[n]);
    v := NodeRestored(u, clusterId, FirstKeys(nodes, ks, n), nodes[ks[n]]);
  }

  lemma {:induction false} NodesRestored(u: State, clusterId: string, nodes: Directory, ks: seq<U64>,
                                         vs: seq<NodeDescriptor>, n: nat) returns (v: State)
    requires Lists(ks, nodes) && |vs| == |ks| && (forall i | 0 <= i < |ks| :: vs[i] == nodes[ks[i]]) && n <= |ks|
    requires NodesInv(nodes) && Partial(u, clusterId, FirstKeys(nodes, ks, n), map[], map[])
    ensures RestoreNodes(u, vs[n..]) == Some(v)
    ensures Partial(v, clusterId, nodes, map[], map[])
    decreases |ks| - n
  {
    if n == |ks| {
      v := u;
      FirstKeysBounds(nodes, ks);
    } else {
      var w := NextNodeRestored(u, clusterId, nodes, ks, n);
      RestoreNodesFirst(u, vs, n, w);
      v := NodesRestored(w, clusterId, nodes, ks, vs, n + 1);
    }
  }

  // ---------- tables ----------

  lemma CreatesTable(t: Topology, table: TableSchema)
    requires ValidSchema(table) && table.id !in t.tables && table.name !in t.tableIdsByName
    ensures var r := AddTable(t, table);
            && r.outcome.Applied?
            && r.topology.tables == t.tables[table.id := table]
            && r.topology.nodes == t.nodes
            && r.topology.tablets == t.tablets
            && r.topology.desiredPlacements == t.desiredPlacements
            && r.topology.retiredReplicas == t.retiredReplicas
  {
  }

  lemma TableRestored(u: State, clusterId: string, nodes: Directory, tables: map<U64, TableSchema>, table: TableSchema)
    returns (v: State)
    requires Partial(u, clusterId, nodes, tables, map[])
    requires ValidSchema(table) && table.id !in tables && table.name !in u.topology.tableIdsByName
    ensures Replay(u, CreateTable(table)) == Some(v)
    ensures Partial(v, clusterId, nodes, tables[table.id := table], map[])
  {
    ReplayTopology(u, CreateTable(table));
    CreatesTable(u.topology, table);
    TopologySafe(u.topology, CreateTable(table));
    v := u.(topology := AddTable(u.topology, table).topology);
  }

  /** No table of a part of the catalog has the name of a table outside that part. */
  lemma PrefixLeavesNameFree(tables: map<U64, TableSchema>, byName: map<string, U64>, t: Topology, k: U64)
    requires TablesInv(tables, byName) && TablesInv(t.tables, t.tableIdsByName)
    requires k in tables && k !in t.tables && forall j | j in t.tables :: j in tables && t.tables[j] == tables[j]
    ensures tables[k].name !in t.tableIdsByName
  {
    assert forall n | n in t.tableIdsByName :: t.tableIdsByName[n] in t.tables && byName[n] == t.tableIdsByName[n];
  }

  lemma RestoreTablesFirst(u: State, vs: seq<TableSchema>, n: nat, v: State)
    requires n < |vs| && Replay(u, CreateTable(vs[n])) == Some(v)
    ensures RestoreTables(u, vs[n..]) == RestoreTables(v, vs[n + 1..])
  {
    assert vs[n..][1..] == vs[n + 1..];
  }

  lemma NextTableRestored(u: State, clusterId: string, s: Topology, ks: seq<U64>, n: nat) returns (v: State)
    requires Lists(ks, s.tables) && n < |ks| && TablesInv(s.tables, s.tableIdsByName)
    requires Partial(u, clusterId, s.nodes, FirstKeys(s.tables, ks, n), map[])
    ensures Replay(u, CreateTable(s.tables[ks[n]])) == Some(v)
    ensures Partial(v, clusterId, s.nodes, FirstKeys(s.tables, ks, n + 1), map[])
  {
    FirstKeysGrows(s.tables, ks, n);
    PrefixLeavesNameFree(s.tables, s.tableIdsByName, u.topology, ks[n]);
    v := TableRestored(u, clusterId, s.nodes, FirstKeys(s.tables, ks, n), s.tables[ks[n]]);
  }

  lemma {:induction false} TablesRestored(u: State, clusterId: string, s: Topology, ks: seq<U64>,
                                          vs: seq<TableSchema>, n: nat) returns (v: State)
    requires Lists(ks, s.tables) && |vs| == |ks| && (forall i | 0 <= i < |ks| :: vs[i] == s.tables[ks[i]]) && n <= |ks|
    requires TablesInv(s.tables, s.tableIdsByName)
    requires Partial(u, clusterId, s.nodes, FirstKeys(s.tables, ks, n), map[])
    ensures RestoreTables(u, vs[n..]) == Some(v)
    ensures Partial(v, clusterId, s.nodes, s.tables, map[])
    decreases |ks| - n
  {
    if n == |ks| {
      v := u;
      FirstKeysBounds(s.tables, ks);
    } else {
      var w := NextTableRestored(u, clusterId, s, ks, n);
      RestoreTablesFirst(u, vs, n, w);
      v := TablesRestored(w, clusterId, s, ks, vs, n + 1);
    }
  }

  // ---------- tablets ----------

  /** The tablets of the same table with a smaller identity, which restore re-creates first. */
  function Earlier(tablets: map<U64, TabletDescriptor>, k: U64): set<U64>
    requires k in tablets
  {
    set id | id in tablets && id < k && tablets[id].tableId == tablets[k].tableId
  }

  /** Re-creating tablets in identity order, the count check lets this hash tablet in. */
  predicate HasRoom(tables: map<U64, TableSchema>, tablets: map<U64, TabletDescriptor>, k: U64)
    requires k in tablets
  {
    tablets[k].partition.Hash? && tablets[k].tableId in tables ==>
      |Earlier(tablets, k)| < tables[tablets[k].tableId].tabletCount
  }

  /** Apart from the count check nothing stands in the way of the tablet. */
  ghost predicate Unopposed(t: Topology, tablet: TabletDescriptor) {
    && tablet.tabletId !in t.tablets
    && tablet.raftGroupId !in t.tabletIdsByRaftGroup
    && tablet.tableId in t.tables
    && (tablet.partition.Hash? ==>
          && tablet.partition.bucketCount == t.tables[tablet.tableId].tabletCount
          && BucketOf(tablet) !in t.tabletIdsByPartition)
    && (forall id | id in t.tablets :: !OverlappingTablets(tablet, t.tablets[id]))
  }

  lemma CreatesTablet(t: Topology, tablet: TabletDescriptor)
    requires Unopposed(t, tablet)
    ensures var r := AddTablet(t, tablet);
            if tablet.partition.Hash?
               && |TabletsOf(t.tablets, tablet.tableId)| >= t.tables[tablet.tableId].tabletCount
            then r.outcome == Rejected(TabletCountExceeded)
            else
              && r.outcome.Applied?
              && r.topology.tablets == t.tablets[tablet.tabletId := tablet]
              && r.topology.nodes == t.nodes
              && r.topology.tables == t.tables
              && r.topology.desiredPlacements == t.desiredPlacements
              && r.topology.retiredReplicas == t.retiredReplicas
  {
  }

  /** A tablet outside a part of the topology is opposed by nothing inside that part. */
  lemma PrefixLeavesTabletFree(s: Topology, t: Topology, k: U64)
    requires TabletsInv(s.tables, s.tablets) && GroupIndexInv(s.tablets, s.tabletIdsByRaftGroup)
    requires PartitionIndexInv(s.tablets, s.tabletIdsByPartition)
    requires GroupIndexInv(t.tablets, t.tabletIdsByRaftGroup) && PartitionIndexInv(t.tablets, t.tabletIdsByPartition)
    requires t.tables == s.tables && k in s.tablets && k !in t.tablets
    requires forall j | j in t.tablets :: j in s.tablets && t.tablets[j] == s.tablets[j]
    ensures Unopposed(t, s.tablets[k])
  {
    var tablet := s.tablets[k];
    assert TabletInv(s.tables, k, tablet);
    assert forall g | g in t.tabletIdsByRaftGroup :: s.tabletIdsByRaftGroup[g] == t.tabletIdsByRaftGroup[g];
    assert forall b | b in t.tabletIdsByPartition :: s.tabletIdsByPartition[b] == t.tabletIdsByPartition[b];
    forall id | id in t.tablets ensures !OverlappingTablets(tablet, t.tablets[id]) {
      assert !OverlappingTablets(s.tablets[k], s.tablets[id]);
    }
  }

  lemma TabletAccepted(u: State, clusterId: string, nodes: Directory, tables: map<U64, TableSchema>,
                       part: map<U64, TabletDescriptor>, tablet: TabletDescriptor) returns (v: State)
    requires Partial(u, clusterId, nodes, tables, part) && ValidTablet(tablet) && Unopposed(u.topology, tablet)
    requires tablet.partition.Hash? ==> |TabletsOf(part, tablet.tableId)| < tables[tablet.tableId].tabletCount
    ensures Replay(u, CreateTablet(tablet)) == Some(v)
    ensures Partial(v, clusterId, nodes, tables, part[tablet.tabletId := tablet])
  {
    ReplayTopology(u, CreateTablet(tablet));
    CreatesTablet(u.topology, tablet);
    TopologySafe(u.topology, CreateTablet(tablet));
    v := u.(topology := AddTablet(u.topology, tablet).topology);
  }

  lemma TabletRefused(u: State, clusterId: string, nodes: Directory, tables: map<U64, TableSchema>,
                      part: map<U64, TabletDescriptor>, tablet: TabletDescriptor)
    requires Partial(u, clusterId, nodes, tables, part) && ValidTablet(tablet) && Unopposed(u.topology, tablet)
    requires tablet.partition.Hash? && |TabletsOf(part, tablet.tableId)| >= tables[tablet.tableId].tabletCount
    ensures Replay(u, CreateTablet(tablet)) == None
  {
    ReplayTopology(u, CreateTablet(tablet));
    CreatesTablet(u.topology, tablet);
  }

  lemma RestoreTabletsFirst(u: State, vs: seq<TabletDescriptor>, n: nat, v: State)
    requires n < |vs| && Replay(u, CreateTablet(vs[n])) == Some(v)
    ensures RestoreTablets(u, vs[n..]) == RestoreTablets(v, vs[n + 1..])
  {
    assert vs[n..][1..] == vs[n + 1..];
  }

  lemma RestoreTabletsStops(u: State, vs: seq<TabletDescriptor>, n: nat)
    requires n < |vs| && Replay(u, CreateTablet(vs[n])) == None
    ensures RestoreTablets(u, vs[n..]) == None
  {
  }

  lemma EarlierIsPrefix(tablets: map<U64, TabletDescriptor>, ks: seq<U64>, n: nat)
    requires Lists(ks, tablets) && (forall i, j | 0 <= i < j < |ks| :: ks[i] < ks[j]) && n < |ks|
    ensures TabletsOf(FirstKeys(tablets, ks, n), tablets[ks[n]].tableId) == Earlier(tablets, ks[n])
  {
    forall id | id in Earlier(tablets, ks[n]) ensures id in ks[..n] {
      var i :| 0 <= i < |ks| && ks[i] == id;
      assert i < n;
    }
  }

  /** Each tablet from position `n` on has room when its turn comes. */
  predicate RoomFrom(s: Topology, ks: seq<U64>, n: nat)
    requires n <= |ks| && forall i | 0 <= i < |ks| :: ks[i] in s.tablets
  {
    forall i | n <= i < |ks| :: HasRoom(s.tables, s.tablets, ks[i])
  }

  lemma RoomFromNext(s: Topology, ks: seq<U64>, n: nat)
    requires n < |ks| && forall i | 0 <= i < |ks| :: ks[i] in s.tablets
    ensures RoomFrom(s, ks, n) <==> HasRoom(s.tables, s.tablets, ks[n]) && RoomFrom(s, ks, n + 1)
  {
  }

  lemma NextTabletRestored(w: State, clusterId: string, s: Topology, ks: seq<U64>, n: nat) returns (v: State)
    requires Lists(ks, s.tablets) && (forall i, j | 0 <= i < j < |ks| :: ks[i] < ks[j]) && n < |ks| && TopologyInv(s)
    requires Partial(w, clusterId, s.nodes, s.tables, FirstKeys(s.tablets, ks, n))
    ensures if HasRoom(s.tables, s.tablets, ks[n])
            then Replay(w, CreateTablet(s.tablets[ks[n]])) == Some(v)
                 && Partial(v, clusterId, s.nodes, s.tables, FirstKeys(s.tablets, ks, n + 1))
            else Replay(w, CreateTablet(s.tablets[ks[n]])) == None
  {
    var part, k := FirstKeys(s.tablets, ks, n), ks[n];
    FirstKeysGrows(s.tablets, ks, n);
    EarlierIsPrefix(s.tablets, ks, n);
    assert TabletInv(s.tables, k, s.tablets[k]);
    PrefixLeavesTabletFree(s, w.topology, k);
    if HasRoom(s.tables, s.tablets, k) {
      v := TabletAccepted(w, clusterId, s.nodes, s.tables, part, s.tablets[k]);
    } else {
      TabletRefused(w, clusterId, s.nodes, s.tables, part, s.tablets[k]);
      v := w;
    }
  }

  lemma {:induction false} TabletsRestored(u: State, clusterId: string, s: Topology, ks: seq<U64>,
                                           vs: seq<TabletDescriptor>, n: nat) returns (v: State)
    requires Lists(ks, s.tablets) && (forall i, j | 0 <= i < j < |ks| :: ks[i] < ks[j])
    requires |vs| == |ks| && (forall i | 0 <= i < |ks| :: vs[i] == s.tablets[ks[i]]) && n <= |ks|
    requires TopologyInv(s) && Partial(u, clusterId, s.nodes, s.tables, FirstKeys(s.tablets, ks, n))
    requires RoomFrom(s, ks, n)
    ensures RestoreTablets(u, vs[n..]) == Some(v)
    ensures Partial(v, clusterId, s.nodes, s.tables, s.tablets)
    decreases |ks| - n
  {
    if n == |ks| {
      v := u;
      FirstKeysBounds(s.tablets, ks);
    } else {
      var w := NextTabletRestored(u, clusterId, s, ks, n);
      RestoreTabletsFirst(u, vs, n, w);
      v := TabletsRestored(w, clusterId, s, ks, vs, n + 1);
    }
  }

  /** The first hash tablet without room stops the whole restoration. */
  lemma {:induction false} TabletsRefused(u: State, clusterId: string, s: Topology, ks: seq<U64>,
                                          vs: seq<TabletDescriptor>, n: nat)
    requires Lists(ks, s.tablets) && (forall i, j | 0 <= i < j < |ks| :: ks[i] < ks[j])
    requires |vs| == |ks| && (forall i | 0 <= i < |ks| :: vs[i] == s.tablets[ks[i]]) && n < |ks|
    requires TopologyInv(s) && Partial(u, clusterId, s.nodes, s.tables, FirstKeys(s.tablets, ks, n))
    requires !RoomFrom(s, ks, n)
    ensures RestoreTablets(u, vs[n..]) == None
    decreases |ks| - n
  {
    var w := NextTabletRestored(u, clusterId, s, ks, n);
    if HasRoom(s.tables, s.tablets, ks[n]) {
      RoomFromNext(s, ks, n);
      RestoreTabletsFirst(u, vs, n, w);
      TabletsRefused(w, clusterId, s, ks, vs, n + 1);
    } else {
      RestoreTabletsStops(u, vs, n);
    }
  }
}
