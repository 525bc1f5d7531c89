/** Restoring the in-place state from a snapshot, loop by loop. */
module MetadataRestore {
  import opened Base
  import opened Schema
  import opened MetadataTypes
  import opened MetadataSpec
  import opened MetadataPreservation
  import opened MetadataMachine
  import opened Snapshot
  import opened SnapshotChecks

  /** Apply one command; a rejection means that the snapshot is corrupt. */
  method ReplayOn(state: MetadataState, c: Command) returns (ok: bool)
    requires state.Valid()
    modifies state
    ensures state.Valid()
    ensures (if ok then Some(state.View()) else None) == Replay(old(state.View()), c)
  {
    var o := state.Apply(c);
    ok := !o.Rejected?;
  }

  /** Apply the `i`-th later lifecycle unless it lies beyond the target. */
  method WalkOneOn(state: MetadataState, nodeId: U64, target: Lifecycle, i: nat) returns (ok: bool)
    requires i < 4 && state.Valid()
    modifies state
    ensures state.Valid()
    ensures Walk(old(state.View()), nodeId, target, i)
         == if ok then Walk(state.View(), nodeId, target, i + 1) else None
  {
    if LifecycleRank(LATER_LIFECYCLES[i]) > LifecycleRank(target) {
      return true;
    }
    ok := ReplayOn(state, SetNodeLifecycle(nodeId, LATER_LIFECYCLES[i]));
  }

  /** Apply every lifecycle after Active, in order, up to the target. */
  method WalkNodeOn(state: MetadataState, nodeId: U64, target: Lifecycle) returns (ok: bool)
    requires state.Valid()
    modifies state
    ensures state.Valid()
    ensures (if ok then Some(state.View()) else None) == Walk(old(state.View()), nodeId, target, 0)
  {
    for i := 0 to 4
      invariant state.Valid()
      invariant Walk(old(state.View()), nodeId, target, 0) == Walk(state.View(), nodeId, target, i)
    {
      ok := WalkOneOn(state, nodeId, target, i);
      if !ok {
        return;
      }
    }
    ok := true;
  }

  /** Register the node as Active, then walk it to its own lifecycle. */
  method RestoreNodeOn(state: MetadataState, node: NodeDescriptor) returns (ok: bool)
    requires state.Valid()
    modifies state
    ensures state.Valid()
    ensures (if ok then Some(state.View()) else None) == RestoreNode(old(state.View()), node)
  {
    ok := ReplayOn(state, RegisterNode(node.(lifecycle := Active)));
    if ok {
      ok := WalkNodeOn(state, node.nodeId, node.lifecycle);
    }
  }

  method RestoreNodesOn(state: MetadataState, ns: seq<NodeDescriptor>) returns (ok: bool)
    requires state.Valid()
    modifies state
    ensures state.Valid()
    ensures (if ok then Some(state.View()) else None) == RestoreNodes(old(state.View()), ns)
  {
    for i := 0 to |ns|
      invariant state.Valid()
      invariant RestoreNodes(old(state.View()), ns) == RestoreNodes(state.View(), ns[i..])
    {
      assert ns[i..][1..] == ns[i + 1..];
      ok := RestoreNodeOn(state, ns[i]);
      if !ok {
        return;
      }
    }
    ok := true;
  }

  method RestoreTablesOn(state: MetadataState, ts: seq<TableSchema>) returns (ok: bool)
    requires state.Valid()
    modifies state
    ensures state.Valid()
    ensures (if ok then Some(state.View()) else None) == RestoreTables(old(state.View()), ts)
  {
    for i := 0 to |ts|
      invariant state.Valid()
      invariant RestoreTables(old(state.View()), ts) == RestoreTables(state.View(), ts[i..])
    {
      assert ts[i..][1..] == ts[i + 1..];
      ok := ReplayOn(state, CreateTable(ts[i]));
      if !ok {
        return;
      }
    }
    ok := true;
  }

  method RestoreTabletsOn(state: MetadataState, ts: seq<TabletDescriptor>) returns (ok: bool)
    requires state.Valid()
    modifies state
    ensures state.Valid()
    ensures (if ok then Some(state.View()) else None) == RestoreTablets(old(state.View()), ts)
  {
    for i := 0 to |ts|
      invariant state.Valid()
      invariant RestoreTablets(old(state.View()), ts) == RestoreTablets(state.View(), ts[i..])
    {
      assert ts[i..][1..] == ts[i + 1..];
      ok := ReplayOn(state, CreateTablet(ts[i]));
      if !ok {
        return;
      }
    }
    ok := true;
  }

  method RestoreSchemasOn(state: MetadataState, n: Snapshot) returns (ok: bool)
    requires state.Valid()
    modifies state
    ensures state.Valid()
    ensures (if ok then Some(state.View()) else None) == RestoreSchemas(old(state.View()), n)
  {
    ok := RestoreTablesOn(state, n.tables);
    if ok {
      ok := RestoreTabletsOn(state, n.tablets);
    }
  }

  method RestoreContentsOn(state: MetadataState, n: Snapshot) returns (ok: bool)
    requires state.Valid()
    modifies state
    ensures state.Valid()
    ensures (if ok then Some(state.View()) else None) == RestoreContents(old(state.View()), n)
  {
    ok := RestoreNodesOn(state, n.nodes);
    if ok {
      ok := RestoreSchemasOn(state, n);
    }
  }

  method RestoreCatalogOn(state: MetadataState, n: Snapshot) returns (ok: bool)
    requires state.View() == Init() && n.clusterId.Some?
    modifies state
    ensures state.Valid()
    ensures (if ok then Some(state.View()) else None) == RestoreCatalog(n)
  {
    InitInv();
    ok := ReplayOn(state, ClusterInitialized(n.clusterId.value));
    if ok {
      ok := RestoreContentsOn(state, n);
    }
  }

  /** Insert the latest placement of each tablet, whatever its epoch, after the domain checks. */
  method RestorePlacementsOn(state: MetadataState, ps: seq<Placement>) returns (ok: bool)
    modifies state`desiredPlacements, state`allocator
    ensures (if ok then Some(state.desiredPlacements) else None)
         == RestorePlacements(old(state.TopologyView()), old(state.desiredPlacements), ps)
  {
    ghost var t := state.TopologyView();
    for i := 0 to |ps|
      invariant RestorePlacements(t, t.desiredPlacements, ps) == RestorePlacements(t, state.desiredPlacements, ps[i..])
    {
      var p := ps[i];
      assert ps[i..][1..] == ps[i + 1..];
      if p.tabletId !in state.tablets {
        return false;
      }
      for j := 0 to |p.replicas|
        invariant forall m | 0 <= m < j ::
                    && p.replicas[m].nodeId in t.nodes
                    && (t.tablets[p.tabletId].raftGroupId, p.replicas[m].replicaId) !in t.retiredReplicas
      {
        var r := p.replicas[j];
        if r.nodeId !in state.nodes
           || (state.tablets[p.tabletId].raftGroupId, r.replicaId) in state.retiredReplicas {
          return false;
        }
      }
      assert RestorablePlacement(t, p);
      state.allocator := state.allocator.(maxReplicaId := Max(state.allocator.maxReplicaId, MaxReplica(p.replicas)));
      state.desiredPlacements := state.desiredPlacements[p.tabletId := p];
    }
    ok := true;
  }

  method RestoreRetiredOn(state: MetadataState, rs: seq<Retirement>, ghost t: Topology) returns (ok: bool)
    requires t.tabletIdsByRaftGroup == state.tabletIdsByRaftGroup
    modifies state`retiredReplicas, state`allocator
    ensures (if ok then Some(state.retiredReplicas) else None)
         == RestoreRetired(t, old(state.desiredPlacements), old(state.retiredReplicas), rs)
  {
    for i := 0 to |rs|
      invariant RestoreRetired(t, state.desiredPlacements, old(state.retiredReplicas), rs)
             == RestoreRetired(t, state.desiredPlacements, state.retiredReplicas, rs[i..])
    {
      var r := rs[i];
      assert rs[i..][1..] == rs[i + 1..];
      if r.raftGroupId !in state.tabletIdsByRaftGroup {
        return false;
      }
      if Desires(state.desiredPlacements, state.tabletIdsByRaftGroup[r.raftGroupId], r.replicaId) {
        return false;
      }
      state.retiredReplicas := state.retiredReplicas[(r.raftGroupId, r.replicaId) := r];
      state.allocator := state.allocator.(maxReplicaId := Max(state.allocator.maxReplicaId, r.replicaId));
    }
    ok := true;
  }

  method CollectProtections(ps: seq<GcProtection>) returns (m: Protections)
    ensures m == RestoreProtections(map[], ps)
  {
    m := map[];
    for i := 0 to |ps|
      invariant RestoreProtections(map[], ps) == RestoreProtections(m, ps[i..])
    {
      assert ps[i..][1..] == ps[i + 1..];
      m := m[(ps[i].ownerId, ps[i].protectionId) := ps[i]];
    }
  }

  method RestoreCacheOn(state: MetadataState, ds: seq<Deduplication>, ghost t: Topology) returns (ok: bool)
    requires t.tables == state.tables && t.tablets == state.tablets
    modifies state`requestDeduplication
    ensures (if ok then Some(state.requestDeduplication) else None)
         == RestoreCache(t, old(state.requestDeduplication), ds)
  {
    for i := 0 to |ds|
      invariant RestoreCache(t, old(state.requestDeduplication), ds)
             == RestoreCache(t, state.requestDeduplication, ds[i..])
    {
      var o := ds[i].outcome;
      assert ds[i..][1..] == ds[i + 1..];
      if o.CachedTableCreated? {
        if o.tableId !in state.tables || o.tabletId !in state.tablets {
          return false;
        }
        var tablet := state.tablets[o.tabletId];
        if tablet.tableId != o.tableId || tablet.raftGroupId != o.raftGroupId {
          return false;
        }
      }
      state.requestDeduplication := state.requestDeduplication[ds[i].id := o];
    }
    ok := true;
  }

  method RestoreSessionsOn(state: MetadataState, ss: seq<ClientSession>) returns (ok: bool)
    modifies state`clientSessions
    ensures (if ok then Some(state.clientSessions) else None) == RestoreSessions(old(state.clientSessions), ss)
  {
    for i := 0 to |ss|
      invariant RestoreSessions(old(state.clientSessions), ss) == RestoreSessions(state.clientSessions, ss[i..])
    {
      assert ss[i..][1..] == ss[i + 1..];
      var duplicate := ss[i].clientId in state.clientSessions;
      state.clientSessions := state.clientSessions[ss[i].clientId := ss[i]];
      if duplicate {
        return false;
      }
    }
    ok := true;
  }

  /** Placements and retirements; the running replica mark is overwritten afterwards. */
  method RestoreReplicasOn(state: MetadataState, n: Snapshot) returns (ok: bool)
    modifies state`desiredPlacements, state`retiredReplicas, state`allocator
    ensures (if ok then Some((state.desiredPlacements, state.retiredReplicas)) else None)
         == RestoreReplicas(old(state.TopologyView()), n)
  {
    ghost var t := state.TopologyView();
    ok := RestorePlacementsOn(state, n.placements);
    if ok {
      ok := RestoreRetiredOn(state, n.retired, t);
    }
  }

  method RestoreClientsOn(state: MetadataState, n: Snapshot, ghost s: State) returns (ok: bool)
    requires s.topology.tables == state.tables && s.topology.tablets == state.tablets
    requires s.requestDeduplication == state.requestDeduplication && s.clientSessions == state.clientSessions
    modifies state`requestDeduplication, state`clientSessions
    ensures (if ok then Some((state.requestDeduplication, state.clientSessions)) else None) == RestoreClients(s, n)
  {
    ok := RestoreCacheOn(state, n.deduplication, s.topology);
    if ok {
      ok := RestoreSessionsOn(state, n.sessions);
    }
  }

  /** Everything after the catalog. */
  method RestoreRestOn(state: MetadataState, n: Snapshot) returns (ok: bool)
    modifies state
    ensures (if ok then Some(state.View()) else None) == RestoreRest(old(state.View()), n)
  {
    ghost var s := state.View();
    ok := RestoreReplicasOn(state, n);
    if !ok {
      return;
    }
    state.allocator, state.timestampReservedUntil := n.allocator, n.timestampReservedUntil;
    state.gcSafePoint := n.safePoint;
    state.gcProtections := CollectProtections(n.protections);
    ok := RestoreClientsOn(state, n, s);
  }

  /** The snapshot of an uninitialized cluster holds only its marks. */
  method FromBlank(n: Snapshot) returns (r: MetadataState)
    ensures fresh(r) && r.View() == RestoreBlank(n)
  {
    r := new MetadataState();
    r.allocator, r.timestampReservedUntil, r.gcSafePoint := n.allocator, n.timestampReservedUntil, n.safePoint;
    r.gcProtections := CollectProtections(n.protections);
  }

  lemma UnfoldRestore(n: Snapshot)
    requires ValidSnapshot(n) && n.clusterId.Some?
    ensures Restore(n)
         == match RestoreCatalog(n) case None => None case Some(s) => RestoreRest(s, n)
  {
  }

  /** `from_snapshot`: a fresh state, or null when the snapshot is corrupt. */
  method FromSnapshot(n: Snapshot) returns (r: MetadataState?)
    ensures r == null <==> Restore(n) == None
    ensures r != null ==> fresh(r) && Restore(n) == Some(r.View())
  {
    var ok := ValidateSnapshot(n);
    if !ok {
      return null;
    }
    if n.clusterId.None? {
      r := FromBlank(n);
      return;
    }
    UnfoldRestore(n);
    var state := new MetadataState();
    ok := RestoreCatalogOn(state, n);
    if !ok {
      return null;
    }
    ok := RestoreRestOn(state, n);
    r := if ok then state else null;
  }
}
