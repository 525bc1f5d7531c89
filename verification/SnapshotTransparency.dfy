/** Snapshot transparency: restoring a state's snapshot yields that state, or an error, and exactly when. */
module SnapshotTransparency {
  import opened Base
  import opened SortedKeys
  import opened Schema
  import opened MetadataTypes
  import opened InitialPlacement
  import opened MetadataSpec
  import opened MetadataInvariant
  import opened MetadataPreservation
  import opened MetadataRuns
  import opened Snapshot
  import opened SnapshotValidity
  import opened SnapshotRestore

  // ---------- the derived indexes are determined by the primary maps ----------

  lemma NameIndexIsUnique(tables: map<U64, TableSchema>, a: map<string, U64>, b: map<string, U64>)
    requires TablesInv(tables, a) && TablesInv(tables, b)
    ensures a == b
  {
    forall n | n in a ensures n in b && b[n] == a[n] {
      assert tables[a[n]].name == n;
    }
    forall n | n in b ensures n in a {
      assert tables[b[n]].name == n;
    }
  }

  lemma GroupIndexIsUnique(tablets: map<U64, TabletDescriptor>, a: map<U64, U64>, b: map<U64, U64>)
    requires GroupIndexInv(tablets, a) && GroupIndexInv(tablets, b)
    ensures a == b
  {
    forall g | g in a ensures g in b && b[g] == a[g] {
      assert tablets[a[g]].raftGroupId == g;
    }
    forall g | g in b ensures g in a {
      assert tablets[b[g]].raftGroupId == g;
    }
  }

  lemma PartitionIndexIsUnique(tablets: map<U64, TabletDescriptor>, a: map<(U64, U32), U64>, b: map<(U64, U32), U64>)
    requires PartitionIndexInv(tablets, a) && PartitionIndexInv(tablets, b)
    ensures a == b
  {
    forall k | k in a ensures k in b && b[k] == a[k] {
      assert BucketOf(tablets[a[k]]) == k;
    }
    forall k | k in b ensures k in a {
      assert BucketOf(tablets[b[k]]) == k;
    }
  }

  /** Two topologies that satisfy the invariant agree on their indexes if they agree on tables and tablets. */
  lemma SameIndexes(t: Topology, u: Topology)
    requires TopologyInv(t) && TopologyInv(u) && t.tables == u.tables && t.tablets == u.tablets
    ensures t.tableIdsByName == u.tableIdsByName
    ensures t.tabletIdsByRaftGroup == u.tabletIdsByRaftGroup
    ensures t.tabletIdsByPartition == u.tabletIdsByPartition
  {
    NameIndexIsUnique(t.tables, t.tableIdsByName, u.tableIdsByName);
    GroupIndexIsUnique(t.tablets, t.tabletIdsByRaftGroup, u.tabletIdsByRaftGroup);
    PartitionIndexIsUnique(t.tablets, t.tabletIdsByPartition, u.tabletIdsByPartition);
  }

  // ---------- the catalog ----------

  predicate HashTabletsFit(t: Topology) {
    forall k | k in t.tablets :: HasRoom(t.tables, t.tablets, k)
  }

  lemma RoomForAll(t: Topology, ks: seq<U64>)
    requires Lists(ks, t.tablets)
    ensures RoomFrom(t, ks, 0) <==> HashTabletsFit(t)
    ensures ks == [] ==> HashTabletsFit(t)
  {
  }

  lemma StartsEmpty(clusterId: string) returns (v: State)
    requires !IsBlank(clusterId)
    ensures Replay(Init(), ClusterInitialized(clusterId)) == Some(v)
    ensures Partial(v, clusterId, map[], map[], map[])
  {
    InitInv();
    v := Init().(clusterId := Some(clusterId));
  }

  lemma AllNodes(u: State, clusterId: string, nodes: Directory) returns (v: State)
    requires Partial(u, clusterId, map[], map[], map[]) && NodesInv(nodes) && Injective(IdRank)
    ensures RestoreNodes(u, Values(nodes, IdRank)) == Some(v)
    ensures Partial(v, clusterId, nodes, map[], map[])
  {
    var ks := Listing(nodes, IdRank);
    var vs := Values(nodes, IdRank);
    IdListing(nodes, ks, vs);
    v := NodesRestored(u, clusterId, nodes, ks, vs, 0);
  }

  lemma AllTables(u: State, clusterId: string, s: Topology) returns (v: State)
    requires Partial(u, clusterId, s.nodes, map[], map[]) && TablesInv(s.tables, s.tableIdsByName)
    requires Injective(IdRank)
    ensures RestoreTables(u, Values(s.tables, IdRank)) == Some(v)
    ensures Partial(v, clusterId, s.nodes, s.tables, map[])
  {
    var ks := Listing(s.tables, IdRank);
    var vs := Values(s.tables, IdRank);
    IdListing(s.tables, ks, vs);
    v := TablesRestored(u, clusterId, s, ks, vs, 0);
  }

  lemma AllTablets(u: State, clusterId: string, s: Topology) returns (v: State)
    requires Partial(u, clusterId, s.nodes, s.tables, map[]) && TopologyInv(s) && Injective(IdRank)
    requires HashTabletsFit(s)
    ensures RestoreTablets(u, Values(s.tablets, IdRank)) == Some(v)
    ensures Partial(v, clusterId, s.nodes, s.tables, s.tablets)
  {
    var ks := Listing(s.tablets, IdRank);
    var vs := Values(s.tablets, IdRank);
    IdListing(s.tablets, ks, vs);
    RoomForAll(s, ks);
    v := TabletsRestored(u, clusterId, s, ks, vs, 0);
  }

  lemma NotAllTablets(u: State, clusterId: string, s: Topology)
    requires Partial(u, clusterId, s.nodes, s.tables, map[]) && TopologyInv(s) && Injective(IdRank)
    requires !HashTabletsFit(s)
    ensures RestoreTablets(u, Values(s.tablets, IdRank)) == None
  {
    var ks := Listing(s.tablets, IdRank);
    var vs := Values(s.tablets, IdRank);
    IdListing(s.tablets, ks, vs);
    RoomForAll(s, ks);
    TabletsRefused(u, clusterId, s, ks, vs, 0);
  }

  lemma UnfoldCatalog(n: Snapshot, s0: State, s1: State, s2: State)
    requires n.clusterId.Some? && Replay(Init(), ClusterInitialized(n.clusterId.value)) == Some(s0)
    requires RestoreNodes(s0, n.nodes) == Some(s1) && RestoreTables(s1, n.tables) == Some(s2)
    ensures RestoreCatalog(n) == RestoreTablets(s2, n.tablets)
  {
  }

  lemma BeforeTablets(s: State, n: Snapshot) returns (v: State)
    requires Inv(s) && s.clusterId.Some? && n == ToSnapshot(s)
    ensures RestoreCatalog(n) == RestoreTablets(v, n.tablets)
    ensures Partial(v, s.clusterId.value, s.topology.nodes, s.topology.tables, map[])
  {
    RanksAreInjective();
    var s0 := StartsEmpty(s.clusterId.value);
    var s1 := AllNodes(s0, s.clusterId.value, s.topology.nodes);
    v := AllTables(s1, s.clusterId.value, s.topology);
    UnfoldCatalog(n, s0, s1, v);
  }

  // ---------- the rest of the state ----------

  /** The values of `m`, in the order in which `ks` lists its keys. */
  ghost predicate Aligned<K, V>(m: map<K, V>, ks: seq<K>, vs: seq<V>) {
    Lists(ks, m) && |vs| == |ks| && forall i | 0 <= i < |ks| :: vs[i] == m[ks[i]]
  }

  lemma {:induction false} PlacementsRebuilt(t: Topology, m: map<U64, Placement>, ks: seq<U64>, vs: seq<Placement>, n: nat)
    requires Aligned(m, ks, vs) && n <= |ks|
    requires forall k | k in m :: m[k].tabletId == k && RestorablePlacement(t, m[k])
    ensures RestorePlacements(t, FirstKeys(m, ks, n), vs[n..]) == Some(m)
    decreases |ks| - n
  {
    if n == |ks| {
      FirstKeysBounds(m, ks);
    } else {
      FirstKeysGrows(m, ks, n);
      assert vs[n..][1..] == vs[n + 1..];
      PlacementsRebuilt(t, m, ks, vs, n + 1);
    }
  }

  lemma RestoreRetiredFirst(t: Topology, placements: map<U64, Placement>, m: Retirements, vs: seq<Retirement>, n: nat)
    requires n < |vs| && RestorableRetirement(t, placements, vs[n])
    ensures RestoreRetired(t, placements, m, vs[n..])
         == RestoreRetired(t, placements, m[(vs[n].raftGroupId, vs[n].replicaId) := vs[n]], vs[n + 1..])
  {
    assert vs[n..][1..] == vs[n + 1..];
  }

  lemma {:induction false} RetiredRebuilt(t: Topology, placements: map<U64, Placement>, m: Retirements,
                                          ks: seq<(U64, U64)>, vs: seq<Retirement>, n: nat)
    requires Aligned(m, ks, vs) && n <= |ks|
    requires forall k | k in m ::
               (m[k].raftGroupId, m[k].replicaId) == k && RestorableRetirement(t, placements, m[k])
    ensures RestoreRetired(t, placements, FirstKeys(m, ks, n), vs[n..]) == Some(m)
    decreases |ks| - n
  {
    if n == |ks| {
      FirstKeysBounds(m, ks);
    } else {
      FirstKeysGrows(m, ks, n);
      RestoreRetiredFirst(t, placements, FirstKeys(m, ks, n), vs, n);
      RetiredRebuilt(t, placements, m, ks, vs, n + 1);
    }
  }

  lemma {:induction false} ProtectionsRebuilt(m: Protections, ks: seq<(U128, U128)>, vs: seq<GcProtection>, n: nat)
    requires Aligned(m, ks, vs) && n <= |ks|
    requires forall k | k in m :: (m[k].ownerId, m[k].protectionId) == k
    ensures RestoreProtections(FirstKeys(m, ks, n), vs[n..]) == m
    decreases |ks| - n
  {
    if n == |ks| {
      FirstKeysBounds(m, ks);
    } else {
      FirstKeysGrows(m, ks, n);
      assert vs[n..][1..] == vs[n + 1..];
      ProtectionsRebuilt(m, ks, vs, n + 1);
    }
  }

  lemma {:induction false} SessionsRebuilt(m: Sessions, ks: seq<U128>, vs: seq<ClientSession>, n: nat)
    requires Aligned(m, ks, vs) && n <= |ks|
    requires forall k | k in m :: m[k].clientId == k
    ensures RestoreSessions(FirstKeys(m, ks, n), vs[n..]) == Some(m)
    decreases |ks| - n
  {
    if n == |ks| {
      FirstKeysBounds(m, ks);
    } else {
      FirstKeysGrows(m, ks, n);
      assert vs[n..][1..] == vs[n + 1..];
      SessionsRebuilt(m, ks, vs, n + 1);
    }
  }

  lemma CacheGrows(m: Cache, ks: seq<LogicalCommandId>, n: nat)
    requires Lists(ks, CacheEntries(m)) && n < |ks|
    ensures ks[n] in m && FirstKeys(m, ks, n + 1) == FirstKeys(m, ks, n)[ks[n] := m[ks[n]]]
  {
    assert ks[n] in CacheEntries(m);
    assert ks[..n + 1] == ks[..n] + [ks[n]];
  }

  lemma CacheKeysComplete(m: Cache, ks: seq<LogicalCommandId>)
    requires Lists(ks, CacheEntries(m))
    ensures FirstKeys(m, ks, |ks|) == m && FirstKeys(m, ks, 0) == map[]
  {
    assert ks[..|ks|] == ks;
    forall k | k in m ensures k in ks {
      assert k in CacheEntries(m);
    }
  }

  lemma {:induction false} CacheRebuilt(t: Topology, m: Cache, ks: seq<LogicalCommandId>, vs: seq<Deduplication>, n: nat)
    requires Aligned(CacheEntries(m), ks, vs) && n <= |ks|
    requires forall k | k in m :: RestorableOutcome(t, m[k])
    ensures RestoreCache(t, FirstKeys(m, ks, n), vs[n..]) == Some(m)
    decreases |ks| - n
  {
    if n == |ks| {
      CacheKeysComplete(m, ks);
    } else {
      CacheGrows(m, ks, n);
      assert vs[n] == CacheEntries(m)[ks[n]];
      assert vs[n..][1..] == vs[n + 1..];
      CacheRebuilt(t, m, ks, vs, n + 1);
    }
  }

  lemma ListingAligns<K, V>(m: map<K, V>, rank: K -> int, ks: seq<K>, vs: seq<V>)
    requires IsListing(m, rank, ks, vs)
    ensures Aligned(m, ks, vs) && vs[0..] == vs && FirstKeys(m, ks, 0) == map[]
  {
    FirstKeysBounds(m, ks);
  }

  lemma StoredPlacementsRestorable(t: Topology, s: Topology)
    requires PlacementsInv(s.nodes, s.tablets, s.desiredPlacements)
    requires t.tablets == s.tablets && t.nodes == s.nodes && t.retiredReplicas == map[]
    ensures forall k | k in s.desiredPlacements ::
              s.desiredPlacements[k].tabletId == k && RestorablePlacement(t, s.desiredPlacements[k])
  {
    forall k | k in s.desiredPlacements ensures RestorablePlacement(t, s.desiredPlacements[k]) {
      assert Satisfied(s.nodes, s.desiredPlacements[k]);
    }
  }

  lemma AllPlacements(t: Topology, s: Topology)
    requires PlacementsInv(s.nodes, s.tablets, s.desiredPlacements) && Injective(IdRank)
    requires t.tablets == s.tablets && t.nodes == s.nodes && t.retiredReplicas == map[]
    ensures RestorePlacements(t, map[], Values(s.desiredPlacements, IdRank)) == Some(s.desiredPlacements)
  {
    var ks := Listing(s.desiredPlacements, IdRank);
    var vs := Values(s.desiredPlacements, IdRank);
    ListingAligns(s.desiredPlacements, IdRank, ks, vs);
    StoredPlacementsRestorable(t, s);
    PlacementsRebuilt(t, s.desiredPlacements, ks, vs, 0);
  }

  lemma AllRetired(t: Topology, s: Topology)
    requires RetiredInv(s.tabletIdsByRaftGroup, s.desiredPlacements, s.retiredReplicas) && Injective(PairRank)
    requires t.tabletIdsByRaftGroup == s.tabletIdsByRaftGroup
    ensures RestoreRetired(t, s.desiredPlacements, map[], Values(s.retiredReplicas, PairRank)) == Some(s.retiredReplicas)
  {
    var ks := Listing(s.retiredReplicas, PairRank);
    var vs := Values(s.retiredReplicas, PairRank);
    ListingAligns(s.retiredReplicas, PairRank, ks, vs);
    RetiredRebuilt(t, s.desiredPlacements, s.retiredReplicas, ks, vs, 0);
  }

  lemma AllProtections(g: Gc)
    requires GcInv(g) && Injective(WidePairRank)
    ensures RestoreProtections(map[], Values(g.protections, WidePairRank)) == g.protections
  {
    var ks := Listing(g.protections, WidePairRank);
    var vs := Values(g.protections, WidePairRank);
    ListingAligns(g.protections, WidePairRank, ks, vs);
    assert forall k | k in g.protections :: ProtectionInv(g.safePoint, k, g.protections[k]);
    ProtectionsRebuilt(g.protections, ks, vs, 0);
  }

  lemma AllSessions(m: Sessions)
    requires SessionsInv(m) && Injective(ClientRank)
    ensures RestoreSessions(map[], Values(m, ClientRank)) == Some(m)
  {
    var ks := Listing(m, ClientRank);
    var vs := Values(m, ClientRank);
    ListingAligns(m, ClientRank, ks, vs);
    SessionsRebuilt(m, ks, vs, 0);
  }

  lemma CachedAreRestorable(t: Topology, s: Topology, m: Cache)
    requires CacheInv(s.tables, s.tablets, m) && t.tables == s.tables && t.tablets == s.tablets
    ensures forall k | k in m :: RestorableOutcome(t, m[k])
  {
    forall k | k in m ensures RestorableOutcome(t, m[k]) {
      assert CachedInv(s.tables, s.tablets, m[k]);
    }
  }

  lemma AllCached(t: Topology, s: Topology, m: Cache)
    requires CacheInv(s.tables, s.tablets, m) && Injective(CommandRank)
    requires t.tables == s.tables && t.tablets == s.tablets
    ensures RestoreCache(t, map[], Values(CacheEntries(m), CommandRank)) == Some(m)
  {
    var ks := Listing(CacheEntries(m), CommandRank);
    var vs := Values(CacheEntries(m), CommandRank);
    ListingAligns(CacheEntries(m), CommandRank, ks, vs);
    CachedAreRestorable(t, s, m);
    CacheRebuilt(t, m, ks, vs, 0);
    CacheKeysComplete(m, ks);
  }

  lemma UnfoldRest(v: State, n: Snapshot, placements: map<U64, Placement>, retired: map<(U64, U64), Retirement>,
                   cache: Cache, sessions: Sessions)
    requires RestorePlacements(v.topology, v.topology.desiredPlacements, n.placements) == Some(placements)
    requires RestoreRetired(v.topology, placements, v.topology.retiredReplicas, n.retired) == Some(retired)
    requires RestoreCache(v.topology, v.requestDeduplication, n.deduplication) == Some(cache)
    requires RestoreSessions(v.clientSessions, n.sessions) == Some(sessions)
    ensures RestoreRest(v, n)
         == Some(State(v.clusterId, n.timestampReservedUntil, Gc(n.safePoint, RestoreProtections(map[], n.protections)),
                       v.topology.(allocator := n.allocator, desiredPlacements := placements,
                                   retiredReplicas := retired),
                       cache, sessions))
  {
  }

  lemma PartialFacts(v: State, clusterId: string, nodes: Directory, tables: map<U64, TableSchema>,
                     tablets: map<U64, TabletDescriptor>)
    requires Partial(v, clusterId, nodes, tables, tablets)
    ensures TopologyInv(v.topology) && v.clusterId == Some(clusterId)
    ensures v.topology.nodes == nodes && v.topology.tables == tables && v.topology.tablets == tablets
    ensures v.topology.desiredPlacements == map[] && v.topology.retiredReplicas == map[]
    ensures v.requestDeduplication == map[] && v.clientSessions == map[]
  {
  }

  lemma RestRestored(v: State, s: State, n: Snapshot)
    requires Inv(s) && s.clusterId.Some? && n == ToSnapshot(s)
    requires Partial(v, s.clusterId.value, s.topology.nodes, s.topology.tables, s.topology.tablets)
    ensures RestoreRest(v, n) == Some(s)
  {
    RanksAreInjective();
    CommandRankIsInjective();
    var t := s.topology;
    PartialFacts(v, s.clusterId.value, t.nodes, t.tables, t.tablets);
    SameIndexes(v.topology, t);
    AllPlacements(v.topology, t);
    AllRetired(v.topology, t);
    AllProtections(s.gc);
    AllSessions(s.clientSessions);
    AllCached(v.topology, t, s.requestDeduplication);
    UnfoldRest(v, n, t.desiredPlacements, t.retiredReplicas, s.requestDeduplication, s.clientSessions);
  }

  // ---------- the theorem ----------

  /** What a caller can check of a state to know that its snapshot restores. */
  predicate Restorable(s: State) {
    Snapshotable(s) && HashTabletsFit(s.topology)
  }

  lemma InitializedRoundTrip(s: State, n: Snapshot)
    requires Inv(s) && s.clusterId.Some? && n == ToSnapshot(s) && ValidSnapshot(n)
    ensures Restore(n) == if HashTabletsFit(s.topology) then Some(s) else None
  {
    RanksAreInjective();
    var w := BeforeTablets(s, n);
    if HashTabletsFit(s.topology) {
      var v := AllTablets(w, s.clusterId.value, s.topology);
      RestRestored(v, s, n);
    } else {
      NotAllTablets(w, s.clusterId.value, s.topology);
    }
  }

  lemma BlankRoundTrip(s: State, n: Snapshot)
    requires Inv(s) && s.clusterId.None? && n == ToSnapshot(s) && ValidSnapshot(n)
    requires s.requestDeduplication == map[]
    ensures Restore(n) == Some(s)
  {
    assert n.protections == [];
  }

  /**
   * Restoring the snapshot of any state that satisfies the invariant gives back that very state,
   * all three indexes included, when the state is restorable, and an error otherwise.
   */
  lemma SnapshotIsTransparent(s: State)
    requires Inv(s)
    ensures Restore(ToSnapshot(s)) == if Restorable(s) then Some(s) else None
  {
    var n := ToSnapshot(s);
    ValidIff(s);
    if ValidSnapshot(n) {
      if s.clusterId.Some? {
        InitializedRoundTrip(s, n);
      } else {
        BlankRoundTrip(s, n);
      }
    }
  }

  lemma SuffixState(log: seq<Entry>, i: nat, rest: seq<Entry>, j: nat)
    requires i <= |log| && j <= |rest|
    ensures StateAt(At(log, i), rest, j) == StateAt(Init(), log[..i] + rest, i + j)
  {
    var prefix := log[..i];
    assert (prefix + rest)[..i + j] == prefix + rest[..j];
    RunAppend(Init(), prefix, rest[..j]);
  }

  lemma SuffixOutcome(log: seq<Entry>, i: nat, rest: seq<Entry>, j: nat)
    requires i <= |log| && j < |rest|
    ensures OutcomeAt(At(log, i), rest, j) == OutcomeAt(Init(), log[..i] + rest, i + j)
  {
    SuffixState(log, i, rest, j);
    assert (log[..i] + rest)[i + j] == rest[j];
  }

  /** Cutting any run at a restorable state and restoring there changes no later state or outcome. */
  lemma CutAndRestore(log: seq<Entry>, i: nat, rest: seq<Entry>)
    requires i <= |log| && Restorable(At(log, i))
    ensures var restored := Restore(ToSnapshot(At(log, i)));
            && restored.Some?
            && Run(restored.value, rest) == Run(Init(), log[..i] + rest)
            && (forall j | 0 <= j < |rest| ::
                  OutcomeAt(restored.value, rest, j) == OutcomeAt(Init(), log[..i] + rest, i + j))
  {
    ReachableInv(log, i);
    SnapshotIsTransparent(At(log, i));
    RunAppend(Init(), log[..i], rest);
    forall j | 0 <= j < |rest|
      ensures OutcomeAt(At(log, i), rest, j) == OutcomeAt(Init(), log[..i] + rest, i + j)
    {
      SuffixOutcome(log, i, rest, j);
    }
  }
}
