/** Which runs can be snapshotted at every point: an exact guard on each entry, checked before it. */
module SnapshotRuns {
  import opened Base
  import opened Schema
  import opened MetadataTypes
  import opened Validation
  import opened InitialPlacement
  import opened MetadataSpec
  import opened MetadataInvariant
  import opened MetadataEffects
  import opened MetadataPreservation
  import opened MetadataSteps
  import opened MetadataRuns
  import opened ExactlyOnce
  import opened SnapshotValidity
  import opened SnapshotRestore
  import opened SnapshotTransparency
  import opened SnapshotGaps

  // ---------- decoded logs ----------

  /** What the log decoder accepts as a logical identity. */
  predicate ValidLogicalId(id: LogicalCommandId) {
    id.clientId != 0 && id.sessionEpoch != 0 && id.requestSequence != 0 && id.ordinal != 0
  }

  /** Every identity of the log has passed the decoder. */
  predicate Decoded(log: seq<Entry>) {
    forall e | e in log && e.Logged? :: ValidLogicalId(e.id)
  }

  /** In a run of a decoded log the retry cache is usable at every point. */
  lemma DecodedCacheIsUsable(log: seq<Entry>, i: nat)
    requires i <= |log| && Decoded(log)
    ensures UsableIds(At(log, i).requestDeduplication)
  {
    RunSeen(Init(), log[..i]);
    forall id | id in At(log, i).requestDeduplication ensures id.clientId != 0 && id.requestSequence != 0 {
      assert id in Seen(At(log, i));
      var e :| e in log[..i] && e.Logged? && e.id == id;
      assert e in log;
    }
  }

  /** For decoded logs only the other three conditions remain. */
  lemma DecodedRestorableIff(log: seq<Entry>, i: nat)
    requires i <= |log| && Decoded(log)
    ensures var s := At(log, i);
            Restorable(s) <==> && (s.clusterId.None? ==> s.requestDeduplication == map[])
                               && Sound(s.topology)
  {
    DecodedCacheIsUsable(log, i);
  }

  // ---------- the topology part ----------

  /** The part of restorability that only the topology decides. */
  predicate Sound(t: Topology) {
    ReplicaMarkDominates(t) && HashTabletsFit(t)
  }

  /** Of tables that keep their tablet count, the tablets fit as before. */
  lemma SameFit(t: Topology, u: Topology)
    requires TabletsInv(t.tables, t.tablets) && u.tablets == t.tablets
    requires forall k | k in t.tables :: k in u.tables && u.tables[k].tabletCount == t.tables[k].tabletCount
    ensures HashTabletsFit(u) <==> HashTabletsFit(t)
  {
    forall k | k in t.tablets ensures HasRoom(u.tables, u.tablets, k) <==> HasRoom(t.tables, t.tablets, k) {
      assert TabletInv(t.tables, k, t.tablets[k]);
    }
  }

  lemma TableKeepsSound(t: Topology, u: Topology, table: TableSchema)
    requires TopologyInv(t) && TableAdded(t, u, table)
    ensures Sound(u) <==> Sound(t)
  {
    SameFit(t, u);
  }

  lemma EvolutionKeepsSound(t: Topology, u: Topology, expectedVersion: U64, table: TableSchema)
    requires TopologyInv(t) && TableEvolved(t, u, expectedVersion, table)
    ensures Sound(u) <==> Sound(t)
  {
    EvolutionKeeps(expectedVersion, t.tables[table.id], table);
    SameFit(t, u);
  }

  /** No Hash tablet of the table with a larger identity is already at the tablet count. */
  predicate NotBelowFull(t: Topology, tablet: TabletDescriptor) {
    forall k | k in t.tablets && t.tablets[k].tableId == tablet.tableId && t.tablets[k].partition.Hash?
               && t.tablets[k].tableId in t.tables && tablet.tabletId < k ::
      |Earlier(t.tablets, k)| + 1 < t.tables[t.tablets[k].tableId].tabletCount
  }

  lemma EarlierGrows(tablets: map<U64, TabletDescriptor>, tablet: TabletDescriptor, k: U64)
    requires tablet.tabletId !in tablets && k in tablets
    ensures |Earlier(tablets[tablet.tabletId := tablet], k)|
         == |Earlier(tablets, k)| + if tablet.tabletId < k && tablet.tableId == tablets[k].tableId then 1 else 0
  {
    var more := tablets[tablet.tabletId := tablet];
    if tablet.tabletId < k && tablet.tableId == tablets[k].tableId {
      assert Earlier(more, k) == Earlier(tablets, k) + {tablet.tabletId};
    } else {
      assert Earlier(more, k) == Earlier(tablets, k);
    }
  }

  lemma NewTabletFits(t: Topology, tablet: TabletDescriptor)
    requires tablet.tabletId !in t.tablets && tablet.tableId in t.tables && PartitionRejection(t, tablet).None?
    ensures HasRoom(t.tables, t.tablets[tablet.tabletId := tablet], tablet.tabletId)
  {
    var more := t.tablets[tablet.tabletId := tablet];
    assert Earlier(more, tablet.tabletId) <= TabletsOf(t.tablets, tablet.tableId);
    SubsetIsSmaller(Earlier(more, tablet.tabletId), TabletsOf(t.tablets, tablet.tableId));
  }

  lemma SubsetIsSmaller(a: set<U64>, b: set<U64>)
    requires a <= b
    ensures |a| <= |b|
  {
    assert b == a + (b - a);
  }

  /** A new tablet leaves all tablets fitting exactly when they fitted and it is not below a full one. */
  lemma TabletFitsIff(t: Topology, u: Topology, tablet: TabletDescriptor)
    requires TabletAdded(t, u, tablet)
    ensures HashTabletsFit(u) <==> HashTabletsFit(t) && NotBelowFull(t, tablet)
  {
    NewTabletFits(t, tablet);
    forall k | k in t.tablets
      ensures HasRoom(u.tables, u.tablets, k)
         <==> HasRoom(t.tables, t.tablets, k)
              && (tablet.tabletId < k && tablet.tableId == t.tablets[k].tableId
                  && t.tablets[k].partition.Hash? && t.tablets[k].tableId in t.tables ==>
                    |Earlier(t.tablets, k)| + 1 < t.tables[t.tablets[k].tableId].tabletCount)
    {
      EarlierGrows(t.tablets, tablet, k);
    }
    if HashTabletsFit(u) {
      forall k | k in t.tablets ensures HasRoom(t.tables, t.tablets, k) {
        assert HasRoom(u.tables, u.tablets, k);
      }
      forall k | k in t.tablets && t.tablets[k].tableId == tablet.tableId && t.tablets[k].partition.Hash?
                 && t.tablets[k].tableId in t.tables && tablet.tabletId < k
        ensures |Earlier(t.tablets, k)| + 1 < t.tables[t.tablets[k].tableId].tabletCount
      {
        assert HasRoom(u.tables, u.tablets, k);
      }
    }
  }

  /** The tablet of a new table stands alone. */
  lemma PublishedFits(t: Topology, u: Topology, table: TableSchema, tablet: TabletDescriptor, p: Placement)
    requires TabletsInv(t.tables, t.tablets) && Published(t, u, table, tablet, p)
    ensures HashTabletsFit(u) <==> HashTabletsFit(t)
  {
    forall k | k in t.tablets ensures HasRoom(u.tables, u.tablets, k) <==> HasRoom(t.tables, t.tablets, k) {
      assert TabletInv(t.tables, k, t.tablets[k]);
      EarlierGrows(t.tablets, tablet, k);
    }
    if HashTabletsFit(u) {
      forall k | k in t.tablets ensures HasRoom(t.tables, t.tablets, k) {
        assert HasRoom(u.tables, u.tablets, k);
      }
    }
  }

  // ---------- guards, one per command ----------

  /** CREATE TABLE places voters 1, 2, ...: no replica identity in use may exceed their number. */
  predicate LowIdentities(t: Topology) {
    && PlacementsBelow(t.desiredPlacements, |InitialVoters(t.nodes)|)
    && RetiredBelow(t.retiredReplicas, |InitialVoters(t.nodes)|)
  }

  /** The command is refused or repeated, or does not bring the topology into a gap. */
  predicate KeepsSound(t: Topology, c: Command) {
    match c
    case CreateTablet(tablet) => AddTablet(t, tablet).outcome.Applied? ==> NotBelowFull(t, tablet)
    case CreateTableTopology(request) => CreateTopology(t, request).outcome.TableCreated? ==> LowIdentities(t)
    case RecordRetirement(r) => Retire(t, r).outcome.Applied? ==> r.replicaId <= t.allocator.maxReplicaId
    case _ => true
  }

  lemma TabletSoundIff(t: Topology, tablet: TabletDescriptor)
    requires Sound(t)
    ensures Sound(AddTablet(t, tablet).topology) <==> KeepsSound(t, CreateTablet(tablet))
  {
    TabletEffect(t, tablet);
    if AddTablet(t, tablet).outcome.Applied? {
      TabletFitsIff(t, AddTablet(t, tablet).topology, tablet);
    }
  }

  lemma CreateSoundIff(t: Topology, request: CreateTableRequest)
    requires TopologyInv(t) && Sound(t)
    ensures Sound(CreateTopology(t, request).topology) <==> KeepsSound(t, CreateTableTopology(request))
  {
    if CreateTopology(t, request).outcome.TableCreated? {
      CreateKeepsMarkIff(t, request);
      CreateFitsIff(t, request);
    } else {
      RefusedCreateChangesNothing(t, request);
    }
  }

  lemma RefusedCreateChangesNothing(t: Topology, request: CreateTableRequest)
    requires !CreateTopology(t, request).outcome.TableCreated?
    ensures CreateTopology(t, request).topology == t
  {
    CreateEffect(t, request);
  }

  lemma CreateFitsIff(t: Topology, request: CreateTableRequest)
    requires TopologyInv(t) && CreateTopology(t, request).outcome.TableCreated?
    ensures HashTabletsFit(CreateTopology(t, request).topology) <==> HashTabletsFit(t)
  {
    CreateEffect(t, request);
    var u, o := CreateTopology(t, request).topology, CreateTopology(t, request).outcome;
    PublishedFits(t, u, NewTable(o.tableId, request), FirstTablet(o.tableId, o.tabletId, o.raftGroupId),
                  FirstPlacement(t.nodes, o.tabletId));
  }

  lemma RetirementSoundIff(t: Topology, r: Retirement)
    requires Sound(t)
    ensures Sound(Retire(t, r).topology) <==> KeepsSound(t, RecordRetirement(r))
  {
    RetirementEffect(t, r);
    if Retire(t, r).outcome.Applied? {
      RetirementKeepsMarkIff(t, r);
    }
  }

  lemma TableSound(t: Topology, table: TableSchema)
    requires TopologyInv(t) && Sound(t)
    ensures Sound(AddTable(t, table).topology)
  {
    TableEffect(t, table);
    if AddTable(t, table).outcome.Applied? {
      TableKeepsSound(t, AddTable(t, table).topology, table);
    }
  }

  lemma EvolutionSound(t: Topology, expectedVersion: U64, table: TableSchema)
    requires TopologyInv(t) && Sound(t)
    ensures Sound(EvolveTable(t, expectedVersion, table).topology)
  {
    EvolutionEffect(t, expectedVersion, table);
    if EvolveTable(t, expectedVersion, table).outcome.Applied? {
      EvolutionKeepsSound(t, EvolveTable(t, expectedVersion, table).topology, expectedVersion, table);
    }
  }

  lemma PlacementSound(t: Topology, p: Placement)
    requires Sound(t)
    ensures Sound(SetPlacement(t, p).topology)
  {
    PlacementKeepsMark(t, p);
    PlacementEffect(t, p);
  }

  lemma NodeSound(t: Topology, node: NodeDescriptor)
    requires Sound(t)
    ensures Sound(AddNode(t, node).topology)
  {
    NodeEffect(t, node);
  }

  lemma LifecycleSound(t: Topology, nodeId: U64, to: Lifecycle)
    requires Sound(t)
    ensures Sound(AdvanceLifecycle(t, nodeId, to).topology)
  {
    LifecycleEffect(t, nodeId, to);
  }

  lemma TopologySoundIff(t: Topology, c: Command)
    requires TopologyInv(t) && Sound(t) && IsTopologyCommand(c)
    ensures Sound(ApplyTopology(t, c).topology) <==> KeepsSound(t, c)
  {
    match c
    case RegisterNode(node) => NodeSound(t, node);
    case SetNodeLifecycle(nodeId, lifecycle) => LifecycleSound(t, nodeId, lifecycle);
    case CreateTable(table) => TableSound(t, table);
    case CreateTablet(tablet) => TabletSoundIff(t, tablet);
    case CreateTableTopology(request) => CreateSoundIff(t, request);
    case SetDesiredPlacement(placement) => PlacementSound(t, placement);
    case RecordRetirement(retirement) => RetirementSoundIff(t, retirement);
    case UpdateTableSchema(expectedVersion, table) => EvolutionSound(t, expectedVersion, table);
  }

  // ---------- one entry ----------

  /** The command reaches the topology handlers. */
  predicate RunsTopology(s: State, c: Command) {
    s.clusterId.Some? && ValidCommand(c) && IsTopologyCommand(c)
  }

  lemma ApplyOnTopology(s: State, c: Command)
    ensures Apply(s, c).state.topology
         == if RunsTopology(s, c) then ApplyTopology(s.topology, c).topology else s.topology
  {
  }

  lemma ApplyOnCluster(s: State, c: Command)
    ensures Apply(s, c).state.clusterId.None? <==> s.clusterId.None? && !(c.ClusterInitialized? && ValidCommand(c))
  {
  }

  /**
   * The guard of one entry, a check before it: a repeat is harmless; a new identity is usable and
   * not logged ahead of initialization; an executed topology command keeps the topology sound.
   */
  predicate KeepsRestorable(s: State, e: Entry) {
    Fresh(s, e) ==>
      && (e.Logged? ==>
            && e.id.clientId != 0
            && e.id.requestSequence != 0
            && (s.clusterId.None? ==> e.command.ClusterInitialized? && ValidCommand(e.command)))
      && (RunsTopology(s, e.command) ==> KeepsSound(s.topology, e.command))
  }

  lemma ApplySoundIff(s: State, c: Command)
    requires Inv(s) && Sound(s.topology)
    ensures Sound(Apply(s, c).state.topology) <==> (RunsTopology(s, c) ==> KeepsSound(s.topology, c))
  {
    ApplyOnTopology(s, c);
    if RunsTopology(s, c) {
      TopologySoundIff(s.topology, c);
    }
  }

  lemma BareRestorableIff(s: State, c: Command)
    requires Inv(s) && Restorable(s)
    ensures Restorable(Apply(s, c).state) <==> KeepsRestorable(s, Bare(c))
  {
    ApplySoundIff(s, c);
    ApplyKeepsCache(s, c);
    ApplyOnCluster(s, c);
  }

  lemma CachedUsableIff(cache: Cache, id: LogicalCommandId, o: CachedOutcome)
    requires UsableIds(cache)
    ensures UsableIds(cache[id := o]) <==> id.clientId != 0 && id.requestSequence != 0
  {
    assert id in cache[id := o];
  }

  lemma LoggedRestorableIff(s: State, id: LogicalCommandId, c: Command)
    requires Inv(s) && Restorable(s) && id !in s.requestDeduplication
    ensures Restorable(ApplyLogged(s, id, c).state) <==> KeepsRestorable(s, Logged(id, c))
  {
    ApplySoundIff(s, c);
    ApplyKeepsCache(s, c);
    ApplyOnCluster(s, c);
    var u := ApplyLogged(s, id, c).state;
    CachedUsableIff(s.requestDeduplication, id, ToCached(Apply(s, c).outcome));
    assert id in u.requestDeduplication;
  }

  lemma EntryRestorableIff(s: State, e: Entry)
    requires Inv(s) && Restorable(s)
    ensures Restorable(ApplyEntry(s, e).state) <==> KeepsRestorable(s, e)
  {
    match e
    case Bare(c) => BareRestorableIff(s, c);
    case Logged(id, c) =>
      if id !in s.requestDeduplication {
        LoggedRestorableIff(s, id, c);
      }
  }

  // ---------- whole runs ----------

  lemma InitRestorable()
    ensures Restorable(Init())
  {
  }

  lemma {:induction false} GuardsKeepRestorable(log: seq<Entry>, i: nat)
    requires i <= |log| && forall k | 0 <= k < i :: KeepsRestorable(At(log, k), log[k])
    ensures Restorable(At(log, i))
  {
    if i == 0 {
      InitRestorable();
    } else {
      GuardsKeepRestorable(log, i - 1);
      StateAtNext(Init(), log, i - 1);
      ReachableInv(log, i - 1);
      EntryRestorableIff(At(log, i - 1), log[i - 1]);
    }
  }

  /** A run can be cut and restored at every point exactly when every entry passes its guard. */
  lemma AlwaysRestorableIff(log: seq<Entry>)
    ensures (forall i | 0 <= i <= |log| :: Restorable(At(log, i)))
       <==> (forall k | 0 <= k < |log| :: KeepsRestorable(At(log, k), log[k]))
  {
    if forall k | 0 <= k < |log| :: KeepsRestorable(At(log, k), log[k]) {
      forall i | 0 <= i <= |log| ensures Restorable(At(log, i)) {
        GuardsKeepRestorable(log, i);
      }
    }
    if forall i | 0 <= i <= |log| :: Restorable(At(log, i)) {
      forall k | 0 <= k < |log| ensures KeepsRestorable(At(log, k), log[k]) {
        assert Restorable(At(log, k)) && Restorable(At(log, k + 1));
        StateAtNext(Init(), log, k);
        ReachableInv(log, k);
        EntryRestorableIff(At(log, k), log[k]);
      }
    }
  }

  // ---------- logs that never meet a gap ----------

  lemma {:induction false} TabletsPersist(log: seq<Entry>, i: nat, j: nat)
    requires i <= j <= |log|
    ensures TabletsAdvance(At(log, i).topology.tablets, At(log, j).topology.tablets)
    decreases j - i
  {
    if i < j {
      TabletsPersist(log, i, j - 1);
      AtProgress(log, j - 1);
    }
  }

  /** If no table mixes partition kinds at the end of the run, none ever did. */
  lemma UnmixedBefore(log: seq<Entry>, i: nat)
    requires i <= |log| && Unmixed(At(log, |log|).topology)
    ensures Unmixed(At(log, i).topology)
  {
    TabletsPersist(log, i, |log|);
  }

  /** What a disciplined operator avoids, entry by entry. */
  predicate Disciplined(s: State, e: Entry) {
    && (e.Logged? && s.clusterId.None? ==> e.command.ClusterInitialized? && ValidCommand(e.command))
    && (e.command.CreateTableTopology? ==> LowIdentities(s.topology))
    && (e.command.RecordRetirement? ==> e.command.retirement.replicaId <= s.topology.allocator.maxReplicaId)
  }

  lemma UnmixedTabletPasses(log: seq<Entry>, k: nat)
    requires k < |log| && Unmixed(At(log, |log|).topology)
    requires Fresh(At(log, k), log[k]) && RunsTopology(At(log, k), log[k].command) && log[k].command.CreateTablet?
    ensures KeepsSound(At(log, k).topology, log[k].command)
  {
    var t, u, tablet := At(log, k).topology, At(log, k + 1).topology, log[k].command.tablet;
    if AddTablet(t, tablet).outcome.Applied? {
      StateAtNext(Init(), log, k);
      ApplyOnTopology(At(log, k), log[k].command);
      ReachableInv(log, k + 1);
      UnmixedBefore(log, k + 1);
      UnmixedTabletsFit(u);
      TabletEffect(t, tablet);
      TabletFitsIff(t, u, tablet);
    }
  }

  /**
   * Every state of a run is restorable if its log is decoded, its entries are disciplined and no
   * table ends up with both Hash and Range tablets.
   */
  lemma DisciplinedRunsRestore(log: seq<Entry>, i: nat)
    requires i <= |log| && Decoded(log) && Unmixed(At(log, |log|).topology)
    requires forall k | 0 <= k < |log| :: Disciplined(At(log, k), log[k])
    ensures Restorable(At(log, i))
  {
    forall k | 0 <= k < |log| ensures KeepsRestorable(At(log, k), log[k]) {
      var s, e := At(log, k), log[k];
      assert Disciplined(s, e);
      assert e in log;
      if Fresh(s, e) && RunsTopology(s, e.command) && e.command.CreateTablet? {
        UnmixedTabletPasses(log, k);
      }
    }
    GuardsKeepRestorable(log, i);
  }
}
