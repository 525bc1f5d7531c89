/** Histories over whole runs: placements, schemas, node lifecycles and retired replicas. */
module MetadataHistory {
  import opened Base
  import opened Schema
  import opened MetadataTypes
  import opened InitialPlacement
  import opened MetadataSpec
  import opened MetadataInvariant
  import opened MetadataSteps
  import opened MetadataRuns
  import opened Chains

  // ---------- placements ----------

  ghost function PlacementMaps(log: seq<Entry>): (ms: seq<map<U64, Placement>>)
    ensures |ms| == |log| + 1
    ensures forall i | 0 <= i < |ms| :: ms[i] == At(log, i).topology.desiredPlacements
  {
    seq(|log| + 1, i requires 0 <= i <= |log| => At(log, i).topology.desiredPlacements)
  }

  /** The distinct desired placements a tablet goes through during the run. */
  ghost function PlacementHistory(log: seq<Entry>, tabletId: U64): seq<Placement> {
    Changes(PlacementMaps(log), tabletId)
  }

  ghost predicate FirstEpoch(p: Placement) {
    p.epoch == 1
  }

  lemma PlacementsFollow(log: seq<Entry>, tabletId: U64, i: nat)
    requires i < |log|
    ensures Follows(PlacementMaps(log)[i], PlacementMaps(log)[i + 1], tabletId, FirstEpoch, Succeeds)
  {
    AtProgress(log, i);
  }

  lemma {:induction false} EpochsCount(h: seq<Placement>, i: nat)
    requires IsChain(h, FirstEpoch, Succeeds) && i < |h|
    ensures h[i].epoch == i + 1
  {
    if i > 0 {
      EpochsCount(h, i - 1);
      assert Succeeds(h[i - 1], h[i - 1 + 1]);
    }
  }

  /** A replica in both lists is on the same node, with the same role or promoted. */
  ghost predicate StaysPut(prior: seq<Replica>, next: seq<Replica>) {
    forall x, r | x in prior && r in next && x.replicaId == r.replicaId ::
      x.nodeId == r.nodeId && (x.role == r.role || (x.role.Learner? && r.role.Voter?))
  }

  /**
   * Over any run the placements of a tablet carry epochs 1, 2, 3, ...; a replica kept from one
   * placement to the next stays on its node and only moves from Learner to Voter.
   */
  lemma PlacementEpochs(log: seq<Entry>, tabletId: U64)
    ensures var h, now := PlacementHistory(log, tabletId), At(log, |log|).topology.desiredPlacements;
            && (forall i | 0 <= i < |h| :: h[i].epoch == i + 1)
            && (forall i | 0 <= i < |h| - 1 :: StaysPut(h[i].replicas, h[i + 1].replicas))
            && (if h == [] then tabletId !in now else tabletId in now && h[|h| - 1] == now[tabletId])
  {
    var ms, h := PlacementMaps(log), PlacementHistory(log, tabletId);
    assert ms[0] == map[];
    forall i | 0 <= i < |log| ensures Follows(ms[i], ms[i + 1], tabletId, FirstEpoch, Succeeds) {
      PlacementsFollow(log, tabletId, i);
    }
    ChangesAreChain(ms, tabletId, FirstEpoch, Succeeds);
    forall i | 0 <= i < |h| ensures h[i].epoch == i + 1 {
      EpochsCount(h, i);
    }
    forall i | 0 <= i < |h| - 1 ensures StaysPut(h[i].replicas, h[i + 1].replicas) {
      assert Succeeds(h[i], h[i + 1]);
    }
  }

  // ---------- schemas ----------

  ghost function SchemaMaps(log: seq<Entry>): (ms: seq<map<U64, TableSchema>>)
    ensures |ms| == |log| + 1
    ensures forall i | 0 <= i < |ms| :: ms[i] == At(log, i).topology.tables
  {
    seq(|log| + 1, i requires 0 <= i <= |log| => At(log, i).topology.tables)
  }

  /** The distinct schemas a table goes through during the run. */
  ghost function SchemaHistory(log: seq<Entry>, tableId: U64): seq<TableSchema> {
    Changes(SchemaMaps(log), tableId)
  }

  ghost predicate EvolvesValidly(prior: TableSchema, next: TableSchema) {
    Evolves(prior, next) && ValidSchema(next)
  }

  /** `n` evolutions lead from `prior` to `later`. */
  ghost predicate EvolvesBy(prior: TableSchema, later: TableSchema, n: nat) {
    && later.(version := prior.version, columns := prior.columns) == prior
    && later.version == prior.version + n
    && prior.columns <= later.columns
    && (forall j | |prior.columns| <= j < |later.columns| :: later.columns[j].nullable)
    && (forall i, j | 0 <= i < |prior.columns| <= j < |later.columns| ::
          prior.columns[i].id < later.columns[j].id)
  }

  lemma EvolvesMore(a: TableSchema, b: TableSchema, c: TableSchema, n: nat)
    requires EvolvesBy(a, b, n) && Evolves(b, c)
    ensures EvolvesBy(a, c, n + 1)
  {
    assert forall i | 0 <= i < |a.columns| :: b.columns[i] == a.columns[i];
  }

  lemma {:induction false} ChainEvolves(h: seq<TableSchema>, i: nat, j: nat)
    requires IsChain(h, ValidSchema, EvolvesValidly) && i <= j < |h|
    ensures EvolvesBy(h[i], h[j], j - i)
    decreases j
  {
    if i < j {
      ChainEvolves(h, i, j - 1);
      assert EvolvesValidly(h[j - 1], h[j - 1 + 1]);
      EvolvesMore(h[i], h[j - 1], h[j], j - 1 - i);
    }
  }

  lemma SchemasFollow(log: seq<Entry>, tableId: U64, i: nat)
    requires i < |log|
    ensures Follows(SchemaMaps(log)[i], SchemaMaps(log)[i + 1], tableId, ValidSchema, EvolvesValidly)
  {
    AtProgress(log, i);
    ReachableInv(log, i + 1);
  }

  lemma SchemaChain(log: seq<Entry>, tableId: U64)
    ensures var h, now := SchemaHistory(log, tableId), At(log, |log|).topology.tables;
            && IsChain(h, ValidSchema, EvolvesValidly)
            && (if h == [] then tableId !in now else tableId in now && h[|h| - 1] == now[tableId])
  {
    var ms := SchemaMaps(log);
    assert ms[0] == map[];
    forall i | 0 <= i < |log| ensures Follows(ms[i], ms[i + 1], tableId, ValidSchema, EvolvesValidly) {
      SchemasFollow(log, tableId, i);
    }
    ChangesAreChain(ms, tableId, ValidSchema, EvolvesValidly);
  }

  lemma ChainValid(h: seq<TableSchema>, i: nat)
    requires IsChain(h, ValidSchema, EvolvesValidly) && i < |h|
    ensures ValidSchema(h[i])
  {
    if i > 0 {
      assert EvolvesValidly(h[i - 1], h[i - 1 + 1]);
    }
  }

  /** Two versions of a table agree on every column identifier they share. */
  lemma SameColumn(prior: TableSchema, later: TableSchema, n: nat, c: Column, d: Column)
    requires EvolvesBy(prior, later, n) && ValidSchema(later)
    requires c in prior.columns && d in later.columns && c.id == d.id
    ensures c == d
  {
    var i :| 0 <= i < |prior.columns| && prior.columns[i] == c;
    var j :| 0 <= j < |later.columns| && later.columns[j] == d;
    assert later.columns[i] == c;
    assert j < |prior.columns|;
  }

  /**
   * Across any run, each older schema of a table is a prefix of every newer one: versions count
   * up by one, name, key and tablet count are fixed, added columns are nullable with larger
   * identifiers, and so a column identifier means the same column forever.
   */
  lemma SchemaIsAppendOnly(log: seq<Entry>, tableId: U64, i: nat, j: nat)
    requires i <= j < |SchemaHistory(log, tableId)|
    ensures var h := SchemaHistory(log, tableId);
            && EvolvesBy(h[i], h[j], j - i)
            && (forall c, d | c in h[i].columns && d in h[j].columns && c.id == d.id :: c == d)
  {
    var h := SchemaHistory(log, tableId);
    SchemaChain(log, tableId);
    ChainEvolves(h, i, j);
    ChainValid(h, j);
    forall c, d | c in h[i].columns && d in h[j].columns && c.id == d.id ensures c == d {
      SameColumn(h[i], h[j], j - i, c, d);
    }
  }

  // ---------- nodes ----------

  ghost function NodeMaps(log: seq<Entry>): (ms: seq<Directory>)
    ensures |ms| == |log| + 1
    ensures forall i | 0 <= i < |ms| :: ms[i] == At(log, i).topology.nodes
  {
    seq(|log| + 1, i requires 0 <= i <= |log| => At(log, i).topology.nodes)
  }

  /** The distinct descriptors a node goes through during the run. */
  ghost function NodeHistory(log: seq<Entry>, nodeId: U64): seq<NodeDescriptor> {
    Changes(NodeMaps(log), nodeId)
  }

  ghost predicate StartsActive(n: NodeDescriptor) {
    n.lifecycle.Active?
  }

  ghost predicate MovesOn(a: NodeDescriptor, b: NodeDescriptor) {
    SameDirectory(a, b) && CanAdvance(a.lifecycle, b.lifecycle)
  }

  lemma NodesFollow(log: seq<Entry>, nodeId: U64, i: nat)
    requires i < |log|
    ensures Follows(NodeMaps(log)[i], NodeMaps(log)[i + 1], nodeId, StartsActive, MovesOn)
  {
    AtProgress(log, i);
  }

  lemma {:induction false} LifecyclesCount(h: seq<NodeDescriptor>, i: nat)
    requires IsChain(h, StartsActive, MovesOn) && i < |h|
    ensures LifecycleRank(h[i].lifecycle) == i && SameDirectory(h[0], h[i])
  {
    if i > 0 {
      LifecyclesCount(h, i - 1);
      assert MovesOn(h[i - 1], h[i - 1 + 1]);
    }
  }

  /** A node starts Active and walks the lifecycle one step at a time; nothing else about it changes. */
  lemma LifecyclesAreOrdered(log: seq<Entry>, nodeId: U64)
    ensures var h, now := NodeHistory(log, nodeId), At(log, |log|).topology.nodes;
            && (forall i | 0 <= i < |h| :: LifecycleRank(h[i].lifecycle) == i && SameDirectory(h[0], h[i]))
            && (if h == [] then nodeId !in now else nodeId in now && h[|h| - 1] == now[nodeId])
  {
    var ms, h := NodeMaps(log), NodeHistory(log, nodeId);
    assert ms[0] == map[];
    forall i | 0 <= i < |log| ensures Follows(ms[i], ms[i + 1], nodeId, StartsActive, MovesOn) {
      NodesFollow(log, nodeId, i);
    }
    ChangesAreChain(ms, nodeId, StartsActive, MovesOn);
    forall i | 0 <= i < |h| ensures LifecycleRank(h[i].lifecycle) == i && SameDirectory(h[0], h[i]) {
      LifecyclesCount(h, i);
    }
  }

  // ---------- retired replicas ----------

  lemma {:induction false} RetiredStays(log: seq<Entry>, i: nat, j: nat, key: (U64, U64))
    requires i <= j <= |log| && key in At(log, i).topology.retiredReplicas
    ensures key in At(log, j).topology.retiredReplicas
    ensures At(log, j).topology.retiredReplicas[key] == At(log, i).topology.retiredReplicas[key]
    decreases j - i
  {
    if i < j {
      RetiredStays(log, i, j - 1, key);
      AtProgress(log, j - 1);
    }
  }

  lemma RetiredIsUndesired(t: Topology, key: (U64, U64), tabletId: U64)
    requires TopologyInv(t) && key in t.retiredReplicas
    requires tabletId in t.desiredPlacements && t.tablets[tabletId].raftGroupId == key.0
    ensures forall r | r in t.desiredPlacements[tabletId].replicas :: r.replicaId != key.1
  {
    assert t.tabletIdsByRaftGroup[key.0] == tabletId;
    assert !Desires(t.desiredPlacements, tabletId, key.1);
  }

  /** A retired replica identity is never desired again, and its retirement proof never changes. */
  lemma RetiredForever(log: seq<Entry>, i: nat, j: nat, key: (U64, U64))
    requires i <= j <= |log| && key in At(log, i).topology.retiredReplicas
    ensures var before, now := At(log, i).topology, At(log, j).topology;
            && key in now.retiredReplicas
            && now.retiredReplicas[key] == before.retiredReplicas[key]
            && (forall k, r | k in now.desiredPlacements && k in now.tablets
                              && now.tablets[k].raftGroupId == key.0 && r in now.desiredPlacements[k].replicas ::
                  r.replicaId != key.1)
  {
    RetiredStays(log, i, j, key);
    ReachableInv(log, j);
    var now := At(log, j).topology;
    forall k, r | k in now.desiredPlacements && k in now.tablets && now.tablets[k].raftGroupId == key.0
                  && r in now.desiredPlacements[k].replicas
      ensures r.replicaId != key.1
    {
      RetiredIsUndesired(now, key, k);
    }
  }
}
