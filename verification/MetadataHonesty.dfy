/** Outcomes tell the truth: a command changes the state exactly when its outcome says so. */
module MetadataHonesty {
  import opened Base
  import opened Schema
  import opened MetadataTypes
  import opened Validation
  import opened MetadataSpec
  import opened MetadataEffects

  lemma LiveIsSmaller(ps: Protections, nowMs: U64)
    ensures |LiveProtections(ps, nowMs)| == |ps| <==> LiveProtections(ps, nowMs) == ps
  {
    var live := LiveProtections(ps, nowMs);
    assert live.Keys <= ps.Keys;
    if |live| == |ps| && live.Keys != ps.Keys {
      SmallerSet(live.Keys, ps.Keys);
    }
  }

  lemma SmallerSet<T>(a: set<T>, b: set<T>)
    requires a < b
    ensures |a| < |b|
  {
    assert b == a + (b - a);
  }

  lemma GcHonest(g: Gc, c: Command)
    requires IsGcCommand(c)
    ensures ApplyGc(g, c).gc != g <==> ApplyGc(g, c).outcome.ChangedState()
  {
    if c.AdvanceGcSafePoint? {
      LiveIsSmaller(g.protections, c.nowMs);
    }
  }

  lemma SessionsHonest(m: Sessions, c: Command)
    requires IsSessionCommand(c)
    ensures ApplySession(m, c).sessions != m <==> ApplySession(m, c).outcome.ChangedState()
  {
  }

  lemma LifecycleChanges(t: Topology, u: Topology, nodeId: U64, to: Lifecycle)
    requires LifecycleMoved(t, u, nodeId, to)
    ensures u != t
  {
    assert u.nodes[nodeId] != t.nodes[nodeId];
  }

  lemma PlacementChanges(t: Topology, u: Topology, p: Placement)
    requires PlacementSet(t, u, p)
    ensures u != t
  {
    assert u.desiredPlacements[p.tabletId] == p;
  }

  lemma EvolutionChanges(t: Topology, u: Topology, expectedVersion: U64, table: TableSchema)
    requires TableEvolved(t, u, expectedVersion, table)
    ensures u != t
  {
    assert u.tables[table.id].version != t.tables[table.id].version;
  }

  lemma AdditionsChange(t: Topology, u: Topology, c: Command, o: Outcome)
    requires IsTopologyCommand(c) && Effect(t, c, u, o)
    ensures u != t
  {
    match c
    case RegisterNode(node) =>
      if node.nodeId in t.nodes {
        LifecycleChanges(t, u, node.nodeId, node.lifecycle);
      } else {
        assert node.nodeId in u.nodes;
      }
    case SetNodeLifecycle(nodeId, to) => LifecycleChanges(t, u, nodeId, to);
    case CreateTable(table) => assert table.id in u.tables;
    case CreateTablet(tablet) => assert tablet.tabletId in u.tablets;
    case CreateTableTopology(_) => assert o.tabletId in u.tablets;
    case SetDesiredPlacement(p) => PlacementChanges(t, u, p);
    case RecordRetirement(r) => assert (r.raftGroupId, r.replicaId) in u.retiredReplicas;
    case UpdateTableSchema(expectedVersion, table) => EvolutionChanges(t, u, expectedVersion, table);
  }

  lemma TopologyHonest(t: Topology, c: Command)
    requires IsTopologyCommand(c)
    ensures ApplyTopology(t, c).topology != t <==> ApplyTopology(t, c).outcome.ChangedState()
  {
    TopologyEffect(t, c);
    if ApplyTopology(t, c).outcome.ChangedState() {
      AdditionsChange(t, ApplyTopology(t, c).topology, c, ApplyTopology(t, c).outcome);
    }
  }

  /** From every state and for every command: refused and repeated commands consume nothing. */
  lemma ApplyIsHonest(s: State, c: Command)
    ensures Apply(s, c).state != s <==> Apply(s, c).outcome.ChangedState()
  {
    if ValidCommand(c) && s.clusterId.Some? {
      if IsGcCommand(c) {
        GcHonest(s.gc, c);
      } else if IsSessionCommand(c) {
        SessionsHonest(s.clientSessions, c);
      } else if IsTopologyCommand(c) {
        TopologyHonest(s.topology, c);
      }
    }
  }
}
