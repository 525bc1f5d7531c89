/** Every run of the metadata state machine keeps the invariant and only moves forward. */
module MetadataRuns {
  import opened Base
  import opened Schema
  import opened MetadataTypes
  import opened Validation
  import opened MetadataSpec
  import opened MetadataInvariant
  import opened MetadataEffects
  import opened MetadataPreservation
  import opened MetadataSteps

  /** Sessions are permanent, and each moves forward in (epoch, acknowledgement) order. */
  ghost predicate SessionsAdvance(before: Sessions, after: Sessions) {
    forall k | k in before ::
      && k in after
      && (|| before[k].epoch < after[k].epoch
          || (before[k].epoch == after[k].epoch
              && before[k].acknowledgedThrough <= after[k].acknowledgedThrough))
  }

  ghost predicate CacheAdvances(before: Cache, after: Cache) {
    forall id | id in before :: id in after && after[id] == before[id]
  }

  ghost predicate Progress(s: State, u: State) {
    && (s.clusterId.Some? ==> u.clusterId == s.clusterId)
    && s.timestampReservedUntil <= u.timestampReservedUntil
    && s.gc.safePoint <= u.gc.safePoint
    && Advances(s.topology, u.topology)
    && SessionsAdvance(s.clientSessions, u.clientSessions)
    && CacheAdvances(s.requestDeduplication, u.requestDeduplication)
  }

  /** The outcome's cached form is consistent with the state it leaves. */
  ghost predicate Fits(u: State, o: Outcome) {
    CachedInv(u.topology.tables, u.topology.tablets, ToCached(o))
  }

  ghost predicate SafeStep(s: State, step: Step) {
    true == (Inv(step.state) && Progress(s, step.state) && Fits(step.state, step.outcome))
  }

  lemma GcAdvances(g: Gc, c: Command)
    requires GcInv(g) && IsGcCommand(c)
    ensures g.safePoint <= ApplyGc(g, c).gc.safePoint
  {
  }

  lemma SessionsMove(m: Sessions, c: Command)
    requires IsSessionCommand(c)
    ensures SessionsAdvance(m, ApplySession(m, c).sessions)
  {
  }

  lemma SameProgress(s: State)
    ensures Progress(s, s)
  {
  }

  lemma RejectedSafe(s: State, o: Outcome)
    requires Inv(s) && (o.AlreadyApplied? || o.Rejected?)
    ensures SafeStep(s, Step(s, o))
  {
    SameProgress(s);
  }

  lemma InitializeSafe(s: State, clusterId: string)
    requires Inv(s) && !IsBlank(clusterId)
    ensures SafeStep(s, InitializeCluster(s, clusterId))
  {
    SameProgress(s);
    if s.clusterId.Some? {
      RejectedSafe(s, InitializeCluster(s, clusterId).outcome);
    }
  }

  lemma ReserveSafe(s: State, until: U64)
    requires Inv(s) && until != 0 && s.clusterId.Some?
    ensures SafeStep(s, ReserveUntil(s, until))
  {
    SameProgress(s);
  }

  lemma GcOutcomeFits(g: Gc, c: Command)
    requires IsGcCommand(c)
    ensures var o := ApplyGc(g, c).outcome;
            o.Applied? || o.AlreadyApplied? || o.Rejected?
  {
  }

  /** Replacing one component by a later one that keeps its invariant is a safe step. */
  lemma GcReplaced(s: State, g: Gc, o: Outcome)
    requires Inv(s) && s.clusterId.Some? && GcInv(g) && s.gc.safePoint <= g.safePoint
    requires o.Applied? || o.AlreadyApplied? || o.Rejected?
    ensures SafeStep(s, Step(s.(gc := g), o))
  {
    SameProgress(s);
  }

  lemma GcSafe(s: State, c: Command)
    requires Inv(s) && s.clusterId.Some? && ValidCommand(c) && IsGcCommand(c)
    ensures SafeStep(s, OnGc(s, ApplyGc(s.gc, c)))
  {
    GcKeeps(s.gc, c);
    GcAdvances(s.gc, c);
    GcOutcomeFits(s.gc, c);
    GcReplaced(s, ApplyGc(s.gc, c).gc, ApplyGc(s.gc, c).outcome);
  }

  lemma SessionOutcomeFits(m: Sessions, c: Command)
    requires IsSessionCommand(c) && ValidCommand(c)
    ensures var o := ApplySession(m, c).outcome;
            || o.AlreadyApplied? || o.ClientRenewed?
            || o.Rejected?
            || (o.ClientRegistered? && o.clientId != 0 && o.epoch != 0)
  {
  }

  lemma SessionsReplaced(s: State, m: Sessions, o: Outcome)
    requires Inv(s) && s.clusterId.Some? && SessionsInv(m) && SessionsAdvance(s.clientSessions, m)
    requires || o.AlreadyApplied? || o.ClientRenewed? || o.Rejected?
             || (o.ClientRegistered? && o.clientId != 0 && o.epoch != 0)
    ensures SafeStep(s, Step(s.(clientSessions := m), o))
  {
    SameProgress(s);
  }

  lemma SessionSafe(s: State, c: Command)
    requires Inv(s) && s.clusterId.Some? && ValidCommand(c) && IsSessionCommand(c)
    ensures SafeStep(s, OnSessions(s, ApplySession(s.clientSessions, c)))
  {
    SessionsKeep(s.clientSessions, c);
    SessionsMove(s.clientSessions, c);
    SessionOutcomeFits(s.clientSessions, c);
    SessionsReplaced(s, ApplySession(s.clientSessions, c).sessions, ApplySession(s.clientSessions, c).outcome);
  }

  lemma CreatedFits(t: Topology, u: Topology, table: TableSchema, tablet: TabletDescriptor, p: Placement)
    requires TopologyInv(t) && Published(t, u, table, tablet, p)
    ensures CreatedInv(u.tables, u.tablets, table.id, tablet.tabletId, tablet.raftGroupId)
  {
  }

  lemma TopologyOutcome(t: Topology, c: Command)
    requires IsTopologyCommand(c)
    ensures var o := ApplyTopology(t, c).outcome;
            || o.Applied? || o.AlreadyApplied?
            || o.Rejected?
            || (o.TableCreated? && c.CreateTableTopology?)
  {
  }

  lemma CreateFits(t: Topology, request: CreateTableRequest)
    requires TopologyInv(t)
    ensures var r := CreateTopology(t, request);
            r.outcome.TableCreated? ==>
              CreatedInv(r.topology.tables, r.topology.tablets,
                         r.outcome.tableId, r.outcome.tabletId, r.outcome.raftGroupId)
  {
    CreateEffect(t, request);
    var r := CreateTopology(t, request);
    if r.outcome.TableCreated? {
      CreatedFits(t, r.topology, NewTable(r.outcome.tableId, request),
                  FirstTablet(r.outcome.tableId, r.outcome.tabletId, r.outcome.raftGroupId),
                  FirstPlacement(t.nodes, r.outcome.tabletId));
    }
  }

  lemma TopologyFits(t: Topology, c: Command)
    requires TopologyInv(t) && IsTopologyCommand(c)
    ensures var r := ApplyTopology(t, c);
            CachedInv(r.topology.tables, r.topology.tablets, ToCached(r.outcome))
  {
    TopologyOutcome(t, c);
    if c.CreateTableTopology? {
      CreateFits(t, c.request);
    }
  }

  lemma CacheKept(t: Topology, u: Topology, cache: Cache)
    requires CacheInv(t.tables, t.tablets, cache) && Advances(t, u)
    ensures CacheInv(u.tables, u.tablets, cache)
  {
    CacheSeesMore(t.tables, t.tablets, u.tables, u.tablets, cache);
  }

  lemma TopologyReplaced(s: State, u: Topology, o: Outcome)
    requires Inv(s) && s.clusterId.Some? && Safe(s.topology, u) && CachedInv(u.tables, u.tablets, ToCached(o))
    ensures SafeStep(s, Step(s.(topology := u), o))
  {
    CacheKept(s.topology, u, s.requestDeduplication);
    SameProgress(s);
  }

  lemma TopologyStateSafe(s: State, c: Command)
    requires Inv(s) && s.clusterId.Some? && ValidCommand(c) && IsTopologyCommand(c)
    ensures SafeStep(s, OnTopology(s, ApplyTopology(s.topology, c)))
  {
    TopologySafe(s.topology, c);
    TopologyFits(s.topology, c);
    TopologyReplaced(s, ApplyTopology(s.topology, c).topology, ApplyTopology(s.topology, c).outcome);
  }

  lemma ApplySafe(s: State, c: Command)
    requires Inv(s)
    ensures SafeStep(s, Apply(s, c))
  {
    if !ValidCommand(c) || (s.clusterId.None? && !c.ClusterInitialized?) {
      RejectedSafe(s, Apply(s, c).outcome);
    } else if c.ClusterInitialized? {
      InitializeSafe(s, c.clusterId);
    } else if c.ReserveTimestamps? {
      ReserveSafe(s, c.reservedUntil);
    } else if IsGcCommand(c) {
      GcSafe(s, c);
    } else if IsSessionCommand(c) {
      SessionSafe(s, c);
    } else {
      TopologyStateSafe(s, c);
    }
  }

  lemma CachedSafe(s: State, id: LogicalCommandId, step: Step)
    requires Inv(s) && SafeStep(s, step) && id !in s.requestDeduplication
    requires step.state.requestDeduplication == s.requestDeduplication
    ensures SafeStep(s, Step(step.state.(requestDeduplication :=
                                           s.requestDeduplication[id := ToCached(step.outcome)]),
                             step.outcome))
  {
  }

  lemma ApplyKeepsCache(s: State, c: Command)
    ensures Apply(s, c).state.requestDeduplication == s.requestDeduplication
  {
  }

  lemma CacheRoundTrip(c: CachedOutcome)
    ensures ToCached(FromCached(c)) == c
  {
  }

  lemma ReplaySafe(s: State, id: LogicalCommandId)
    requires Inv(s) && id in s.requestDeduplication
    ensures SafeStep(s, Step(s, FromCached(s.requestDeduplication[id])))
  {
    SameProgress(s);
    CacheRoundTrip(s.requestDeduplication[id]);
  }

  lemma LoggedSafe(s: State, id: LogicalCommandId, c: Command)
    requires Inv(s)
    ensures SafeStep(s, ApplyLogged(s, id, c))
  {
    if id in s.requestDeduplication {
      ReplaySafe(s, id);
    } else {
      ApplySafe(s, c);
      ApplyKeepsCache(s, c);
      CachedSafe(s, id, Apply(s, c));
    }
  }

  lemma EntrySafe(s: State, e: Entry)
    requires Inv(s)
    ensures SafeStep(s, ApplyEntry(s, e))
  {
    match e
    case Bare(c) => ApplySafe(s, c);
    case Logged(id, c) => LoggedSafe(s, id, c);
  }

  lemma EntryKeepsInv(s: State, e: Entry)
    requires Inv(s)
    ensures Inv(ApplyEntry(s, e).state) && Progress(s, ApplyEntry(s, e).state)
  {
    EntrySafe(s, e);
  }

  /** Every state of every run satisfies the invariant. */
  lemma {:induction false} RunKeepsInv(s: State, log: seq<Entry>)
    requires Inv(s)
    ensures Inv(Run(s, log))
    decreases |log|
  {
    if log != [] {
      EntryKeepsInv(s, log[0]);
      RunKeepsInv(ApplyEntry(s, log[0]).state, log[1..]);
    }
  }

  lemma {:induction false} RunAppend(s: State, a: seq<Entry>, b: seq<Entry>)
    ensures Run(s, a + b) == Run(Run(s, a), b)
    decreases |a|
  {
    if a == [] {
      assert a + b == b;
    } else {
      assert (a + b)[1..] == a[1..] + b;
      RunAppend(ApplyEntry(s, a[0]).state, a[1..], b);
    }
  }

  lemma StateAtNext(s: State, log: seq<Entry>, i: nat)
    requires i < |log|
    ensures StateAt(s, log, i + 1) == ApplyEntry(StateAt(s, log, i), log[i]).state
  {
    assert log[..i + 1] == log[..i] + [log[i]];
    RunAppend(s, log[..i], [log[i]]);
    assert Run(Run(s, log[..i]), [log[i]]) == ApplyEntry(Run(s, log[..i]), log[i]).state;
  }

  /** The entry is executed, not answered from the retry cache. */
  predicate Fresh(s: State, e: Entry) {
    e.Bare? || e.id !in s.requestDeduplication
  }

  /** The state before entry `i` of a run from the empty state. */
  function At(log: seq<Entry>, i: nat): State
    requires i <= |log|
  {
    StateAt(Init(), log, i)
  }

  lemma ReachableInv(log: seq<Entry>, i: nat)
    requires i <= |log|
    ensures Inv(At(log, i))
  {
    InitInv();
    RunKeepsInv(Init(), log[..i]);
  }

  lemma AtNext(log: seq<Entry>, i: nat)
    requires i < |log|
    ensures At(log, i + 1) == ApplyEntry(At(log, i), log[i]).state
    ensures Inv(At(log, i)) && Progress(At(log, i), At(log, i + 1))
  {
    ReachableInv(log, i);
    StateAtNext(Init(), log, i);
    EntryKeepsInv(At(log, i), log[i]);
  }

  lemma AtProgress(log: seq<Entry>, i: nat)
    requires i < |log|
    ensures Progress(At(log, i), At(log, i + 1))
  {
    AtNext(log, i);
  }
}
