/** The snapshot validator: entry loops, running maxima for the marks and adjacent-pair order loops. */
module SnapshotChecks {
  import opened Base
  import opened Schema
  import opened MetadataTypes
  import opened Validation
  import opened MetadataSpec
  import opened Snapshot

  // ---------- entries ----------

  method CheckNodes(ns: seq<NodeDescriptor>) returns (ok: bool)
    ensures ok <==> forall i | 0 <= i < |ns| :: ValidNode(ns[i])
  {
    for i := 0 to |ns|
      invariant forall j | 0 <= j < i :: ValidNode(ns[j])
    {
      var valid := ValidateNode(ns[i]);
      if !valid {
        return false;
      }
    }
    return true;
  }

  method CheckPlacements(ps: seq<Placement>) returns (ok: bool)
    ensures ok <==> forall i | 0 <= i < |ps| :: ValidPlacement(ps[i])
  {
    for i := 0 to |ps|
      invariant forall j | 0 <= j < i :: ValidPlacement(ps[j])
    {
      var valid := ValidatePlacement(ps[i]);
      if !valid {
        return false;
      }
    }
    return true;
  }

  /** The loop over entries whose own validator only reads. */
  method CheckEach<T>(vs: seq<T>, valid: T -> bool) returns (ok: bool)
    ensures ok <==> forall i | 0 <= i < |vs| :: valid(vs[i])
  {
    for i := 0 to |vs|
      invariant forall j | 0 <= j < i :: valid(vs[j])
    {
      if !valid(vs[i]) {
        return false;
      }
    }
    return true;
  }

  method CheckCatalogEntries(n: Snapshot) returns (ok: bool)
    ensures ok <==> && (forall i | 0 <= i < |n.nodes| :: ValidNode(n.nodes[i]))
                    && (forall i | 0 <= i < |n.tables| :: ValidTableShape(n.tables[i]))
                    && (forall i | 0 <= i < |n.tablets| :: ValidTablet(n.tablets[i]))
                    && (forall i | 0 <= i < |n.placements| :: ValidPlacement(n.placements[i]))
                    && (forall i | 0 <= i < |n.retired| :: ValidRetirement(n.retired[i]))
  {
    ok := CheckNodes(n.nodes);
    if ok {
      ok := CheckEach(n.tables, ValidTableShape);
    }
    if ok {
      ok := CheckEach(n.tablets, ValidTablet);
    }
    if ok {
      ok := CheckPlacements(n.placements);
    }
    if ok {
      ok := CheckEach(n.retired, ValidRetirement);
    }
  }

  method CheckEntries(n: Snapshot) returns (ok: bool)
    ensures ok <==> EntriesAreValid(n)
  {
    ok := CheckCatalogEntries(n);
    if ok {
      ok := CheckEach(n.deduplication, ValidDeduplication);
    }
    if ok {
      ok := CheckEach(n.sessions, ValidSession);
    }
    if ok {
      ok := CheckEach(n.protections, (p: GcProtection) => ValidProtection(n.safePoint, p));
    }
  }

  // ---------- marks ----------

  /** No value seen so far exceeds the bound. */
  predicate Below(seen: Option<U64>, bound: U64) {
    seen.None? || seen.value <= bound
  }

  predicate AllBelow<T>(vs: seq<T>, key: T -> U64, bound: U64) {
    forall i | 0 <= i < |vs| :: key(vs[i]) <= bound
  }

  /** Continue a running maximum over a list; the bounds of the result are the common bounds. */
  method Largest<T>(vs: seq<T>, key: T -> U64, seen: Option<U64>) returns (m: Option<U64>)
    ensures forall bound: U64 :: Below(m, bound) <==> Below(seen, bound) && AllBelow(vs, key, bound)
  {
    m := seen;
    for i := 0 to |vs|
      invariant forall bound: U64 :: Below(m, bound) <==> Below(seen, bound) && AllBelow(vs[..i], key, bound)
    {
      var next := if m.None? || m.value < key(vs[i]) then Some(key(vs[i])) else m;
      forall bound: U64 ensures Below(next, bound) <==> Below(seen, bound) && AllBelow(vs[..i + 1], key, bound) {
        assert vs[..i + 1] == vs[..i] + [vs[i]];
        assert AllBelow(vs[..i + 1], key, bound) <==> AllBelow(vs[..i], key, bound) && key(vs[i]) <= bound;
        assert Below(next, bound) <==> Below(m, bound) && key(vs[i]) <= bound;
      }
      m := next;
    }
    assert vs[..|vs|] == vs;
  }

  lemma MaxReplicaBounds(rs: seq<Replica>, bound: U64)
    ensures MaxReplica(rs) <= bound <==> forall i | 0 <= i < |rs| :: rs[i].replicaId <= bound
  {
  }

  /** The running maximum over the replicas of all placements. */
  method LargestReplica(ps: seq<Placement>) returns (m: Option<U64>)
    ensures forall bound: U64 :: Below(m, bound) <==> PlacementsCovered(ps, bound)
  {
    m := None;
    for i := 0 to |ps|
      invariant forall bound: U64 :: Below(m, bound) <==> PlacementsCovered(ps[..i], bound)
    {
      var next := Largest(ps[i].replicas, (r: Replica) => r.replicaId, m);
      forall bound: U64 ensures Below(next, bound) <==> PlacementsCovered(ps[..i + 1], bound) {
        MaxReplicaBounds(ps[i].replicas, bound);
        assert AllBelow(ps[i].replicas, (r: Replica) => r.replicaId, bound) <==> MaxReplica(ps[i].replicas) <= bound;
        assert ps[..i + 1] == ps[..i] + [ps[i]];
        assert PlacementsCovered(ps[..i + 1], bound)
          <==> PlacementsCovered(ps[..i], bound) && MaxReplica(ps[i].replicas) <= bound;
      }
      m := next;
    }
    assert ps[..|ps|] == ps;
  }

  /** The mark is at or above the largest visible identity, or the floor when nothing is visible. */
  predicate Covers(mark: U64, visible: Option<U64>, floor: U64) {
    (if visible.Some? then visible.value else floor) <= mark
  }

  method CheckCatalogMarks(n: Snapshot) returns (ok: bool)
    ensures ok <==> CatalogMarksDominate(n)
  {
    var a := n.allocator;
    if a.maxTableId < INITIAL_TABLE_MARK || a.maxTabletId < INITIAL_TABLET_MARK
       || a.maxRaftGroupId < INITIAL_RAFT_GROUP_MARK {
      return false;
    }
    var table := Largest(n.tables, (t: TableSchema) => t.id, None);
    assert Below(table, a.maxTableId) <==> Covers(a.maxTableId, table, INITIAL_TABLE_MARK);
    if !Covers(a.maxTableId, table, INITIAL_TABLE_MARK) {
      return false;
    }
    var tablet := Largest(n.tablets, (t: TabletDescriptor) => t.tabletId, None);
    assert Below(tablet, a.maxTabletId) <==> Covers(a.maxTabletId, tablet, INITIAL_TABLET_MARK);
    if !Covers(a.maxTabletId, tablet, INITIAL_TABLET_MARK) {
      return false;
    }
    var group := Largest(n.tablets, (t: TabletDescriptor) => t.raftGroupId, None);
    var visible := Largest(n.retired, (r: Retirement) => r.raftGroupId, group);
    assert Below(visible, a.maxRaftGroupId) <==> Covers(a.maxRaftGroupId, visible, INITIAL_RAFT_GROUP_MARK);
    return Covers(a.maxRaftGroupId, visible, INITIAL_RAFT_GROUP_MARK);
  }

  method CheckReplicaMark(n: Snapshot) returns (ok: bool)
    ensures ok <==> ReplicaMarkCovers(n)
  {
    var placed := LargestReplica(n.placements);
    var visible := Largest(n.retired, (r: Retirement) => r.replicaId, placed);
    assert Below(visible, n.allocator.maxReplicaId) <==> Covers(n.allocator.maxReplicaId, visible, 0);
    return Covers(n.allocator.maxReplicaId, visible, 0);
  }

  // ---------- order ----------

  /** Every adjacent pair is in order. */
  method StrictlyAscending<T>(vs: seq<T>, before: (T, T) -> bool) returns (ok: bool)
    ensures ok <==> forall i | 0 <= i < |vs| - 1 :: before(vs[i], vs[i + 1])
  {
    var i := 0;
    while i + 1 < |vs|
      invariant i == 0 || 0 < i < |vs|
      invariant forall j | 0 <= j < i :: before(vs[j], vs[j + 1])
    {
      if !before(vs[i], vs[i + 1]) {
        return false;
      }
      i := i + 1;
    }
    return true;
  }

  predicate RetirementBefore(a: Retirement, b: Retirement) {
    a.raftGroupId < b.raftGroupId || (a.raftGroupId == b.raftGroupId && a.replicaId < b.replicaId)
  }

  predicate ProtectionBefore(a: GcProtection, b: GcProtection) {
    a.ownerId < b.ownerId || (a.ownerId == b.ownerId && a.protectionId < b.protectionId)
  }

  lemma OrdersAreRanks(a: Retirement, b: Retirement, p: GcProtection, q: GcProtection)
    ensures RetirementBefore(a, b) <==> RetirementRank(a) < RetirementRank(b)
    ensures ProtectionBefore(p, q) <==> ProtectionRank(p) < ProtectionRank(q)
  {
    RanksAreLexicographic((a.raftGroupId, a.replicaId), (b.raftGroupId, b.replicaId),
                          (p.ownerId, p.protectionId), (q.ownerId, q.protectionId));
  }

  method CheckRetiredOrder(rs: seq<Retirement>) returns (ok: bool)
    ensures ok <==> forall i | 0 <= i < |rs| - 1 :: RetirementRank(rs[i]) < RetirementRank(rs[i + 1])
  {
    ok := StrictlyAscending(rs, RetirementBefore);
    var p := GcProtection(0, 0, 0, 0);
    forall i | 0 <= i < |rs| - 1
      ensures RetirementBefore(rs[i], rs[i + 1]) <==> RetirementRank(rs[i]) < RetirementRank(rs[i + 1])
    {
      OrdersAreRanks(rs[i], rs[i + 1], p, p);
    }
  }

  method CheckProtectionOrder(ps: seq<GcProtection>) returns (ok: bool)
    ensures ok <==> forall i | 0 <= i < |ps| - 1 :: ProtectionRank(ps[i]) < ProtectionRank(ps[i + 1])
  {
    ok := StrictlyAscending(ps, ProtectionBefore);
    var r := Retirement(0, 0, 0, 0, 0, 0);
    forall i | 0 <= i < |ps| - 1
      ensures ProtectionBefore(ps[i], ps[i + 1]) <==> ProtectionRank(ps[i]) < ProtectionRank(ps[i + 1])
    {
      OrdersAreRanks(r, r, ps[i], ps[i + 1]);
    }
  }

  method CheckCacheOrder(ds: seq<Deduplication>) returns (ok: bool)
    ensures ok <==> forall i | 0 <= i < |ds| - 1 :: CommandRank(ds[i].id) < CommandRank(ds[i + 1].id)
  {
    ok := StrictlyAscending(ds, (a: Deduplication, b: Deduplication) => CommandBefore(a.id, b.id));
    forall i | 0 <= i < |ds| - 1
      ensures CommandBefore(ds[i].id, ds[i + 1].id) <==> CommandRank(ds[i].id) < CommandRank(ds[i + 1].id)
    {
      CommandRankIsLexicographic(ds[i].id, ds[i + 1].id);
    }
  }

  method CheckCatalogOrder(n: Snapshot) returns (ok: bool)
    ensures ok <==> && (forall i | 0 <= i < |n.nodes| - 1 :: n.nodes[i].nodeId < n.nodes[i + 1].nodeId)
                    && (forall i | 0 <= i < |n.tables| - 1 :: n.tables[i].id < n.tables[i + 1].id)
                    && (forall i | 0 <= i < |n.tablets| - 1 :: n.tablets[i].tabletId < n.tablets[i + 1].tabletId)
                    && (forall i | 0 <= i < |n.placements| - 1 ::
                          n.placements[i].tabletId < n.placements[i + 1].tabletId)
  {
    ok := StrictlyAscending(n.nodes, (a: NodeDescriptor, b: NodeDescriptor) => a.nodeId < b.nodeId);
    if ok {
      ok := StrictlyAscending(n.tables, (a: TableSchema, b: TableSchema) => a.id < b.id);
    }
    if ok {
      ok := StrictlyAscending(n.tablets, (a: TabletDescriptor, b: TabletDescriptor) => a.tabletId < b.tabletId);
    }
    if ok {
      ok := StrictlyAscending(n.placements, (a: Placement, b: Placement) => a.tabletId < b.tabletId);
    }
  }

  method CheckOrder(n: Snapshot) returns (ok: bool)
    ensures ok <==> Canonical(n)
  {
    ok := CheckCatalogOrder(n);
    if ok {
      ok := CheckRetiredOrder(n.retired);
    }
    if ok {
      ok := CheckCacheOrder(n.deduplication);
    }
    if ok {
      ok := StrictlyAscending(n.sessions, (a: ClientSession, b: ClientSession) => a.clientId < b.clientId);
    }
    if ok {
      ok := CheckProtectionOrder(n.protections);
    }
  }

  // ---------- the whole snapshot ----------

  /** An identified cluster needs a proper identity; an unidentified one must be empty. */
  method CheckCluster(n: Snapshot) returns (ok: bool)
    ensures ok <==> if n.clusterId.Some? then !IsBlank(n.clusterId.value) else BlankSnapshot(n)
  {
    match n.clusterId
    case Some(id) => ok := !IsBlank(id);
    case None =>
      ok := |n.nodes| == 0 && |n.tables| == 0 && |n.tablets| == 0 && |n.placements| == 0 && |n.retired| == 0
            && |n.sessions| == 0 && |n.deduplication| == 0 && n.timestampReservedUntil == 0 && n.safePoint == 0
            && |n.protections| == 0;
  }

  method ValidateSnapshot(n: Snapshot) returns (ok: bool)
    ensures ok <==> ValidSnapshot(n)
  {
    ok := CheckCluster(n);
    if ok {
      ok := CheckEntries(n);
    }
    if ok {
      ok := CheckCatalogMarks(n);
    }
    if ok {
      ok := CheckReplicaMark(n);
    }
    if ok {
      ok := CheckOrder(n);
    }
  }
}
