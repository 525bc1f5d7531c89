/** Identities are never handed out twice, and the derived indexes are exact searches. */
module IdentityAllocation {
  import opened Base
  import opened Schema
  import opened MetadataTypes
  import opened Validation
  import opened InitialPlacement
  import opened MetadataSpec
  import opened MetadataInvariant
  import opened MetadataEffects
  import opened MetadataPreservation
  import opened MetadataSteps
  import opened MetadataRuns

  // ---------- indexes ----------

  /** Each index entry is what a search of the primary map finds, and the search misses nothing. */
  ghost predicate IndexesAreSearches(t: Topology) {
    && (forall n, k :: (n in t.tableIdsByName && t.tableIdsByName[n] == k)
                  <==> (k in t.tables && t.tables[k].name == n))
    && (forall g, k :: (g in t.tabletIdsByRaftGroup && t.tabletIdsByRaftGroup[g] == k)
                  <==> (k in t.tablets && t.tablets[k].raftGroupId == g))
    && (forall b, k :: (b in t.tabletIdsByPartition && t.tabletIdsByPartition[b] == k)
                  <==> (k in t.tablets && t.tablets[k].partition.Hash?
                        && (t.tablets[k].tableId, t.tablets[k].partition.bucket) == b))
  }

  lemma IndexesAgree(t: Topology)
    requires TopologyInv(t)
    ensures IndexesAreSearches(t)
  {
    forall b, k | k in t.tablets && t.tablets[k].partition.Hash?
                  && (t.tablets[k].tableId, t.tablets[k].partition.bucket) == b
      ensures b in t.tabletIdsByPartition && t.tabletIdsByPartition[b] == k
    {
      assert b == BucketOf(t.tablets[k]);
    }
  }

  /** In every reachable state marks dominate visible identities and no tablet owns the metadata group. */
  lemma ReachableIdentities(log: seq<Entry>, i: nat)
    requires i <= |log|
    ensures var t := At(log, i).topology;
            && IndexesAreSearches(t)
            && (forall k | k in t.tables :: k <= t.allocator.maxTableId)
            && (forall k | k in t.tablets ::
                  && k <= t.allocator.maxTabletId
                  && t.tablets[k].raftGroupId <= t.allocator.maxRaftGroupId
                  && t.tablets[k].raftGroupId != 2)
  {
    ReachableInv(log, i);
    var t := At(log, i).topology;
    IndexesAgree(t);
    forall k | k in t.tablets ensures t.tablets[k].raftGroupId != 2 {
      assert TabletInv(t.tables, k, t.tablets[k]);
    }
  }

  // ---------- CREATE TABLE ----------

  /** The request can be served: the name is free, a node is Active and identities remain. */
  predicate CanCreate(s: Topology, request: CreateTableRequest) {
    && request.name !in s.tableIdsByName
    && ActiveNodes(s.nodes) != {}
    && s.allocator.maxTableId < U64_MAX
    && s.allocator.maxTabletId < U64_MAX
    && s.allocator.maxRaftGroupId < U64_MAX
  }

  /** The only causes for which a well-formed CREATE TABLE is refused. */
  predicate CreationCause(cause: Cause) {
    || cause.TableNameConflict? || cause.NoRegisteredNodes? || cause.TableIdentitiesExhausted?
    || cause.TabletIdentitiesExhausted? || cause.RaftGroupIdentitiesExhausted?
  }

  lemma CannotCreate(s: Topology, request: CreateTableRequest)
    requires !CanCreate(s, request)
    ensures CreateTopology(s, request).outcome.Rejected?
    ensures CreationCause(CreateTopology(s, request).outcome.cause)
  {
  }

  /** What the allocator hands out next is valid, unused and above everything visible. */
  lemma NextIdentitiesAreGood(s: Topology, request: CreateTableRequest, tableId: U64, tabletId: U64, group: U64)
    requires TopologyInv(s) && ValidRequest(request) && ActiveNodes(s.nodes) != {}
    requires tableId == s.allocator.maxTableId + 1 && tabletId == s.allocator.maxTabletId + 1
    requires group == s.allocator.maxRaftGroupId + 1
    ensures tableId !in s.tables && tabletId !in s.tablets && group !in s.tabletIdsByRaftGroup
    ensures ValidSchema(NewTable(tableId, request))
    ensures ValidTablet(FirstTablet(tableId, tabletId, group))
    ensures ValidPlacement(FirstPlacement(s.nodes, tabletId))
  {
    RequestMakesValidSchema(request, tableId);
    FirstPlacementValid(s.nodes, tabletId);
  }

  lemma PublishAccepted(s: Topology, table: TableSchema, tablet: TabletDescriptor, p: Placement)
    requires ValidSchema(table) && ValidTablet(tablet) && ValidPlacement(p)
    requires table.id !in s.tables && tablet.tabletId !in s.tablets
    requires tablet.raftGroupId !in s.tabletIdsByRaftGroup
    ensures CheckAndPublish(s, table, tablet, p).outcome
         == TableCreated(table.id, tablet.tabletId, tablet.raftGroupId)
  {
  }

  lemma NextIsAccepted(s: Topology, request: CreateTableRequest, tableId: U64, tabletId: U64, group: U64)
    requires TopologyInv(s) && ValidRequest(request) && ActiveNodes(s.nodes) != {}
    requires tableId == s.allocator.maxTableId + 1 && tabletId == s.allocator.maxTabletId + 1
    requires group == s.allocator.maxRaftGroupId + 1
    ensures CheckAndPublish(s, NewTable(tableId, request), FirstTablet(tableId, tabletId, group),
                            FirstPlacement(s.nodes, tabletId)).outcome
         == TableCreated(tableId, tabletId, group)
  {
    NextIdentitiesAreGood(s, request, tableId, tabletId, group);
    PublishAccepted(s, NewTable(tableId, request), FirstTablet(tableId, tabletId, group),
                    FirstPlacement(s.nodes, tabletId));
  }

  lemma CanCreateSucceeds(s: Topology, request: CreateTableRequest, tableId: U64, tabletId: U64, group: U64)
    requires TopologyInv(s) && ValidRequest(request) && CanCreate(s, request)
    requires tableId == s.allocator.maxTableId + 1 && tabletId == s.allocator.maxTabletId + 1
    requires group == s.allocator.maxRaftGroupId + 1
    ensures CreateTopology(s, request).outcome == TableCreated(tableId, tabletId, group)
  {
    CreateUnfolds(s, request, tableId, tabletId, group);
    NextIsAccepted(s, request, tableId, tabletId, group);
  }

  /**
   * A well-formed CREATE TABLE succeeds exactly when it can be served, with the identities just
   * above the marks; the occupied-identity and second-validation rejections never happen.
   */
  lemma CreateSucceedsIff(s: Topology, request: CreateTableRequest)
    requires TopologyInv(s) && ValidRequest(request)
    ensures var o := CreateTopology(s, request).outcome;
            if CanCreate(s, request) then
              o == TableCreated(s.allocator.maxTableId + 1, s.allocator.maxTabletId + 1,
                                s.allocator.maxRaftGroupId + 1)
            else o.Rejected? && CreationCause(o.cause)
  {
    if CanCreate(s, request) {
      CanCreateSucceeds(s, request, s.allocator.maxTableId + 1, s.allocator.maxTabletId + 1,
                        s.allocator.maxRaftGroupId + 1);
    } else {
      CannotCreate(s, request);
    }
  }

  // ---------- identities over a run ----------

  lemma {:induction false} MarksAreMonotone(log: seq<Entry>, i: nat, j: nat)
    requires i <= j <= |log|
    ensures MarksAdvance(At(log, i).topology.allocator, At(log, j).topology.allocator)
    decreases j - i
  {
    if i < j {
      MarksAreMonotone(log, i, j - 1);
      AtProgress(log, j - 1);
    }
  }

  /** A first-time creation takes the next identities and raises the marks to exactly them. */
  ghost predicate Takes(before: Allocator, o: Outcome, after: Allocator) {
    && o.TableCreated?
    && o.tableId == before.maxTableId + 1 == after.maxTableId
    && o.tabletId == before.maxTabletId + 1 == after.maxTabletId
    && o.raftGroupId == before.maxRaftGroupId + 1 == after.maxRaftGroupId
  }

  lemma CreateTakes(t: Topology, request: CreateTableRequest)
    ensures var r := CreateTopology(t, request);
            r.outcome.TableCreated? ==> Takes(t.allocator, r.outcome, r.topology.allocator)
  {
    CreateEffect(t, request);
  }

  lemma TopologyTakes(t: Topology, c: Command)
    requires IsTopologyCommand(c) && ApplyTopology(t, c).outcome.TableCreated?
    ensures Takes(t.allocator, ApplyTopology(t, c).outcome, ApplyTopology(t, c).topology.allocator)
  {
    TopologyOutcome(t, c);
    CreateTakes(t, c.request);
  }

  lemma ApplyTakes(s: State, c: Command)
    requires Apply(s, c).outcome.TableCreated?
    ensures Takes(s.topology.allocator, Apply(s, c).outcome, Apply(s, c).state.topology.allocator)
  {
    TopologyTakes(s.topology, c);
  }

  lemma EntryTakes(s: State, e: Entry)
    requires Fresh(s, e) && ApplyEntry(s, e).outcome.TableCreated?
    ensures Takes(s.topology.allocator, ApplyEntry(s, e).outcome, ApplyEntry(s, e).state.topology.allocator)
  {
    ApplyTakes(s, e.command);
  }

  lemma TakesAt(log: seq<Entry>, i: nat)
    requires i < |log| && Fresh(At(log, i), log[i]) && OutcomeAt(Init(), log, i).TableCreated?
    ensures Takes(At(log, i).topology.allocator, OutcomeAt(Init(), log, i), At(log, i + 1).topology.allocator)
  {
    StateAtNext(Init(), log, i);
    EntryTakes(At(log, i), log[i]);
  }

  /** All three identities grow strictly from one executed CREATE TABLE to any later one. */
  lemma CreatedIdentitiesIncrease(log: seq<Entry>, i: nat, j: nat)
    requires i < j < |log| && Fresh(At(log, i), log[i]) && Fresh(At(log, j), log[j])
    requires OutcomeAt(Init(), log, i).TableCreated? && OutcomeAt(Init(), log, j).TableCreated?
    ensures var a, b := OutcomeAt(Init(), log, i), OutcomeAt(Init(), log, j);
            a.tableId < b.tableId && a.tabletId < b.tabletId && a.raftGroupId < b.raftGroupId
  {
    TakesAt(log, i);
    TakesAt(log, j);
    MarksAreMonotone(log, i + 1, j);
  }
}
