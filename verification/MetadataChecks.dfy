/** The loops inside the command handlers, each computing one check of the specification. */
module MetadataChecks {
  import opened Base
  import opened SortedKeys
  import opened Schema
  import opened MetadataTypes
  import opened Validation
  import opened InitialPlacement
  import opened MetadataSpec

  method CompareEndpoints(a: NodeDescriptor, b: NodeDescriptor) returns (shares: bool)
    ensures shares <==> ShareEndpoint(a, b)
  {
    var attempted := Endpoints(a);
    for j := 0 to |attempted|
      invariant forall e | e in attempted[..j] :: e !in Endpoints(b)
    {
      if attempted[j] in Endpoints(b) {
        return true;
      }
      assert attempted[..j + 1] == attempted[..j] + [attempted[j]];
    }
    assert attempted[..|attempted|] == attempted;
    return false;
  }

  lemma NoConflictAnywhere(nodes: Directory, node: NodeDescriptor, keys: seq<U64>)
    requires Lists(keys, nodes) && forall j | 0 <= j < |keys| :: !ShareEndpoint(node, nodes[keys[j]])
    ensures !EndpointTaken(nodes, node)
  {
    forall k | k in nodes ensures !ShareEndpoint(node, nodes[k]) {
      var j :| 0 <= j < |keys| && keys[j] == k;
    }
  }

  /** Compare every endpoint of the new node with every registered node's. */
  method EndpointConflict(nodes: Directory, node: NodeDescriptor) returns (taken: bool)
    ensures taken <==> EndpointTaken(nodes, node)
  {
    var keys := OrderedKeys(nodes);
    for i := 0 to |keys|
      invariant forall j | 0 <= j < i :: !ShareEndpoint(node, nodes[keys[j]])
    {
      taken := CompareEndpoints(node, nodes[keys[i]]);
      if taken {
        assert keys[i] in nodes;
        return;
      }
    }
    NoConflictAnywhere(nodes, node, keys);
    taken := false;
  }

  /** The first replica that may not be placed where the placement puts it. */
  method CheckReplicas(nodes: Directory, retired: Retirements, group: U64, existing: Option<Placement>,
                       policy: PlacementPolicy, rs: seq<Replica>) returns (o: Option<Cause>)
    ensures o == FirstReplicaRejection(nodes, retired, group, existing, policy, rs)
  {
    for i := 0 to |rs|
      invariant FirstReplicaRejection(nodes, retired, group, existing, policy, rs)
             == FirstReplicaRejection(nodes, retired, group, existing, policy, rs[i..])
    {
      var r := rs[i];
      assert rs[i..][1..] == rs[i + 1..];
      if r.nodeId !in nodes {
        return Some(UnknownNode);
      }
      var node := nodes[r.nodeId];
      var retained := Retained(existing, r);
      if !node.lifecycle.Active?
         && !(retained && (node.lifecycle.Draining? || node.lifecycle.Decommissioning?)) {
        return Some(NodeNotEligible);
      }
      if policy.storageClass.Some? && node.storageClass != policy.storageClass.value {
        return Some(PlacementStorageClassMismatch);
      }
      if (group, r.replicaId) in retired {
        return Some(RetiredReplicaReuse);
      }
    }
    return None;
  }

  method CheckLeaders(nodes: Directory, leaders: seq<U64>) returns (o: Option<Cause>)
    ensures o == FirstLeaderRejection(nodes, leaders)
  {
    for i := 0 to |leaders|
      invariant FirstLeaderRejection(nodes, leaders) == FirstLeaderRejection(nodes, leaders[i..])
    {
      assert leaders[i..][1..] == leaders[i + 1..];
      if leaders[i] !in nodes {
        return Some(UnknownNode);
      }
      if !nodes[leaders[i]].lifecycle.Active? {
        return Some(NodeNotEligible);
      }
    }
    return None;
  }

  /** Count distinct labels per locality domain and compare with the policy's minimum. */
  method CheckDomains(nodes: Directory, p: Placement) returns (o: Option<Cause>)
    ensures o == FirstDomainRejection(nodes, p)
  {
    var domains := [Region, Zone, Rack];
    for i := 0 to 3
      invariant forall j | 0 <= j < i :: DomainRejection(nodes, p, domains[j]).None?
    {
      var required, observed := MinimumOf(p.policy, domains[i]), |Labels(nodes, Hosts(p.replicas), domains[i])|;
      if required > 0 && observed < required {
        return Some(PlacementDomainUnsatisfied);
      }
    }
    assert DomainRejection(nodes, p, domains[0]).None? && DomainRejection(nodes, p, domains[1]).None?;
    assert DomainRejection(nodes, p, domains[2]).None?;
    return None;
  }

  /** Replicas indexed by identity, as the placement check looks up earlier members. */
  function ById(rs: seq<Replica>): (m: map<U64, Replica>)
    ensures forall id :: id in m <==> exists r :: r in rs && r.replicaId == id
    ensures forall id | id in m :: m[id] in rs && m[id].replicaId == id
  {
    if rs == [] then map[]
    else
      var n := |rs| - 1;
      assert rs == rs[..n] + [rs[n]];
      ById(rs[..n])[rs[n].replicaId := rs[n]]
  }

  /** In a list without repeated identities the check only depends on the member with that identity. */
  lemma {:induction false} MemberFound(prior: seq<Replica>, r: Replica, i: nat)
    requires CanonicalReplicas(prior) && i < |prior| && prior[i].replicaId == r.replicaId
    ensures MemberRejection(prior, r)
         == if prior[i].nodeId != r.nodeId then Some(ReplicaHostChanged)
            else if prior[i].role.Voter? && r.role.Learner? then Some(UnsupportedVoterDemotion)
            else None
  {
    if i == 0 {
      assert KeptSafely(prior[1..], r);
    } else {
      MemberFound(prior[1..], r, i - 1);
    }
  }

  lemma MemberLookup(prior: seq<Replica>, r: Replica)
    requires CanonicalReplicas(prior)
    ensures MemberRejection(prior, r)
         == if r.replicaId !in ById(prior) then None
            else if ById(prior)[r.replicaId].nodeId != r.nodeId then Some(ReplicaHostChanged)
            else if ById(prior)[r.replicaId].role.Voter? && r.role.Learner? then Some(UnsupportedVoterDemotion)
            else None
  {
    if r.replicaId in ById(prior) {
      var i :| 0 <= i < |prior| && prior[i] == ById(prior)[r.replicaId];
      MemberFound(prior, r, i);
    } else {
      assert KeptSafely(prior, r);
    }
  }

  /** The first kept replica that moves to another node or is demoted. */
  method CheckMembers(prior: seq<Replica>, rs: seq<Replica>) returns (o: Option<Cause>)
    requires CanonicalReplicas(prior)
    ensures o == FirstMemberRejection(prior, rs)
  {
    var earlier := ById(prior);
    for i := 0 to |rs|
      invariant FirstMemberRejection(prior, rs) == FirstMemberRejection(prior, rs[i..])
    {
      var r := rs[i];
      assert rs[i..][1..] == rs[i + 1..];
      MemberLookup(prior, r);
      if r.replicaId !in earlier {
        continue;
      }
      if earlier[r.replicaId].nodeId != r.nodeId {
        return Some(ReplicaHostChanged);
      }
      if earlier[r.replicaId].role.Voter? && r.role.Learner? {
        return Some(UnsupportedVoterDemotion);
      }
    }
    return None;
  }

  /** Whether the update repeats every existing column in place. */
  method SameColumns(prior: seq<Column>, updated: seq<Column>) returns (same: bool)
    requires |prior| <= |updated|
    ensures same <==> ChangedColumn(prior, updated, 0).None?
  {
    for i := 0 to |prior|
      invariant forall j | 0 <= j < i :: updated[j] == prior[j]
    {
      if prior[i] != updated[i] {
        return false;
      }
    }
    return true;
  }

  method CheckAddedColumns(added: seq<Column>, maxExisting: U64) returns (o: Option<Cause>)
    ensures o == AddedColumnRejection(added, maxExisting)
  {
    for i := 0 to |added|
      invariant AddedColumnRejection(added, maxExisting) == AddedColumnRejection(added[i..], maxExisting)
    {
      assert added[i..][1..] == added[i + 1..];
      if added[i].id <= maxExisting {
        return Some(ColumnIdReuse);
      }
      if !added[i].nullable {
        return Some(AddedColumnMustBeNullable);
      }
    }
    return None;
  }

  method CheckEvolution(expectedVersion: U64, prior: TableSchema, updated: TableSchema) returns (o: Option<Cause>)
    ensures o == EvolutionRejection(expectedVersion, prior, updated)
  {
    if expectedVersion != prior.version {
      return Some(SchemaPreconditionMismatch);
    }
    var next := Next(prior.version);
    if next.None? {
      return Some(SchemaVersionExhausted);
    }
    if updated.version != next.value {
      return Some(SchemaVersionNotNext);
    }
    if updated.name != prior.name {
      return Some(TableRenameNotSupported);
    }
    if updated.tabletCount != prior.tabletCount {
      return Some(TabletCountChangeNotSupported);
    }
    if updated.primaryKey != prior.primaryKey {
      return Some(PrimaryKeyChangeNotSupported);
    }
    if |updated.columns| < |prior.columns| {
      return Some(ExistingColumnChanged);
    }
    var same := SameColumns(prior.columns, updated.columns);
    if !same {
      return Some(ExistingColumnChanged);
    }
    o := CheckAddedColumns(updated.columns[|prior.columns|..], MaxColumnId(prior.columns));
  }

  method CheckPlacement(t: Topology, p: Placement) returns (o: Option<Cause>)
    requires p.tabletId in t.tablets
    requires p.tabletId in t.desiredPlacements ==> CanonicalReplicas(t.desiredPlacements[p.tabletId].replicas)
    ensures o == PlacementRejection(t, p)
  {
    var group, existing := t.tablets[p.tabletId].raftGroupId, Existing(t, p.tabletId);
    o := CheckReplicas(t.nodes, t.retiredReplicas, group, existing, p.policy, p.replicas);
    if o.Some? {
      return;
    }
    o := CheckLeaders(t.nodes, p.policy.preferredLeaders);
    if o.Some? {
      return;
    }
    o := CheckDomains(t.nodes, p);
    if o.Some? {
      return;
    }
    match existing
    case None =>
      o := if p.epoch != 1 then Some(InitialPlacementEpoch) else None;
    case Some(prior) =>
      var expected := Next(prior.epoch);
      if expected.None? {
        return Some(PlacementEpochExhausted);
      }
      if p.epoch != expected.value {
        return Some(PlacementEpochMismatch);
      }
      o := CheckMembers(prior.replicas, p.replicas);
  }
}
