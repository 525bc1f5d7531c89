/** Placement policy and node drain hold in every reachable state. */
module PlacementSafety {
  import opened MetadataTypes
  import opened Validation
  import opened InitialPlacement
  import opened MetadataSpec
  import opened Locality
  import opened MetadataInvariant
  import opened MetadataRuns

  function Voters(rs: seq<Replica>): set<Replica> {
    set r | r in rs && r.role.Voter?
  }

  /** Live hosts of the right class, enough regions, zones and racks, and one voter per demanded copy. */
  ghost predicate PolicyHolds(nodes: Directory, p: Placement) {
    && (forall r | r in p.replicas ::
          && r.nodeId in nodes
          && !nodes[r.nodeId].lifecycle.Decommissioned?
          && !nodes[r.nodeId].lifecycle.Tombstoned?
          && (p.policy.storageClass.Some? ==> nodes[r.nodeId].storageClass == p.policy.storageClass.value))
    && MeetsMinimums(nodes, p)
    && |Voters(p.replicas)| == p.policy.replicationFactor
  }

  lemma VotersOfOneMore(front: seq<Replica>, last: Replica)
    ensures Voters(front + [last]) == Voters(front) + if last.role.Voter? then {last} else {}
  {
  }

  /** The counted voters are that many different replicas. */
  lemma {:induction false} VotersCounted(rs: seq<Replica>)
    requires forall i, j | 0 <= i < j < |rs| :: rs[i].replicaId < rs[j].replicaId
    ensures |Voters(rs)| == VoterCount(rs)
  {
    if rs != [] {
      var n := |rs| - 1;
      VotersCounted(rs[..n]);
      assert rs == rs[..n] + [rs[n]];
      VotersOfOneMore(rs[..n], rs[n]);
      assert rs[n] !in rs[..n];
    }
  }

  lemma SatisfiedMeansPolicy(nodes: Directory, p: Placement)
    requires Satisfied(nodes, p) && ValidPlacement(p)
    ensures PolicyHolds(nodes, p)
  {
    MinimumsByDomain(nodes, p);
    VotersCounted(p.replicas);
  }

  /** The four addresses a node listens on. */
  function Addresses(n: NodeDescriptor): set<Endpoint> {
    {n.raftAddr, n.snapshotAddr, n.sqlAddr, n.adminAddr}
  }

  lemma AddressesAreEndpoints(n: NodeDescriptor)
    ensures forall e :: e in Addresses(n) <==> e in Endpoints(n)
  {
    var es := Endpoints(n);
    assert es[0] == n.raftAddr && es[1] == n.snapshotAddr && es[2] == n.sqlAddr && es[3] == n.adminAddr;
  }

  /**
   * Whatever drains, registrations and placements happened before, every stored placement still
   * meets its whole policy, and no two nodes share an endpoint.
   */
  lemma PoliciesPersist(log: seq<Entry>, i: nat)
    requires i <= |log|
    ensures var t := At(log, i).topology;
            && (forall k | k in t.desiredPlacements :: PolicyHolds(t.nodes, t.desiredPlacements[k]))
            && (forall a, b | a in t.nodes && b in t.nodes && a != b ::
                  Addresses(t.nodes[a]) * Addresses(t.nodes[b]) == {})
  {
    ReachableInv(log, i);
    var t := At(log, i).topology;
    forall k | k in t.desiredPlacements ensures PolicyHolds(t.nodes, t.desiredPlacements[k]) {
      SatisfiedMeansPolicy(t.nodes, t.desiredPlacements[k]);
    }
    forall a, b | a in t.nodes && b in t.nodes && a != b
      ensures Addresses(t.nodes[a]) * Addresses(t.nodes[b]) == {}
    {
      assert DisjointEndpoints(t.nodes[a], t.nodes[b]);
      AddressesAreEndpoints(t.nodes[a]);
      AddressesAreEndpoints(t.nodes[b]);
    }
  }
}
