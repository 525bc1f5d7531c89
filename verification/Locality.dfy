/** The regions, zones and racks of the nodes that host a list of replicas, read off their fields. */
module Locality {
  import opened Base
  import opened MetadataTypes
  import opened InitialPlacement
  import opened MetadataSpec

  function HostRegions(nodes: Directory, rs: seq<Replica>): set<string> {
    set r | r in rs && r.nodeId in nodes && nodes[r.nodeId].region.Some? :: nodes[r.nodeId].region.value
  }

  function HostZones(nodes: Directory, rs: seq<Replica>): set<string> {
    set r | r in rs && r.nodeId in nodes && nodes[r.nodeId].zone.Some? :: nodes[r.nodeId].zone.value
  }

  function HostRacks(nodes: Directory, rs: seq<Replica>): set<string> {
    set r | r in rs && r.nodeId in nodes && nodes[r.nodeId].rack.Some? :: nodes[r.nodeId].rack.value
  }

  lemma HostLabels(nodes: Directory, rs: seq<Replica>)
    ensures Labels(nodes, Hosts(rs), Region) == HostRegions(nodes, rs)
    ensures Labels(nodes, Hosts(rs), Zone) == HostZones(nodes, rs)
    ensures Labels(nodes, Hosts(rs), Rack) == HostRacks(nodes, rs)
  {
    LabelsAreFields(nodes, Hosts(rs));
    forall l | l in Regions(nodes, Hosts(rs)) ensures l in HostRegions(nodes, rs) {
      var id :| id in Hosts(rs) && id in nodes && nodes[id].region == Some(l);
      var r :| r in rs && r.nodeId == id;
    }
    forall l | l in Zones(nodes, Hosts(rs)) ensures l in HostZones(nodes, rs) {
      var id :| id in Hosts(rs) && id in nodes && nodes[id].zone == Some(l);
      var r :| r in rs && r.nodeId == id;
    }
    forall l | l in Racks(nodes, Hosts(rs)) ensures l in HostRacks(nodes, rs) {
      var id :| id in Hosts(rs) && id in nodes && nodes[id].rack == Some(l);
      var r :| r in rs && r.nodeId == id;
    }
  }

  /** The placement's hosts reach the minimum number of distinct regions, zones and racks. */
  predicate MeetsMinimums(nodes: Directory, p: Placement) {
    && p.policy.minRegions <= |HostRegions(nodes, p.replicas)|
    && p.policy.minZones <= |HostZones(nodes, p.replicas)|
    && p.policy.minRacks <= |HostRacks(nodes, p.replicas)|
  }

  lemma MinimumsByDomain(nodes: Directory, p: Placement)
    ensures (forall d: Domain :: MinimumOf(p.policy, d) <= |Labels(nodes, Hosts(p.replicas), d)|)
       <==> MeetsMinimums(nodes, p)
  {
    HostLabels(nodes, p.replicas);
    if forall d: Domain :: MinimumOf(p.policy, d) <= |Labels(nodes, Hosts(p.replicas), d)| {
      assert MinimumOf(p.policy, Region) <= |Labels(nodes, Hosts(p.replicas), Region)|;
      assert MinimumOf(p.policy, Zone) <= |Labels(nodes, Hosts(p.replicas), Zone)|;
      assert MinimumOf(p.policy, Rack) <= |Labels(nodes, Hosts(p.replicas), Rack)|;
    }
  }
}
