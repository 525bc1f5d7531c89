/**
 * Greedy choice of the first voters of a tablet, spreading them over the region, zone and
 * rack labels that the directory actually knows.
 */
module InitialPlacement {
  import opened Base
  import opened SortedKeys
  import opened MetadataTypes

  type Directory = map<U64, NodeDescriptor>

  const REPLICATION_FACTOR: nat := 3

  function LabelOf(n: NodeDescriptor, d: Domain): Option<string> {
    match d
    case Region => n.region
    case Zone => n.zone
    case Rack => n.rack
  }

  /** The distinct known labels of these nodes in one domain. */
  function Labels(nodes: Directory, ids: set<U64>, d: Domain): set<string> {
    set id | id in ids && id in nodes && LabelOf(nodes[id], d).Some? :: LabelOf(nodes[id], d).value
  }

  function Coverage(nodes: Directory, ids: set<U64>): nat {
    |Labels(nodes, ids, Region)| + |Labels(nodes, ids, Zone)| + |Labels(nodes, ids, Rack)|
  }

  // The same three sets, read off the descriptor fields.

  function Regions(nodes: Directory, ids: set<U64>): set<string> {
    set id | id in ids && id in nodes && nodes[id].region.Some? :: nodes[id].region.value
  }

  function Zones(nodes: Directory, ids: set<U64>): set<string> {
    set id | id in ids && id in nodes && nodes[id].zone.Some? :: nodes[id].zone.value
  }

  function Racks(nodes: Directory, ids: set<U64>): set<string> {
    set id | id in ids && id in nodes && nodes[id].rack.Some? :: nodes[id].rack.value
  }

  /** How many different regions, zones and racks the nodes are known to be in. */
  function Spread(nodes: Directory, ids: set<U64>): nat {
    |Regions(nodes, ids)| + |Zones(nodes, ids)| + |Racks(nodes, ids)|
  }

  lemma LabelsAreFields(nodes: Directory, ids: set<U64>)
    ensures Labels(nodes, ids, Region) == Regions(nodes, ids)
    ensures Labels(nodes, ids, Zone) == Zones(nodes, ids)
    ensures Labels(nodes, ids, Rack) == Racks(nodes, ids)
  {
  }

  lemma CoverageIsSpread(nodes: Directory, ids: set<U64>)
    ensures Coverage(nodes, ids) == Spread(nodes, ids)
  {
    LabelsAreFields(nodes, ids);
  }

  /** 1 when the node would add a label of domain `d` not yet covered. */
  function DomainGain(nodes: Directory, n: NodeDescriptor, selected: set<U64>, d: Domain): nat {
    if LabelOf(n, d).Some? && LabelOf(n, d).value !in Labels(nodes, selected, d) then 1 else 0
  }

  function LocalityGain(nodes: Directory, n: NodeDescriptor, selected: set<U64>): nat {
    DomainGain(nodes, n, selected, Region)
    + DomainGain(nodes, n, selected, Zone)
    + DomainGain(nodes, n, selected, Rack)
  }

  function Elements(s: seq<U64>): set<U64> {
    set x | x in s
  }

  function ActiveNodes(nodes: Directory): set<U64> {
    set id | id in nodes && nodes[id].lifecycle.Active?
  }

  /** Strictly preferred: more gain, and on equal gain the smaller identity. */
  predicate Prefers(nodes: Directory, selected: set<U64>, a: U64, b: U64)
    requires a in nodes && b in nodes
  {
    var ga, gb := LocalityGain(nodes, nodes[a], selected), LocalityGain(nodes, nodes[b], selected);
    ga > gb || (ga == gb && a < b)
  }

  predicate IsBest(nodes: Directory, candidates: set<U64>, selected: set<U64>, c: U64)
    requires candidates <= nodes.Keys
  {
    c in candidates && forall o | o in candidates && o != c :: Prefers(nodes, selected, c, o)
  }

  lemma BestExists(nodes: Directory, candidates: set<U64>, selected: set<U64>) returns (c: U64)
    requires candidates != {} && candidates <= nodes.Keys
    ensures IsBest(nodes, candidates, selected, c)
  {
    c :| c in candidates;
    var rest := candidates - {c};
    if rest != {} {
      var m := BestExists(nodes, rest, selected);
      if Prefers(nodes, selected, m, c) {
        c := m;
      } else {
        forall o | o in candidates && o != c ensures Prefers(nodes, selected, c, o) {
          assert o == m || Prefers(nodes, selected, m, o);
        }
      }
    }
  }

  function Choose(nodes: Directory, candidates: set<U64>, selected: set<U64>): (c: U64)
    requires candidates != {} && candidates <= nodes.Keys
    ensures c in candidates
  {
    assert exists c :: IsBest(nodes, candidates, selected, c) by {
      var m := BestExists(nodes, candidates, selected);
    }
    var c :| c in candidates && IsBest(nodes, candidates, selected, c);
    c
  }

  lemma ChooseIsBest(nodes: Directory, candidates: set<U64>, selected: set<U64>)
    requires candidates != {} && candidates <= nodes.Keys
    ensures IsBest(nodes, candidates, selected, Choose(nodes, candidates, selected))
  {
    var m := BestExists(nodes, candidates, selected);
  }

  /** Repeatedly take the best remaining candidate. A function of the candidate set alone. */
  function Greedy(nodes: Directory, candidates: set<U64>, selected: set<U64>, count: nat)
    : (picks: seq<U64>)
    requires count <= |candidates| && candidates <= nodes.Keys
    ensures |picks| == count
    decreases count
  {
    if count == 0 then []
    else
      var c := Choose(nodes, candidates, selected);
      [c] + Greedy(nodes, candidates - {c}, selected + {c}, count - 1)
  }

  function TargetCount(nodes: Directory): (k: nat)
    ensures k <= |ActiveNodes(nodes)| && k <= REPLICATION_FACTOR
    ensures ActiveNodes(nodes) != {} ==> k > 0
  {
    var active := |ActiveNodes(nodes)|;
    if active < REPLICATION_FACTOR then active else REPLICATION_FACTOR
  }

  /** The voters `CREATE TABLE` starts a tablet with. */
  function InitialVoters(nodes: Directory): (r: seq<U64>) {
    Greedy(nodes, ActiveNodes(nodes), {}, TargetCount(nodes))
  }

  lemma LabelsBounded(nodes: Directory, ids: set<U64>, d: Domain)
    ensures |Labels(nodes, ids, d)| <= |ids|
  {
    if ids == {} {
      assert Labels(nodes, ids, d) == {};
    } else {
      var x :| x in ids;
      var rest := ids - {x};
      LabelsBounded(nodes, rest, d);
      var all, some := Labels(nodes, ids, d), Labels(nodes, rest, d);
      if x in nodes && LabelOf(nodes[x], d).Some? {
        assert all == some + {LabelOf(nodes[x], d).value};
      } else {
        assert all == some;
      }
    }
  }

  predicate Distinct(s: seq<U64>) {
    forall i, j | 0 <= i < j < |s| :: s[i] != s[j]
  }

  /** Every pick is a candidate, and no candidate is picked twice. */
  lemma {:induction false} GreedyPicks(nodes: Directory, candidates: set<U64>, selected: set<U64>, count: nat)
    requires count <= |candidates| && candidates <= nodes.Keys
    ensures Distinct(Greedy(nodes, candidates, selected, count))
    ensures forall i | 0 <= i < count :: Greedy(nodes, candidates, selected, count)[i] in candidates
    decreases count
  {
    if count > 0 {
      var c := Choose(nodes, candidates, selected);
      GreedyPicks(nodes, candidates - {c}, selected + {c}, count - 1);
    }
  }

  /** Exactly min(3, active) distinct Active nodes are chosen. */
  lemma InitialVotersAreDistinctActive(nodes: Directory)
    ensures |InitialVoters(nodes)| == TargetCount(nodes)
    ensures |InitialVoters(nodes)| == if |ActiveNodes(nodes)| < 3 then |ActiveNodes(nodes)| else 3
    ensures Distinct(InitialVoters(nodes))
    ensures forall i | 0 <= i < |InitialVoters(nodes)| :: InitialVoters(nodes)[i] in ActiveNodes(nodes)
  {
    GreedyPicks(nodes, ActiveNodes(nodes), {}, TargetCount(nodes));
  }

  // ---------- the approximation bound ----------

  lemma DomainGainIsMarginal(nodes: Directory, id: U64, selected: set<U64>, d: Domain)
    requires id in nodes
    ensures |Labels(nodes, selected + {id}, d)|
            == |Labels(nodes, selected, d)| + DomainGain(nodes, nodes[id], selected, d)
  {
    var more, some := Labels(nodes, selected + {id}, d), Labels(nodes, selected, d);
    if LabelOf(nodes[id], d).Some? {
      var v := LabelOf(nodes[id], d).value;
      assert more == some + {v};
      if v in some {
        assert more == some;
      }
    } else {
      assert more == some;
    }
  }

  lemma GainIsMarginal(nodes: Directory, id: U64, selected: set<U64>)
    requires id in nodes
    ensures Coverage(nodes, selected + {id})
            == Coverage(nodes, selected) + LocalityGain(nodes, nodes[id], selected)
  {
    DomainGainIsMarginal(nodes, id, selected, Region);
    DomainGainIsMarginal(nodes, id, selected, Zone);
    DomainGainIsMarginal(nodes, id, selected, Rack);
  }

  /** A larger selection never makes a node worth more. */
  lemma GainDiminishes(nodes: Directory, n: NodeDescriptor, small: set<U64>, large: set<U64>)
    requires small <= large
    ensures LocalityGain(nodes, n, large) <= LocalityGain(nodes, n, small)
  {
    forall d: Domain ensures Labels(nodes, small, d) <= Labels(nodes, large, d) {
    }
  }

  lemma LabelsMonotone(nodes: Directory, small: set<U64>, large: set<U64>, d: Domain)
    requires small <= large
    ensures |Labels(nodes, small, d)| <= |Labels(nodes, large, d)|
  {
    var rest := Labels(nodes, large, d) - Labels(nodes, small, d);
    assert Labels(nodes, large, d) == Labels(nodes, small, d) + rest;
  }

  lemma CoverageMonotone(nodes: Directory, small: set<U64>, large: set<U64>)
    requires small <= large
    ensures Coverage(nodes, small) <= Coverage(nodes, large)
  {
    LabelsMonotone(nodes, small, large, Region);
    LabelsMonotone(nodes, small, large, Zone);
    LabelsMonotone(nodes, small, large, Rack);
  }

  lemma OneMore(n: nat, g: nat)
    ensures (n + 1) * g == n * g + g
  {
  }

  /** When no node of `extra` gains more than `g`, all of them gain at most `|extra| * g`. */
  lemma UnionBound(nodes: Directory, selected: set<U64>, extra: set<U64>, g: nat)
    requires extra <= nodes.Keys
    requires forall t | t in extra :: LocalityGain(nodes, nodes[t], selected) <= g
    ensures Coverage(nodes, selected + extra) <= Coverage(nodes, selected) + |extra| * g
  {
    if extra == {} {
      assert selected + extra == selected;
    } else {
      var t :| t in extra;
      var rest := extra - {t};
      UnionBound(nodes, selected, rest, g);
      GainDiminishes(nodes, nodes[t], selected, selected + rest);
      GainIsMarginal(nodes, t, selected + rest);
      assert selected + rest + {t} == selected + extra;
      OneMore(|rest|, g);
    }
  }

  /** A step from `before` to `after` gains at most 3 and a share `1/n` of the gap to `rival`. */
  ghost predicate Closes(rival: nat, n: nat, before: nat, after: nat) {
    before <= after <= before + 3 && rival <= before + n * (after - before)
  }

  /** One greedy step closes at least its share of the gap to any rival choice `t`. */
  lemma StepClosesGap(nodes: Directory, active: set<U64>, selected: set<U64>, c: U64, t: set<U64>)
    requires active <= nodes.Keys && selected <= active && t <= active
    requires IsBest(nodes, active - selected, selected, c)
    ensures Closes(Coverage(nodes, t), |t|, Coverage(nodes, selected), Coverage(nodes, selected + {c}))
  {
    GainIsMarginal(nodes, c, selected);
    var g := LocalityGain(nodes, nodes[c], selected);
    forall x | x in t ensures LocalityGain(nodes, nodes[x], selected) <= g {
      if x in selected {
        NoGainInside(nodes, x, selected);
      } else {
        assert x == c || Prefers(nodes, selected, c, x);
      }
    }
    UnionBound(nodes, selected, t, g);
    CoverageMonotone(nodes, t, selected + t);
  }

  lemma NoGainInside(nodes: Directory, id: U64, selected: set<U64>)
    requires id in selected && id in nodes
    ensures LocalityGain(nodes, nodes[id], selected) == 0
  {
    forall d: Domain ensures DomainGain(nodes, nodes[id], selected, d) == 0 {
      if LabelOf(nodes[id], d).Some? {
        assert LabelOf(nodes[id], d).value in Labels(nodes, selected, d);
      }
    }
  }

  lemma UnfoldGreedy(nodes: Directory, active: set<U64>, selected: set<U64>, count: nat)
    requires active <= nodes.Keys && 0 < count <= |active - selected|
    ensures var c := Choose(nodes, active - selected, selected);
            && count - 1 <= |active - (selected + {c})|
            && selected + Elements(Greedy(nodes, active - selected, selected, count))
               == selected + {c}
                  + Elements(Greedy(nodes, active - (selected + {c}), selected + {c}, count - 1))
  {
    var c := Choose(nodes, active - selected, selected);
    assert active - selected - {c} == active - (selected + {c});
    ChooseIsBest(nodes, active - selected, selected);
    GreedyHead(nodes, active - selected, selected, count, c);
    ElementsOfHead(c, Greedy(nodes, active - (selected + {c}), selected + {c}, count - 1));
  }

  lemma ElementsOfHead(c: U64, later: seq<U64>)
    ensures Elements([c] + later) == {c} + Elements(later)
  {
  }

  /** The coverage before and after each of the remaining picks. */
  lemma {:induction false} CoverageTrace(nodes: Directory, active: set<U64>, selected: set<U64>, count: nat, t: set<U64>)
    returns (trace: seq<nat>)
    requires active <= nodes.Keys && selected <= active && t <= active
    requires count <= |active - selected|
    ensures |trace| == count + 1
    ensures trace[0] == Coverage(nodes, selected)
    ensures trace[count]
            == Coverage(nodes, selected + Elements(Greedy(nodes, active - selected, selected, count)))
    ensures forall i | 0 <= i < count :: Closes(Coverage(nodes, t), |t|, trace[i], trace[i + 1])
    decreases count
  {
    if count == 0 {
      assert selected + Elements([]) == selected;
      trace := [Coverage(nodes, selected)];
    } else {
      var c := Choose(nodes, active - selected, selected);
      ChooseIsBest(nodes, active - selected, selected);
      StepClosesGap(nodes, active, selected, c, t);
      UnfoldGreedy(nodes, active, selected, count);
      var rest := CoverageTrace(nodes, active, selected + {c}, count - 1, t);
      trace := [Coverage(nodes, selected)] + rest;
    }
  }

  lemma ThreeQuarters(rival: nat, n: nat, k: nat, first: nat, second: nat, third: nat)
    requires n <= k && 1 <= k <= 3
    requires Closes(rival, n, 0, first)
    requires if k > 1 then Closes(rival, n, first, second) else second == first
    requires if k > 2 then Closes(rival, n, second, third) else third == second
    ensures 4 * third >= 3 * rival
  {
    assert n * first <= k * first;
    assert n * (second - first) <= k * (second - first);
    assert n * (third - second) <= k * (third - second);
    if k == 1 {
    } else if k == 2 {
    } else {
    }
  }

  /**
   * The greedy voters cover at least three quarters of the labels that any equally large
   * set of Active nodes covers. (This implies the general 19/27 guarantee for three picks.)
   */
  lemma GreedyCoversThreeQuarters(nodes: Directory, t: set<U64>)
    requires |t| <= 3 && forall id | id in t :: id in nodes && nodes[id].lifecycle.Active?
    ensures 4 * Spread(nodes, Elements(InitialVoters(nodes))) >= 3 * Spread(nodes, t)
    ensures 27 * Spread(nodes, Elements(InitialVoters(nodes))) >= 19 * Spread(nodes, t)
  {
    var active, k := ActiveNodes(nodes), TargetCount(nodes);
    FewerInside(t, active);
    CoverageIsSpread(nodes, t);
    CoverageIsSpread(nodes, Elements(InitialVoters(nodes)));
    NothingCoversNothing(nodes);
    assert active - {} == active;
    assert {} + Elements(InitialVoters(nodes)) == Elements(InitialVoters(nodes));
    var trace := CoverageTrace(nodes, active, {}, k, t);
    if k == 0 {
      assert t == {};
    } else {
      ThreeQuarters(Coverage(nodes, t), |t|, k, trace[1],
                    trace[if k > 1 then 2 else 1], trace[k]);
    }
  }

  lemma FewerInside(a: set<U64>, b: set<U64>)
    requires a <= b
    ensures |a| <= |b|
  {
    assert b == a + (b - a);
  }

  lemma NothingCoversNothing(nodes: Directory)
    ensures Coverage(nodes, {}) == 0
  {
    assert Labels(nodes, {}, Region) == Labels(nodes, {}, Zone) == Labels(nodes, {}, Rack) == {};
  }

  // ---------- the loop ----------

  /** `max_by` over the candidate positions: best gain first, then smallest identity. */
  method BestIndex(nodes: Directory, candidates: seq<U64>, selected: set<U64>) returns (best: nat)
    requires candidates != [] && Distinct(candidates)
    requires forall i | 0 <= i < |candidates| :: candidates[i] in nodes
    ensures best < |candidates|
    ensures IsBest(nodes, Elements(candidates), selected, candidates[best])
  {
    best := 0;
    for i := 1 to |candidates|
      invariant best < i
      invariant forall j | 0 <= j < i && j != best ::
                  Prefers(nodes, selected, candidates[best], candidates[j])
    {
      if Prefers(nodes, selected, candidates[i], candidates[best]) {
        best := i;
      } else {
        assert candidates[i] != candidates[best];
      }
    }
  }

  function SwapRemove(s: seq<U64>, i: nat): (r: seq<U64>)
    requires i < |s|
    ensures |r| == |s| - 1
  {
    if i == |s| - 1 then s[..i] else s[..i] + [s[|s| - 1]] + s[i + 1..|s| - 1]
  }

  lemma SwapRemoveDropsOne(s: seq<U64>, i: nat)
    requires i < |s| && Distinct(s)
    ensures Distinct(SwapRemove(s, i))
    ensures Elements(SwapRemove(s, i)) == Elements(s) - {s[i]}
  {
    var r := SwapRemove(s, i);
    forall j | 0 <= j < |r| ensures r[j] == if j == i then s[|s| - 1] else s[j] {
    }
    forall x | x in s && x != s[i] ensures x in r {
      var j :| 0 <= j < |s| && s[j] == x;
      assert r[if j == |s| - 1 then i else j] == x;
    }
  }

  lemma DistinctSize(s: seq<U64>)
    requires Distinct(s)
    ensures |Elements(s)| == |s|
  {
    if s != [] {
      var n := |s| - 1;
      DistinctSize(s[..n]);
      assert Elements(s) == Elements(s[..n]) + {s[n]};
    }
  }

  lemma BestIsChoice(nodes: Directory, candidates: set<U64>, selected: set<U64>, c: U64)
    requires candidates <= nodes.Keys && IsBest(nodes, candidates, selected, c)
    ensures c == Choose(nodes, candidates, selected)
  {
    ChooseIsBest(nodes, candidates, selected);
  }

  /** The greedy list starts with the best candidate and goes on without it. */
  lemma GreedyHead(nodes: Directory, candidates: set<U64>, selected: set<U64>, remaining: nat, c: U64)
    requires candidates <= nodes.Keys && 0 < remaining <= |candidates| && c in candidates
    requires IsBest(nodes, candidates, selected, c)
    ensures Greedy(nodes, candidates, selected, remaining)
         == [c] + Greedy(nodes, candidates - {c}, selected + {c}, remaining - 1)
  {
    BestIsChoice(nodes, candidates, selected, c);
  }

  /** Take the best candidate out of the list, filling its place with the last one. */
  method TakeBest(nodes: Directory, candidates: seq<U64>, selected: set<U64>) returns (c: U64, rest: seq<U64>)
    requires candidates != [] && Distinct(candidates) && Elements(candidates) <= nodes.Keys
    ensures c in Elements(candidates) && IsBest(nodes, Elements(candidates), selected, c)
    ensures Distinct(rest) && Elements(rest) == Elements(candidates) - {c}
  {
    forall i | 0 <= i < |candidates| ensures candidates[i] in nodes {
      assert candidates[i] in Elements(candidates);
    }
    var best := BestIndex(nodes, candidates, selected);
    SwapRemoveDropsOne(candidates, best);
    c, rest := candidates[best], SwapRemove(candidates, best);
  }

  lemma SelectStep(nodes: Directory, candidates: set<U64>, selected: seq<U64>, remaining: nat, c: U64)
    requires candidates <= nodes.Keys && 0 < remaining <= |candidates| && c in candidates
    requires IsBest(nodes, candidates, Elements(selected), c)
    ensures selected + Greedy(nodes, candidates, Elements(selected), remaining)
         == selected + [c] + Greedy(nodes, candidates - {c}, Elements(selected + [c]), remaining - 1)
  {
    GreedyHead(nodes, candidates, Elements(selected), remaining, c);
    assert Elements(selected + [c]) == Elements(selected) + {c};
    var rest := Greedy(nodes, candidates - {c}, Elements(selected) + {c}, remaining - 1);
    assert selected + ([c] + rest) == selected + [c] + rest;
  }

  /**
   * The selection loop. Its result is the greedy choice from the candidate *set*: it does
   * not depend on the order of `initial`, nor on the reordering done by `swap_remove`.
   */
  /**
   * The picks so far, continued greedily, are the whole selection. Written as an equation so that
   * the verifier carries it as one fact.
   */
  ghost predicate Underway(nodes: Directory, initial: set<U64>, candidates: set<U64>, selected: seq<U64>, target: nat) {
    true == (
      && |selected| <= target <= |initial|
      && initial <= nodes.Keys
      && candidates <= nodes.Keys
      && target - |selected| <= |candidates|
      && selected + Greedy(nodes, candidates, Elements(selected), target - |selected|)
         == Greedy(nodes, initial, {}, target))
  }

  lemma UnderwayStep(nodes: Directory, initial: set<U64>, candidates: set<U64>, selected: seq<U64>, target: nat, c: U64)
    requires Underway(nodes, initial, candidates, selected, target) && |selected| < target
    requires candidates <= nodes.Keys && IsBest(nodes, candidates, Elements(selected), c)
    ensures Underway(nodes, initial, candidates - {c}, selected + [c], target)
  {
    SelectStep(nodes, candidates, selected, target - |selected|, c);
  }

  lemma UnderwayStart(nodes: Directory, initial: set<U64>, target: nat)
    requires target <= |initial| && initial <= nodes.Keys
    ensures Underway(nodes, initial, initial, [], target)
  {
    assert Elements([]) == {};
  }

  lemma UnderwayHasCandidates(nodes: Directory, initial: set<U64>, candidates: seq<U64>, selected: seq<U64>, target: nat)
    requires Underway(nodes, initial, Elements(candidates), selected, target) && |selected| < target
    ensures candidates != []
  {
    assert Elements([]) == {};
  }

  method SelectFrom(nodes: Directory, initial: seq<U64>, target: nat) returns (selected: seq<U64>)
    requires Distinct(initial) && target <= |Elements(initial)| && Elements(initial) <= nodes.Keys
    ensures selected == Greedy(nodes, Elements(initial), {}, target)
  {
    var candidates := initial;
    selected := [];
    UnderwayStart(nodes, Elements(initial), target);
    while |selected| < target
      invariant |selected| <= target
      invariant Distinct(candidates) && Elements(candidates) <= nodes.Keys
      invariant Underway(nodes, Elements(initial), Elements(candidates), selected, target)
    {
      UnderwayHasCandidates(nodes, Elements(initial), candidates, selected, target);
      var c, rest := TakeBest(nodes, candidates, Elements(selected));
      UnderwayStep(nodes, Elements(initial), Elements(candidates), selected, target, c);
      selected, candidates := selected + [c], rest;
    }
  }

  /** The policy records exactly the diversity that the chosen voters have. */
  function InitialPolicy(nodes: Directory, voters: seq<U64>): (p: PlacementPolicy)
    requires |voters| <= REPLICATION_FACTOR
  {
    var ids := Elements(voters);
    SmallLabels(nodes, voters);
    PlacementPolicy(|voters|, |Labels(nodes, ids, Region)|, |Labels(nodes, ids, Zone)|,
                    |Labels(nodes, ids, Rack)|, None, [])
  }

  lemma SmallLabels(nodes: Directory, voters: seq<U64>)
    ensures forall d: Domain :: |Labels(nodes, Elements(voters), d)| <= |voters|
  {
    SmallElements(voters);
    forall d: Domain ensures |Labels(nodes, Elements(voters), d)| <= |voters| {
      LabelsBounded(nodes, Elements(voters), d);
    }
  }

  lemma SmallElements(s: seq<U64>)
    ensures |Elements(s)| <= |s|
  {
    if s != [] {
      var n := |s| - 1;
      SmallElements(s[..n]);
      assert Elements(s) == Elements(s[..n]) + {s[n]};
    }
  }

  /** The Active nodes among `keys`, in the same order. */
  function ActiveAmong(nodes: Directory, keys: seq<U64>): (r: seq<U64>)
    requires Distinct(keys) && forall k | k in keys :: k in nodes
    ensures forall x :: x in r <==> x in keys && nodes[x].lifecycle.Active?
    ensures Distinct(r)
  {
    if keys == [] then []
    else
      var rest := ActiveAmong(nodes, keys[1..]);
      if nodes[keys[0]].lifecycle.Active? then [keys[0]] + rest else rest
  }

  lemma ActiveOfAll(nodes: Directory, keys: seq<U64>)
    requires Lists(keys, nodes)
    ensures Distinct(keys) && Elements(ActiveAmong(nodes, keys)) == ActiveNodes(nodes)
  {
  }

  /** The Active nodes in identity order, as the selection starts with them. */
  method Candidates(nodes: Directory) returns (r: seq<U64>)
    ensures Distinct(r) && Elements(r) == ActiveNodes(nodes) && |r| == |ActiveNodes(nodes)|
  {
    var keys := OrderedKeys(nodes);
    ActiveOfAll(nodes, keys);
    r := ActiveAmong(nodes, keys);
    DistinctSize(r);
  }

  /** `select_initial_placement`: the voters and their policy, or None without Active nodes. */
  method SelectInitialPlacement(nodes: Directory) returns (r: Option<(seq<U64>, PlacementPolicy)>)
    ensures r.None? <==> ActiveNodes(nodes) == {}
    ensures r.Some? ==> r.value.0 == InitialVoters(nodes) && |r.value.0| <= REPLICATION_FACTOR
    ensures r.Some? ==> r.value.1 == InitialPolicy(nodes, r.value.0)
  {
    var candidates := Candidates(nodes);
    if candidates == [] {
      return None;
    }
    var target := if |candidates| < REPLICATION_FACTOR then |candidates| else REPLICATION_FACTOR;
    var selected := SelectFrom(nodes, candidates, target);
    return Some((selected, InitialPolicy(nodes, selected)));
  }
}
