/** What the greedy selection selects, said without the algorithm. */
module PlacementSelection {
  import opened Base
  import opened InitialPlacement

  /** Ahead of `o`: together with `chosen` it reaches more labels, or as many with a smaller identity. */
  predicate Ahead(nodes: Directory, chosen: set<U64>, c: U64, o: U64) {
    var with, without := Spread(nodes, chosen + {c}), Spread(nodes, chosen + {o});
    with > without || (with == without && c < o)
  }

  predicate PickedFrom(nodes: Directory, candidates: set<U64>, chosen: set<U64>, c: U64) {
    c in candidates && forall o | o in candidates && o != c :: Ahead(nodes, chosen, c, o)
  }

  /** At each position the pick is ahead of everything still available. */
  ghost predicate WellSpread(nodes: Directory, voters: seq<U64>) {
    && |voters| == (if |ActiveNodes(nodes)| < 3 then |ActiveNodes(nodes)| else 3)
    && forall i | 0 <= i < |voters| ::
         PickedFrom(nodes, ActiveNodes(nodes) - Elements(voters[..i]), Elements(voters[..i]), voters[i])
  }

  lemma BestIsAhead(nodes: Directory, candidates: set<U64>, chosen: set<U64>, c: U64)
    requires candidates <= nodes.Keys && IsBest(nodes, candidates, chosen, c)
    ensures PickedFrom(nodes, candidates, chosen, c)
  {
    forall o | o in candidates && o != c ensures Ahead(nodes, chosen, c, o) {
      assert Prefers(nodes, chosen, c, o);
      GainIsMarginal(nodes, c, chosen);
      GainIsMarginal(nodes, o, chosen);
      CoverageIsSpread(nodes, chosen + {c});
      CoverageIsSpread(nodes, chosen + {o});
    }
  }

  lemma PrefixOfPicks(selected: set<U64>, c: U64, later: seq<U64>, i: nat)
    requires 0 < i <= |later| + 1
    ensures selected + Elements(([c] + later)[..i]) == selected + {c} + Elements(later[..i - 1])
  {
    assert ([c] + later)[..i] == [c] + later[..i - 1];
    ElementsOfHead(c, later[..i - 1]);
  }

  lemma {:induction false} GreedyPicksBest(nodes: Directory, active: set<U64>, selected: set<U64>, picks: seq<U64>, i: nat)
    requires active <= nodes.Keys && i < |picks| <= |active - selected|
    requires picks == Greedy(nodes, active - selected, selected, |picks|)
    ensures PickedFrom(nodes, active - (selected + Elements(picks[..i])), selected + Elements(picks[..i]), picks[i])
    decreases |picks|
  {
    var c := Choose(nodes, active - selected, selected);
    ChooseIsBest(nodes, active - selected, selected);
    if i == 0 {
      assert selected + Elements(picks[..0]) == selected;
      BestIsAhead(nodes, active - selected, selected, c);
    } else {
      assert active - selected - {c} == active - (selected + {c});
      var later := Greedy(nodes, active - (selected + {c}), selected + {c}, |picks| - 1);
      assert picks == [c] + later;
      GreedyPicksBest(nodes, active, selected + {c}, later, i - 1);
      PrefixOfPicks(selected, c, later, i);
    }
  }

  /** The voters are chosen one by one, each ahead of every other Active node not yet chosen. */
  lemma InitialVotersAreWellSpread(nodes: Directory)
    ensures WellSpread(nodes, InitialVoters(nodes))
  {
    var voters, active := InitialVoters(nodes), ActiveNodes(nodes);
    InitialVotersAreDistinctActive(nodes);
    assert active - {} == active;
    forall i | 0 <= i < |voters|
      ensures PickedFrom(nodes, active - Elements(voters[..i]), Elements(voters[..i]), voters[i])
    {
      GreedyPicksBest(nodes, active, {}, voters, i);
      assert {} + Elements(voters[..i]) == Elements(voters[..i]);
    }
  }

  lemma OnePick(nodes: Directory, candidates: set<U64>, chosen: set<U64>, a: U64, b: U64)
    requires PickedFrom(nodes, candidates, chosen, a) && PickedFrom(nodes, candidates, chosen, b)
    ensures a == b
  {
  }

  /** That description leaves no choice. */
  lemma {:induction false} WellSpreadIsUnique(nodes: Directory, a: seq<U64>, b: seq<U64>, i: nat)
    requires WellSpread(nodes, a) && WellSpread(nodes, b) && i <= |a|
    ensures a[..i] == b[..i]
  {
    if i > 0 {
      var n := i - 1;
      WellSpreadIsUnique(nodes, a, b, n);
      OnePick(nodes, ActiveNodes(nodes) - Elements(a[..n]), Elements(a[..n]), a[n], b[n]);
      assert a[..i] == a[..n] + [a[n]] && b[..i] == b[..n] + [b[n]];
    }
  }
}
