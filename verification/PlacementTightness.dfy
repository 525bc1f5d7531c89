/** The bound of the greedy placement is tight: a directory on which it is met with equality. */
module PlacementTightness {
  import opened Base
  import opened MetadataTypes
  import opened InitialPlacement

  /** Five Active nodes over three labels `a`, `b`, `c` per domain, the worst case for greedy. */
  ghost predicate WorstCase(n: Directory, a: string, b: string, c: string) {
    && a != b && a != c && b != c
    && n.Keys == {1, 2, 3, 4, 5}
    && (forall id | id in n :: n[id].lifecycle.Active?)
    && n[1].region == Some(a) && n[1].zone == Some(a) && n[1].rack == Some(a)
    && n[2].region == Some(b) && n[2].zone == Some(b) && n[2].rack == Some(a)
    && n[3].region == Some(a) && n[3].zone == Some(b) && n[3].rack == Some(b)
    && n[4].region == Some(c) && n[4].zone == Some(a) && n[4].rack == Some(a)
    && n[5].region == Some(b) && n[5].zone == Some(c) && n[5].rack == Some(a)
  }

  function LabelledNode(id: U64, region: string, zone: string, rack: string): NodeDescriptor {
    var e := Endpoint("", false);
    NodeDescriptor(id, e, e, e, e, Some(region), Some(zone), Some(rack), "", Active)
  }

  /** For any three labels there is such a directory. */
  function WorstDirectory(a: string, b: string, c: string): Directory {
    map[1 := LabelledNode(1, a, a, a),
        2 := LabelledNode(2, b, b, a),
        3 := LabelledNode(3, a, b, b),
        4 := LabelledNode(4, c, a, a),
        5 := LabelledNode(5, b, c, a)]
  }

  lemma WorstFirst(n: Directory, a: string, b: string, c: string)
    requires WorstCase(n, a, b, c)
    ensures Choose(n, {1, 2, 3, 4, 5}, {}) == 1
  {
    assert forall d: Domain :: Labels(n, {}, d) == {};
    BestIsChoice(n, {1, 2, 3, 4, 5}, {}, 1);
  }

  lemma WorstSecond(n: Directory, a: string, b: string, c: string)
    requires WorstCase(n, a, b, c)
    ensures Choose(n, {2, 3, 4, 5}, {1}) == 2
  {
    assert forall d: Domain :: Labels(n, {1}, d) == {a};
    BestIsChoice(n, {2, 3, 4, 5}, {1}, 2);
  }

  lemma WorstThird(n: Directory, a: string, b: string, c: string)
    requires WorstCase(n, a, b, c)
    ensures Choose(n, {3, 4, 5}, {1, 2}) == 3
  {
    assert Labels(n, {1, 2}, Region) == {a, b};
    assert Labels(n, {1, 2}, Zone) == {a, b};
    assert Labels(n, {1, 2}, Rack) == {a};
    BestIsChoice(n, {3, 4, 5}, {1, 2}, 3);
  }

  lemma ThreePicks(n: Directory, s: set<U64>, x: U64, y: U64, z: U64)
    requires s <= n.Keys && |s| == 5 && x in s && y in s - {x} && z in s - {x} - {y}
    requires Choose(n, s, {}) == x
    requires Choose(n, s - {x}, {x}) == y
    requires Choose(n, s - {x} - {y}, {x, y}) == z
    ensures Greedy(n, s, {}, 3) == [x, y, z]
  {
    assert {} + {x} == {x} && {x} + {y} == {x, y};
    assert Greedy(n, s - {x} - {y}, {x, y}, 1) == [z];
    assert Greedy(n, s - {x}, {x}, 2) == [y] + [z];
  }

  lemma WorstActive(n: Directory, a: string, b: string, c: string)
    requires WorstCase(n, a, b, c)
    ensures ActiveNodes(n) == {1, 2, 3, 4, 5} && TargetCount(n) == 3
  {
  }

  lemma WorstPicks(n: Directory, a: string, b: string, c: string)
    requires WorstCase(n, a, b, c)
    ensures Greedy(n, {1, 2, 3, 4, 5}, {}, 3) == [1, 2, 3]
  {
    WorstFirst(n, a, b, c);
    WorstSecond(n, a, b, c);
    WorstThird(n, a, b, c);
    assert {1, 2, 3, 4, 5} - {1} == {2, 3, 4, 5};
    assert {2, 3, 4, 5} - {2} == {3, 4, 5};
    ThreePicks(n, {1, 2, 3, 4, 5}, 1, 2, 3);
  }

  lemma WorstVoters(n: Directory, a: string, b: string, c: string)
    requires WorstCase(n, a, b, c)
    ensures ActiveNodes(n) == {1, 2, 3, 4, 5}
    ensures TargetCount(n) == 3
    ensures InitialVoters(n) == [1, 2, 3] && Elements(InitialVoters(n)) == {1, 2, 3}
  {
    WorstActive(n, a, b, c);
    WorstPicks(n, a, b, c);
    assert Elements([1, 2, 3]) == {1, 2, 3};
  }

  lemma WorstCoverage(n: Directory, a: string, b: string, c: string)
    requires WorstCase(n, a, b, c)
    ensures Coverage(n, {1, 2, 3}) == 6
    ensures Coverage(n, {3, 4, 5}) == 8
  {
    assert Labels(n, {1, 2, 3}, Region) == {a, b};
    assert Labels(n, {1, 2, 3}, Zone) == {a, b};
    assert Labels(n, {1, 2, 3}, Rack) == {a, b};
    assert Labels(n, {3, 4, 5}, Region) == {a, b, c};
    assert Labels(n, {3, 4, 5}, Zone) == {a, b, c};
    assert Labels(n, {3, 4, 5}, Rack) == {a, b};
  }

  /** The factor 3/4 cannot be improved: on the worst directory greedy covers 6 labels, a rival 8. */
  lemma ThreeQuartersIsTight(a: string, b: string, c: string)
    requires a != b && a != c && b != c
    ensures var n := WorstDirectory(a, b, c);
            && (forall id | id in {3, 4, 5} :: id in n && n[id].lifecycle.Active?)
            && InitialVoters(n) == [1, 2, 3]
            && Spread(n, Elements(InitialVoters(n))) == 6
            && Spread(n, {3, 4, 5}) == 8
  {
    var n := WorstDirectory(a, b, c);
    WorstIsWorst(n, a, b, c);
    WorstVoters(n, a, b, c);
    WorstCoverage(n, a, b, c);
    CoverageIsSpread(n, {1, 2, 3});
    CoverageIsSpread(n, {3, 4, 5});
  }

  lemma WorstIsWorst(n: Directory, a: string, b: string, c: string)
    requires a != b && a != c && b != c && n == WorstDirectory(a, b, c)
    ensures WorstCase(n, a, b, c)
  {
  }

  /** On directory `n` the choice does not cover p/q of what the admissible rival `t` covers. */
  ghost predicate Refutes(n: Directory, t: set<U64>, p: nat, q: nat) {
    && |t| <= 3
    && (forall id | id in t :: id in n && n[id].lifecycle.Active?)
    && q * Spread(n, Elements(InitialVoters(n))) < p * Spread(n, t)
  }

  lemma SixOfEight(n: Directory, t: set<U64>, p: nat, q: nat)
    requires 3 * q < 4 * p
    requires |t| <= 3 && forall id | id in t :: id in n && n[id].lifecycle.Active?
    requires Spread(n, Elements(InitialVoters(n))) == 6 && Spread(n, t) == 8
    ensures Refutes(n, t, p, q)
  {
  }

  lemma ThreeLabels() returns (a: string, b: string, c: string)
    ensures a != b && a != c && b != c
  {
    a, b, c := "a", "bb", "ccc";
    assert |a| != |b| && |a| != |c| && |b| != |c|;
  }

  lemma TightDirectory() returns (n: Directory, t: set<U64>)
    ensures |t| <= 3 && forall id | id in t :: id in n && n[id].lifecycle.Active?
    ensures Spread(n, Elements(InitialVoters(n))) == 6 && Spread(n, t) == 8
  {
    var a, b, c := ThreeLabels();
    ThreeQuartersIsTight(a, b, c);
    n, t := WorstDirectory(a, b, c), {3, 4, 5};
  }

  /** No better factor holds: any ratio above 3/4 is refuted by some directory and some rival set. */
  lemma NoBetterFactor(p: nat, q: nat)
    requires 3 * q < 4 * p
    ensures exists n, t :: Refutes(n, t, p, q)
  {
    var n, t := TightDirectory();
    SixOfEight(n, t, p, q);
  }
}
