/** Reserved timestamp ranges tile the frontier exactly. */
module TimestampTiling {
  import opened Base
  import opened MetadataTypes
  import opened MetadataSpec
  import opened MetadataRuns

  type Span = (U64, U64)

  /** The ranges handed out by executed reservations, in log order. */
  function Reservations(s: State, log: seq<Entry>): seq<Span>
    decreases |log|
  {
    if log == [] then []
    else
      var step := ApplyEntry(s, log[0]);
      var rest := Reservations(step.state, log[1..]);
      if Fresh(s, log[0]) && step.outcome.TimestampsReserved?
      then [(step.outcome.reservedFrom, step.outcome.reservedUntil)] + rest
      else rest
  }

  /** The spans are non-empty and adjacent, and cover exactly `low + 1 .. high`. */
  ghost predicate Tiles(rs: seq<Span>, low: U64, high: U64) {
    if rs == [] then low == high
    else rs[0].0 == low + 1 && low < rs[0].1 && Tiles(rs[1..], rs[0].1, high)
  }

  lemma ApplyReserves(s: State, c: Command)
    ensures var step := Apply(s, c);
            if step.outcome.TimestampsReserved? then
              && step.outcome.reservedFrom == s.timestampReservedUntil + 1
              && s.timestampReservedUntil < step.outcome.reservedUntil == step.state.timestampReservedUntil
            else step.state.timestampReservedUntil == s.timestampReservedUntil
  {
    if IsTopologyCommand(c) {
      TopologyOutcome(s.topology, c);
    }
  }

  lemma EntryReserves(s: State, e: Entry)
    ensures var step := ApplyEntry(s, e);
            if Fresh(s, e) && step.outcome.TimestampsReserved? then
              && step.outcome.reservedFrom == s.timestampReservedUntil + 1
              && s.timestampReservedUntil < step.outcome.reservedUntil == step.state.timestampReservedUntil
            else step.state.timestampReservedUntil == s.timestampReservedUntil
  {
    ApplyReserves(s, e.command);
  }

  lemma {:induction false} RunTiles(s: State, log: seq<Entry>)
    ensures Tiles(Reservations(s, log), s.timestampReservedUntil, Run(s, log).timestampReservedUntil)
    decreases |log|
  {
    if log != [] {
      var step := ApplyEntry(s, log[0]);
      EntryReserves(s, log[0]);
      RunTiles(step.state, log[1..]);
      var rs, rest := Reservations(s, log), Reservations(step.state, log[1..]);
      if rs != rest {
        assert rs[1..] == rest;
      }
    }
  }

  ghost predicate Covers(r: Span, t: int) {
    r.0 <= t <= r.1
  }

  lemma {:induction false} TilesAscend(rs: seq<Span>, low: U64, high: U64, i: nat, j: nat)
    requires Tiles(rs, low, high) && i < j < |rs|
    ensures low < rs[i].0 <= rs[i].1 < rs[j].0 <= rs[j].1 <= high
  {
    if i == 0 {
      TilesBound(rs[1..], rs[0].1, high, j - 1);
    } else {
      TilesAscend(rs[1..], rs[0].1, high, i - 1, j - 1);
    }
  }

  lemma {:induction false} TilesBound(rs: seq<Span>, low: U64, high: U64, i: nat)
    requires Tiles(rs, low, high) && i < |rs|
    ensures low < rs[i].0 <= rs[i].1 <= high
  {
    if i > 0 {
      TilesBound(rs[1..], rs[0].1, high, i - 1);
    } else if |rs| > 1 {
      TilesBound(rs[1..], rs[0].1, high, |rs| - 2);
      TilesLast(rs[1..], rs[0].1, high);
    }
  }

  lemma {:induction false} TilesLast(rs: seq<Span>, low: U64, high: U64)
    requires Tiles(rs, low, high)
    ensures low <= high
  {
    if rs != [] {
      TilesLast(rs[1..], rs[0].1, high);
    }
  }

  lemma {:induction false} TilesCover(rs: seq<Span>, low: U64, high: U64, t: int)
    requires Tiles(rs, low, high) && low < t <= high
    ensures exists i :: 0 <= i < |rs| && Covers(rs[i], t)
  {
    assert rs != [];
    if t <= rs[0].1 {
      assert Covers(rs[0], t);
    } else {
      TilesCover(rs[1..], rs[0].1, high, t);
      var i :| 0 <= i < |rs[1..]| && Covers(rs[1..][i], t);
      assert Covers(rs[i + 1], t);
    }
  }

  ghost predicate CoveredOnce(rs: seq<Span>, t: int) {
    exists i :: 0 <= i < |rs| && Covers(rs[i], t) && forall j | 0 <= j < |rs| && Covers(rs[j], t) :: j == i
  }

  lemma TilesCoverOnce(rs: seq<Span>, low: U64, high: U64, t: int)
    requires Tiles(rs, low, high) && low < t <= high
    ensures CoveredOnce(rs, t)
  {
    TilesCover(rs, low, high, t);
    var i :| 0 <= i < |rs| && Covers(rs[i], t);
    forall j | 0 <= j < |rs| && Covers(rs[j], t) ensures j == i {
      if i < j {
        TilesAscend(rs, low, high, i, j);
      } else if j < i {
        TilesAscend(rs, low, high, j, i);
      }
    }
  }

  ghost predicate Adjacent(a: Span, b: Span) {
    a.1 < b.0 && b.0 - a.1 == 1
  }

  lemma {:induction false} TilesAdjacent(rs: seq<Span>, low: U64, high: U64, i: nat)
    requires Tiles(rs, low, high) && i + 1 < |rs|
    ensures Adjacent(rs[i], rs[i + 1])
  {
    if i > 0 {
      TilesAdjacent(rs[1..], rs[0].1, high, i - 1);
    }
  }

  /**
   * In any run every timestamp from 1 to the frontier lies in exactly one reserved range; the
   * ranges are adjacent in log order and none reaches past the frontier.
   */
  lemma ReservationsTileFrontier(log: seq<Entry>)
    ensures var rs, frontier := Reservations(Init(), log), Run(Init(), log).timestampReservedUntil;
            && (forall t | 1 <= t <= frontier :: CoveredOnce(rs, t))
            && (forall i | 0 <= i < |rs| :: 1 <= rs[i].0 <= rs[i].1 <= frontier)
            && (forall i | 0 <= i < |rs| - 1 :: Adjacent(rs[i], rs[i + 1]))
  {
    var rs, frontier := Reservations(Init(), log), Run(Init(), log).timestampReservedUntil;
    RunTiles(Init(), log);
    forall t | 1 <= t <= frontier ensures CoveredOnce(rs, t) {
      TilesCoverOnce(rs, 0, frontier, t);
    }
    forall i | 0 <= i < |rs| ensures 1 <= rs[i].0 <= rs[i].1 <= frontier {
      TilesBound(rs, 0, frontier, i);
    }
    forall i | 0 <= i < |rs| - 1 ensures Adjacent(rs[i], rs[i + 1]) {
      TilesAdjacent(rs, 0, frontier, i);
    }
  }
}
