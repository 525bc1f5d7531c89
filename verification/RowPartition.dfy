/** Disjoint row slices for benchmark workers. */
module RowPartition {
  import opened Base
  import opened Division

  /** The number of rows in front of worker `w`'s slice. */
  function Cut(rows: U64, clients: U32, w: nat): nat
    requires clients > 0
  {
    rows * w / clients
  }

  /** One-based inclusive bounds of a worker's slice; None in every error case. */
  function Bounds(rows: U64, clients: U32, worker: U32): (r: Option<(U64, U64)>) {
    if clients == 0 || rows < clients then None
    else if worker >= clients then None
    else
      var first, end := Cut(rows, clients, worker), Cut(rows, clients, worker + 1);
      if first > U64_MAX || end > U64_MAX then None
      else if first >= end then None
      else Some((first + 1, end))
  }

  // ---------- division ----------

  lemma Distributes(c: int, a: int, b: int)
    ensures c * (a + b) == c * a + c * b
    ensures c * (a + b + 1) == c * a + c * b + c
  {
  }

  lemma SumQuotient(x: nat, r: nat, c: nat, a: nat, b: nat)
    requires c > 0 && c * a <= x < c * a + c && c * b <= r < c * b + c
    ensures (x + r) / c == if x + r < c * a + c * b + c then a + b else a + b + 1
  {
    Distributes(c, a, b);
    QuotientIs(x + r, c, if x + r < c * a + c * b + c then a + b else a + b + 1);
  }

  /** Adding `r` moves the quotient by `r / c`, or by one more. */
  lemma QuotientGrows(x: nat, r: nat, c: nat)
    requires c > 0
    ensures x / c + r / c <= (x + r) / c <= x / c + r / c + 1
  {
    Quotient(x, c);
    Quotient(r, c);
    SumQuotient(x, r, c, x / c, r / c);
  }

  lemma Steps(rows: U64, clients: U32, w: nat)
    requires clients > 0
    ensures Cut(rows, clients, w) + rows / clients <= Cut(rows, clients, w + 1)
         <= Cut(rows, clients, w) + rows / clients + 1
  {
    assert rows * (w + 1) == rows * w + rows;
    QuotientGrows(rows * w, rows, clients);
  }

  lemma Ends(rows: U64, clients: U32)
    requires clients > 0
    ensures Cut(rows, clients, 0) == 0 && Cut(rows, clients, clients) == rows
  {
    assert rows * 0 == 0;
    QuotientIs(rows * clients, clients, rows);
  }

  lemma CutsAscend(rows: U64, clients: U32, v: nat, w: nat)
    requires clients > 0 && v <= w
    ensures Cut(rows, clients, v) <= Cut(rows, clients, w)
  {
    assert rows * w == rows * v + rows * (w - v);
    QuotientGrows(rows * v, rows * (w - v), clients);
  }

  lemma AtLeastOneEach(rows: U64, clients: U32)
    requires 0 < clients <= rows
    ensures rows / clients >= 1
  {
    QuotientGrows(clients, rows - clients, clients);
    QuotientIs(clients, clients, 1);
  }

  // ---------- the partition ----------

  /** A slice exists exactly for a valid worker of a valid configuration; no other error can occur. */
  lemma SliceExistsIff(rows: U64, clients: U32, worker: U32)
    ensures Bounds(rows, clients, worker).Some? <==> 0 < clients <= rows && worker < clients
  {
    if 0 < clients <= rows && worker < clients {
      Steps(rows, clients, worker);
      AtLeastOneEach(rows, clients);
      CutsAscend(rows, clients, worker + 1, clients);
      Ends(rows, clients);
    }
  }

  /** Slices are adjacent, start at row 1, end at the last row and differ in size by at most one. */
  lemma SlicesTile(rows: U64, clients: U32, worker: U32)
    requires 0 < clients <= rows && worker < clients
    ensures Bounds(rows, clients, worker).Some?
    ensures var (first, last) := Bounds(rows, clients, worker).value;
            && first <= last
            && rows / clients <= last - first + 1 <= rows / clients + 1
            && (worker == 0 ==> first == 1)
            && (worker + 1 == clients ==> last == rows)
            && (worker + 1 < clients ==>
                  && Bounds(rows, clients, worker + 1).Some?
                  && Bounds(rows, clients, worker + 1).value.0 - last == 1)
  {
    SliceExistsIff(rows, clients, worker);
    Steps(rows, clients, worker);
    Ends(rows, clients);
    if worker + 1 < clients {
      SliceExistsIff(rows, clients, worker + 1);
    }
  }

  predicate Owns(rows: U64, clients: U32, worker: U32, row: int) {
    && Bounds(rows, clients, worker).Some?
    && Bounds(rows, clients, worker).value.0 <= row <= Bounds(rows, clients, worker).value.1
  }

  /** No row belongs to two workers. */
  lemma SlicesAreDisjoint(rows: U64, clients: U32, v: U32, w: U32, row: int)
    requires Owns(rows, clients, v, row) && Owns(rows, clients, w, row)
    ensures v == w
  {
    if v < w {
      CutsAscend(rows, clients, v + 1, w);
    } else if w < v {
      CutsAscend(rows, clients, w + 1, v);
    }
  }

  lemma {:induction false} OwnerBelow(rows: U64, clients: U32, n: U32, row: int) returns (w: U32)
    requires 0 < clients <= rows && 0 < n <= clients && 1 <= row <= Cut(rows, clients, n)
    ensures w < n && Owns(rows, clients, w, row)
  {
    SliceExistsIff(rows, clients, n - 1);
    if Cut(rows, clients, n - 1) < row {
      w := n - 1;
    } else {
      Ends(rows, clients);
      w := OwnerBelow(rows, clients, n - 1, row);
    }
  }

  /** Every row belongs to some worker. */
  lemma EveryRowIsOwned(rows: U64, clients: U32, row: int)
    requires 0 < clients <= rows && 1 <= row <= rows
    ensures exists w: U32 :: w < clients && Owns(rows, clients, w, row)
  {
    Ends(rows, clients);
    var w := OwnerBelow(rows, clients, clients, row);
  }

  // ---------- drawing rows ----------

  /** The output mix of the SplitMix64 generator. */
  function Mix(state: bv64): bv64 {
    var y := (state ^ (state >> 30)) * 0xbf58_476d_1ce4_e5b9;
    var z := (y ^ (y >> 27)) * 0x94d0_49bb_1331_11eb;
    z ^ (z >> 31)
  }

  /** The SplitMix64 generator. */
  class SplitMix64 {
    var state: bv64

    constructor (seed: bv64)
      ensures state == seed
    {
      state := seed;
    }

    method Next() returns (z: bv64)
      modifies this
      ensures state == old(state) + 0x9e37_79b9_7f4a_7c15 && z == Mix(state)
    {
      state := state + 0x9e37_79b9_7f4a_7c15;
      z := Mix(state);
    }
  }

  /** A row inside the bounds: the draw reduced modulo the number of rows there. */
  method RandomRow(random: SplitMix64, bounds: (U64, U64)) returns (row: U64)
    requires 1 <= bounds.0 <= bounds.1
    modifies random
    ensures bounds.0 <= row <= bounds.1
    ensures row == bounds.0 + Mix(random.state) as int % (bounds.1 - bounds.0 + 1)
  {
    var z := random.Next();
    row := bounds.0 + z as int % (bounds.1 - bounds.0 + 1);
  }

  /** A row that a worker draws is its own, and no other worker's, whatever the generator yields. */
  method DrawOwnRow(random: SplitMix64, rows: U64, clients: U32, worker: U32) returns (row: U64)
    requires 0 < clients <= rows && worker < clients
    modifies random
    ensures Owns(rows, clients, worker, row)
    ensures forall other: U32 | other != worker :: !Owns(rows, clients, other, row)
  {
    SliceExistsIff(rows, clients, worker);
    SlicesTile(rows, clients, worker);
    row := RandomRow(random, Bounds(rows, clients, worker).value);
    forall other: U32 | other != worker ensures !Owns(rows, clients, other, row) {
      if Owns(rows, clients, other, row) {
        SlicesAreDisjoint(rows, clients, worker, other, row);
      }
    }
  }
}
