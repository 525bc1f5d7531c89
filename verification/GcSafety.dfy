/** Garbage-collection safety over whole runs. */
module GcSafety {
  import opened Base
  import opened MetadataTypes
  import opened Validation
  import opened MetadataSpec
  import opened MetadataInvariant
  import opened MetadataRuns

  /** The entry reaches the garbage-collection handlers. */
  predicate RunsGc(s: State, e: Entry) {
    Fresh(s, e) && s.clusterId.Some? && ValidCommand(e.command) && IsGcCommand(e.command)
  }

  lemma ApplyOnGc(s: State, c: Command)
    ensures Apply(s, c).state.gc
         == if s.clusterId.Some? && ValidCommand(c) && IsGcCommand(c) then ApplyGc(s.gc, c).gc else s.gc
  {
  }

  lemma EntryOnGc(s: State, e: Entry)
    ensures ApplyEntry(s, e).state.gc == if RunsGc(s, e) then ApplyGc(s.gc, e.command).gc else s.gc
  {
    ApplyOnGc(s, e.command);
  }

  lemma {:induction false} SafePointIsMonotone(log: seq<Entry>, i: nat, j: nat)
    requires i <= j <= |log|
    ensures At(log, i).gc.safePoint <= At(log, j).gc.safePoint
    decreases j - i
  {
    if i < j {
      SafePointIsMonotone(log, i, j - 1);
      AtProgress(log, j - 1);
    }
  }

  /** In every reachable state the safe point is at or below every registered protection. */
  lemma SafePointRespectsProtections(log: seq<Entry>, i: nat, key: (U128, U128))
    requires i <= |log| && key in At(log, i).gc.protections
    ensures At(log, i).gc.safePoint <= At(log, i).gc.protections[key].timestamp
  {
    ReachableInv(log, i);
    assert ProtectionInv(At(log, i).gc.safePoint, key, At(log, i).gc.protections[key]);
  }

  /** The command drops protection `key` of `g`: an explicit release, or a sweep past the deadline. */
  predicate Removes(g: Gc, c: Command, key: (U128, U128)) {
    && key in g.protections
    && (|| c == ReleaseGcProtection(key.0, key.1)
        || (c.AdvanceGcSafePoint? && g.protections[key].deadlineMs <= c.nowMs))
  }

  lemma GcKeepsLeases(g: Gc, c: Command, key: (U128, U128))
    requires IsGcCommand(c) && key in g.protections
    ensures key !in ApplyGc(g, c).gc.protections ==> Removes(g, c, key)
    ensures key in ApplyGc(g, c).gc.protections ==>
              g.protections[key].deadlineMs <= ApplyGc(g, c).gc.protections[key].deadlineMs
  {
  }

  lemma EntryKeepsLeases(s: State, e: Entry, key: (U128, U128))
    requires key in s.gc.protections
    ensures var after := ApplyEntry(s, e).state.gc.protections;
            if key in after then s.gc.protections[key].deadlineMs <= after[key].deadlineMs
            else RunsGc(s, e) && Removes(s.gc, e.command, key)
  {
    EntryOnGc(s, e);
    if RunsGc(s, e) {
      GcKeepsLeases(s.gc, e.command, key);
    }
  }

  /** Entry `m` executes a removal of `key`, not before `deadlineMs` unless it is a release. */
  ghost predicate RemovedAt(log: seq<Entry>, m: nat, key: (U128, U128), deadlineMs: U64)
    requires m < |log|
  {
    && RunsGc(At(log, m), log[m])
    && Removes(At(log, m).gc, log[m].command, key)
    && (log[m].command.AdvanceGcSafePoint? ==> deadlineMs <= log[m].command.nowMs)
  }

  /**
   * A registered protection disappears only through a release of exactly its identity or a sweep
   * whose clock is at or past the deadline it had.
   */
  lemma {:induction false} ProtectionsEndProperly(log: seq<Entry>, i: nat, j: nat, key: (U128, U128)) returns (m: nat)
    requires i < j <= |log| && key in At(log, i).gc.protections && key !in At(log, j).gc.protections
    ensures i <= m < j && RemovedAt(log, m, key, At(log, i).gc.protections[key].deadlineMs)
    decreases j - i
  {
    StateAtNext(Init(), log, i);
    EntryKeepsLeases(At(log, i), log[i], key);
    if key in At(log, i + 1).gc.protections {
      m := ProtectionsEndProperly(log, i + 1, j, key);
    } else {
      m := i;
    }
  }

  // ---------- when a lease starts, changes and ends ----------

  /** The command registers `key` with a timestamp that is still protectable. */
  predicate Starts(g: Gc, c: Command, key: (U128, U128)) {
    && key !in g.protections
    && c.RegisterGcProtection?
    && (c.protection.ownerId, c.protection.protectionId) == key
    && g.safePoint <= c.protection.timestamp
  }

  /** The lease as the command asks for it to be, when the command addresses `key` to alter it. */
  function Asked(c: Command, key: (U128, U128), current: GcProtection): Option<GcProtection> {
    if c.UpdateGcProtection? && (c.protection.ownerId, c.protection.protectionId) == key then Some(c.protection)
    else if c.RenewGcProtection? && (c.ownerId, c.protectionId) == key then Some(current.(deadlineMs := c.deadlineMs))
    else None
  }

  /** The command alters a lease that its own clock finds live, never to an earlier deadline. */
  predicate Alters(g: Gc, c: Command, key: (U128, U128), asked: GcProtection) {
    && key in g.protections
    && Asked(c, key, g.protections[key]) == Some(asked)
    && c.nowMs < g.protections[key].deadlineMs <= asked.deadlineMs
    && g.safePoint <= asked.timestamp
    && asked != g.protections[key]
  }

  predicate Ends(g: Gc, c: Command, key: (U128, U128)) {
    Removes(g, c, key) && (c.AdvanceGcSafePoint? ==> g.safePoint <= c.candidate)
  }

  function LeaseOf(g: Gc, key: (U128, U128)): Option<GcProtection> {
    if key in g.protections then Some(g.protections[key]) else None
  }

  /** What any garbage-collection command does to any one lease, in all cases. */
  lemma LeaseLaw(g: Gc, c: Command, key: (U128, U128))
    requires GcInv(g) && IsGcCommand(c)
    ensures var after := LeaseOf(ApplyGc(g, c).gc, key);
            && (Starts(g, c, key) ==> after == Some(c.protection))
            && (forall asked | Alters(g, c, key, asked) :: after == Some(asked))
            && (Ends(g, c, key) ==> after == None)
            && (!Starts(g, c, key) && !Ends(g, c, key) && (forall asked :: !Alters(g, c, key, asked)) ==>
                  after == LeaseOf(g, key))
  {
    if key in g.protections {
      assert ProtectionInv(g.safePoint, key, g.protections[key]);
      var asked := Asked(c, key, g.protections[key]);
      if asked.Some? && !Alters(g, c, key, asked.value) {
        assert ApplyGc(g, c).gc == g;
      }
    }
  }

  /** An entry whose clock, where it has one, is at or past `deadlineMs`. */
  predicate NotBefore(e: Entry, deadlineMs: U64) {
    match e.command
    case UpdateGcProtection(_, nowMs) => deadlineMs <= nowMs
    case RenewGcProtection(_, _, _, nowMs) => deadlineMs <= nowMs
    case _ => true
  }

  /** A lease past its deadline is never revived: until it is removed it stays exactly as it is. */
  lemma {:induction false} ExpiredLeasesAreFrozen(log: seq<Entry>, i: nat, j: nat, key: (U128, U128))
    requires i <= j <= |log| && forall k | i <= k <= j :: key in At(log, k).gc.protections
    requires forall k | i <= k < j :: NotBefore(log[k], At(log, i).gc.protections[key].deadlineMs)
    ensures At(log, j).gc.protections[key] == At(log, i).gc.protections[key]
    decreases j - i
  {
    if i < j {
      ExpiredLeasesAreFrozen(log, i, j - 1, key);
      var s := At(log, j - 1);
      StateAtNext(Init(), log, j - 1);
      ReachableInv(log, j - 1);
      EntryOnGc(s, log[j - 1]);
      if RunsGc(s, log[j - 1]) {
        LeaseLaw(s.gc, log[j - 1].command, key);
        assert NotBefore(log[j - 1], s.gc.protections[key].deadlineMs);
      }
    }
  }

  /** The lower of the candidate and the least timestamp that a live lease protects. */
  ghost predicate LandsOn(g: Gc, candidate: U64, nowMs: U64, point: U64) {
    && point <= candidate
    && (forall k | k in g.protections && nowMs < g.protections[k].deadlineMs :: point <= g.protections[k].timestamp)
    && (|| point == candidate
        || exists k :: k in g.protections && nowMs < g.protections[k].deadlineMs && g.protections[k].timestamp == point)
  }

  lemma LandsOnIsUnique(g: Gc, candidate: U64, nowMs: U64, p: U64, q: U64)
    requires LandsOn(g, candidate, nowMs, p) && LandsOn(g, candidate, nowMs, q)
    ensures p == q
  {
  }

  /**
   * An executed advance is refused exactly when it would move the safe point back; otherwise it
   * lands on the lower of the candidate and the least live protection, and sweeps exactly the
   * expired leases.
   */
  lemma AdvanceLands(g: Gc, candidate: U64, nowMs: U64)
    ensures var r := AdvanceSafePoint(g, candidate, nowMs);
            if candidate < g.safePoint then r == GcStep(g, Rejected(GcSafePointRegressed))
            else
              && (r.outcome.Applied? || r.outcome.AlreadyApplied?)
              && LandsOn(g, candidate, nowMs, r.gc.safePoint)
              && (forall k :: k in r.gc.protections
                         <==> k in g.protections && nowMs < g.protections[k].deadlineMs)
              && (forall k | k in r.gc.protections :: r.gc.protections[k] == g.protections[k])
  {
    if g.safePoint <= candidate {
      var live := LiveProtections(g.protections, nowMs);
      var point := ClampToProtections(candidate, live);
      assert forall k | k in live :: point <= live[k].timestamp == g.protections[k].timestamp;
      if point != candidate {
        var k :| k in live && live[k].timestamp == point;
        assert g.protections[k].timestamp == point;
      }
    }
  }

  /** The same for an entry of a run: the new safe point is never behind the old one. */
  lemma AdvanceInRun(log: seq<Entry>, i: nat)
    requires i < |log| && RunsGc(At(log, i), log[i]) && log[i].command.AdvanceGcSafePoint?
    requires At(log, i).gc.safePoint <= log[i].command.candidate
    ensures LandsOn(At(log, i).gc, log[i].command.candidate, log[i].command.nowMs, At(log, i + 1).gc.safePoint)
  {
    StateAtNext(Init(), log, i);
    EntryOnGc(At(log, i), log[i]);
    AdvanceLands(At(log, i).gc, log[i].command.candidate, log[i].command.nowMs);
  }
}
