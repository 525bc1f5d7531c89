/** Crash and recovery, any number of times: nothing acknowledged is lost, no identity comes back. */
module CatalogRounds {
  import opened Base
  import opened Schema
  import opened CatalogDurability

  // ---------- recovery composes ----------

  /** Recovering a log in two parts is recovering it at once. */
  lemma {:induction false} RecoverComposes(start: Catalog, a: seq<TableSchema>, b: seq<TableSchema>)
    requires Recover(start, a).Some?
    ensures Recover(start, a + b) == Recover(Recover(start, a).value, b)
    decreases |b|
  {
    if b == [] {
      assert a + b == a;
    } else {
      var n := |b| - 1;
      RecoverComposes(start, a, b[..n]);
      assert (a + b)[..|a + b| - 1] == a + b[..n];
      assert (a + b)[|a + b| - 1] == b[n];
    }
  }

  ghost predicate Visible(c: Catalog, schema: TableSchema) {
    schema.id in c.tablesById && c.tablesById[schema.id] == schema
  }

  /** Every table of `a` is in `b`, unchanged. */
  ghost predicate Extends(a: Catalog, b: Catalog) {
    forall k | k in a.tablesById :: k in b.tablesById && b.tablesById[k] == a.tablesById[k]
  }

  lemma InstallExtends(c: Catalog, schema: TableSchema)
    requires Install(c, schema).Some?
    ensures Visible(Install(c, schema).value, schema) && Extends(c, Install(c, schema).value)
  {
  }

  ghost predicate AllVisible(c: Catalog, log: seq<TableSchema>) {
    forall i | 0 <= i < |log| :: Visible(c, log[i])
  }

  /**
   * What recovery rebuilds: a consistent catalog with all starting tables and all records, unchanged.
   * Written as an equation so that the verifier carries it as one fact.
   */
  ghost predicate Rebuilt(start: Catalog, log: seq<TableSchema>, c: Catalog) {
    true == (CatalogInv(c) && AllVisible(c, log) && Extends(start, c))
  }

  lemma OneMoreRebuilt(start: Catalog, log: seq<TableSchema>, schema: TableSchema, d: Catalog, c: Catalog)
    requires Rebuilt(start, log, d) && Install(d, schema) == Some(c)
    ensures Rebuilt(start, log + [schema], c)
  {
    InstallKeepsInv(d, schema);
    InstallExtends(d, schema);
    forall i | 0 <= i < |log| ensures Visible(c, log[i]) {
      assert Visible(d, log[i]);
    }
  }

  /** Every record of a recovered log is visible exactly as it was written. */
  lemma {:induction false} RecoveredIsVisible(start: Catalog, log: seq<TableSchema>, c: Catalog)
    requires CatalogInv(start) && Recover(start, log) == Some(c)
    ensures Rebuilt(start, log, c)
    decreases |log|
  {
    if log != [] {
      var n := |log| - 1;
      var d := Recover(start, log[..n]).value;
      RecoveredIsVisible(start, log[..n], d);
      OneMoreRebuilt(start, log[..n], log[n], d, c);
      assert log[..n] + [log[n]] == log;
    }
  }

  // ---------- rounds ----------

  /** The log after rounds of recovering it, running attempts on the result and crashing. */
  function RunRounds(start: Catalog, log: seq<TableSchema>, rounds: seq<seq<Attempt>>): seq<TableSchema>
    decreases |rounds|
  {
    if rounds == [] then log
    else
      match Recover(start, log)
      case None => log
      case Some(c) => RunRounds(start, RunWriter(Writer(c, false, log), rounds[0]).log, rounds[1..])
  }

  /** The log recovers, its identities ascend and none belongs to a starting table. */
  ghost predicate SoundLog(start: Catalog, log: seq<TableSchema>) {
    && Recover(start, log).Some?
    && (forall i, j | 0 <= i < j < |log| :: log[i].id < log[j].id)
    && (forall i | 0 <= i < |log| :: log[i].id !in start.tablesById)
  }

  /** A recovered writer starts consistent, above every identity its log ever used. */
  lemma RecoveredWriterIsSound(start: Catalog, log: seq<TableSchema>)
    requires CatalogInv(start) && SoundLog(start, log)
    ensures var w := Writer(Recover(start, log).value, false, log);
            Consistent(start, w) && FreshIds(start, w)
  {
    RecoveredIsVisible(start, log, Recover(start, log).value);
    assert forall i | 0 <= i < |log| :: Visible(Recover(start, log).value, log[i]);
  }

  lemma RoundKeepsSound(start: Catalog, log: seq<TableSchema>, attempts: seq<Attempt>)
    requires CatalogInv(start) && SoundLog(start, log)
    ensures SoundLog(start, RunWriter(Writer(Recover(start, log).value, false, log), attempts).log)
  {
    var w := Writer(Recover(start, log).value, false, log);
    RecoveredWriterIsSound(start, log);
    RunsAreConsistent(start, w, attempts);
    RunsKeepFresh(start, w, attempts);
  }

  /**
   * Over any number of rounds, each ending anywhere and also on an append whose outcome nobody
   * knows, the whole log recovers and identities ascend across all rounds.
   */
  lemma {:induction false} RoundsAreSound(start: Catalog, log: seq<TableSchema>, rounds: seq<seq<Attempt>>)
    requires CatalogInv(start) && SoundLog(start, log)
    ensures SoundLog(start, RunRounds(start, log, rounds))
    decreases |rounds|
  {
    if rounds != [] {
      RoundKeepsSound(start, log, rounds[0]);
      RoundsAreSound(start, RunWriter(Writer(Recover(start, log).value, false, log), rounds[0]).log, rounds[1..]);
    }
  }

  // ---------- nothing acknowledged is lost ----------

  lemma {:induction false} RunGrowsLog(w: Writer, attempts: seq<Attempt>)
    ensures w.log <= RunWriter(w, attempts).log
    decreases |attempts|
  {
    if attempts != [] {
      RunGrowsLog(CreateTable(w, attempts[0]).writer, attempts[1..]);
    }
  }

  lemma {:induction false} RoundsGrowLog(start: Catalog, log: seq<TableSchema>, rounds: seq<seq<Attempt>>)
    ensures log <= RunRounds(start, log, rounds)
    decreases |rounds|
  {
    if rounds != [] && Recover(start, log).Some? {
      var w := Writer(Recover(start, log).value, false, log);
      RunGrowsLog(w, rounds[0]);
      RoundsGrowLog(start, RunWriter(w, rounds[0]).log, rounds[1..]);
    }
  }

  /**
   * A table reported as created in any round, with any attempts before it, is visible unchanged
   * after every later attempt, crash and recovery.
   */
  lemma AcknowledgedTablesSurvive(start: Catalog, log: seq<TableSchema>, before: seq<Attempt>, a: Attempt,
                                  after: seq<Attempt>, rounds: seq<seq<Attempt>>)
    requires CatalogInv(start) && SoundLog(start, log)
    requires var w := RunWriter(Writer(Recover(start, log).value, false, log), before);
             CreateTable(w, a).answer.Created?
    ensures var w := RunWriter(Writer(Recover(start, log).value, false, log), before);
            var schema := CreateTable(w, a).answer.schema;
            var final := RunRounds(start, RunWriter(CreateTable(w, a).writer, after).log, rounds);
            Recover(start, final).Some? && Visible(Recover(start, final).value, schema)
  {
    var w0 := Writer(Recover(start, log).value, false, log);
    var w := RunWriter(w0, before);
    var u := CreateTable(w, a).writer;
    var schema := CreateTable(w, a).answer.schema;
    var round := RunWriter(u, after).log;
    var final := RunRounds(start, round, rounds);
    RoundIsOneRun(w0, before, a, after);
    RoundKeepsSound(start, log, before + [a] + after);
    RoundsAreSound(start, round, rounds);
    assert u.log == w.log + [schema];
    RunGrowsLog(u, after);
    RoundsGrowLog(start, round, rounds);
    assert final[|w.log|] == schema;
    RecoveredIsVisible(start, final, Recover(start, final).value);
  }

  lemma {:induction false} RunAppends(w: Writer, a: seq<Attempt>, b: seq<Attempt>)
    ensures RunWriter(w, a + b) == RunWriter(RunWriter(w, a), b)
    decreases |a|
  {
    if a == [] {
      assert a + b == b;
    } else {
      assert (a + b)[1..] == a[1..] + b;
      RunAppends(CreateTable(w, a[0]).writer, a[1..], b);
    }
  }

  lemma RoundIsOneRun(w: Writer, before: seq<Attempt>, a: Attempt, after: seq<Attempt>)
    ensures RunWriter(w, before + [a] + after) == RunWriter(CreateTable(RunWriter(w, before), a).writer, after)
  {
    RunAppends(w, before + [a], after);
    RunAppends(w, before, [a]);
    var v := RunWriter(w, before);
    assert RunWriter(v, [a]) == RunWriter(CreateTable(v, a).writer, [a][1..]);
  }
}
