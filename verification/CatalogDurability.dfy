/** The single-node catalog: log first, publish after, stop when the log's answer is unknown. */
module CatalogDurability {
  import opened Base
  import opened Schema

  // ---------- specification ----------

  datatype Catalog = Catalog(
    tableIdsByName: map<string, U64>,
    tablesById: map<U64, TableSchema>,
    nextTableId: Option<U64>)

  const EMPTY_CATALOG: Catalog := Catalog(map[], map[], Some(1))

  ghost predicate CatalogInv(c: Catalog) {
    && (forall k | k in c.tablesById :: c.tablesById[k].id == k && ValidSchema(c.tablesById[k]))
    && (forall k | k in c.tablesById ::
          c.tablesById[k].name in c.tableIdsByName && c.tableIdsByName[c.tablesById[k].name] == k)
    && (forall n | n in c.tableIdsByName ::
          c.tableIdsByName[n] in c.tablesById && c.tablesById[c.tableIdsByName[n]].name == n)
    && (c.nextTableId.Some? ==> c.nextTableId.value != 0 && forall k | k in c.tablesById :: k < c.nextTableId.value)
  }

  /** The next local table, validated but not published. */
  function Prepare(c: Catalog, name: string, columns: seq<Column>, primaryKey: seq<U64>): (r: Option<TableSchema>) {
    if name in c.tableIdsByName || c.nextTableId.None? then None
    else
      var schema := TableSchema(c.nextTableId.value, name, columns, primaryKey, 1, 1);
      if ValidSchema(schema) then Some(schema) else None
  }

  /** Install a fully assigned schema; an identical one is already installed. */
  function Install(c: Catalog, schema: TableSchema): (r: Option<Catalog>) {
    if !ValidSchema(schema) then None
    else if schema.id in c.tablesById then
      if c.tablesById[schema.id] == schema then Some(c) else None
    else if schema.name in c.tableIdsByName then None
    else
      var next :=
        if c.nextTableId.None? || Next(schema.id).None? then None
        else Some(Max(c.nextTableId.value, Next(schema.id).value));
      Some(Catalog(c.tableIdsByName[schema.name := schema.id], c.tablesById[schema.id := schema], next))
  }

  /** Publish exactly what was prepared. */
  function Publish(c: Catalog, schema: TableSchema): (r: Option<Catalog>) {
    if c.nextTableId != Some(schema.id) then None
    else if schema.name in c.tableIdsByName || schema.id in c.tablesById then None
    else Install(c, schema)
  }

  /** How one append to the durable log ends. */
  datatype Append =
    | Durable
    | NotStaged
    /** The caller cannot tell; `written` says what really happened. */
    | Unknown(written: bool)

  /** One attempt, with what its environment answers: the timestamp allocator and the log. */
  datatype Attempt = Attempt(
    name: string,
    columns: seq<Column>,
    primaryKey: seq<U64>,
    timestamp: Option<U64>,
    append: Append)

  datatype Answer = Created(schema: TableSchema, timestamp: U64) | Refused | OutcomeUnknown | RecoveryRequired

  /** The writer, together with the records that really are in its log. */
  datatype Writer = Writer(catalog: Catalog, stopped: bool, log: seq<TableSchema>)

  datatype WriterStep = WriterStep(writer: Writer, answer: Answer)

  function AppendTo(log: seq<TableSchema>, schema: TableSchema, a: Append): seq<TableSchema> {
    match a
    case Durable => log + [schema]
    case NotStaged => log
    case Unknown(written) => if written then log + [schema] else log
  }

  function CreateTable(w: Writer, a: Attempt): WriterStep {
    if w.stopped then WriterStep(w, RecoveryRequired)
    else
      match Prepare(w.catalog, a.name, a.columns, a.primaryKey)
      case None => WriterStep(w, Refused)
      case Some(schema) =>
        if a.timestamp.None? || a.timestamp.value == 0 then WriterStep(w, Refused)
        else
          var log := AppendTo(w.log, schema, a.append);
          match a.append
          case NotStaged => WriterStep(w.(log := log), Refused)
          case Unknown(_) => WriterStep(w.(log := log, stopped := true), OutcomeUnknown)
          case Durable =>
            match Publish(w.catalog, schema)
            case None => WriterStep(w.(log := log, stopped := true), RecoveryRequired)
            case Some(catalog) => WriterStep(w.(log := log, catalog := catalog), Created(schema, a.timestamp.value))
  }

  function RunWriter(w: Writer, attempts: seq<Attempt>): Writer
    decreases |attempts|
  {
    if attempts == [] then w else RunWriter(CreateTable(w, attempts[0]).writer, attempts[1..])
  }

  /** Recovery: install every record of the log, in order. */
  function Recover(c: Catalog, log: seq<TableSchema>): (r: Option<Catalog>)
    decreases |log|
  {
    if log == [] then Some(c)
    else
      match Recover(c, log[..|log| - 1])
      case None => None
      case Some(d) => Install(d, log[|log| - 1])
  }

  // ---------- publication cannot fail ----------

  lemma PreparedIsPublishable(c: Catalog, name: string, columns: seq<Column>, primaryKey: seq<U64>)
    requires CatalogInv(c) && Prepare(c, name, columns, primaryKey).Some?
    ensures var schema := Prepare(c, name, columns, primaryKey).value;
            && Publish(c, schema).Some?
            && Publish(c, schema) == Install(c, schema)
            && schema.id !in c.tablesById
  {
  }

  /**
   * A schema is installed exactly when it is valid and either already there, unchanged, or new in
   * identity and name; a new one moves the next identity past it, or uses the last one up.
   */
  lemma InstallLaw(c: Catalog, schema: TableSchema)
    requires CatalogInv(c)
    ensures Install(c, schema).Some?
       <==> && ValidSchema(schema)
            && (|| (schema.id in c.tablesById && c.tablesById[schema.id] == schema)
                || (schema.id !in c.tablesById && forall k | k in c.tablesById :: c.tablesById[k].name != schema.name))
    ensures Install(c, schema).Some? && schema.id in c.tablesById ==> Install(c, schema).value == c
    ensures Install(c, schema).Some? && schema.id !in c.tablesById ==>
              var d := Install(c, schema).value;
              && d.tablesById == c.tablesById[schema.id := schema]
              && d.tableIdsByName == c.tableIdsByName[schema.name := schema.id]
              && (d.nextTableId.None? <==> c.nextTableId.None? || schema.id == U64_MAX)
              && (d.nextTableId.Some? ==>
                    d.nextTableId.value == if c.nextTableId.value <= schema.id then schema.id + 1 else c.nextTableId.value)
  {
    if schema.name in c.tableIdsByName {
      assert c.tablesById[c.tableIdsByName[schema.name]].name == schema.name;
    }
  }

  lemma InstallKeepsInv(c: Catalog, schema: TableSchema)
    requires CatalogInv(c) && Install(c, schema).Some?
    ensures CatalogInv(Install(c, schema).value)
  {
  }

  // ---------- crash consistency ----------

  /**
   * The visible catalog is what recovery of the log gives, except for at most one trailing record
   * of unknown outcome, after which the writer is stopped; even then recovery succeeds.
   */
  ghost predicate Consistent(start: Catalog, w: Writer) {
    && CatalogInv(w.catalog)
    && Recover(start, w.log).Some?
    && (|| Recover(start, w.log) == Some(w.catalog)
        || (w.stopped && w.log != [] && Recover(start, w.log[..|w.log| - 1]) == Some(w.catalog)))
  }

  lemma RecoverOneMore(start: Catalog, log: seq<TableSchema>, schema: TableSchema)
    requires Recover(start, log).Some?
    ensures Recover(start, log + [schema]) == Install(Recover(start, log).value, schema)
  {
    assert (log + [schema])[..|log|] == log;
  }

  lemma CreateKeepsConsistent(start: Catalog, w: Writer, a: Attempt)
    requires Consistent(start, w) && (!w.stopped ==> Recover(start, w.log) == Some(w.catalog))
    ensures var u := CreateTable(w, a).writer;
            Consistent(start, u) && (!u.stopped ==> Recover(start, u.log) == Some(u.catalog))
  {
    if !w.stopped && Prepare(w.catalog, a.name, a.columns, a.primaryKey).Some? {
      var schema := Prepare(w.catalog, a.name, a.columns, a.primaryKey).value;
      PreparedIsPublishable(w.catalog, a.name, a.columns, a.primaryKey);
      InstallKeepsInv(w.catalog, schema);
      RecoverOneMore(start, w.log, schema);
      assert (w.log + [schema])[..|w.log|] == w.log;
    }
  }

  /** Any run, whatever the timestamp allocator and the log answer, stays crash consistent. */
  lemma {:induction false} RunsAreConsistent(start: Catalog, w: Writer, attempts: seq<Attempt>)
    requires Consistent(start, w) && (!w.stopped ==> Recover(start, w.log) == Some(w.catalog))
    ensures var u := RunWriter(w, attempts);
            Consistent(start, u) && (!u.stopped ==> Recover(start, u.log) == Some(u.catalog))
    decreases |attempts|
  {
    if attempts != [] {
      CreateKeepsConsistent(start, w, attempts[0]);
      RunsAreConsistent(start, CreateTable(w, attempts[0]).writer, attempts[1..]);
    }
  }

  lemma CrashConsistency(start: Catalog, attempts: seq<Attempt>)
    requires CatalogInv(start)
    ensures Consistent(start, RunWriter(Writer(start, false, []), attempts))
  {
    RunsAreConsistent(start, Writer(start, false, []), attempts);
  }

  /** Nothing is written or published after an unknown outcome. */
  lemma {:induction false} StoppedForGood(w: Writer, attempts: seq<Attempt>)
    requires w.stopped
    ensures RunWriter(w, attempts) == w
    decreases |attempts|
  {
    if attempts != [] {
      StoppedForGood(w, attempts[1..]);
    }
  }

  /** The publication failure branch is never taken: a writer stops only on an unknown outcome. */
  lemma StopsOnlyOnUnknown(start: Catalog, w: Writer, a: Attempt)
    requires Consistent(start, w) && !w.stopped
    ensures CreateTable(w, a).writer.stopped <==> CreateTable(w, a).answer == OutcomeUnknown
    ensures CreateTable(w, a).answer != RecoveryRequired
  {
    if Prepare(w.catalog, a.name, a.columns, a.primaryKey).Some? {
      PreparedIsPublishable(w.catalog, a.name, a.columns, a.primaryKey);
    }
  }

  /** Everything a caller could check before the append, and what the environment must grant. */
  predicate Creatable(w: Writer, a: Attempt) {
    && !w.stopped
    && a.name !in w.catalog.tableIdsByName
    && w.catalog.nextTableId.Some?
    && ValidDefinition(a.name, a.columns, a.primaryKey)
    && a.timestamp.Some? && a.timestamp.value != 0
  }

  /**
   * A table is created exactly when it is creatable and its record becomes durable; then one record
   * and one visible table are added under the next identity, and nothing else changes. In every
   * other case the visible catalog stays as it was.
   */
  lemma CreatesExactly(w: Writer, a: Attempt)
    requires CatalogInv(w.catalog)
    ensures var r := CreateTable(w, a);
            && (r.answer.Created? <==> Creatable(w, a) && a.append.Durable?)
            && (r.answer == OutcomeUnknown <==> Creatable(w, a) && a.append.Unknown?)
            && (!r.answer.Created? ==> r.writer.catalog == w.catalog)
            && (r.answer.Created? ==>
                  var id := w.catalog.nextTableId.value;
                  var schema := TableSchema(id, a.name, a.columns, a.primaryKey, 1, 1);
                  && id !in w.catalog.tablesById
                  && r.answer == Created(schema, a.timestamp.value)
                  && r.writer.log == w.log + [schema]
                  && !r.writer.stopped
                  && r.writer.catalog == Catalog(w.catalog.tableIdsByName[a.name := id],
                                                 w.catalog.tablesById[id := schema], Next(id)))
  {
    if Prepare(w.catalog, a.name, a.columns, a.primaryKey).Some? {
      PreparedIsPublishable(w.catalog, a.name, a.columns, a.primaryKey);
    }
  }

  // ---------- identities ----------

  /** Identities ascend through the log and stay below the next one to hand out. */
  ghost predicate FreshIds(start: Catalog, w: Writer) {
    && (forall i, j | 0 <= i < j < |w.log| :: w.log[i].id < w.log[j].id)
    && (forall i | 0 <= i < |w.log| :: w.log[i].id !in start.tablesById)
    && (!w.stopped && w.catalog.nextTableId.Some? ==>
          forall i | 0 <= i < |w.log| :: w.log[i].id < w.catalog.nextTableId.value)
    && (forall k | k in start.tablesById :: k in w.catalog.tablesById)
  }

  lemma CreateKeepsFresh(start: Catalog, w: Writer, a: Attempt)
    requires CatalogInv(w.catalog) && FreshIds(start, w)
    ensures FreshIds(start, CreateTable(w, a).writer)
  {
    if !w.stopped && Prepare(w.catalog, a.name, a.columns, a.primaryKey).Some? {
      PreparedIsPublishable(w.catalog, a.name, a.columns, a.primaryKey);
    }
  }

  lemma {:induction false} RunsKeepFresh(start: Catalog, w: Writer, attempts: seq<Attempt>)
    requires Consistent(start, w) && (!w.stopped ==> Recover(start, w.log) == Some(w.catalog))
    requires FreshIds(start, w)
    ensures FreshIds(start, RunWriter(w, attempts))
    decreases |attempts|
  {
    if attempts != [] {
      CreateKeepsConsistent(start, w, attempts[0]);
      CreateKeepsFresh(start, w, attempts[0]);
      RunsKeepFresh(start, CreateTable(w, attempts[0]).writer, attempts[1..]);
    }
  }

  /** Over any run no two log records, and no record and starting table, share an identity. */
  lemma TableIdsAreNeverReused(start: Catalog, attempts: seq<Attempt>)
    requires CatalogInv(start)
    ensures var log := RunWriter(Writer(start, false, []), attempts).log;
            && (forall i, j | 0 <= i < j < |log| :: log[i].id < log[j].id)
            && (forall i | 0 <= i < |log| :: log[i].id !in start.tablesById)
  {
    RunsKeepFresh(start, Writer(start, false, []), attempts);
  }
}
