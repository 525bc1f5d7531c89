/** The in-memory catalog and its durable writer, updated in place. */
module CatalogMachine {
  import opened Base
  import opened Schema
  import opened CatalogDurability

  class MemoryCatalog {
    var tableIdsByName: map<string, U64>
    var tablesById: map<U64, TableSchema>
    var nextTableId: Option<U64>

    ghost function View(): Catalog
      reads this
    {
      Catalog(tableIdsByName, tablesById, nextTableId)
    }

    constructor ()
      ensures View() == EMPTY_CATALOG && CatalogInv(View())
    {
      tableIdsByName, tablesById, nextTableId := map[], map[], Some(1);
    }

    /** Raise the next identity to a recovered floor; it is never lowered. */
    method RestoreTableIdFloor(floor: U64) returns (ok: bool)
      requires CatalogInv(View())
      modifies this`nextTableId
      ensures CatalogInv(View())
      ensures ok <==> floor != 0 && old(nextTableId).Some?
      ensures !ok ==> nextTableId == old(nextTableId)
      ensures ok ==> nextTableId.Some? && floor <= nextTableId.value && old(nextTableId).value <= nextTableId.value
                     && (nextTableId.value == floor || nextTableId == old(nextTableId))
    {
      if floor == 0 || nextTableId.None? {
        return false;
      }
      nextTableId := Some(Max(nextTableId.value, floor));
      ok := true;
    }

    /** The largest identity this allocator has consumed. */
    method TableIdHighWaterMark() returns (mark: U64)
      requires CatalogInv(View())
      ensures nextTableId.Some? ==> mark + 1 == nextTableId.value
      ensures nextTableId.None? ==> mark == U64_MAX
      ensures forall k | k in tablesById :: k <= mark
    {
      match nextTableId
      case Some(next) => mark := next - 1;
      case None => mark := U64_MAX;
    }

    method PrepareTable(name: string, columns: seq<Column>, primaryKey: seq<U64>) returns (r: Option<TableSchema>)
      ensures r == Prepare(View(), name, columns, primaryKey)
    {
      if name in tableIdsByName {
        return None;
      }
      if nextTableId.None? {
        return None;
      }
      var schema := TableSchema(nextTableId.value, name, columns, primaryKey, 1, 1);
      var valid := ValidateSchema(schema);
      r := if valid then Some(schema) else None;
    }

    method InstallTable(schema: TableSchema) returns (ok: bool)
      modifies this
      ensures (if ok then Some(View()) else None) == Install(old(View()), schema)
      ensures !ok ==> View() == old(View())
    {
      var valid := ValidateSchema(schema);
      if !valid {
        return false;
      }
      if schema.id in tablesById {
        return tablesById[schema.id] == schema;
      }
      if schema.name in tableIdsByName {
        return false;
      }
      var after := Next(schema.id);
      nextTableId := if nextTableId.None? || after.None? then None else Some(Max(nextTableId.value, after.value));
      tableIdsByName := tableIdsByName[schema.name := schema.id];
      tablesById := tablesById[schema.id := schema];
      ok := true;
    }

    method PublishPreparedTable(schema: TableSchema) returns (ok: bool)
      modifies this
      ensures (if ok then Some(View()) else None) == Publish(old(View()), schema)
      ensures !ok ==> View() == old(View())
    {
      if nextTableId.None? || schema.id != nextTableId.value {
        return false;
      }
      if schema.name in tableIdsByName || schema.id in tablesById {
        return false;
      }
      ok := InstallTable(schema);
    }

    /** Prepare and publish at once; a valid request on a free name always succeeds while identities remain. */
    method AddTable(name: string, columns: seq<Column>, primaryKey: seq<U64>) returns (id: Option<U64>)
      requires CatalogInv(View())
      modifies this
      ensures CatalogInv(View())
      ensures id.None? ==> View() == old(View())
      ensures id.Some? <==> name !in old(tableIdsByName) && old(nextTableId).Some? && ValidDefinition(name, columns, primaryKey)
      ensures id.Some? ==>
                && id == old(nextTableId)
                && View().tablesById == old(tablesById)[id.value := TableSchema(id.value, name, columns, primaryKey, 1, 1)]
    {
      var prepared := PrepareTable(name, columns, primaryKey);
      if prepared.None? {
        return None;
      }
      PreparedIsPublishable(View(), name, columns, primaryKey);
      InstallKeepsInv(View(), prepared.value);
      var ok := PublishPreparedTable(prepared.value);
      id := if ok then Some(prepared.value.id) else None;
    }
  }

  /** The durable log as the writer sees it; `records` is what really reached it. */
  class CatalogLog {
    var records: seq<TableSchema>

    constructor ()
      ensures records == []
    {
      records := [];
    }

    /** Append one record; how the append ends is the environment's choice. */
    method AppendUpdate(schema: TableSchema, a: Append) returns (reported: Append)
      modifies this
      ensures records == AppendTo(old(records), schema, a) && reported == a
    {
      if a.Durable? || (a.Unknown? && a.written) {
        records := records + [schema];
      }
      reported := a;
    }
  }

  class DurableCatalog {
    const catalog: MemoryCatalog
    const durableLog: CatalogLog
    var recoveryRequired: bool

    ghost function View(): Writer
      reads this, catalog, durableLog
    {
      Writer(catalog.View(), recoveryRequired, durableLog.records)
    }

    constructor FromRecovered(recovered: MemoryCatalog, log: CatalogLog)
      ensures catalog == recovered && durableLog == log
      ensures View() == Writer(recovered.View(), false, log.records)
    {
      catalog, durableLog, recoveryRequired := recovered, log, false;
    }

    /** Validate, append to the log, then publish; stop for good when the log's answer is unknown. */
    method CreateTable(a: Attempt) returns (answer: Answer)
      modifies this, catalog, durableLog
      ensures WriterStep(View(), answer) == CatalogDurability.CreateTable(old(View()), a)
    {
      if recoveryRequired {
        return RecoveryRequired;
      }
      var prepared := catalog.PrepareTable(a.name, a.columns, a.primaryKey);
      if prepared.None? {
        return Refused;
      }
      if a.timestamp.None? || a.timestamp.value == 0 {
        return Refused;
      }
      var reported := durableLog.AppendUpdate(prepared.value, a.append);
      if reported.Unknown? {
        recoveryRequired := true;
        return OutcomeUnknown;
      }
      if reported.NotStaged? {
        return Refused;
      }
      var published := catalog.PublishPreparedTable(prepared.value);
      if !published {
        answer := StopForRecovery();
        return;
      }
      answer := Created(prepared.value, a.timestamp.value);
    }

    /** Latch the stop; the first reason is the one that stays. */
    method StopForRecovery() returns (answer: Answer)
      modifies this
      ensures recoveryRequired && answer == RecoveryRequired
    {
      recoveryRequired := true;
      answer := RecoveryRequired;
    }
  }
}
