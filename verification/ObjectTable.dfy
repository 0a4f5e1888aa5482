/** The `objects` and `object_placements` tables as one map from owner and key to a row. */
module ObjectTable {
  import opened GoStrings
  import opened Outcomes
  import opened ObjectPaths
  import opened HashRing

  datatype Visibility = Visible | Hidden

  datatype Record = Record(contentType: string, sizeBytes: nat, etag: string, permission: string,
                           visibility: Visibility, primary: Node, replica: Node)

  type Rows = map<RawKey, Record>

  /** The row the upsert leaves; `None` when the CHECK on the two placement columns refuses it. */
  function Upserted(row: Option<Record>, contentType: string, sizeBytes: nat, etag: string, primary: Node, replica: Node): Option<Record> {
    if primary == replica then None
    else
      var permission := if row.Some? then row.value.permission else "private-read";
      Some(Record(contentType, sizeBytes, etag, permission, Visible, primary, replica))
  }

  function HiddenRow(row: Option<Record>): Option<Record> {
    if row.Some? then Some(row.value.(visibility := Hidden)) else None
  }

  function WithPermission(row: Option<Record>, permission: string): Option<Record> {
    if row.Some? then Some(row.value.(permission := permission)) else None
  }

  function RowOf(rows: Rows, k: RawKey): Option<Record> {
    if k in rows then Some(rows[k]) else None
  }

  /** The table with the row of one key replaced, or removed. */
  function Updated(rows: Rows, k: RawKey, row: Option<Record>): Rows {
    if row.Some? then rows[k := row.value] else rows - {k}
  }

  /** The rows `DownloadPublic` lets through. */
  predicate PublicGate(row: Option<Record>) {
    row.Some? && row.value.permission == "public-read" && row.value.visibility == Visible
  }

  /** What a boolean-returning statement reports: an error, or whether it found its row. */
  datatype Report = Failed | Found(ok: bool)

  class Table {
    var rows: Rows

    constructor ()
      ensures rows == map[]
    {
      rows := map[];
    }

    method UpsertObject(k: RawKey, contentType: string, sizeBytes: nat, etag: string, primary: Node, replica: Node, sql: Effect)
      returns (ok: bool)
      modifies this
      ensures var next := Upserted(RowOf(old(rows), k), contentType, sizeBytes, etag, primary, replica);
              && rows == (if next.Some? && sql != NotDone then Updated(old(rows), k, next) else old(rows))
              && ok == (next.Some? && sql == Done)
      ensures ok ==> primary != replica && k in rows &&
                     rows[k] == Record(contentType, sizeBytes, etag, if k in old(rows) then old(rows)[k].permission else "private-read",
                                       Visible, primary, replica)
      ensures rows - {k} == old(rows) - {k}
    {
      if primary == replica || sql == NotDone {
        return false;
      }
      if k in rows {
        var r := rows[k];
        rows := rows[k := r.(contentType := contentType, sizeBytes := sizeBytes, etag := etag,
                             visibility := Visible, primary := primary, replica := replica)];
      } else {
        rows := rows[k := Record(contentType, sizeBytes, etag, "private-read", Visible, primary, replica)];
      }
      return sql == Done;
    }

    /** The row is hidden before the audit event is written, so a failed audit hides it too. */
    method HideByOwnerAndKey(k: RawKey, sql: Effect, auditOk: bool) returns (report: Report)
      modifies this
      ensures rows == if sql == NotDone then old(rows) else Updated(old(rows), k, HiddenRow(RowOf(old(rows), k)))
      ensures report == Found(true) ==> k in old(rows) && rows == old(rows)[k := old(rows)[k].(visibility := Hidden)]
      ensures report == if sql != Done then Failed else if k !in old(rows) then Found(false)
                        else if auditOk then Found(true) else Failed
    {
      if sql == NotDone {
        return Failed;
      }
      var found := k in rows;
      if found {
        rows := rows[k := rows[k].(visibility := Hidden)];
      }
      if sql == DoneUnreported {
        return Failed;
      }
      if !found {
        return Found(false);
      }
      if !auditOk {
        return Failed;
      }
      return Found(true);
    }

    method SetPermissionByOwnerAndKey(k: RawKey, permission: string, sql: Effect) returns (report: Report)
      modifies this
      ensures rows == if sql == NotDone then old(rows)
                      else Updated(old(rows), k, WithPermission(RowOf(old(rows), k), permission))
      ensures report == Found(true) ==> k in old(rows) && rows == old(rows)[k := old(rows)[k].(permission := permission)]
      ensures report == if sql == Done then Found(k in old(rows)) else Failed
    {
      if sql == NotDone {
        return Failed;
      }
      var found := k in rows;
      if found {
        rows := rows[k := rows[k].(permission := permission)];
      }
      return if sql == Done then Found(found) else Failed;
    }

    method DeleteByOwnerAndKey(k: RawKey, sql: Effect) returns (report: Report)
      modifies this
      ensures rows == if sql == NotDone then old(rows) else Updated(old(rows), k, None)
      ensures report == Found(true) ==> k in old(rows) && rows == old(rows) - {k}
      ensures report == if sql == Done then Found(k in old(rows)) else Failed
    {
      if sql == NotDone {
        return Failed;
      }
      var found := k in rows;
      rows := rows - {k};
      return if sql == Done then Found(found) else Failed;
    }
  }
}
