/** Who may read an object without credentials, told from the history of the statements alone. */
module AccessHistory {
  import opened GoStrings
  import opened Outcomes
  import opened ObjectPaths
  import opened HashRing
  import opened ObjectTable

  /** One statement on one row, and whether it took effect. */
  datatype Change =
    | Upsert(contentType: string, sizeBytes: nat, etag: string, primary: Node, replica: Node)
    | HideIt
    | Permit(permission: string)
    | Remove

  datatype Statement = Statement(k: RawKey, change: Change, sql: Effect)

  function Changed(row: Option<Record>, c: Change): Option<Record> {
    match c
    case Upsert(contentType, sizeBytes, etag, primary, replica) =>
      var next := Upserted(row, contentType, sizeBytes, etag, primary, replica);
      if next.Some? then next else row
    case HideIt => HiddenRow(row)
    case Permit(permission) => WithPermission(row, permission)
    case Remove => None
  }

  function RowsAfter(h: seq<Statement>): Rows {
    if h == [] then map[]
    else
      var rows, st := RowsAfter(h[..|h| - 1]), h[|h| - 1];
      if st.sql == NotDone then rows else Updated(rows, st.k, Changed(RowOf(rows, st.k), st.change))
  }

  // The history, read as history

  predicate Took(h: seq<Statement>, i: int, k: RawKey) {
    0 <= i < |h| && h[i].k == k && h[i].sql != NotDone
  }

  predicate UpsertAt(h: seq<Statement>, i: int, k: RawKey) {
    Took(h, i, k) && h[i].change.Upsert? && h[i].change.primary != h[i].change.replica
  }

  predicate RemoveAt(h: seq<Statement>, i: int, k: RawKey) {
    Took(h, i, k) && h[i].change.Remove?
  }

  predicate HideAt(h: seq<Statement>, i: int, k: RawKey) {
    Took(h, i, k) && h[i].change.HideIt?
  }

  predicate PermitAt(h: seq<Statement>, i: int, k: RawKey) {
    Took(h, i, k) && h[i].change.Permit?
  }

  /** At time n the row is there: it was upserted and not removed since. */
  ghost predicate ExistsAt(h: seq<Statement>, n: int, k: RawKey) {
    exists i :: UpsertAt(h, i, k) && i < n && forall j :: i < j < n ==> !RemoveAt(h, j, k)
  }

  /** No hide and no removal follows the last upsert. */
  ghost predicate ShownAt(h: seq<Statement>, n: int, k: RawKey) {
    exists i :: UpsertAt(h, i, k) && i < n && forall j :: i < j < n ==> !RemoveAt(h, j, k) && !HideAt(h, j, k)
  }

  /** The last permission change of the row, made while it existed, and not removed since, is `p`. */
  ghost predicate PermittedAt(h: seq<Statement>, n: int, k: RawKey, p: string) {
    exists i :: PermitAt(h, i, k) && h[i].change.permission == p && i < n && ExistsAt(h, i, k) &&
                forall j :: i < j < n ==> !RemoveAt(h, j, k) && !PermitAt(h, j, k)
  }

  // One more statement

  lemma ExistsNext(h: seq<Statement>, n: nat, k: RawKey)
    ensures ExistsAt(h, n + 1, k) <==> UpsertAt(h, n, k) || (ExistsAt(h, n, k) && !RemoveAt(h, n, k))
  {
    if ExistsAt(h, n, k) && !RemoveAt(h, n, k) {
      var i :| UpsertAt(h, i, k) && i < n && forall j :: i < j < n ==> !RemoveAt(h, j, k);
      assert forall j :: i < j < n + 1 ==> !RemoveAt(h, j, k);
    }
  }

  lemma ShownNext(h: seq<Statement>, n: nat, k: RawKey)
    ensures ShownAt(h, n + 1, k) <==> UpsertAt(h, n, k) || (ShownAt(h, n, k) && !RemoveAt(h, n, k) && !HideAt(h, n, k))
  {
    if ShownAt(h, n, k) && !RemoveAt(h, n, k) && !HideAt(h, n, k) {
      var i :| UpsertAt(h, i, k) && i < n && forall j :: i < j < n ==> !RemoveAt(h, j, k) && !HideAt(h, j, k);
      assert forall j :: i < j < n + 1 ==> !RemoveAt(h, j, k) && !HideAt(h, j, k);
    }
  }

  lemma PermittedNext(h: seq<Statement>, n: nat, k: RawKey, p: string)
    ensures PermittedAt(h, n + 1, k, p) <==>
            || (PermitAt(h, n, k) && h[n].change.permission == p && ExistsAt(h, n, k))
            || (PermittedAt(h, n, k, p) && !RemoveAt(h, n, k) && !PermitAt(h, n, k))
  {
    if PermittedAt(h, n, k, p) && !RemoveAt(h, n, k) && !PermitAt(h, n, k) {
      var i :| PermitAt(h, i, k) && h[i].change.permission == p && i < n && ExistsAt(h, i, k) &&
               forall j :: i < j < n ==> !RemoveAt(h, j, k) && !PermitAt(h, j, k);
      assert forall j :: i < j < n + 1 ==> !RemoveAt(h, j, k) && !PermitAt(h, j, k);
    }
  }

  predicate Public(row: Option<Record>) {
    row.Some? && row.value.permission == "public-read"
  }

  predicate Shown(row: Option<Record>) {
    row.Some? && row.value.visibility == Visible
  }

  lemma ChangedRow(row: Option<Record>, c: Change)
    ensures var next, placed := Changed(row, c), c.Upsert? && c.primary != c.replica;
            && (next.Some? <==> placed || (row.Some? && !c.Remove?))
            && (Shown(next) <==> placed || (Shown(row) && !c.Remove? && !c.HideIt?))
            && (Public(next) <==> (c.Permit? && c.permission == "public-read" && row.Some?) ||
                                  (Public(row) && !c.Remove? && !c.Permit?))
  {}

  lemma RowNext(h: seq<Statement>, n: nat, k: RawKey)
    requires n < |h|
    ensures var was := RowOf(RowsAfter(h[..n]), k);
            RowOf(RowsAfter(h[..n + 1]), k) == if Took(h, n, k) then Changed(was, h[n].change) else was
  {
    hide Changed;
    assert h[..n + 1][..n] == h[..n];
  }

  lemma {:induction false} RowIsHistory(h: seq<Statement>, n: nat, k: RawKey)
    requires n <= |h|
    ensures var row := RowOf(RowsAfter(h[..n]), k);
            && (row.Some? <==> ExistsAt(h, n, k))
            && (Shown(row) <==> ShownAt(h, n, k))
            && (Public(row) <==> PermittedAt(h, n, k, "public-read"))
  {
    if n > 0 {
      var m := n - 1;
      RowIsHistory(h, m, k);
      RowNext(h, m, k);
      ChangedRow(RowOf(RowsAfter(h[..m]), k), h[m].change);
      ExistsNext(h, m, k);
      ShownNext(h, m, k);
      PermittedNext(h, m, k, "public-read");
      hide ExistsAt, ShownAt, PermittedAt, RowsAfter, RowOf, Changed, Shown, Public;
    }
  }

  /**
   * Public access equals history: after any statements on any rows, whether they succeeded, failed
   * or were applied without being reported, `DownloadPublic` lets a key through exactly when its row
   * exists, no hide follows its last upsert, and its last permission change was to public-read.
   */
  lemma PublicAccessEqualsHistory(h: seq<Statement>, k: RawKey)
    ensures PublicGate(RowOf(RowsAfter(h), k)) <==>
            ExistsAt(h, |h|, k) && ShownAt(h, |h|, k) && PermittedAt(h, |h|, k, "public-read")
  {
    RowIsHistory(h, |h|, k);
    assert h[..|h|] == h;
    hide ExistsAt, ShownAt, PermittedAt;
  }

  lemma OneMore(h: seq<Statement>, st: Statement)
    ensures RowsAfter(h + [st]) ==
            if st.sql == NotDone then RowsAfter(h) else Updated(RowsAfter(h), st.k, Changed(RowOf(RowsAfter(h), st.k), st.change))
  {
    assert (h + [st])[..|h|] == h;
  }

  lemma UpsertOnRow(row: Option<Record>, c: Change)
    requires c.Upsert? && c.primary != c.replica
    ensures PublicGate(Changed(row, c)) <==> Public(row)
  {}

  lemma RowOfUpdated(rows: Rows, k: RawKey, row: Option<Record>)
    ensures RowOf(Updated(rows, k, row), k) == row
  {}

  /** An overwrite shows a hidden row again and leaves its permission as it was. */
  lemma OverwriteShowsAgain(h: seq<Statement>, k: RawKey, c: Change, sql: Effect)
    requires c.Upsert? && c.primary != c.replica && sql != NotDone
    ensures PublicGate(RowOf(RowsAfter(h + [Statement(k, c, sql)]), k)) <==> PermittedAt(h, |h|, k, "public-read")
  {
    hide PermittedAt, ExistsAt, ShownAt, RowsAfter, PublicGate, Changed, Updated, RowOf, Public;
    RowIsHistory(h, |h|, k);
    assert h[..|h|] == h;
    OneMore(h, Statement(k, c, sql));
    var row := RowOf(RowsAfter(h), k);
    UpsertOnRow(row, c);
    RowOfUpdated(RowsAfter(h), k, Changed(row, c));
  }

  /**
   * A row removed and uploaded again is private: after a removal the gate stays closed, whatever
   * statements follow, until one of them permits public reading of a row that exists.
   */
  lemma ReuploadIsPrivate(h: seq<Statement>, i: nat, k: RawKey)
    requires RemoveAt(h, i, k)
    requires forall j :: i < j < |h| && PermitAt(h, j, k) && h[j].change.permission == "public-read" ==> !ExistsAt(h, j, k)
    ensures !PublicGate(RowOf(RowsAfter(h), k))
  {
    PublicAccessEqualsHistory(h, k);
    hide RowsAfter, PublicGate, RowOf, ExistsAt, ShownAt;
    forall j | PermitAt(h, j, k) && h[j].change.permission == "public-read" && j < |h| && ExistsAt(h, j, k)
      ensures exists m :: j < m < |h| && RemoveAt(h, m, k)
    {
      assert j < i && RemoveAt(h, i, k);
    }
  }
}
