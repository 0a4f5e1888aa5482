/** Who may read an object without credentials after a run of the store machine, told from the run's events. */
module StoreHistory {
  import opened Outcomes
  import opened ObjectPaths
  import opened ObjectTable
  import opened AccessHistory
  import opened ObjectService
  import opened StoreMachine

  /** The statement an event sends, as one that was not done when it sends none. */
  function StatementOf(d: Deployment, v: View, e: Event): Statement {
    if !Possible(d, v, e) then Statement(e.k, Remove, NotDone)
    else
      match e
      case Commit(k, sql) =>
        var op, ns := v.op.value, Targets(d, k);
        Statement(k, Upsert(Defaulted(op.contentType), |op.data|, d.etag(op.data), ns[0], ns[1]), sql)
      case DeleteRow(k, sql) => Statement(k, Remove, sql)
      case Hide(k, sql) => Statement(k, HideIt, sql)
      case SetPermission(k, permission, sql) => Statement(k, Permit(permission), sql)
      case _ => Statement(e.k, Remove, NotDone)
  }

  function StatementsOf(d: Deployment, es: seq<Event>): (h: seq<Statement>)
    ensures |h| == |es|
  {
    if es == [] then []
    else
      var init, e := es[..|es| - 1], es[|es| - 1];
      StatementsOf(d, init) + [StatementOf(d, ViewOf(After(d, init), e.k), e)]
  }

  lemma RowAfterStep(d: Deployment, s: State, e: Event, k: ObjectKey)
    ensures var st := StatementOf(d, ViewOf(s, e.k), e);
            ViewOf(Step(d, s, e), k).row ==
            if st.k == k && st.sql != NotDone then Changed(ViewOf(s, k).row, st.change) else ViewOf(s, k).row
  {
    hide Targets, NextFiles, FileOf, PutSucceeds, Waiting, Defaulted;
  }

  lemma RowAfterStatement(h: seq<Statement>, st: Statement, k: RawKey)
    ensures RowOf(RowsAfter(h + [st]), k) ==
            if st.k == k && st.sql != NotDone then Changed(RowOf(RowsAfter(h), k), st.change) else RowOf(RowsAfter(h), k)
  {
    hide Changed;
    OneMore(h, st);
  }

  /** Over every run, the row of a key is what the statements of the run leave. */
  lemma {:induction false} RowsAreHistory(d: Deployment, es: seq<Event>, k: ObjectKey)
    ensures ViewOf(After(d, es), k).row == RowOf(RowsAfter(StatementsOf(d, es)), k)
  {
    hide RowsAfter, RowOf, Changed, StatementOf, Step;
    if es == [] {
      NothingStored(k);
    } else {
      var init, e := es[..|es| - 1], es[|es| - 1];
      RowsAreHistory(d, init, k);
      var s := After(d, init);
      RowAfterStep(d, s, e, k);
      RowAfterStatement(StatementsOf(d, init), StatementOf(d, ViewOf(s, e.k), e), k);
    }
  }

  lemma NothingStored(k: RawKey)
    ensures ViewOf(EMPTY, k).row == RowOf(RowsAfter([]), k)
  {}

  // The events that matter

  /** Event i of the run is an upload of k whose row was written. */
  predicate RowWrittenAt(d: Deployment, es: seq<Event>, i: int, k: ObjectKey) {
    0 <= i < |es| && es[i].Commit? && es[i].k == k && es[i].sql != NotDone && Possible(d, ViewOf(After(d, es[..i]), k), es[i])
  }

  /** Event i of the run is a delete of k whose row was removed. */
  predicate RowRemovedAt(d: Deployment, es: seq<Event>, i: int, k: ObjectKey) {
    0 <= i < |es| && es[i].DeleteRow? && es[i].k == k && es[i].sql != NotDone && Possible(d, ViewOf(After(d, es[..i]), k), es[i])
  }

  predicate RowHiddenAt(es: seq<Event>, i: int, k: ObjectKey) {
    0 <= i < |es| && es[i].Hide? && es[i].k == k && es[i].sql != NotDone
  }

  predicate RowPermittedAt(es: seq<Event>, i: int, k: ObjectKey) {
    0 <= i < |es| && es[i].SetPermission? && es[i].k == k && es[i].sql != NotDone
  }

  lemma {:induction false} StatementAt(d: Deployment, es: seq<Event>, i: nat)
    requires i < |es|
    ensures StatementsOf(d, es)[i] == StatementOf(d, ViewOf(After(d, es[..i]), es[i].k), es[i])
  {
    hide StatementOf, ViewOf, After;
    var init := es[..|es| - 1];
    if i < |init| {
      StatementAt(d, init, i);
      assert init[..i] == es[..i] && init[i] == es[i];
    } else {
      assert init == es[..i];
    }
  }

  lemma EventIsStatement(d: Deployment, es: seq<Event>, i: int, k: ObjectKey)
    ensures var h := StatementsOf(d, es);
            && (UpsertAt(h, i, k) <==> RowWrittenAt(d, es, i, k))
            && (RemoveAt(h, i, k) <==> RowRemovedAt(d, es, i, k))
            && (HideAt(h, i, k) <==> RowHiddenAt(es, i, k))
            && (PermitAt(h, i, k) <==> RowPermittedAt(es, i, k))
            && (PermitAt(h, i, k) ==> h[i].change.permission == es[i].permission)
  {
    if 0 <= i < |es| {
      StatementAt(d, es, i);
      TargetsDiffer(d, es[i].k);
      hide Targets, After, Defaulted, ViewOf;
    }
  }

  lemma EventsAreStatements(d: Deployment, es: seq<Event>, k: ObjectKey)
    ensures var h := StatementsOf(d, es);
            && (forall i :: UpsertAt(h, i, k) <==> RowWrittenAt(d, es, i, k))
            && (forall i :: RemoveAt(h, i, k) <==> RowRemovedAt(d, es, i, k))
            && (forall i :: HideAt(h, i, k) <==> RowHiddenAt(es, i, k))
            && (forall i :: PermitAt(h, i, k) <==> RowPermittedAt(es, i, k))
            && (forall i :: PermitAt(h, i, k) ==> h[i].change.permission == es[i].permission)
  {
    hide UpsertAt, RemoveAt, HideAt, RowWrittenAt, RowRemovedAt, RowHiddenAt, StatementsOf;
    forall i
      ensures var h := StatementsOf(d, es);
              && (UpsertAt(h, i, k) <==> RowWrittenAt(d, es, i, k))
              && (RemoveAt(h, i, k) <==> RowRemovedAt(d, es, i, k))
              && (HideAt(h, i, k) <==> RowHiddenAt(es, i, k))
              && (PermitAt(h, i, k) <==> RowPermittedAt(es, i, k))
              && (PermitAt(h, i, k) ==> h[i].change.permission == es[i].permission)
    {
      EventIsStatement(d, es, i, k);
    }
  }

  /** Before event n the object was uploaded and not deleted since. */
  ghost predicate StoredBefore(d: Deployment, es: seq<Event>, n: int, k: ObjectKey) {
    exists i :: RowWrittenAt(d, es, i, k) && i < n && forall j :: i < j < n ==> !RowRemovedAt(d, es, j, k)
  }

  /** The object is stored at event n and visible: no delete or hide follows its last upload. */
  ghost predicate VisibleBefore(d: Deployment, es: seq<Event>, n: int, k: ObjectKey) {
    exists i :: RowWrittenAt(d, es, i, k) && i < n && forall j :: i < j < n ==> !RowRemovedAt(d, es, j, k) && !RowHiddenAt(es, j, k)
  }

  /** The last permission given to the object while it was stored, with no delete since, is public-read. */
  ghost predicate PublicBefore(d: Deployment, es: seq<Event>, n: int, k: ObjectKey) {
    exists i :: RowPermittedAt(es, i, k) && es[i].permission == "public-read" && i < n && StoredBefore(d, es, i, k) &&
                forall j :: i < j < n ==> !RowRemovedAt(d, es, j, k) && !RowPermittedAt(es, j, k)
  }

  lemma StoredIsExists(d: Deployment, es: seq<Event>, n: int, k: ObjectKey)
    ensures StoredBefore(d, es, n, k) <==> ExistsAt(StatementsOf(d, es), n, k)
  {
    hide RowWrittenAt, RowRemovedAt, RowHiddenAt, RowPermittedAt, UpsertAt, RemoveAt, HideAt, PermitAt, StatementsOf;
    EventsAreStatements(d, es, k);
  }

  lemma VisibleIsShown(d: Deployment, es: seq<Event>, n: int, k: ObjectKey)
    ensures VisibleBefore(d, es, n, k) <==> ShownAt(StatementsOf(d, es), n, k)
  {
    hide RowWrittenAt, RowRemovedAt, RowHiddenAt, RowPermittedAt, UpsertAt, RemoveAt, HideAt, PermitAt, StatementsOf;
    EventsAreStatements(d, es, k);
  }

  lemma PublicIsPermitted(d: Deployment, es: seq<Event>, n: int, k: ObjectKey)
    ensures PublicBefore(d, es, n, k) <==> PermittedAt(StatementsOf(d, es), n, k, "public-read")
  {
    hide RowWrittenAt, RowRemovedAt, RowHiddenAt, UpsertAt, RemoveAt, HideAt, StatementsOf, StoredBefore, ExistsAt;
    EventsAreStatements(d, es, k);
    forall i
      ensures StoredBefore(d, es, i, k) <==> ExistsAt(StatementsOf(d, es), i, k)
    {
      StoredIsExists(d, es, i, k);
    }
  }

  /**
   * Over every run, in terms of its events: an object is there exactly when it was uploaded and not
   * deleted since; it is visible exactly when it was not hidden since either; and it is readable
   * without credentials exactly when, besides, it was last made public, while it was stored. So an
   * upload over a hidden object shows it again, and one after a delete starts private.
   */
  lemma PublicAfterRunIff(d: Deployment, es: seq<Event>, k: ObjectKey)
    ensures var row, n := ViewOf(After(d, es), k).row, |es|;
            && (row.Some? <==> StoredBefore(d, es, n, k))
            && (Shown(row) <==> VisibleBefore(d, es, n, k))
            && (PublicGate(row) <==> VisibleBefore(d, es, n, k) && PublicBefore(d, es, n, k))
  {
    hide StatementsOf, RowsAfter, ExistsAt, ShownAt, PermittedAt, StoredBefore, VisibleBefore, PublicBefore;
    var h, n := StatementsOf(d, es), |es|;
    RowsAreHistory(d, es, k);
    RowIsHistory(h, n, k);
    assert h[..n] == h;
    StoredIsExists(d, es, n, k);
    VisibleIsShown(d, es, n, k);
    PublicIsPermitted(d, es, n, k);
  }
}
