/** When the bytes on the recorded nodes are the ones the row describes, also after uploads that failed. */
module StoreIntegrity {
  import opened GoStrings
  import opened Outcomes
  import opened HashRing
  import opened ObjectTable
  import opened ObjectService
  import opened StoreMachine

  /** Nothing, or bytes with this etag. */
  predicate Matching(d: Deployment, held: Option<Bytes>, etag: string) {
    held.Some? ==> d.etag(held.value) == etag
  }

  /**
   * While the key has a row: the rollback delete of a recorded node removes the file, unless the file
   * agrees with the row, and the metadata statement is carried out, unless the row already has the new
   * etag.
   */
  predicate Tidy(d: Deployment, files: Files, v: View, e: Event)
    requires Possible(d, v, e)
  {
    match e
    case RollbackDelete(k, removed) =>
      var next := v.op.value.next;
      v.row.Some? && next < 2 ==> removed || Matching(d, Copy(d, files, Targets(d, k)[next], k), v.row.value.etag)
    case Commit(_, sql) => v.row.Some? ==> sql != NotDone || d.etag(v.op.value.data) == v.row.value.etag
    case _ => true
  }

  /** All the key's own events were tidy; what happened to other keys is no matter. */
  predicate TidyRun(d: Deployment, es: seq<Event>, k: ObjectKey) {
    es == [] ||
    var init, e := es[..|es| - 1], es[|es| - 1];
    var s := After(d, init);
    TidyRun(d, init, k) && (e.k == k && Possible(d, ViewOf(s, k), e) ==> Tidy(d, s.files, ViewOf(s, k), e))
  }

  /** The first `n` of the two recorded nodes agree with the etag. */
  predicate FirstMatch(d: Deployment, files: Files, k: ObjectKey, etag: string, n: nat) {
    forall i: nat :: i < n && i < 2 && i < |Targets(d, k)| ==> Matching(d, Copy(d, files, Targets(d, k)[i], k), etag)
  }

  predicate KeyMatch(d: Deployment, files: Files, k: ObjectKey, v: View) {
    v.row.Some? ==>
      match v.op
      case None => FirstMatch(d, files, k, v.row.value.etag, 2)
      case Some(Putting(_, _, _, _)) => true
      case Some(Committing(_, _)) => true
      case Some(RollingBack(next)) => FirstMatch(d, files, k, v.row.value.etag, next)
      case Some(Deleting(_, _, _)) => FirstMatch(d, files, k, v.row.value.etag, 2)
  }

  lemma FirstMatchFrame(d: Deployment, files: Files, files': Files, k: ObjectKey, etag: string, n: nat)
    requires FirstMatch(d, files, k, etag, n)
    requires forall x :: Copy(d, files', x, k) == Copy(d, files, x, k) || Copy(d, files', x, k) == None
    ensures FirstMatch(d, files', k, etag, n)
  {
    hide Copy, Targets;
  }

  lemma StoredMatch(d: Deployment, files: Files, k: ObjectKey, data: Bytes)
    requires Stores(d, files, k, data)
    ensures FirstMatch(d, files, k, d.etag(data), 2)
  {
    hide Copy, Targets;
  }

  lemma MatchCommit(d: Deployment, files: Files, v: View, k: ObjectKey, sql: Effect)
    requires Possible(d, v, Commit(k, sql)) && Tidy(d, files, v, Commit(k, sql))
    requires Stores(d, files, k, v.op.value.data)
    ensures KeyMatch(d, files, k, NextView(d, v, Commit(k, sql)))
  {
    StoredMatch(d, files, k, v.op.value.data);
    TargetsDiffer(d, k);
    assert Targets(d, k)[0] != Targets(d, k)[1];
    hide Copy, Targets, Stores, FirstMatch, Defaulted, NoRepeats;
  }

  lemma MatchMetadata(d: Deployment, files: Files, v: View, e: Event)
    requires (e.Hide? || e.SetPermission?) && KeyMatch(d, files, e.k, v)
    ensures KeyMatch(d, files, e.k, NextView(d, v, e))
  {
    hide Copy, Targets, FirstMatch;
  }

  lemma MatchOther(d: Deployment, files: Files, v: View, e: Event)
    requires (e.BeginUpload? || e.BeginDelete? || e.DeleteRow?) && Possible(d, v, e) && KeyMatch(d, files, e.k, v)
    ensures KeyMatch(d, files, e.k, NextView(d, v, e))
  {
    hide Copy, Targets, FirstMatch, Waiting;
  }

  lemma MatchQuiet(d: Deployment, files: Files, v: View, e: Event)
    requires !TouchesFiles(e) && Possible(d, v, e) && Tidy(d, files, v, e)
    requires KeyInv(d, files, e.k, v) && KeyMatch(d, files, e.k, v)
    ensures KeyMatch(d, files, e.k, NextView(d, v, e))
  {
    hide Copy, Targets, Stores, KeyMatch, NextView, Tidy, Placed, Describes;
    if e.Commit? {
      MatchCommit(d, files, v, e.k, e.sql);
    } else if e.Hide? || e.SetPermission? {
      MatchMetadata(d, files, v, e);
    } else {
      MatchOther(d, files, v, e);
    }
  }

  lemma MatchRollback(d: Deployment, files: Files, files': Files, v: View, k: ObjectKey, removed: bool)
    requires var e := RollbackDelete(k, removed);
             && Possible(d, v, e) && Tidy(d, files, v, e) && KeyMatch(d, files, k, v)
             && forall n :: Copy(d, files', n, k) == NextCopy(d, Copy(d, files, n, k), n, v, e)
    ensures KeyMatch(d, files', k, NextView(d, v, RollbackDelete(k, removed)))
  {
    hide Copy, Targets;
    if v.row.Some? {
      var etag, next := v.row.value.etag, v.op.value.next;
      FirstMatchFrame(d, files, files', k, etag, next);
      assert FirstMatch(d, files', k, etag, next + 1);
    }
  }

  lemma MatchDeleteCopy(d: Deployment, files: Files, files': Files, v: View, k: ObjectKey, removed: bool)
    requires var e := DeleteCopy(k, removed);
             && Possible(d, v, e) && KeyMatch(d, files, k, v)
             && forall n :: Copy(d, files', n, k) == NextCopy(d, Copy(d, files, n, k), n, v, e)
    ensures KeyMatch(d, files', k, NextView(d, v, DeleteCopy(k, removed)))
  {
    hide Copy, Targets, FirstMatch;
    if v.row.Some? {
      FirstMatchFrame(d, files, files', k, v.row.value.etag, 2);
    }
  }

  lemma MatchPut(d: Deployment, files': Files, v: View, e: Event)
    requires e.PutReturns? && Possible(d, v, e)
    ensures KeyMatch(d, files', e.k, NextView(d, v, e))
  {
    hide Copy, Targets, FileOf, PutSucceeds;
  }

  lemma MatchStep(d: Deployment, files: Files, v: View, e: Event)
    requires Possible(d, v, e) && Tidy(d, files, v, e)
    requires KeyInv(d, files, e.k, v) && KeyMatch(d, files, e.k, v)
    ensures KeyMatch(d, NextFiles(d, files, v, e), e.k, NextView(d, v, e))
  {
    var files' := NextFiles(d, files, v, e);
    CopyAfterStep(d, files, v, e);
    hide Copy, Targets, KeyInv, KeyMatch, NextView, Tidy;
    match e
    case PutReturns(_, _, _) => MatchPut(d, files', v, e);
    case RollbackDelete(k, removed) => MatchRollback(d, files, files', v, k, removed);
    case DeleteCopy(k, removed) => MatchDeleteCopy(d, files, files', v, k, removed);
    case _ => MatchQuiet(d, files, v, e);
  }

  lemma MatchFrame(d: Deployment, files: Files, files': Files, k: ObjectKey, v: View)
    requires KeyMatch(d, files, k, v) && forall n :: Copy(d, files', n, k) == Copy(d, files, n, k)
    ensures KeyMatch(d, files', k, v)
  {
    hide Copy, Targets;
  }

  lemma {:induction false} TidyRunsKeepMatch(d: Deployment, es: seq<Event>, k: ObjectKey)
    requires TidyRun(d, es, k)
    ensures KeyMatch(d, After(d, es).files, k, ViewOf(After(d, es), k))
  {
    if es != [] {
      var init, e := es[..|es| - 1], es[|es| - 1];
      var s, v := After(d, init), ViewOf(After(d, init), e.k);
      TidyRunsKeepMatch(d, init, k);
      RunsKeepInv(d, init);
      hide Copy, KeyInv, KeyMatch, NextView, Tidy;
      if Possible(d, v, e) {
        CopyAfterStep(d, s.files, v, e);
        hide NextCopy, NextFiles;
        if e.k == k {
          MatchStep(d, s.files, v, e);
        } else {
          MatchFrame(d, s.files, After(d, es).files, k, ViewOf(s, k));
        }
      }
    }
  }

  /** The recorded nodes of the key, if it is idle and has a row, hold nothing or bytes with the row's etag. */
  predicate RecordedMatch(d: Deployment, s: State, k: ObjectKey) {
    var v := ViewOf(s, k);
    v.op.None? && v.row.Some? ==>
      var r := v.row.value;
      Matching(d, Copy(d, s.files, r.primary, k), r.etag) && Matching(d, Copy(d, s.files, r.replica, k), r.etag)
  }

  lemma RecordedAreFirst(d: Deployment, s: State, k: ObjectKey)
    requires KeyInv(d, s.files, k, ViewOf(s, k)) && ViewOf(s, k).op.None? && ViewOf(s, k).row.Some?
    ensures RecordedMatch(d, s, k) <==> FirstMatch(d, s.files, k, ViewOf(s, k).row.value.etag, 2)
  {
    hide Copy, Targets, Matching, ViewOf;
    var ns := Targets(d, k);
    assert FirstMatch(d, s.files, k, ViewOf(s, k).row.value.etag, 2) <==>
           Matching(d, Copy(d, s.files, ns[0], k), ViewOf(s, k).row.value.etag) && Matching(d, Copy(d, s.files, ns[1], k), ViewOf(s, k).row.value.etag);
  }

  lemma RecordedCopiesMatch(d: Deployment, es: seq<Event>, k: ObjectKey)
    requires TidyRun(d, es, k)
    ensures RecordedMatch(d, After(d, es), k)
  {
    TidyRunsKeepMatch(d, es, k);
    RunsKeepInv(d, es);
    hide After, FirstMatch, TidyRun, KeyInv;
    assert KeyInv(d, After(d, es).files, k, ViewOf(After(d, es), k));
    if ViewOf(After(d, es), k).op.None? && ViewOf(After(d, es), k).row.Some? {
      RecordedAreFirst(d, After(d, es), k);
    }
  }

  // An untidy event leaves a mismatch that is seen when the key is idle again

  /** A recorded node whose rollback delete is past holds bytes that are not the row's. */
  predicate Doomed(d: Deployment, files: Files, k: ObjectKey, v: View) {
    v.row.Some? && v.op.Some? && v.op.value.RollingBack? && !FirstMatch(d, files, k, v.row.value.etag, v.op.value.next)
  }

  predicate Mismatched(d: Deployment, files: Files, k: ObjectKey, v: View) {
    v.row.Some? && v.op.None? && !FirstMatch(d, files, k, v.row.value.etag, 2)
  }

  lemma UntidyRollback(d: Deployment, files: Files, v: View, k: ObjectKey, removed: bool)
    requires var e := RollbackDelete(k, removed); Possible(d, v, e) && !Tidy(d, files, v, e)
    ensures var e := RollbackDelete(k, removed);
            var files', v' := NextFiles(d, files, v, e), NextView(d, v, e);
            Doomed(d, files', k, v') || Mismatched(d, files', k, v')
  {
    hide Copy, Targets, Matching;
    var next, etag := v.op.value.next, v.row.value.etag;
    assert NextFiles(d, files, v, RollbackDelete(k, removed)) == files;
    assert !FirstMatch(d, files, k, etag, next + 1) && !FirstMatch(d, files, k, etag, 2);
  }

  lemma UntidyCommit(d: Deployment, files: Files, v: View, k: ObjectKey, sql: Effect)
    requires Possible(d, v, Commit(k, sql)) && !Tidy(d, files, v, Commit(k, sql))
    requires Stores(d, files, k, v.op.value.data)
    ensures Mismatched(d, files, k, NextView(d, v, Commit(k, sql)))
  {
    hide Copy, Targets, Upserted, Defaulted;
    assert Copy(d, files, Targets(d, k)[0], k) == Some(v.op.value.data);
    assert !FirstMatch(d, files, k, v.row.value.etag, 2);
  }

  lemma UntidyDooms(d: Deployment, files: Files, v: View, e: Event)
    requires Possible(d, v, e) && !Tidy(d, files, v, e) && KeyInv(d, files, e.k, v)
    ensures var files', v' := NextFiles(d, files, v, e), NextView(d, v, e);
            Doomed(d, files', e.k, v') || Mismatched(d, files', e.k, v')
  {
    hide Copy, Targets, NextView, Doomed, Mismatched, Stores;
    if e.Commit? {
      UntidyCommit(d, files, v, e.k, e.sql);
    } else {
      UntidyRollback(d, files, v, e.k, e.removed);
    }
  }

  lemma DoomedRollback(d: Deployment, files: Files, files': Files, v: View, k: ObjectKey, removed: bool)
    requires var e := RollbackDelete(k, removed);
             && Possible(d, v, e) && Doomed(d, files, k, v)
             && forall n :: Copy(d, files', n, k) == NextCopy(d, Copy(d, files, n, k), n, v, e)
    ensures var v' := NextView(d, v, RollbackDelete(k, removed)); Doomed(d, files', k, v') || Mismatched(d, files', k, v')
  {
    var ns, next, etag := Targets(d, k), v.op.value.next, v.row.value.etag;
    TargetsDiffer(d, k);
    hide Copy, Targets, Matching;
    var i: nat :| i < next && i < 2 && i < |ns| && !Matching(d, Copy(d, files, ns[i], k), etag);
    assert ns[i] != ns[next];
    assert !FirstMatch(d, files', k, etag, next + 1) && !FirstMatch(d, files', k, etag, 2);
  }

  lemma DoomedMetadata(d: Deployment, files: Files, v: View, e: Event)
    requires (e.Hide? || e.SetPermission?) && Doomed(d, files, e.k, v)
    ensures Doomed(d, files, e.k, NextView(d, v, e))
  {
    hide Copy, Targets, FirstMatch;
  }

  lemma DoomedFrame(d: Deployment, files: Files, files': Files, k: ObjectKey, v: View)
    requires Doomed(d, files, k, v) && forall n :: Copy(d, files', n, k) == Copy(d, files, n, k)
    ensures Doomed(d, files', k, v)
  {
    hide Copy, Targets;
  }

  lemma DoomStays(d: Deployment, s: State, e: Event, k: ObjectKey)
    requires Doomed(d, s.files, k, ViewOf(s, k))
    ensures var s' := Step(d, s, e); Doomed(d, s'.files, k, ViewOf(s', k)) || Mismatched(d, s'.files, k, ViewOf(s', k))
  {
    var v, s' := ViewOf(s, e.k), Step(d, s, e);
    hide Copy, NextView, Mismatched, Targets;
    if Possible(d, v, e) {
      CopyAfterStep(d, s.files, v, e);
      if e.k != k {
        DoomedFrame(d, s.files, s'.files, k, ViewOf(s, k));
      } else if e.RollbackDelete? {
        DoomedRollback(d, s.files, s'.files, v, k, e.removed);
      } else {
        DoomedMetadata(d, s.files, v, e);
      }
    }
    hide NextFiles, NextCopy, Doomed;
  }

  lemma WholeRun(d: Deployment, es: seq<Event>)
    ensures After(d, es[..|es|]) == After(d, es)
  {
    assert es[..|es|] == es;
  }

  lemma MismatchIsRecorded(d: Deployment, es: seq<Event>, k: ObjectKey)
    requires Mismatched(d, After(d, es).files, k, ViewOf(After(d, es), k))
    ensures !RecordedMatch(d, After(d, es), k)
  {
    RunsKeepInv(d, es);
    hide After, FirstMatch, KeyInv;
    assert KeyInv(d, After(d, es).files, k, ViewOf(After(d, es), k));
    RecordedAreFirst(d, After(d, es), k);
  }

  lemma {:induction false} DoomIsSeen(d: Deployment, es: seq<Event>, m: nat, k: ObjectKey) returns (i: nat)
    requires m <= |es| && ViewOf(After(d, es), k).op.None?
    requires var s := After(d, es[..m]); Doomed(d, s.files, k, ViewOf(s, k)) || Mismatched(d, s.files, k, ViewOf(s, k))
    ensures i <= |es| && !RecordedMatch(d, After(d, es[..i]), k)
    decreases |es| - m
  {
    hide After, FirstMatch, RecordedMatch, Step, ViewOf;
    var s := After(d, es[..m]);
    i := m;
    if Mismatched(d, s.files, k, ViewOf(s, k)) {
      MismatchIsRecorded(d, es[..m], k);
    } else {
      WholeRun(d, es);
      AfterNext(d, es, m);
      DoomStays(d, s, es[m], k);
      i := DoomIsSeen(d, es, m + 1, k);
    }
  }

  lemma {:induction false} UntidyEvent(d: Deployment, es: seq<Event>, k: ObjectKey) returns (m: nat)
    requires !TidyRun(d, es, k)
    ensures m < |es| && es[m].k == k
    ensures var s := After(d, es[..m]); Possible(d, ViewOf(s, k), es[m]) && !Tidy(d, s.files, ViewOf(s, k), es[m])
  {
    hide After, Tidy, Possible;
    var init := es[..|es| - 1];
    if !TidyRun(d, init, k) {
      m := UntidyEvent(d, init, k);
      assert init[..m] == es[..m];
    } else {
      m := |es| - 1;
    }
  }

  lemma {:induction false} TidyPrefix(d: Deployment, es: seq<Event>, i: nat, k: ObjectKey)
    requires i <= |es| && TidyRun(d, es, k)
    ensures TidyRun(d, es[..i], k)
  {
    hide After, Tidy, Possible;
    if i < |es| {
      TidyPrefix(d, es[..|es| - 1], i, k);
      assert es[..|es| - 1][..i] == es[..i];
    } else {
      assert es[..i] == es;
    }
  }

  lemma UntidyIsSeen(d: Deployment, es: seq<Event>, k: ObjectKey) returns (i: nat)
    requires !TidyRun(d, es, k) && ViewOf(After(d, es), k).op.None?
    ensures i <= |es| && !RecordedMatch(d, After(d, es[..i]), k)
  {
    var m := UntidyEvent(d, es, k);
    var s := After(d, es[..m]);
    RunsKeepInv(d, es[..m]);
    hide After, TidyRun, RecordedMatch, Tidy, Possible, KeyInv, NextFiles, NextView, Doomed, Mismatched;
    assert KeyInv(d, s.files, k, ViewOf(s, k));
    UntidyDooms(d, s.files, ViewOf(s, k), es[m]);
    AfterNext(d, es, m);
    i := DoomIsSeen(d, es, m + 1, k);
  }

  /**
   * The exact condition: over any run that leaves the key idle, the recorded nodes agree with the row
   * whenever the key was idle, if and only if all the key's own events were tidy. Neither its puts and
   * deletes nor what happened to other keys matters.
   */
  lemma RecordedCopiesMatchIff(d: Deployment, es: seq<Event>, k: ObjectKey)
    requires ViewOf(After(d, es), k).op.None?
    ensures (forall i: nat :: i <= |es| ==> RecordedMatch(d, After(d, es[..i]), k)) <==> TidyRun(d, es, k)
  {
    hide After, TidyRun, RecordedMatch, ViewOf;
    if TidyRun(d, es, k) {
      forall i: nat | i <= |es|
        ensures RecordedMatch(d, After(d, es[..i]), k)
      {
        TidyPrefix(d, es, i, k);
        RecordedCopiesMatch(d, es[..i], k);
      }
    } else {
      var i := UntidyIsSeen(d, es, k);
    }
  }

  /** The condition is needed: a lost statement leaves new bytes under the old row's etag on every target. */
  lemma LostStatementMismatches(d: Deployment, was: Files, now: Files, rowsWas: Rows, rowsNow: Rows, e: Option<Error>, k: ObjectKey,
                                contentType: string, data: Bytes, puts: seq<PutOutcome>, removed: seq<bool>)
    requires |puts| == |removed| == |Targets(d, k)| >= 2 && k in rowsWas && d.etag(data) != rowsWas[k].etag
    requires !SomePutFails(Places(d, Targets(d, k), k), puts)
    requires Uploaded(d, was, now, rowsWas, rowsNow, e, k, contentType, data, puts, removed, NotDone)
    ensures k in rowsNow && rowsNow[k] == rowsWas[k]
    ensures forall n :: n in Targets(d, k) ==> Copy(d, now, n, k) == Some(data) && !Matching(d, Copy(d, now, n, k), rowsNow[k].etag)
  {
    hide FileOf;
    var ns := Targets(d, k);
    var ls := Places(d, ns, k);
    forall n | n in ns
      ensures Copy(d, now, n, k) == Some(data)
    {
      var i :| 0 <= i < |ns| && ns[i] == n;
      assert PutSucceeds(ls[i], puts[i]);
    }
  }
}
