/**
 * The methods of `ObjectService` and the steps of `StoreMachine` are the same program: a request
 * that nothing interrupts is a run of the machine and leaves what the method's contract says.
 */
module StoreRefinement {
  import opened GoStrings
  import opened Outcomes
  import opened ObjectPaths
  import opened RingProperties
  import opened ObjectTable
  import opened ObjectService
  import opened StoreMachine

  function From(d: Deployment, s: State, es: seq<Event>): State {
    if es == [] then s else Step(d, From(d, s, es[..|es| - 1]), es[|es| - 1])
  }

  lemma {:induction false} FromAfter(d: Deployment, es: seq<Event>, more: seq<Event>)
    ensures After(d, es + more) == From(d, After(d, es), more)
  {
    hide Step;
    if more == [] {
      assert es + more == es;
    } else {
      FromAfter(d, es, more[..|more| - 1]);
      InitConcat(es, more);
    }
  }

  lemma FromOne(d: Deployment, s: State, es: seq<Event>, e: Event)
    ensures From(d, s, es + [e]) == Step(d, From(d, s, es), e)
  {
    assert (es + [e])[..|es|] == es;
  }

  lemma {:induction false} FromConcat(d: Deployment, s: State, es: seq<Event>, more: seq<Event>)
    ensures From(d, s, es + more) == From(d, From(d, s, es), more)
  {
    hide Step;
    if more == [] {
      assert es + more == es;
    } else {
      FromConcat(d, s, es, more[..|more| - 1]);
      InitConcat(es, more);
    }
  }

  // The puts, in the order they return

  function PutEvents(k: ObjectKey, order: seq<nat>, puts: seq<PutOutcome>, j: nat): seq<Event>
    requires Indices(order, |puts|) && j <= |order|
  {
    if j == 0 then [] else PutEvents(k, order, puts, j - 1) + [PutReturns(k, order[j - 1], puts[order[j - 1]])]
  }

  function Finished(order: seq<nat>, j: nat): (f: set<nat>)
    requires j <= |order|
    ensures forall i: nat :: i in f <==> i in order[..j]
  {
    if j == 0 then {} else
      assert order[..j] == order[..j - 1] + [order[j - 1]];
      Finished(order, j - 1) + {order[j - 1]}
  }

  function AnyFailed(ls: seq<Option<Location>>, puts: seq<PutOutcome>, order: seq<nat>, j: nat): bool
    requires |puts| == |ls| && Indices(order, |ls|) && j <= |order|
  {
    j > 0 && (AnyFailed(ls, puts, order, j - 1) || !PutSucceeds(ls[order[j - 1]], puts[order[j - 1]]))
  }

  lemma OneMoreResult(was: seq<bool>, ok: bool)
    ensures var now := was + [ok];
            (exists i :: 0 <= i < |now| && !now[i]) <==> !ok || exists i :: 0 <= i < |was| && !was[i]
  {
    var now := was + [ok];
    assert now[|was|] == ok;
    assert forall i :: 0 <= i < |was| ==> now[i] == was[i];
  }

  lemma {:induction false} AnyFailedInResults(ls: seq<Option<Location>>, puts: seq<PutOutcome>, order: seq<nat>, j: nat)
    requires |puts| == |ls| && Indices(order, |ls|) && j <= |order|
    ensures AnyFailed(ls, puts, order, j) <==> exists i :: 0 <= i < |Results(ls, puts, order, j)| && !Results(ls, puts, order, j)[i]
  {
    if j > 0 {
      AnyFailedInResults(ls, puts, order, j - 1);
      var ok := PutSucceeds(ls[order[j - 1]], puts[order[j - 1]]);
      OneMoreResult(Results(ls, puts, order, j - 1), ok);
      assert Results(ls, puts, order, j) == Results(ls, puts, order, j - 1) + [ok];
      hide Results, PutSucceeds;
    }
  }

  function WaitingOp(contentType: string, data: Bytes, n: nat, order: seq<nat>, j: nat, failed: bool): Op
    requires j <= |order|
  {
    if j < n then Putting(contentType, data, Waiting(n) - Finished(order, j), failed)
    else if failed then RollingBack(0)
    else Committing(contentType, data)
  }

  lemma WaitingNext(n: nat, order: seq<nat>, j: nat)
    requires Schedule(order, n) && j < n
    ensures order[j] in Waiting(n) - Finished(order, j)
    ensures Waiting(n) - Finished(order, j) - {order[j]} == Waiting(n) - Finished(order, j + 1)
    ensures Waiting(n) - Finished(order, j + 1) == {} <==> j + 1 == n
  {
    if j + 1 < n {
      assert order[j + 1] in Waiting(n) - Finished(order, j + 1);
    } else {
      assert order[..n] == order;
    }
  }

  lemma WaitingOpNext(contentType: string, data: Bytes, n: nat, order: seq<nat>, j: nat, failed: bool, ok: bool)
    requires Schedule(order, n) && j < n
    ensures var op := WaitingOp(contentType, data, n, order, j, failed);
            && op.Putting? && order[j] in op.waiting && order[j] < n
            && AfterPutReturns(op, order[j], ok) == WaitingOp(contentType, data, n, order, j + 1, failed || !ok)
  {
    WaitingNext(n, order, j);
    hide Waiting, Finished;
  }

  /** After `j` of the puts: the operation waits for the others, and the files are as after those puts. */
  ghost predicate PutsReturned(d: Deployment, s: State, now: State, k: ObjectKey, contentType: string, data: Bytes,
                               order: seq<nat>, puts: seq<PutOutcome>, j: nat)
    requires |puts| == |Targets(d, k)| && Indices(order, |puts|) && j <= |order|
  {
    var ls := Places(d, Targets(d, k), k);
    && ViewOf(now, k) == ViewOf(s, k).(op := Some(WaitingOp(contentType, data, |puts|, order, j, AnyFailed(ls, puts, order, j))))
    && Reflects(s.files, now.files, ls, Arrived(s.files, ls, data, puts, order, j))
    && forall k' :: k' != k ==> ViewOf(now, k') == ViewOf(s, k')
  }

  lemma StepOf(d: Deployment, now: State, e: Event)
    requires Possible(d, ViewOf(now, e.k), e)
    ensures var v, next := ViewOf(now, e.k), Step(d, now, e);
            && next.files == NextFiles(d, now.files, v, e) && ViewOf(next, e.k) == NextView(d, v, e)
            && forall k' :: k' != e.k ==> ViewOf(next, k') == ViewOf(now, k')
  {
    hide Possible, NextFiles, NextView;
  }

  lemma PutView(d: Deployment, files: Files, v: View, k: ObjectKey, i: nat, o: PutOutcome)
    requires v.op.Some? && v.op.value.Putting? && i in v.op.value.waiting && i < |Targets(d, k)|
    ensures var e, l := PutReturns(k, i, o), FileOf(d, Targets(d, k)[i], k);
            && Possible(d, v, e)
            && NextView(d, v, e) == v.(op := Some(AfterPutReturns(v.op.value, i, PutSucceeds(l, o))))
            && NextFiles(d, files, v, e) == AfterPut(files, l, v.op.value.data, o)
  {
    hide Targets, FileOf, AfterPutReturns, PutSucceeds, AfterPut;
  }

  lemma PutsApart(d: Deployment, k: ObjectKey)
    ensures Separate(Places(d, Targets(d, k), k))
    ensures forall i :: 0 <= i < |Targets(d, k)| ==> Places(d, Targets(d, k), k)[i] == FileOf(d, Targets(d, k)[i], k)
  {
    TargetsDiffer(d, k);
    PlacesSeparate(d, Targets(d, k), k);
  }

  lemma OnePutReturns(d: Deployment, s: State, now: State, k: ObjectKey, contentType: string, data: Bytes,
                      order: seq<nat>, puts: seq<PutOutcome>, j: nat)
    requires |puts| == |Targets(d, k)| && Schedule(order, |puts|) && Indices(order, |puts|) && j < |order| == |puts|
    requires PutsReturned(d, s, now, k, contentType, data, order, puts, j)
    ensures PutsReturned(d, s, Step(d, now, PutReturns(k, order[j], puts[order[j]])), k, contentType, data, order, puts, j + 1)
  {
    hide Targets, FileOf, Places, AfterPut, PutSucceeds, Separate, Reflects, Arrived, Schedule, WaitingOp, AfterPutReturns,
         Possible, Step, NextView, NextFiles, ViewOf, PutLeaves;
    var ns, t := Targets(d, k), order[j];
    var ls, v := Places(d, ns, k), ViewOf(now, k);
    PutsApart(d, k);
    WaitingOpNext(contentType, data, |puts|, order, j, AnyFailed(ls, puts, order, j), PutSucceeds(ls[t], puts[t]));
    PutView(d, now.files, v, k, t, puts[t]);
    StepOf(d, now, PutReturns(k, t, puts[t]));
    ArrivalReflects(s.files, now.files, ls, data, puts, order, j);
    WaitingOpData(contentType, data, |puts|, order, j, AnyFailed(ls, puts, order, j));
  }

  lemma WaitingOpData(contentType: string, data: Bytes, n: nat, order: seq<nat>, j: nat, failed: bool)
    requires j <= |order| && j < n
    ensures WaitingOp(contentType, data, n, order, j, failed).Putting? && WaitingOp(contentType, data, n, order, j, failed).data == data
  {}

  lemma {:induction false} PutsReturn(d: Deployment, s: State, now: State, k: ObjectKey, contentType: string, data: Bytes,
                                      order: seq<nat>, puts: seq<PutOutcome>, j: nat)
    requires |puts| == |Targets(d, k)| && Schedule(order, |puts|) && Indices(order, |puts|) && j <= |order| == |puts|
    requires PutsReturned(d, s, now, k, contentType, data, order, puts, 0)
    ensures PutsReturned(d, s, From(d, now, PutEvents(k, order, puts, j)), k, contentType, data, order, puts, j)
  {
    hide Targets, PutsReturned, Schedule, Step, From;
    if j == 0 {
      FromNone(d, now);
    } else {
      PutsReturn(d, s, now, k, contentType, data, order, puts, j - 1);
      var was := From(d, now, PutEvents(k, order, puts, j - 1));
      OnePutReturns(d, s, was, k, contentType, data, order, puts, j - 1);
      FromOne(d, now, PutEvents(k, order, puts, j - 1), PutReturns(k, order[j - 1], puts[order[j - 1]]));
    }
  }

  lemma FromNone(d: Deployment, s: State)
    ensures From(d, s, []) == s
  {}

  lemma UploadBegins(d: Deployment, s: State, k: ObjectKey, contentType: string, data: Bytes, order: seq<nat>, puts: seq<PutOutcome>)
    requires |puts| == |Targets(d, k)| >= 2 && Indices(order, |puts|) && ViewOf(s, k).op.None?
    ensures PutsReturned(d, s, Step(d, s, BeginUpload(k, contentType, data)), k, contentType, data, order, puts, 0)
  {
    NothingArrived(s.files, Places(d, Targets(d, k), k), data, puts, order);
    assert Waiting(|puts|) - Finished(order, 0) == Waiting(|puts|);
    hide Targets, FileOf, Reflects, Arrived, Waiting;
  }

  // The rollback

  function RollbackEvents(k: ObjectKey, removed: seq<bool>, j: nat): seq<Event>
    requires j <= |removed|
  {
    if j == 0 then [] else RollbackEvents(k, removed, j - 1) + [RollbackDelete(k, removed[j - 1])]
  }

  function RolledBack(held: seq<Option<Bytes>>, removed: seq<bool>, j: nat): (left: seq<Option<Bytes>>)
    requires j <= |removed| == |held|
    ensures |left| == |held|
  {
    if j == 0 then held
    else
      var left := RolledBack(held, removed, j - 1);
      left[j - 1 := if removed[j - 1] then None else left[j - 1]]
  }

  lemma {:induction false} RolledBackAt(held: seq<Option<Bytes>>, removed: seq<bool>, j: nat)
    requires j <= |removed| == |held|
    ensures forall i :: 0 <= i < |held| ==> RolledBack(held, removed, j)[i] == if i < j && removed[i] then None else held[i]
  {
    if j > 0 {
      RolledBackAt(held, removed, j - 1);
    }
  }

  lemma RolledBackAll(held: seq<Option<Bytes>>, removed: seq<bool>)
    requires |removed| == |held|
    ensures RolledBack(held, removed, |held|) == AfterRollback(held, removed)
  {
    RolledBackAt(held, removed, |held|);
  }

  ghost predicate RollsReturned(d: Deployment, s: State, v: View, now: State, k: ObjectKey, held: seq<Option<Bytes>>, removed: seq<bool>, j: nat)
    requires j <= |removed| == |held|
  {
    && ViewOf(now, k) == (if j < |removed| then v.(op := Some(RollingBack(j))) else Finish(v, UploadError(ReplicationWriteFail)))
    && Reflects(s.files, now.files, Places(d, Targets(d, k), k), RolledBack(held, removed, j))
    && forall k' :: k' != k ==> ViewOf(now, k') == ViewOf(s, k')
  }

  lemma RollView(d: Deployment, files: Files, v: View, k: ObjectKey, j: nat, removed: bool)
    requires v.op == Some(RollingBack(j)) && j < |Targets(d, k)|
    ensures var e := RollbackDelete(k, removed);
            && Possible(d, v, e)
            && NextView(d, v, e) == (if j + 1 < |Targets(d, k)| then v.(op := Some(RollingBack(j + 1))) else Finish(v, UploadError(ReplicationWriteFail)))
            && NextFiles(d, files, v, e) == AfterDelete(files, FileOf(d, Targets(d, k)[j], k), removed)
  {
    hide Targets, FileOf, AfterDelete;
  }

  lemma OneRollReturns(d: Deployment, s: State, v: View, now: State, k: ObjectKey, held: seq<Option<Bytes>>, removed: seq<bool>, j: nat)
    requires |removed| == |held| == |Targets(d, k)| && j < |removed| && RollsReturned(d, s, v, now, k, held, removed, j)
    ensures RollsReturned(d, s, v, Step(d, now, RollbackDelete(k, removed[j])), k, held, removed, j + 1)
  {
    hide Targets, FileOf, Places, AfterDelete, Separate, Reflects, Possible, Step, NextView, NextFiles, ViewOf;
    PutsApart(d, k);
    RollView(d, now.files, ViewOf(now, k), k, j, removed[j]);
    StepOf(d, now, RollbackDelete(k, removed[j]));
    DeleteReflects(s.files, now.files, Places(d, Targets(d, k), k), RolledBack(held, removed, j), j, removed[j]);
  }

  lemma {:induction false} RollsReturn(d: Deployment, s: State, v: View, now: State, k: ObjectKey, held: seq<Option<Bytes>>, removed: seq<bool>, j: nat)
    requires |removed| == |held| == |Targets(d, k)| && j <= |removed| && RollsReturned(d, s, v, now, k, held, removed, 0)
    ensures RollsReturned(d, s, v, From(d, now, RollbackEvents(k, removed, j)), k, held, removed, j)
  {
    hide Targets, RollsReturned, Step, From;
    if j == 0 {
      FromNone(d, now);
    } else {
      RollsReturn(d, s, v, now, k, held, removed, j - 1);
      OneRollReturns(d, s, v, From(d, now, RollbackEvents(k, removed, j - 1)), k, held, removed, j - 1);
      FromOne(d, now, RollbackEvents(k, removed, j - 1), RollbackDelete(k, removed[j - 1]));
    }
  }

  // The whole upload

  function UploadEvents(d: Deployment, k: ObjectKey, contentType: string, data: Bytes, order: seq<nat>, puts: seq<PutOutcome>,
                        removed: seq<bool>, sql: Effect): seq<Event>
    requires |puts| == |removed| == |Targets(d, k)| && Indices(order, |puts|)
  {
    [BeginUpload(k, contentType, data)] + PutEvents(k, order, puts, |order|) +
    if SomePutFails(Places(d, Targets(d, k), k), puts) then RollbackEvents(k, removed, |removed|) else [Commit(k, sql)]
  }

  function ErrorOf(r: Return): Option<Error> {
    match r
    case UploadedNil(_, _) => None
    case UploadError(e) => Some(e)
    case DeletedNil => None
    case DeleteError(e) => Some(e)
  }

  lemma SameRow(rows: Rows, k: RawKey)
    ensures Updated(rows, k, RowOf(rows, k)) == rows
  {
    if k !in rows {
      assert rows - {k} == rows;
    }
  }

  /** After all the puts. */
  lemma AllPutsReturned(d: Deployment, s: State, k: ObjectKey, contentType: string, data: Bytes, order: seq<nat>, puts: seq<PutOutcome>)
    requires |puts| == |Targets(d, k)| >= 2 && Schedule(order, |puts|) && Indices(order, |puts|) && ViewOf(s, k).op.None?
    ensures var now := From(d, s, [BeginUpload(k, contentType, data)] + PutEvents(k, order, puts, |order|));
            var ls := Places(d, Targets(d, k), k);
            && ViewOf(now, k) == ViewOf(s, k).(op := Some(if SomePutFails(ls, puts) then RollingBack(0) else Committing(contentType, data)))
            && Reflects(s.files, now.files, ls, AfterPuts(s.files, ls, data, puts))
            && forall k' :: k' != k ==> ViewOf(now, k') == ViewOf(s, k')
  {
    var begin, ls := BeginUpload(k, contentType, data), Places(d, Targets(d, k), k);
    UploadBegins(d, s, k, contentType, data, order, puts);
    PutsReturn(d, s, Step(d, s, begin), k, contentType, data, order, puts, |order|);
    OrderIrrelevantToPuts(s.files, ls, data, puts, order);
    FailureIsReported(ls, order, puts);
    AnyFailedInResults(ls, puts, order, |order|);
    hide Targets, FileOf, Reflects, Arrived, Step, From, Schedule, AnyFailed, SomePutFails, Results, Finished, AfterPuts;
    FromOne(d, s, [], begin);
    FromNone(d, s);
    assert [] + [begin] == [begin];
    FromConcat(d, s, [begin], PutEvents(k, order, puts, |order|));
  }

  predicate UploadReturn(r: Return, contentType: string, data: Bytes) {
    r == UploadedNil(contentType, data) || r.UploadError?
  }

  /** What the key's last steps leave, seen from a state in which it was idle. */
  ghost predicate UploadEnds(d: Deployment, s: State, s': State, rows: Rows, k: ObjectKey, contentType: string, data: Bytes,
                             puts: seq<PutOutcome>, removed: seq<bool>, sql: Effect)
    requires |puts| == |removed| == |Targets(d, k)| >= 2
  {
    var v' := ViewOf(s', k);
    && v'.op.None? && v'.returned.Some? && UploadReturn(v'.returned.value, contentType, data)
    && Uploaded(d, s.files, s'.files, rows, Updated(rows, k, v'.row), ErrorOf(v'.returned.value), k, contentType, data, puts, removed, sql)
    && forall k' :: k' != k ==> ViewOf(s', k') == ViewOf(s, k')
  }

  lemma RollbackEnds(d: Deployment, s: State, now: State, rows: Rows, k: ObjectKey, contentType: string, data: Bytes,
                     puts: seq<PutOutcome>, removed: seq<bool>, sql: Effect)
    requires |puts| == |removed| == |Targets(d, k)| >= 2 && RowOf(rows, k) == ViewOf(s, k).row
    requires var ls := Places(d, Targets(d, k), k);
             && SomePutFails(ls, puts) && Reflects(s.files, now.files, ls, AfterPuts(s.files, ls, data, puts))
             && ViewOf(now, k) == ViewOf(s, k).(op := Some(RollingBack(0)))
             && forall k' :: k' != k ==> ViewOf(now, k') == ViewOf(s, k')
    ensures UploadEnds(d, s, From(d, now, RollbackEvents(k, removed, |removed|)), rows, k, contentType, data, puts, removed, sql)
  {
    hide Targets, FileOf, Places, Reflects, From, SomePutFails, RolledBack, AfterRollback, RollbackEvents, Upserted, Updated, RowOf, ViewOf;
    var held := AfterPuts(s.files, Places(d, Targets(d, k), k), data, puts);
    RolledBackNone(held, removed);
    RollsReturn(d, s, ViewOf(s, k), now, k, held, removed, |removed|);
    RolledBackAll(held, removed);
    SameRow(rows, k);
  }

  lemma RolledBackNone(held: seq<Option<Bytes>>, removed: seq<bool>)
    requires |removed| == |held|
    ensures RolledBack(held, removed, 0) == held
  {}

  lemma CommitView(d: Deployment, files: Files, v: View, k: ObjectKey, contentType: string, data: Bytes, sql: Effect)
    requires v.op == Some(Committing(contentType, data)) && |Targets(d, k)| >= 2
    ensures var e, ns := Commit(k, sql), Targets(d, k);
            var next := Upserted(v.row, Defaulted(contentType), |data|, d.etag(data), ns[0], ns[1]);
            && Possible(d, v, e) && NextFiles(d, files, v, e) == files
            && NextView(d, v, e) == Finish(if next.Some? && sql != NotDone then v.(row := next) else v,
                                           if next.Some? && sql == Done then UploadedNil(contentType, data) else UploadError(RepositoryFailed))
  {
    hide Targets, Upserted, Defaulted;
  }

  lemma CommitEnds(d: Deployment, s: State, now: State, rows: Rows, k: ObjectKey, contentType: string, data: Bytes,
                   puts: seq<PutOutcome>, removed: seq<bool>, sql: Effect)
    requires |puts| == |removed| == |Targets(d, k)| >= 2 && RowOf(rows, k) == ViewOf(s, k).row
    requires var ls := Places(d, Targets(d, k), k);
             && !SomePutFails(ls, puts) && Reflects(s.files, now.files, ls, AfterPuts(s.files, ls, data, puts))
             && ViewOf(now, k) == ViewOf(s, k).(op := Some(Committing(contentType, data)))
             && forall k' :: k' != k ==> ViewOf(now, k') == ViewOf(s, k')
    ensures UploadEnds(d, s, Step(d, now, Commit(k, sql)), rows, k, contentType, data, puts, removed, sql)
  {
    hide Targets, FileOf, Places, Reflects, SomePutFails, AfterPuts, Upserted, Defaulted, Updated, RowOf, ViewOf, Step, NextView, NextFiles, Possible;
    CommitView(d, now.files, ViewOf(now, k), k, contentType, data, sql);
    StepOf(d, now, Commit(k, sql));
    SameRow(rows, k);
  }

  /**
   * `Upload` is a run of the machine: its events, from a state in which the key is idle, end the
   * operation, touch no other key, and leave files, row and error as the method's contract says.
   */
  lemma UploadIsARun(d: Deployment, s: State, rows: Rows, k: ObjectKey, contentType: string, data: Bytes, order: seq<nat>,
                     puts: seq<PutOutcome>, removed: seq<bool>, sql: Effect)
    requires |puts| == |removed| == |Targets(d, k)| >= 2 && Schedule(order, |puts|) && Indices(order, |puts|)
    requires ViewOf(s, k).op.None? && RowOf(rows, k) == ViewOf(s, k).row
    ensures UploadEnds(d, s, From(d, s, UploadEvents(d, k, contentType, data, order, puts, removed, sql)), rows, k, contentType, data, puts, removed, sql)
  {
    hide Targets, FileOf, Places, Reflects, From, Schedule, SomePutFails, AfterPuts, PutEvents, RollbackEvents, ViewOf, Step, RowOf, UploadEnds;
    var first := [BeginUpload(k, contentType, data)] + PutEvents(k, order, puts, |order|);
    var now := From(d, s, first);
    AllPutsReturned(d, s, k, contentType, data, order, puts);
    if SomePutFails(Places(d, Targets(d, k), k), puts) {
      RollbackEnds(d, s, now, rows, k, contentType, data, puts, removed, sql);
      FromConcat(d, s, first, RollbackEvents(k, removed, |removed|));
    } else {
      CommitEnds(d, s, now, rows, k, contentType, data, puts, removed, sql);
      FromOne(d, s, first, Commit(k, sql));
    }
  }

  /** Every put is stored. */
  function EachStored(n: nat): (puts: seq<PutOutcome>)
    ensures |puts| == n && forall i :: 0 <= i < n ==> puts[i] == Stored
  {
    seq(n, i => Stored)
  }

  function NoneRemoved(n: nat): (removed: seq<bool>)
    ensures |removed| == n
  {
    seq(n, i => false)
  }

  /** The events of an upload nothing goes wrong with, the puts returning in any order. */
  function GoodUpload(d: Deployment, k: ObjectKey, contentType: string, data: Bytes, order: seq<nat>): seq<Event>
    requires Indices(order, |Targets(d, k)|)
  {
    UploadEvents(d, k, contentType, data, order, EachStored(|Targets(d, k)|), NoneRemoved(|Targets(d, k)|), Done)
  }

  lemma EachStoredSucceed(d: Deployment, k: ObjectKey)
    ensures !SomePutFails(Places(d, Targets(d, k), k), EachStored(|Targets(d, k)|))
  {
    hide FileOf, Targets;
    forall i | 0 <= i < |Targets(d, k)|
      ensures FileOf(d, Targets(d, k)[i], k).Some?
    {
      CanonicalHasFile(d, Targets(d, k)[i], k);
    }
  }

  lemma ReflectsStored(d: Deployment, was: Files, now: Files, k: ObjectKey, data: Bytes)
    requires var ls := Places(d, Targets(d, k), k); Reflects(was, now, ls, AfterPuts(was, ls, data, EachStored(|Targets(d, k)|)))
    ensures Stores(d, now, k, data)
  {
    hide FileOf, Targets;
    var ls := Places(d, Targets(d, k), k);
    forall i | 0 <= i < |Targets(d, k)|
      ensures Copy(d, now, Targets(d, k)[i], k) == Some(data)
    {
      CanonicalHasFile(d, Targets(d, k)[i], k);
      assert At(now, ls[i]) == AfterPuts(was, ls, data, EachStored(|Targets(d, k)|))[i];
    }
  }

  /** An upload whose puts and statement work: no error, the row describes it, and the files are as after the puts. */
  lemma GoodUploadStores(d: Deployment, was: Files, now: Files, rowsWas: Rows, rowsNow: Rows, err: Option<Error>, k: RawKey,
                         contentType: string, data: Bytes, puts: seq<PutOutcome>, removed: seq<bool>)
    requires |puts| == |removed| == |Targets(d, k)| >= 2 && Targets(d, k)[0] != Targets(d, k)[1]
    requires !SomePutFails(Places(d, Targets(d, k), k), puts)
    requires Uploaded(d, was, now, rowsWas, rowsNow, err, k, contentType, data, puts, removed, Done)
    ensures err.None? && Describes(d, RowOf(rowsNow, k), contentType, data)
    ensures var ls := Places(d, Targets(d, k), k); Reflects(was, now, ls, AfterPuts(was, ls, data, puts))
  {
    hide Targets, FileOf, Places, Reflects, AfterPuts, SomePutFails, Defaulted;
  }

  lemma RowOfUpdated(rows: Rows, k: RawKey, row: Option<Record>)
    ensures RowOf(Updated(rows, k, row), k) == row
  {}

  lemma TwoTargets(d: Deployment, k: RawKey)
    requires |Targets(d, k)| >= 2
    ensures Targets(d, k)[0] != Targets(d, k)[1]
  {
    TargetsDiffer(d, k);
  }

  lemma GoodUploadEnds(d: Deployment, s: State, s': State, rows: Rows, k: ObjectKey, contentType: string, data: Bytes)
    requires |Targets(d, k)| >= 2 && !SomePutFails(Places(d, Targets(d, k), k), EachStored(|Targets(d, k)|))
    requires UploadEnds(d, s, s', rows, k, contentType, data, EachStored(|Targets(d, k)|), NoneRemoved(|Targets(d, k)|), Done)
    ensures var v' := ViewOf(s', k);
            && Acknowledged(v') && v'.returned == Some(UploadedNil(contentType, data))
            && Describes(d, v'.row, contentType, data) && Stores(d, s'.files, k, data)
            && forall k' :: k' != k ==> ViewOf(s', k') == ViewOf(s, k')
  {
    TwoTargets(d, k);
    hide Targets, FileOf, Places, Reflects, AfterPuts, SomePutFails, Stores, ViewOf, Describes, Uploaded, RowOf, Updated;
    var v', n := ViewOf(s', k), |Targets(d, k)|;
    GoodUploadStores(d, s.files, s'.files, rows, Updated(rows, k, v'.row), ErrorOf(v'.returned.value), k, contentType, data, EachStored(n), NoneRemoved(n));
    RowOfUpdated(rows, k, v'.row);
    ReflectsStored(d, s.files, s'.files, k, data);
  }

  /**
   * Progress: from any state in which the key is idle and has two targets, in any schedule, when every
   * put is stored and the statement works, the upload is acknowledged and its bytes are everywhere.
   */
  lemma UndisturbedUploadSucceeds(d: Deployment, s: State, k: ObjectKey, contentType: string, data: Bytes, order: seq<nat>)
    requires |Targets(d, k)| >= 2 && ViewOf(s, k).op.None?
    requires Schedule(order, |Targets(d, k)|) && Indices(order, |Targets(d, k)|)
    ensures var s' := From(d, s, GoodUpload(d, k, contentType, data, order));
            var v' := ViewOf(s', k);
            && Acknowledged(v') && v'.returned == Some(UploadedNil(contentType, data))
            && Describes(d, v'.row, contentType, data) && Stores(d, s'.files, k, data)
            && forall k' :: k' != k ==> ViewOf(s', k') == ViewOf(s, k')
  {
    hide Targets, FileOf, From, Places, SomePutFails, Schedule, UploadEvents, Stores, ViewOf, UploadEnds, Acknowledged, Describes;
    var n, row := |Targets(d, k)|, ViewOf(s, k).row;
    var rows: Rows := if row.Some? then map[k := row.value] else map[];
    UploadIsARun(d, s, rows, k, contentType, data, order, EachStored(n), NoneRemoved(n), Done);
    EachStoredSucceed(d, k);
    GoodUploadEnds(d, s, From(d, s, GoodUpload(d, k, contentType, data, order)), rows, k, contentType, data);
  }

  /** The puts return in the order of the targets. */
  function InTurn(n: nat): (order: seq<nat>)
    ensures |order| == n && forall i :: 0 <= i < n ==> order[i] == i
    ensures Indices(order, n)
  {
    seq(n, i requires 0 <= i < n => i)
  }

  lemma InTurnIsSchedule(n: nat)
    ensures Schedule(InTurn(n), n)
  {
    forall i: nat | i < n
      ensures i in InTurn(n)
    {
      assert InTurn(n)[i] == i;
    }
  }

  /** After any run in which the key is idle, such an upload makes another run, and is acknowledged. */
  lemma GoodUploadAfterRun(d: Deployment, es: seq<Event>, k: ObjectKey, contentType: string, data: Bytes)
    requires |Targets(d, k)| >= 2 && ViewOf(After(d, es), k).op.None?
    ensures var s, s' := After(d, es), After(d, es + GoodUpload(d, k, contentType, data, InTurn(|Targets(d, k)|)));
            var v' := ViewOf(s', k);
            && Acknowledged(v') && v'.returned == Some(UploadedNil(contentType, data))
            && Describes(d, v'.row, contentType, data) && Stores(d, s'.files, k, data)
            && forall k' :: k' != k ==> ViewOf(s', k') == ViewOf(s, k')
  {
    hide Targets, After, From, ViewOf, Stores, GoodUpload, Acknowledged, Describes, Schedule, Indices, InTurn;
    var order := InTurn(|Targets(d, k)|);
    InTurnIsSchedule(|Targets(d, k)|);
    FromAfter(d, es, GoodUpload(d, k, contentType, data, order));
    UndisturbedUploadSucceeds(d, After(d, es), k, contentType, data, order);
  }

  // The whole delete

  function DeleteEvents(k: ObjectKey, primaryGone: bool, replicaGone: bool, sql: Effect): seq<Event> {
    [BeginDelete(k)] + [DeleteCopy(k, primaryGone)] + [DeleteCopy(k, replicaGone)] + [DeleteRow(k, sql)]
  }

  /** And so is `Delete` of an object that has a row. */
  lemma DeleteIsARun(d: Deployment, s: State, k: ObjectKey, primaryGone: bool, replicaGone: bool, sql: Effect)
    requires ViewOf(s, k).op.None? && ViewOf(s, k).row.Some?
    ensures var s' := From(d, s, DeleteEvents(k, primaryGone, replicaGone, sql));
            var v' := ViewOf(s', k);
            && v'.op.None? && v'.returned.Some?
            && s'.files == WithoutCopies(d, s.files, k, ViewOf(s, k).row.value, primaryGone, replicaGone)
            && v'.row == (if sql == NotDone then ViewOf(s, k).row else None)
            && ErrorOf(v'.returned.value) == (if sql == Done then None else Some(RepositoryFailed))
            && forall k' :: k' != k ==> ViewOf(s', k') == ViewOf(s, k')
  {
    hide Targets, FileOf, From, AfterDelete;
    var es := [BeginDelete(k)];
    FromNone(d, s);
    FromOne(d, s, [], BeginDelete(k));
    assert [] + es == es;
    FromOne(d, s, es, DeleteCopy(k, primaryGone));
    FromOne(d, s, es + [DeleteCopy(k, primaryGone)], DeleteCopy(k, replicaGone));
    FromOne(d, s, es + [DeleteCopy(k, primaryGone)] + [DeleteCopy(k, replicaGone)], DeleteRow(k, sql));
  }
}
