/**
 * The replicated store as a step machine. Every node call and every SQL statement is one event, and
 * events of different keys interleave freely. Each key has at most one mutation in flight. An event
 * that is not possible in a state changes nothing, so every sequence of events is a run.
 */
module StoreMachine {
  import opened GoStrings
  import opened Outcomes
  import opened ObjectPaths
  import opened HashRing
  import opened RingPoints
  import opened RingProperties
  import opened ObjectTable
  import opened ObjectService

  type ObjectKey = k: RawKey | Canonical(k) witness SampleKey()

  function SampleKey(): (k: RawKey)
    ensures Canonical(k)
  {
    hide Canonical;
    SampleIsCanonical();
    RawKey("o", "k")
  }

  /** How far a mutation has come. */
  datatype Op =
    | Putting(contentType: string, data: Bytes, waiting: set<nat>, failed: bool)
    | RollingBack(next: nat)
    | Committing(contentType: string, data: Bytes)
    | Deleting(primary: Node, replica: Node, stage: nat)

  /** What the last finished mutation of a key returned. */
  datatype Return = UploadedNil(contentType: string, data: Bytes) | UploadError(error: Error) | DeletedNil | DeleteError(error: Error)

  /** What the services know about one key, besides the bytes. */
  datatype View = View(row: Option<Record>, op: Option<Op>, returned: Option<Return>)

  datatype State = State(files: Files, views: map<RawKey, View>)

  const EMPTY := State(map[], map[])

  function ViewOf(s: State, k: RawKey): View {
    if k in s.views then s.views[k] else View(None, None, None)
  }

  datatype Event =
    | BeginUpload(k: ObjectKey, contentType: string, data: Bytes)
    | PutReturns(k: ObjectKey, i: nat, outcome: PutOutcome)
    | RollbackDelete(k: ObjectKey, removed: bool)
    | Commit(k: ObjectKey, sql: Effect)
    | BeginDelete(k: ObjectKey)
    | DeleteCopy(k: ObjectKey, removed: bool)
    | DeleteRow(k: ObjectKey, sql: Effect)
    | Hide(k: ObjectKey, sql: Effect)
    | SetPermission(k: ObjectKey, permission: string, sql: Effect)

  function Waiting(n: nat): (w: set<nat>)
    ensures forall i: nat :: i in w <==> i < n
  {
    if n == 0 then {} else Waiting(n - 1) + {n - 1}
  }

  predicate Possible(d: Deployment, v: View, e: Event) {
    var n := |Targets(d, e.k)|;
    match e
    case BeginUpload(_, _, _) => v.op.None? && n >= 2
    case PutReturns(_, i, _) => v.op.Some? && v.op.value.Putting? && i in v.op.value.waiting && i < n
    case RollbackDelete(_, _) => v.op.Some? && v.op.value.RollingBack? && v.op.value.next < n
    case Commit(_, _) => v.op.Some? && v.op.value.Committing? && n >= 2
    case BeginDelete(_) => v.op.None? && v.row.Some?
    case DeleteCopy(_, _) => v.op.Some? && v.op.value.Deleting? && v.op.value.stage < 2
    case DeleteRow(_, _) => v.op.Some? && v.op.value.Deleting? && v.op.value.stage == 2
    case Hide(_, _) => true
    case SetPermission(_, _, _) => true
  }

  function Finish(v: View, r: Return): View {
    v.(op := None, returned := Some(r))
  }

  /** After a put: wait for the others, and when all are in roll back or go on to the metadata. */
  function AfterPutReturns(op: Op, i: nat, ok: bool): Op
    requires op.Putting?
  {
    var waiting, failed := op.waiting - {i}, op.failed || !ok;
    if waiting != {} then op.(waiting := waiting, failed := failed)
    else if failed then RollingBack(0)
    else Committing(op.contentType, op.data)
  }

  function DeletedNode(op: Op): Node
    requires op.Deleting?
  {
    if op.stage == 0 then op.primary else op.replica
  }

  function NextView(d: Deployment, v: View, e: Event): View
    requires Possible(d, v, e)
  {
    var ns := Targets(d, e.k);
    match e
    case BeginUpload(_, contentType, data) => v.(op := Some(Putting(contentType, data, Waiting(|ns|), false)))
    case PutReturns(k, i, outcome) => v.(op := Some(AfterPutReturns(v.op.value, i, PutSucceeds(FileOf(d, ns[i], k), outcome))))
    case RollbackDelete(_, _) =>
      var next := v.op.value.next + 1;
      if next < |ns| then v.(op := Some(RollingBack(next))) else Finish(v, UploadError(ReplicationWriteFail))
    case Commit(_, sql) =>
      var op := v.op.value;
      var row := Upserted(v.row, Defaulted(op.contentType), |op.data|, d.etag(op.data), ns[0], ns[1]);
      Finish(if row.Some? && sql != NotDone then v.(row := row) else v,
             if row.Some? && sql == Done then UploadedNil(op.contentType, op.data) else UploadError(RepositoryFailed))
    case BeginDelete(_) => v.(op := Some(Deleting(v.row.value.primary, v.row.value.replica, 0)))
    case DeleteCopy(_, _) => v.(op := Some(v.op.value.(stage := v.op.value.stage + 1)))
    case DeleteRow(_, sql) =>
      Finish(if sql == NotDone then v else v.(row := None),
             if sql != Done then DeleteError(RepositoryFailed) else if v.row.Some? then DeletedNil else DeleteError(NotFound))
    case Hide(_, sql) => if sql == NotDone then v else v.(row := HiddenRow(v.row))
    case SetPermission(_, permission, sql) => if sql == NotDone then v else v.(row := WithPermission(v.row, permission))
  }

  function NextFiles(d: Deployment, files: Files, v: View, e: Event): Files
    requires Possible(d, v, e)
  {
    match e
    case PutReturns(k, i, outcome) => AfterPut(files, FileOf(d, Targets(d, k)[i], k), v.op.value.data, outcome)
    case RollbackDelete(k, removed) => AfterDelete(files, FileOf(d, Targets(d, k)[v.op.value.next], k), removed)
    case DeleteCopy(k, removed) =>
      var n := DeletedNode(v.op.value);
      AfterDelete(files, FileOf(d, n, k), removed && n.url != "")
    case _ => files
  }

  function Step(d: Deployment, s: State, e: Event): State {
    var v := ViewOf(s, e.k);
    if Possible(d, v, e) then State(NextFiles(d, s.files, v, e), s.views[e.k := NextView(d, v, e)]) else s
  }

  function After(d: Deployment, es: seq<Event>): State {
    if es == [] then EMPTY else Step(d, After(d, es[..|es| - 1]), es[|es| - 1])
  }

  // Objects do not share files

  lemma CanonicalHasFile(d: Deployment, n: Node, k: ObjectKey)
    ensures FileOf(d, n, k).Some? && FileOf(d, n, k).value.node == n
  {
    CanonicalFile(d.root(n), k);
  }

  /** The file spelt out: below the node's own root, the owner's directory and the key. */
  lemma FileSpelt(d: Deployment, n: Node, k: ObjectKey)
    ensures FileOf(d, n, k) ==
            Some(Location(n, (if d.root(n) == "/" then "/" else d.root(n) + "/") + (k.owner + "/" + k.key)))
  {
    hide PathFor, StoragePath;
    CanonicalPath(d.root(n), k);
    BaseIsRoot(d.root(n));
  }

  lemma FilesApart(d: Deployment, n: Node, k: ObjectKey, n': Node, k': ObjectKey)
    requires n != n' || k != k'
    ensures FileOf(d, n, k) != FileOf(d, n', k')
  {
    CanonicalHasFile(d, n, k);
    CanonicalHasFile(d, n', k');
    if n == n' {
      CanonicalFilesDistinct(d.root(n), k, k');
    }
  }

  function Copy(d: Deployment, files: Files, n: Node, k: ObjectKey): Option<Bytes> {
    At(files, FileOf(d, n, k))
  }

  /** A write or delete of one file is seen at that node and object and nowhere else. */
  lemma CopyAfterPut(d: Deployment, files: Files, n: Node, k: ObjectKey, data: Bytes, o: PutOutcome)
    ensures forall n', k': ObjectKey :: Copy(d, AfterPut(files, FileOf(d, n, k), data, o), n', k') ==
              if n' == n && k' == k then PutLeaves(FileOf(d, n, k), Copy(d, files, n, k), data, o) else Copy(d, files, n', k')
  {
    hide FileOf;
    forall n', k': ObjectKey
      ensures Copy(d, AfterPut(files, FileOf(d, n, k), data, o), n', k') ==
              if n' == n && k' == k then PutLeaves(FileOf(d, n, k), Copy(d, files, n, k), data, o) else Copy(d, files, n', k')
    {
      CanonicalHasFile(d, n, k);
      if n' != n || k' != k {
        FilesApart(d, n, k, n', k');
      }
    }
  }

  lemma CopyAfterDelete(d: Deployment, files: Files, n: Node, k: ObjectKey, removed: bool)
    ensures forall n', k': ObjectKey :: Copy(d, AfterDelete(files, FileOf(d, n, k), removed), n', k') ==
              if n' == n && k' == k && removed then None else Copy(d, files, n', k')
  {
    hide FileOf;
    forall n', k': ObjectKey
      ensures Copy(d, AfterDelete(files, FileOf(d, n, k), removed), n', k') ==
              if n' == n && k' == k && removed then None else Copy(d, files, n', k')
    {
      CanonicalHasFile(d, n, k);
      if n' != n || k' != k {
        FilesApart(d, n, k, n', k');
      }
    }
  }

  /** What an event does to the copies of its own key; every other key's copies stay. */
  function NextCopy(d: Deployment, held: Option<Bytes>, n: Node, v: View, e: Event): Option<Bytes>
    requires Possible(d, v, e)
  {
    match e
    case PutReturns(k, i, outcome) =>
      if n == Targets(d, k)[i] then PutLeaves(FileOf(d, n, k), held, v.op.value.data, outcome) else held
    case RollbackDelete(k, removed) => if n == Targets(d, k)[v.op.value.next] && removed then None else held
    case DeleteCopy(_, removed) => if n == DeletedNode(v.op.value) && removed && n.url != "" then None else held
    case _ => held
  }

  lemma CopyAfterStep(d: Deployment, files: Files, v: View, e: Event)
    requires Possible(d, v, e)
    ensures forall n, k: ObjectKey :: Copy(d, NextFiles(d, files, v, e), n, k) ==
              if k == e.k then NextCopy(d, Copy(d, files, n, k), n, v, e) else Copy(d, files, n, k)
  {
    match e
    case PutReturns(k, i, outcome) => CopyAfterPut(d, files, Targets(d, k)[i], k, v.op.value.data, outcome);
    case RollbackDelete(k, removed) => CopyAfterDelete(d, files, Targets(d, k)[v.op.value.next], k, removed);
    case DeleteCopy(k, removed) =>
      var n := DeletedNode(v.op.value);
      CopyAfterDelete(d, files, n, k, removed && n.url != "");
    case _ =>
  }

  // What every run keeps, key by key

  predicate Stores(d: Deployment, files: Files, k: ObjectKey, data: Bytes) {
    forall i :: 0 <= i < |Targets(d, k)| ==> Copy(d, files, Targets(d, k)[i], k) == Some(data)
  }

  /** All but the waiting targets hold the data. */
  predicate StoredBut(d: Deployment, files: Files, k: ObjectKey, data: Bytes, waiting: set<nat>) {
    forall i: nat :: i < |Targets(d, k)| && i !in waiting ==> Copy(d, files, Targets(d, k)[i], k) == Some(data)
  }

  /** The row names the first two targets. */
  predicate Placed(d: Deployment, row: Option<Record>, k: ObjectKey) {
    row.Some? ==> |Targets(d, k)| >= 2 && row.value.primary == Targets(d, k)[0] && row.value.replica == Targets(d, k)[1]
  }

  predicate Describes(d: Deployment, row: Option<Record>, contentType: string, data: Bytes) {
    && row.Some? && row.value.contentType == Defaulted(contentType)
    && row.value.sizeBytes == |data| && row.value.etag == d.etag(data)
  }

  predicate OpInv(d: Deployment, files: Files, k: ObjectKey, row: Option<Record>, op: Op) {
    |Targets(d, k)| >= 2 &&
    match op
    case Putting(_, data, waiting, failed) =>
      && waiting != {} && (forall i :: i in waiting ==> i < |Targets(d, k)|)
      && (!failed ==> StoredBut(d, files, k, data, waiting))
    case RollingBack(next) => next < |Targets(d, k)|
    case Committing(_, data) => Stores(d, files, k, data)
    case Deleting(primary, replica, stage) =>
      row.Some? && primary == Targets(d, k)[0] && replica == Targets(d, k)[1] && stage <= 2
  }

  predicate KeyInv(d: Deployment, files: Files, k: ObjectKey, v: View) {
    && Placed(d, v.row, k)
    && (v.op.Some? ==> OpInv(d, files, k, v.row, v.op.value))
    && (v.op.None? && v.returned.Some? && v.returned.value.UploadedNil? ==>
          var r := v.returned.value;
          Describes(d, v.row, r.contentType, r.data) && Stores(d, files, k, r.data))
  }

  ghost predicate Inv(d: Deployment, s: State) {
    forall k: ObjectKey :: KeyInv(d, s.files, k, ViewOf(s, k))
  }

  lemma KeyInvFrame(d: Deployment, files: Files, files': Files, k: ObjectKey, v: View)
    requires KeyInv(d, files, k, v) && forall n :: Copy(d, files', n, k) == Copy(d, files, n, k)
    ensures KeyInv(d, files', k, v)
  {
    hide Copy, Targets;
  }

  predicate TouchesFiles(e: Event) {
    e.PutReturns? || e.RollbackDelete? || e.DeleteCopy?
  }

  lemma KeyInvMetadata(d: Deployment, files: Files, v: View, e: Event)
    requires (e.Hide? || e.SetPermission?) && KeyInv(d, files, e.k, v)
    ensures KeyInv(d, files, e.k, NextView(d, v, e))
  {
    hide Copy, Targets, Stores, Waiting;
  }

  lemma KeyInvBegin(d: Deployment, files: Files, v: View, e: Event)
    requires (e.BeginUpload? || e.BeginDelete?) && Possible(d, v, e) && KeyInv(d, files, e.k, v)
    ensures KeyInv(d, files, e.k, NextView(d, v, e))
  {
    var n := |Targets(d, e.k)|;
    assert n >= 2 ==> 0 in Waiting(n);
    hide Copy, Targets, Stores, Waiting;
  }

  lemma KeyInvFinish(d: Deployment, files: Files, v: View, e: Event)
    requires (e.Commit? || e.DeleteRow?) && Possible(d, v, e) && KeyInv(d, files, e.k, v)
    ensures KeyInv(d, files, e.k, NextView(d, v, e))
  {
    hide Copy, Targets, Stores, Waiting;
  }

  lemma PutStores(d: Deployment, files: Files, files': Files, k: ObjectKey, i: nat, data: Bytes, waiting: set<nat>)
    requires i < |Targets(d, k)| && StoredBut(d, files, k, data, waiting)
    requires forall n :: Copy(d, files', n, k) == if n == Targets(d, k)[i] then Some(data) else Copy(d, files, n, k)
    ensures StoredBut(d, files', k, data, waiting - {i})
  {
    hide Copy, Targets;
  }

  lemma KeyInvPut(d: Deployment, files: Files, files': Files, v: View, k: ObjectKey, i: nat, o: PutOutcome)
    requires var e := PutReturns(k, i, o);
             && Possible(d, v, e) && KeyInv(d, files, k, v)
             && forall n :: Copy(d, files', n, k) == NextCopy(d, Copy(d, files, n, k), n, v, e)
    ensures KeyInv(d, files', k, NextView(d, v, PutReturns(k, i, o)))
  {
    var op, ok := v.op.value, o == Stored;
    CanonicalHasFile(d, Targets(d, k)[i], k);
    hide Copy, Targets, FileOf, Waiting;
    if !op.failed && ok {
      PutStores(d, files, files', k, i, op.data, op.waiting);
    }
    hide Placed, NextCopy, StoredBut, Stores;
    PutOpInv(d, files', k, v.row, op, i, ok);
  }

  lemma PutOpInv(d: Deployment, files: Files, k: ObjectKey, row: Option<Record>, op: Op, i: nat, ok: bool)
    requires op.Putting? && |Targets(d, k)| >= 2 && forall j :: j in op.waiting ==> j < |Targets(d, k)|
    requires !op.failed && ok ==> StoredBut(d, files, k, op.data, op.waiting - {i})
    ensures OpInv(d, files, k, row, AfterPutReturns(op, i, ok))
  {
    AllStored(d, files, k, op.data);
    hide Copy, Targets, StoredBut, Stores;
  }

  lemma AllStored(d: Deployment, files: Files, k: ObjectKey, data: Bytes)
    ensures StoredBut(d, files, k, data, {}) ==> Stores(d, files, k, data)
  {
  }

  lemma KeyInvDelete(d: Deployment, files: Files, files': Files, v: View, e: Event)
    requires (e.RollbackDelete? || e.DeleteCopy?) && Possible(d, v, e) && KeyInv(d, files, e.k, v)
    ensures KeyInv(d, files', e.k, NextView(d, v, e))
  {
    hide Copy, Targets;
  }

  /** One event of a key keeps what holds for that key. */
  lemma KeyInvStep(d: Deployment, files: Files, v: View, e: Event)
    requires Possible(d, v, e) && KeyInv(d, files, e.k, v)
    ensures KeyInv(d, NextFiles(d, files, v, e), e.k, NextView(d, v, e))
  {
    var files' := NextFiles(d, files, v, e);
    CopyAfterStep(d, files, v, e);
    hide Copy, Targets, KeyInv, NextView;
    if e.PutReturns? {
      KeyInvPut(d, files, files', v, e.k, e.i, e.outcome);
    } else if TouchesFiles(e) {
      KeyInvDelete(d, files, files', v, e);
    } else if e.Hide? || e.SetPermission? {
      KeyInvMetadata(d, files, v, e);
    } else if e.Commit? || e.DeleteRow? {
      KeyInvFinish(d, files, v, e);
    } else {
      KeyInvBegin(d, files, v, e);
    }
  }

  lemma InvStep(d: Deployment, s: State, e: Event)
    requires Inv(d, s)
    ensures Inv(d, Step(d, s, e))
  {
    var v, s' := ViewOf(s, e.k), Step(d, s, e);
    hide Copy, KeyInv, NextView;
    if Possible(d, v, e) {
      CopyAfterStep(d, s.files, v, e);
      hide NextCopy, NextFiles;
      forall k: ObjectKey
        ensures KeyInv(d, s'.files, k, ViewOf(s', k))
      {
        if k == e.k {
          KeyInvStep(d, s.files, v, e);
        } else {
          KeyInvFrame(d, s.files, s'.files, k, ViewOf(s, k));
        }
      }
    }
  }

  /** Every run keeps the invariant. */
  lemma {:induction false} RunsKeepInv(d: Deployment, es: seq<Event>)
    ensures Inv(d, After(d, es))
  {
    if es != [] {
      RunsKeepInv(d, es[..|es| - 1]);
      InvStep(d, After(d, es[..|es| - 1]), es[|es| - 1]);
    }
  }

  /** The CHECK on the placement columns never refuses a row. */
  lemma PlacementCheckNeverFires(d: Deployment, es: seq<Event>, k: ObjectKey, sql: Effect)
    requires Possible(d, ViewOf(After(d, es), k), Commit(k, sql))
    ensures var v := ViewOf(After(d, es), k);
            Upserted(v.row, v.op.value.contentType, |v.op.value.data|, d.etag(v.op.value.data), Targets(d, k)[0], Targets(d, k)[1]).Some?
  {
    TargetsDiffer(d, k);
  }

  /**
   * Where every row points: hash the owner, a slash and the key, and go up the ring of fifty points a
   * node. The primary owns the first point met, and the replica the first one that is not the primary's.
   */
  lemma RowFollowsRing(d: Deployment, es: seq<Event>, k: ObjectKey)
    requires ViewOf(After(d, es), k).row.Some?
    ensures var r := ViewOf(After(d, es), k).row.value;
            NextOnRing(OwnerMap(Writes(d.hash, d.nodes, 50)), d.hash(k.owner + "/" + k.key), r.primary, r.replica)
  {
    RunsKeepInv(d, es);
    CanonicalStoragePath(k);
    hide After, Placement, NextOnRing, StoragePath, ViewOf;
    assert KeyInv(d, After(d, es).files, k, ViewOf(After(d, es), k));
    PlacementIsNextOnRing(d.hash, d.nodes, 50, StoragePath(k.owner, k.key), d.factor);
  }

  predicate Waits(v: View, i: nat) {
    v.op.Some? && v.op.value.Putting? && i in v.op.value.waiting
  }

  lemma OnlyWaitingReturn(d: Deployment, v: View, k: ObjectKey, i: nat, o: PutOutcome)
    ensures Possible(d, v, PutReturns(k, i, o)) ==> Waits(v, i)
  {}

  lemma WaitsAfterStep(d: Deployment, s: State, e: Event, k: ObjectKey, i: nat)
    requires !(e.BeginUpload? && e.k == k)
    requires Waits(ViewOf(s, k), i) ==> e.k == k && e.PutReturns? && e.i == i && Possible(d, ViewOf(s, k), e)
    ensures !Waits(ViewOf(Step(d, s, e), k), i)
  {
    hide Targets, NextFiles, FileOf, PutSucceeds, Waiting, Upserted;
  }

  /** Over every run, a target's put returns once in an upload: not again before the next one begins. */
  lemma PutReturnsOnce(d: Deployment, es: seq<Event>, m: nat, n: nat, o: PutOutcome)
    requires m < n <= |es| && es[m].PutReturns? && Possible(d, ViewOf(After(d, es[..m]), es[m].k), es[m])
    requires forall j :: m < j < n ==> !(es[j].BeginUpload? && es[j].k == es[m].k)
    ensures !Possible(d, ViewOf(After(d, es[..n]), es[m].k), PutReturns(es[m].k, es[m].i, o))
  {
    NotWaiting(d, es, m, n);
    OnlyWaitingReturn(d, ViewOf(After(d, es[..n]), es[m].k), es[m].k, es[m].i, o);
    hide Waits, Possible;
  }

  lemma AfterNext(d: Deployment, es: seq<Event>, m: nat)
    requires m < |es|
    ensures After(d, es[..m + 1]) == Step(d, After(d, es[..m]), es[m])
  {
    assert es[..m + 1][..m] == es[..m];
  }

  lemma {:induction false} NotWaiting(d: Deployment, es: seq<Event>, m: nat, n: nat)
    requires m < n <= |es| && es[m].PutReturns? && Possible(d, ViewOf(After(d, es[..m]), es[m].k), es[m])
    requires forall j :: m < j < n ==> !(es[j].BeginUpload? && es[j].k == es[m].k)
    ensures !Waits(ViewOf(After(d, es[..n]), es[m].k), es[m].i)
  {
    hide Waits, Possible, Step, ViewOf, After;
    AfterNext(d, es, n - 1);
    if n > m + 1 {
      NotWaiting(d, es, m, n - 1);
    }
    WaitsAfterStep(d, After(d, es[..n - 1]), es[n - 1], es[m].k, es[m].i);
  }

  // Downloads while other keys change

  predicate Mutates(e: Event, k: ObjectKey) {
    e.k == k && !e.Hide? && !e.SetPermission?
  }

  predicate Idle(v: View) {
    v.op.None? && v.returned.Some?
  }

  predicate Acknowledged(v: View) {
    Idle(v) && v.returned.value.UploadedNil?
  }

  lemma StepKeepsReturn(d: Deployment, s: State, e: Event, k: ObjectKey)
    requires Idle(ViewOf(s, k)) && !Mutates(e, k)
    ensures var v, v' := ViewOf(s, k), ViewOf(Step(d, s, e), k); Idle(v') && v'.returned == v.returned
  {
    hide NextFiles, Targets, FileOf, HiddenRow, WithPermission, Upserted;
  }

  /** Until the next mutation of the key, what its last one returned stays what it returned. */
  lemma {:induction false} ReturnStays(d: Deployment, es: seq<Event>, more: seq<Event>, k: ObjectKey)
    requires Idle(ViewOf(After(d, es), k)) && forall i :: 0 <= i < |more| ==> !Mutates(more[i], k)
    ensures var v, v' := ViewOf(After(d, es), k), ViewOf(After(d, es + more), k); Idle(v') && v'.returned == v.returned
  {
    hide Step, ViewOf;
    if more == [] {
      assert es + more == es;
    } else {
      var init, e := more[..|more| - 1], more[|more| - 1];
      ReturnStays(d, es, init, k);
      StepKeepsReturn(d, After(d, es + init), e, k);
      InitConcat(es, more);
    }
  }

  /**
   * Safety: over every interleaving and every pattern of failures, if a key's last finished mutation
   * is an upload that returned nil and none is in flight, its row describes that upload and every
   * target, in particular the two recorded nodes, holds exactly its bytes.
   */
  lemma AcknowledgedUploadIsDurable(d: Deployment, es: seq<Event>, k: ObjectKey)
    requires Acknowledged(ViewOf(After(d, es), k))
    ensures var s := After(d, es);
            var v := ViewOf(s, k);
            var data := v.returned.value.data;
            && Describes(d, v.row, v.returned.value.contentType, data) && Stores(d, s.files, k, data)
            && v.row.value.primary != v.row.value.replica
            && Copy(d, s.files, v.row.value.primary, k) == Some(data)
            && Copy(d, s.files, v.row.value.replica, k) == Some(data)
  {
    RunsKeepInv(d, es);
    TargetsDiffer(d, k);
    assert KeyInv(d, After(d, es).files, k, ViewOf(After(d, es), k));
  }

  /** The same bytes are still there after any events that do not mutate the key. */
  lemma AcknowledgedStays(d: Deployment, es: seq<Event>, more: seq<Event>, k: ObjectKey)
    requires Acknowledged(ViewOf(After(d, es), k)) && forall i :: 0 <= i < |more| ==> !Mutates(more[i], k)
    ensures var r, s, s' := ViewOf(After(d, es), k).row, After(d, es), After(d, es + more);
            && Acknowledged(ViewOf(s', k)) && r.Some?
            && Copy(d, s'.files, r.value.primary, k) == Some(ViewOf(s, k).returned.value.data)
            && Copy(d, s'.files, r.value.replica, k) == Some(ViewOf(s, k).returned.value.data)
            && ViewOf(s', k).returned == ViewOf(s, k).returned
  {
    ReturnStays(d, es, more, k);
    AcknowledgedUploadIsDurable(d, es, k);
    AcknowledgedUploadIsDurable(d, es + more, k);
    RunsKeepInv(d, es);
    RunsKeepInv(d, es + more);
    hide After, Copy, Targets, Stores, OpInv;
    assert KeyInv(d, After(d, es).files, k, ViewOf(After(d, es), k));
    assert KeyInv(d, After(d, es + more).files, k, ViewOf(After(d, es + more), k));
  }

  /**
   * What `Download` returns when its three reads happen in three states of a run: the row in the
   * first, the primary's file in the second, the replica's in the third.
   */
  function DownloadAcross(d: Deployment, s1: State, s2: State, s3: State, k: ObjectKey, primary: Reply, replica: Reply): Downloaded {
    var row := ViewOf(s1, k).row;
    if row.None? then Refused(NotFound)
    else Failover(row.value, Fetched(s2.files, FileOf(d, row.value.primary, k), primary),
                  Fetched(s3.files, FileOf(d, row.value.replica, k), replica))
  }

  lemma AcrossIsFailover(d: Deployment, s1: State, s2: State, s3: State, k: ObjectKey, primary: Reply, replica: Reply)
    requires ViewOf(s1, k).row.Some?
    ensures var r := ViewOf(s1, k).row.value;
            DownloadAcross(d, s1, s2, s3, k, primary, replica) ==
            Failover(r, Fetched(s2.files, FileOf(d, r.primary, k), primary), Fetched(s3.files, FileOf(d, r.replica, k), replica))
  {
    hide FileOf, ViewOf;
  }

  lemma FetchedCopy(d: Deployment, files: Files, n: Node, k: ObjectKey, data: Bytes, reply: Reply)
    requires Copy(d, files, n, k) == Some(data)
    ensures Fetched(files, FileOf(d, n, k), reply) == if reply.Answers? then Some(data) else None
  {
    hide FileOf;
  }

  lemma AcknowledgedHasRow(d: Deployment, es: seq<Event>, k: ObjectKey)
    requires Acknowledged(ViewOf(After(d, es), k))
    ensures var v := ViewOf(After(d, es), k);
            v.returned.Some? && v.returned.value.UploadedNil? && Describes(d, v.row, v.returned.value.contentType, v.returned.value.data)
  {
    AcknowledgedUploadIsDurable(d, es, k);
  }

  lemma RowNamesNodes(d: Deployment, es: seq<Event>, k: ObjectKey)
    requires Node("") !in d.nodes && ViewOf(After(d, es), k).row.Some?
    ensures var r := ViewOf(After(d, es), k).row.value; r.primary != r.replica && r.primary.url != "" && r.replica.url != ""
  {
    RunsKeepInv(d, es);
    TargetsDiffer(d, k);
    hide After, Targets;
    assert KeyInv(d, After(d, es).files, k, ViewOf(After(d, es), k));
    var r := ViewOf(After(d, es), k).row.value;
    assert r.primary in d.nodes && r.replica in d.nodes;
    assert r.primary.url == "" ==> r.primary == Node("");
    assert r.replica.url == "" ==> r.replica == Node("");
  }

  /** After an acknowledged upload a download gives its bytes back whenever either node answers. */
  lemma DownloadReturnsUpload(d: Deployment, es: seq<Event>, more: seq<Event>, more': seq<Event>, k: ObjectKey,
                              primary: Reply, replica: Reply)
    requires Node("") !in d.nodes && Acknowledged(ViewOf(After(d, es), k))
    requires forall i :: 0 <= i < |more + more'| ==> !Mutates((more + more')[i], k)
    ensures var r := ViewOf(After(d, es), k).returned.value;
            var result := DownloadAcross(d, After(d, es), After(d, es + more), After(d, es + (more + more')), k, primary, replica);
            if primary.Answers? || replica.Answers?
            then result.Streamed? && result.stream == Some(r.data) && Describes(d, Some(result.record), r.contentType, r.data)
            else result == Refused(NodeFailed)
  {
    hide After, Targets, FileOf, Stores, Copy, Fetched, DownloadAcross, Acknowledged, ViewOf, Mutates;
    assert forall i :: 0 <= i < |more| ==> more[i] == (more + more')[i];
    AcknowledgedHasRow(d, es, k);
    AcknowledgedStays(d, es, more, k);
    AcknowledgedStays(d, es, more + more', k);
    RowNamesNodes(d, es, k);
    var s1, s2, s3, v := After(d, es), After(d, es + more), After(d, es + (more + more')), ViewOf(After(d, es), k);
    FetchedCopy(d, s2.files, v.row.value.primary, k, v.returned.value.data, primary);
    FetchedCopy(d, s3.files, v.row.value.replica, k, v.returned.value.data, replica);
    AcrossIsFailover(d, s1, s2, s3, k, primary, replica);
  }

  /** No download of any run, over whatever states, reports success without a stream. */
  lemma NoEmptySuccess(d: Deployment, es: seq<Event>, s2: State, s3: State, k: ObjectKey, primary: Reply, replica: Reply)
    requires Node("") !in d.nodes
    ensures var result := DownloadAcross(d, After(d, es), s2, s3, k, primary, replica);
            result.Streamed? ==> result.stream.Some?
  {
    if ViewOf(After(d, es), k).row.Some? {
      RowNamesNodes(d, es, k);
    }
  }
}
