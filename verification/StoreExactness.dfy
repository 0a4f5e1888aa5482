/** Exactly which files exist after runs in which cleaning up works. */
module StoreExactness {
  import opened GoStrings
  import opened Outcomes
  import opened ObjectPaths
  import opened HashRing
  import opened RingProperties
  import opened ObjectService
  import opened StoreMachine

  /** Puts may fail for a key that has no row; statements and node deletes work. */
  predicate Clean(v: View, e: Event) {
    match e
    case PutReturns(_, _, o) => o == Stored || v.row.None?
    case RollbackDelete(_, removed) => removed
    case Commit(_, sql) => sql == Done
    case DeleteCopy(_, removed) => removed
    case DeleteRow(_, sql) => sql == Done
    case _ => true
  }

  predicate CleanRun(d: Deployment, es: seq<Event>) {
    es == [] ||
    var init, e := es[..|es| - 1], es[|es| - 1];
    CleanRun(d, init) && (Possible(d, ViewOf(After(d, init), e.k), e) ==> Clean(ViewOf(After(d, init), e.k), e))
  }

  function Holds(d: Deployment, files: Files, n: Node, k: ObjectKey): bool {
    Copy(d, files, n, k).Some?
  }

  ghost predicate HeldWithin(d: Deployment, files: Files, k: ObjectKey, ns: seq<Node>) {
    forall n :: Holds(d, files, n, k) ==> n in ns
  }

  ghost predicate HeldExactly(d: Deployment, files: Files, k: ObjectKey, ns: seq<Node>) {
    forall n :: Holds(d, files, n, k) <==> n in ns
  }

  /** The targets `Delete` does not know about. */
  function Extra(ns: seq<Node>): seq<Node> {
    if |ns| <= 2 then [] else ns[2..]
  }

  ghost predicate KeyExact(d: Deployment, files: Files, k: ObjectKey, v: View) {
    var ns := Targets(d, k);
    match v.op
    case None => if v.row.Some? then HeldExactly(d, files, k, ns) else HeldWithin(d, files, k, Extra(ns))
    case Some(op) =>
      match op
      case Putting(_, _, _, failed) =>
        HeldWithin(d, files, k, ns) && (v.row.Some? ==> !failed && HeldExactly(d, files, k, ns))
      case RollingBack(next) => v.row.None? && next <= |ns| && HeldWithin(d, files, k, ns[next..])
      case Committing(_, _) => HeldExactly(d, files, k, ns)
      case Deleting(_, _, stage) => stage <= 2 <= |ns| && HeldExactly(d, files, k, ns[stage..])
  }

  lemma ExactFrame(d: Deployment, files: Files, files': Files, k: ObjectKey, v: View)
    requires KeyExact(d, files, k, v) && forall n :: Copy(d, files', n, k) == Copy(d, files, n, k)
    ensures KeyExact(d, files', k, v)
  {
    hide Copy, Targets;
  }

  lemma StoredEverywhere(d: Deployment, files: Files, k: ObjectKey, data: Bytes)
    requires Stores(d, files, k, data) && HeldWithin(d, files, k, Targets(d, k))
    ensures HeldExactly(d, files, k, Targets(d, k))
  {
    hide Copy, Targets;
    forall n | n in Targets(d, k)
      ensures Holds(d, files, n, k)
    {
      var i :| 0 <= i < |Targets(d, k)| && Targets(d, k)[i] == n;
    }
  }

  /** A put to one of the holders' nodes adds no holder, and takes none away unless it broke. */
  lemma PutWithin(d: Deployment, files: Files, files': Files, k: ObjectKey, ns: seq<Node>, x: Node, stored: bool)
    requires x in ns && forall n :: n != x ==> Copy(d, files', n, k) == Copy(d, files, n, k)
    requires stored ==> Copy(d, files', x, k).Some?
    ensures HeldWithin(d, files, k, ns) ==> HeldWithin(d, files', k, ns)
    ensures stored && HeldExactly(d, files, k, ns) ==> HeldExactly(d, files', k, ns)
  {
    hide Copy;
  }

  lemma ExactPut(d: Deployment, files: Files, files': Files, v: View, k: ObjectKey, i: nat, o: PutOutcome)
    requires var e := PutReturns(k, i, o);
             && Possible(d, v, e) && Clean(v, e) && KeyExact(d, files, k, v)
             && KeyInv(d, files', k, NextView(d, v, e))
             && forall n :: Copy(d, files', n, k) == NextCopy(d, Copy(d, files, n, k), n, v, e)
    ensures KeyExact(d, files', k, NextView(d, v, PutReturns(k, i, o)))
  {
    var ns, op, v' := Targets(d, k), v.op.value, NextView(d, v, PutReturns(k, i, o));
    CanonicalHasFile(d, ns[i], k);
    hide Copy, Targets, FileOf, Waiting;
    PutWithin(d, files, files', k, ns, ns[i], o == Stored);
    hide NextCopy;
    if v'.op.value.Committing? {
      StoredEverywhere(d, files', k, op.data);
    }
    assert ns[0..] == ns;
    hide HeldWithin, HeldExactly, Stores;
  }

  lemma DropOne(ns: seq<Node>, c: nat)
    requires c < |ns|
    ensures forall n :: n in ns[c..] <==> n == ns[c] || n in ns[c + 1..]
    ensures NoRepeats(ns) ==> ns[c] !in ns[c + 1..]
  {
    assert ns[c..] == [ns[c]] + ns[c + 1..];
  }

  lemma Narrow(d: Deployment, files: Files, files': Files, k: ObjectKey, x: Node, all: seq<Node>, rest: seq<Node>)
    requires forall n :: n in all <==> n == x || n in rest
    requires forall n :: Copy(d, files', n, k) == if n == x then None else Copy(d, files, n, k)
    ensures HeldWithin(d, files, k, all) ==> HeldWithin(d, files', k, rest)
    ensures x !in rest && HeldExactly(d, files, k, all) ==> HeldExactly(d, files', k, rest)
  {
    hide Copy;
  }

  /** Deleting one node's copy takes that node out of the holders. */
  lemma DeleteNarrows(d: Deployment, files: Files, files': Files, k: ObjectKey, ns: seq<Node>, c: nat)
    requires c < |ns|
    requires forall n :: Copy(d, files', n, k) == if n == ns[c] then None else Copy(d, files, n, k)
    ensures HeldWithin(d, files, k, ns[c..]) ==> HeldWithin(d, files', k, ns[c + 1..])
    ensures NoRepeats(ns) && HeldExactly(d, files, k, ns[c..]) ==> HeldExactly(d, files', k, ns[c + 1..])
  {
    DropOne(ns, c);
    hide Copy, HeldWithin, HeldExactly, NoRepeats;
    Narrow(d, files, files', k, ns[c], ns[c..], ns[c + 1..]);
  }

  lemma ExactRollback(d: Deployment, files: Files, files': Files, v: View, k: ObjectKey)
    requires var e := RollbackDelete(k, true);
             && Possible(d, v, e) && KeyExact(d, files, k, v)
             && forall n :: Copy(d, files', n, k) == NextCopy(d, Copy(d, files, n, k), n, v, e)
    ensures KeyExact(d, files', k, NextView(d, v, RollbackDelete(k, true)))
  {
    var ns, next := Targets(d, k), v.op.value.next;
    hide Copy, Targets;
    DeleteNarrows(d, files, files', k, ns, next);
    assert next + 1 == |ns| ==> ns[next + 1..] == [];
  }

  lemma ExactDeleteCopy(d: Deployment, files: Files, files': Files, v: View, k: ObjectKey)
    requires var e := DeleteCopy(k, true);
             && Possible(d, v, e) && KeyInv(d, files, k, v) && KeyExact(d, files, k, v)
             && forall n :: Copy(d, files', n, k) == NextCopy(d, Copy(d, files, n, k), n, v, e)
    requires NoRepeats(Targets(d, k)) && forall n :: n in Targets(d, k) ==> n.url != ""
    ensures KeyExact(d, files', k, NextView(d, v, DeleteCopy(k, true)))
  {
    var ns, stage := Targets(d, k), v.op.value.stage;
    assert DeletedNode(v.op.value) == ns[stage] && ns[stage] in ns;
    hide Copy, Targets;
    DeleteNarrows(d, files, files', k, ns, stage);
  }

  lemma ExactQuiet(d: Deployment, files: Files, v: View, e: Event)
    requires !TouchesFiles(e) && Possible(d, v, e) && Clean(v, e)
    requires KeyInv(d, files, e.k, v) && KeyExact(d, files, e.k, v) && NoRepeats(Targets(d, e.k))
    ensures KeyExact(d, files, e.k, NextView(d, v, e))
  {
    var ns := Targets(d, e.k);
    assert ns[0..] == ns;
    hide Copy, Targets, Waiting;
  }

  lemma ExactStep(d: Deployment, files: Files, v: View, e: Event)
    requires Node("") !in d.nodes && Possible(d, v, e) && Clean(v, e)
    requires KeyInv(d, files, e.k, v) && KeyExact(d, files, e.k, v)
    ensures KeyExact(d, NextFiles(d, files, v, e), e.k, NextView(d, v, e))
  {
    var files' := NextFiles(d, files, v, e);
    CopyAfterStep(d, files, v, e);
    KeyInvStep(d, files, v, e);
    TargetsNamed(d, e.k);
    hide Copy, Targets, KeyInv, KeyExact, NextView;
    match e
    case PutReturns(_, _, _) => ExactPut(d, files, files', v, e.k, e.i, e.outcome);
    case RollbackDelete(_, _) => ExactRollback(d, files, files', v, e.k);
    case DeleteCopy(_, _) => ExactDeleteCopy(d, files, files', v, e.k);
    case _ => ExactQuiet(d, files, v, e);
  }

  lemma TargetsNamed(d: Deployment, k: ObjectKey)
    requires Node("") !in d.nodes
    ensures NoRepeats(Targets(d, k)) && forall n :: n in Targets(d, k) ==> n.url != ""
  {
    TargetsDiffer(d, k);
    forall n | n in Targets(d, k)
      ensures n.url != ""
    {
      assert n.url == "" ==> n == Node("");
    }
  }

  lemma {:induction false} CleanRunsKeepExact(d: Deployment, es: seq<Event>)
    requires Node("") !in d.nodes && CleanRun(d, es)
    ensures forall k: ObjectKey :: KeyExact(d, After(d, es).files, k, ViewOf(After(d, es), k))
  {
    if es == [] {
      hide Targets;
    } else {
      var init, e := es[..|es| - 1], es[|es| - 1];
      var s, v := After(d, init), ViewOf(After(d, init), e.k);
      CleanRunsKeepExact(d, init);
      RunsKeepInv(d, init);
      hide Copy, KeyInv, KeyExact, NextView;
      if Possible(d, v, e) {
        CopyAfterStep(d, s.files, v, e);
        hide NextCopy, NextFiles;
        forall k: ObjectKey
          ensures KeyExact(d, After(d, es).files, k, ViewOf(After(d, es), k))
        {
          if k == e.k {
            ExactStep(d, s.files, v, e);
          } else {
            ExactFrame(d, s.files, After(d, es).files, k, ViewOf(s, k));
          }
        }
      }
    }
  }

  /** The copies of an idle key are the ones its row promises. */
  ghost predicate Corresponds(d: Deployment, s: State, k: ObjectKey) {
    forall n :: Holds(d, s.files, n, k) <==> ViewOf(s, k).row.Some? && n in Targets(d, k)
  }

  /** With at most two targets, over every clean run, every idle key's copies are exactly right. */
  lemma IdleKeysCorrespond(d: Deployment, es: seq<Event>, k: ObjectKey)
    requires Node("") !in d.nodes && CleanRun(d, es) && |Targets(d, k)| <= 2 && ViewOf(After(d, es), k).op.None?
    ensures Corresponds(d, After(d, es), k)
  {
    CleanRunsKeepExact(d, es);
    hide After, Targets, Copy;
    assert KeyExact(d, After(d, es).files, k, ViewOf(After(d, es), k));
  }

  // No file belongs to no object

  ghost predicate Owned(d: Deployment, l: Location) {
    exists n, k: ObjectKey :: FileOf(d, n, k) == Some(l)
  }

  lemma OwnedAfterPut(d: Deployment, files: Files, n: Node, k: ObjectKey, data: Bytes, o: PutOutcome)
    requires forall l :: l in files ==> Owned(d, l)
    ensures forall l :: l in AfterPut(files, FileOf(d, n, k), data, o) ==> Owned(d, l)
  {
    CanonicalHasFile(d, n, k);
    hide FileOf;
    assert Owned(d, FileOf(d, n, k).value);
  }

  lemma OwnedAfterDelete(d: Deployment, files: Files, l: Option<Location>, removed: bool)
    requires forall l :: l in files ==> Owned(d, l)
    ensures forall l' :: l' in AfterDelete(files, l, removed) ==> Owned(d, l')
  {
    hide Owned;
  }

  lemma OwnedStep(d: Deployment, files: Files, v: View, e: Event)
    requires Possible(d, v, e) && forall l :: l in files ==> Owned(d, l)
    ensures forall l :: l in NextFiles(d, files, v, e) ==> Owned(d, l)
  {
    hide FileOf, Targets, Owned, AfterPut, AfterDelete;
    match e
    case PutReturns(k, i, o) => OwnedAfterPut(d, files, Targets(d, k)[i], k, v.op.value.data, o);
    case RollbackDelete(k, removed) => OwnedAfterDelete(d, files, FileOf(d, Targets(d, k)[v.op.value.next], k), removed);
    case DeleteCopy(k, removed) =>
      var n := DeletedNode(v.op.value);
      OwnedAfterDelete(d, files, FileOf(d, n, k), removed && n.url != "");
    case _ =>
  }

  lemma {:induction false} FilesAreOwned(d: Deployment, es: seq<Event>)
    ensures forall l :: l in After(d, es).files ==> Owned(d, l)
  {
    if es != [] {
      var init, e := es[..|es| - 1], es[|es| - 1];
      var s, v := After(d, init), ViewOf(After(d, init), e.k);
      FilesAreOwned(d, init);
      if Possible(d, v, e) {
        OwnedStep(d, s.files, v, e);
        hide NextFiles, NextView, Owned;
      }
    }
  }

  /**
   * Exact correspondence: with replication factor two, after every clean run with nothing in flight,
   * the files on the nodes are exactly the files of the objects that have a row, on their targets.
   */
  lemma ExactCorrespondence(d: Deployment, es: seq<Event>)
    requires Node("") !in d.nodes && d.factor == 2 && CleanRun(d, es)
    requires forall k: ObjectKey :: ViewOf(After(d, es), k).op.None?
    ensures forall l :: l in After(d, es).files <==>
              exists n, k: ObjectKey :: FileOf(d, n, k) == Some(l) && ViewOf(After(d, es), k).row.Some? && n in Targets(d, k)
  {
    var s := After(d, es);
    FilesAreOwned(d, es);
    forall k: ObjectKey
      ensures Corresponds(d, s, k)
    {
      TargetCount(d, k);
      IdleKeysCorrespond(d, es, k);
    }
    FilesAreRows(d, s);
  }

  lemma FilesAreRows(d: Deployment, s: State)
    requires (forall l :: l in s.files ==> Owned(d, l)) && forall k: ObjectKey :: Corresponds(d, s, k)
    ensures forall l :: l in s.files <==>
              exists n, k: ObjectKey :: FileOf(d, n, k) == Some(l) && ViewOf(s, k).row.Some? && n in Targets(d, k)
  {
    hide Targets, FileOf, ViewOf;
    forall l | l in s.files
      ensures exists n, k: ObjectKey :: FileOf(d, n, k) == Some(l) && ViewOf(s, k).row.Some? && n in Targets(d, k)
    {
      var n, k: ObjectKey :| FileOf(d, n, k) == Some(l);
      assert Corresponds(d, s, k) && Holds(d, s.files, n, k);
    }
    forall n, k: ObjectKey, l | FileOf(d, n, k) == Some(l) && ViewOf(s, k).row.Some? && n in Targets(d, k)
      ensures l in s.files
    {
      assert Corresponds(d, s, k) && Holds(d, s.files, n, k);
    }
  }

  // More than two targets: deletes leave copies behind

  lemma Extend(d: Deployment, es: seq<Event>, e: Event)
    requires CleanRun(d, es) && Possible(d, ViewOf(After(d, es), e.k), e) && Clean(ViewOf(After(d, es), e.k), e)
    ensures CleanRun(d, es + [e])
    ensures After(d, es + [e]).files == NextFiles(d, After(d, es).files, ViewOf(After(d, es), e.k), e)
    ensures ViewOf(After(d, es + [e]), e.k) == NextView(d, ViewOf(After(d, es), e.k), e)
  {
    assert (es + [e])[..|es|] == es;
  }

  /** An upload whose first `i` puts are back, all of them stored. */
  function FirstPuts(k: ObjectKey, data: Bytes, i: nat): seq<Event> {
    if i == 0 then [BeginUpload(k, "", data)] else FirstPuts(k, data, i - 1) + [PutReturns(k, i - 1, Stored)]
  }

  function PuttingView(data: Bytes, n: nat, i: nat): View {
    View(None, Some(if i < n then Putting("", data, Waiting(n) - Waiting(i), false) else Committing("", data)), None)
  }

  lemma PuttingViewStep(d: Deployment, k: ObjectKey, data: Bytes, i: nat)
    requires i < |Targets(d, k)|
    ensures var n, e := |Targets(d, k)|, PutReturns(k, i, Stored);
            && Possible(d, PuttingView(data, n, i), e) && Clean(PuttingView(data, n, i), e)
            && NextView(d, PuttingView(data, n, i), e) == PuttingView(data, n, i + 1)
  {
    var n := |Targets(d, k)|;
    CanonicalHasFile(d, Targets(d, k)[i], k);
    WaitingShrinks(n, i);
    hide Targets, FileOf, Waiting;
  }

  lemma WaitingShrinks(n: nat, i: nat)
    requires i < n
    ensures i in Waiting(n) - Waiting(i) && Waiting(n) - Waiting(i) - {i} == Waiting(n) - Waiting(i + 1)
    ensures Waiting(n) - Waiting(i + 1) == {} <==> i + 1 == n
  {
    assert i + 1 < n ==> i + 1 in Waiting(n) - Waiting(i + 1);
  }

  lemma AfterBegin(d: Deployment, k: ObjectKey, data: Bytes)
    requires 2 <= |Targets(d, k)|
    ensures PutsBack(d, k, data, 0)
  {
    var e, n := BeginUpload(k, "", data), |Targets(d, k)|;
    assert Waiting(n) - Waiting(0) == Waiting(n);
    var idle := ViewOf(EMPTY, k);
    assert Possible(d, idle, e) && NextView(d, idle, e) == PuttingView(data, n, 0);
    hide Targets, Waiting, Possible, NextView, PuttingView, NextFiles;
    assert [] + [e] == FirstPuts(k, data, 0);
    Extend(d, [], e);
  }

  predicate PutsBack(d: Deployment, k: ObjectKey, data: Bytes, i: nat) {
    && CleanRun(d, FirstPuts(k, data, i))
    && ViewOf(After(d, FirstPuts(k, data, i)), k) == PuttingView(data, |Targets(d, k)|, i)
  }

  lemma OneMorePut(d: Deployment, k: ObjectKey, data: Bytes, i: nat)
    requires i < |Targets(d, k)| && PutsBack(d, k, data, i)
    ensures PutsBack(d, k, data, i + 1)
  {
    var es, e := FirstPuts(k, data, i), PutReturns(k, i, Stored);
    assert FirstPuts(k, data, i + 1) == es + [e];
    PuttingViewStep(d, k, data, i);
    hide Targets, After, CleanRun, ViewOf, NextView, NextFiles, PuttingView, Clean, Possible, FirstPuts;
    Extend(d, es, e);
  }

  lemma {:induction false} AfterFirstPuts(d: Deployment, k: ObjectKey, data: Bytes, i: nat)
    requires 2 <= |Targets(d, k)| && i <= |Targets(d, k)|
    ensures PutsBack(d, k, data, i)
  {
    hide PutsBack;
    if i == 0 {
      AfterBegin(d, k, data);
    } else {
      AfterFirstPuts(d, k, data, i - 1);
      OneMorePut(d, k, data, i - 1);
    }
  }

  /** A complete upload and all of a delete but its last statement. */
  function StoreAndClear(d: Deployment, k: ObjectKey, data: Bytes): seq<Event> {
    FirstPuts(k, data, |Targets(d, k)|) + [Commit(k, Done)] + [BeginDelete(k)] + [DeleteCopy(k, true)] + [DeleteCopy(k, true)]
  }

  lemma AfterStoreAndClear(d: Deployment, k: ObjectKey, data: Bytes)
    requires 2 <= |Targets(d, k)|
    ensures CleanRun(d, StoreAndClear(d, k, data))
    ensures var v := ViewOf(After(d, StoreAndClear(d, k, data)), k);
            v.row.Some? && v.op.Some? && v.op.value.Deleting? && v.op.value.stage == 2
  {
    var es := FirstPuts(k, data, |Targets(d, k)|);
    AfterFirstPuts(d, k, data, |Targets(d, k)|);
    TargetsDiffer(d, k);
    assert Targets(d, k)[0] != Targets(d, k)[1];
    hide Targets, FileOf, After, CleanRun, NextFiles, FirstPuts, ViewOf;
    Extend(d, es, Commit(k, Done));
    Extend(d, es + [Commit(k, Done)], BeginDelete(k));
    var es' := es + [Commit(k, Done)] + [BeginDelete(k)];
    Extend(d, es', DeleteCopy(k, true));
    Extend(d, es' + [DeleteCopy(k, true)], DeleteCopy(k, true));
  }

  /** An object with a third target loses its row on a clean delete but not its third copy. */
  lemma ThirdCopyStays(d: Deployment, k: ObjectKey, data: Bytes)
    requires Node("") !in d.nodes && |Targets(d, k)| > 2
    ensures var es := StoreAndClear(d, k, data) + [DeleteRow(k, Done)];
            && CleanRun(d, es) && ViewOf(After(d, es), k).op.None?
            && ViewOf(After(d, es), k).row.None? && Holds(d, After(d, es).files, Targets(d, k)[2], k)
  {
    var es := StoreAndClear(d, k, data);
    AfterStoreAndClear(d, k, data);
    CleanRunsKeepExact(d, es);
    hide Targets, After, CleanRun, ViewOf, Copy, StoreAndClear;
    assert KeyExact(d, After(d, es).files, k, ViewOf(After(d, es), k));
    Extend(d, es, DeleteRow(k, Done));
    assert Targets(d, k)[2] == Targets(d, k)[2..][0];
  }

  /** How many targets a key has, the same for all keys. */
  lemma TargetCount(d: Deployment, k: RawKey)
    ensures |Targets(d, k)| == if d.factor <= 0 then 0 else Min(d.factor, |RingOwners(d.hash, d.nodes, 50)|)
  {
    PlacementLength(d.hash, d.nodes, 50, StoragePath(k.owner, k.key), d.factor);
  }

  /**
   * For any deployment, idle keys always correspond over all clean runs exactly when the replication
   * factor or the number of nodes that own a point of the ring is at most two.
   */
  lemma CorrespondenceIff(d: Deployment)
    requires Node("") !in d.nodes
    ensures (forall es, k: ObjectKey :: CleanRun(d, es) && ViewOf(After(d, es), k).op.None? ==> Corresponds(d, After(d, es), k))
            <==> d.factor <= 2 || |RingOwners(d.hash, d.nodes, 50)| <= 2
  {
    hide Targets, After, CleanRun, ViewOf, Corresponds, StoreAndClear, RingOwners;
    if d.factor <= 2 || |RingOwners(d.hash, d.nodes, 50)| <= 2 {
      forall es, k: ObjectKey | CleanRun(d, es) && ViewOf(After(d, es), k).op.None?
        ensures Corresponds(d, After(d, es), k)
      {
        TargetCount(d, k);
        IdleKeysCorrespond(d, es, k);
      }
    } else {
      var k: ObjectKey := SampleKey();
      TargetCount(d, k);
      ThirdCopyStays(d, k, []);
      var es := StoreAndClear(d, k, []) + [DeleteRow(k, Done)];
      NotCorresponding(d, After(d, es), k, Targets(d, k)[2]);
    }
  }

  lemma NotCorresponding(d: Deployment, s: State, k: ObjectKey, n: Node)
    requires ViewOf(s, k).row.None? && Holds(d, s.files, n, k)
    ensures !Corresponds(d, s, k)
  {
  }
}
