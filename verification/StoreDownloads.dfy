/** What downloads stream, directories included: whether it is what the row they return describes. */
module StoreDownloads {
  import opened GoStrings
  import opened Outcomes
  import opened ObjectPaths
  import opened HashRing
  import opened RingProperties
  import opened ObjectTable
  import opened ObjectService
  import opened StoreMachine
  import opened StoreIntegrity
  import opened StoreRefinement

  // What is streamed

  lemma QuietStep(d: Deployment, s: State, e: Event, k: ObjectKey)
    requires ViewOf(s, k).op.None? && !Mutates(e, k)
    ensures ViewOf(Step(d, s, e), k).op.None?
    ensures forall n :: Copy(d, Step(d, s, e).files, n, k) == Copy(d, s.files, n, k)
  {
    var v := ViewOf(s, e.k);
    hide Copy, Targets, FileOf, HiddenRow, WithPermission, Upserted;
    if Possible(d, v, e) {
      CopyAfterStep(d, s.files, v, e);
      hide NextFiles;
    }
  }

  lemma {:induction false} QuietRun(d: Deployment, es: seq<Event>, more: seq<Event>, k: ObjectKey)
    requires ViewOf(After(d, es), k).op.None? && forall i :: 0 <= i < |more| ==> !Mutates(more[i], k)
    ensures ViewOf(After(d, es + more), k).op.None?
    ensures forall n :: Copy(d, After(d, es + more).files, n, k) == Copy(d, After(d, es).files, n, k)
  {
    hide Step, ViewOf, Copy;
    if more == [] {
      assert es + more == es;
    } else {
      var init, e := more[..|more| - 1], more[|more| - 1];
      QuietRun(d, es, init, k);
      QuietStep(d, After(d, es + init), e, k);
      InitConcat(es, more);
    }
  }

  /** The event with index i puts an object below this one on the node. */
  ghost predicate PutBelowAt(d: Deployment, es: seq<Event>, i: int, n: Node, k: ObjectKey) {
    && 0 <= i < |es| && es[i].PutReturns? && Extends(es[i].k, k)
    && Possible(d, ViewOf(After(d, es[..i]), es[i].k), es[i]) && Targets(d, es[i].k)[es[i].i] == n
  }

  ghost predicate PutBelow(d: Deployment, es: seq<Event>, n: Node, k: ObjectKey) {
    exists i :: PutBelowAt(d, es, i, n, k)
  }

  /** A file of the node lies below the path. */
  predicate LiesBelow(files: Files, l: Location) {
    exists l' :: l' in files && l'.node == l.node && HasPrefix(l'.path, l.path + "/")
  }

  /**
   * What a node may answer after the run: an object's path is a directory while a file lies below it,
   * and is one only if a put of such a file was at least tried. Directories outlive the files in them.
   */
  ghost predicate Honest(d: Deployment, es: seq<Event>, n: Node, k: ObjectKey, reply: Reply) {
    reply.Answers? ==>
      && (reply.directory ==> PutBelow(d, es, n, k))
      && (FileOf(d, n, k).Some? && LiesBelow(After(d, es).files, FileOf(d, n, k).value) ==> reply.directory)
  }

  /** What the step of a put adds to the files. */
  lemma StepAddsPut(d: Deployment, s: State, e: Event, l: Location)
    requires l in Step(d, s, e).files && l !in s.files
    ensures Possible(d, ViewOf(s, e.k), e) && e.PutReturns? && FileOf(d, Targets(d, e.k)[e.i], e.k) == Some(l)
  {
    hide FileOf, Targets, NextView, ViewOf;
  }

  lemma {:induction false} FilesWerePut(d: Deployment, es: seq<Event>, l: Location) returns (i: nat)
    requires l in After(d, es).files
    ensures i < |es| && es[i].PutReturns? && Possible(d, ViewOf(After(d, es[..i]), es[i].k), es[i])
    ensures FileOf(d, Targets(d, es[i].k)[es[i].i], es[i].k) == Some(l)
  {
    hide FileOf, Targets, Step, ViewOf, Possible;
    i := 0;
    if es != [] {
      var init, e := es[..|es| - 1], es[|es| - 1];
      if l in After(d, init).files {
        i := FilesWerePut(d, init, l);
        assert init[..i] == es[..i];
      } else {
        i := |es| - 1;
        StepAddsPut(d, After(d, init), e, l);
      }
    }
  }

  /** The two halves of honesty fit: only puts of objects that extend the key put a file below its path. */
  lemma LyingBelowWasPut(d: Deployment, es: seq<Event>, n: Node, k: ObjectKey)
    requires FileOf(d, n, k).Some? && LiesBelow(After(d, es).files, FileOf(d, n, k).value)
    ensures PutBelow(d, es, n, k)
  {
    hide After, FileOf, Targets, ViewOf;
    var l := FileOf(d, n, k).value;
    var l' :| l' in After(d, es).files && l'.node == l.node && HasPrefix(l'.path, l.path + "/");
    var i := FilesWerePut(d, es, l');
    CanonicalHasFile(d, n, k);
    CanonicalHasFile(d, Targets(d, es[i].k)[es[i].i], es[i].k);
    FileBelowIff(d, n, k, es[i].k);
    assert PutBelowAt(d, es, i, n, k);
  }

  lemma FileBelowIff(d: Deployment, n: Node, k: ObjectKey, k': ObjectKey)
    ensures FileOf(d, n, k).Some? && FileOf(d, n, k').Some?
    ensures HasPrefix(FileOf(d, n, k').value.path, FileOf(d, n, k).value.path + "/") <==> Extends(k', k)
  {
    hide PathFor, StoragePath;
    LiesBelowIff(d.root(n), k, k');
  }

  /** What a get of a node that agrees with the row can stream. */
  lemma MatchingFetch(d: Deployment, files: Files, n: Node, k: ObjectKey, etag: string, reply: Reply)
    requires Matching(d, Copy(d, files, n, k), etag)
    ensures var got := Fetched(files, FileOf(d, n, k), reply);
            got.Some? ==> d.etag(got.value) == etag || (got == Some([]) && reply.Answers? && reply.directory)
  {
    hide FileOf;
  }

  lemma AcrossNothing(d: Deployment, s1: State, s2: State, s3: State, k: ObjectKey, primary: Reply, replica: Reply)
    requires ViewOf(s1, k).row.None?
    ensures DownloadAcross(d, s1, s2, s3, k, primary, replica) == Refused(NotFound)
  {}

  /** What was got, if anything, has the etag, or is the empty body of a directory. */
  predicate RowMatches(d: Deployment, got: Option<Bytes>, etag: string, directory: bool) {
    got.Some? ==> d.etag(got.value) == etag || (got == Some([]) && directory)
  }

  lemma FetchAfterQuiet(d: Deployment, es: seq<Event>, more: seq<Event>, n: Node, k: ObjectKey, etag: string, reply: Reply)
    requires ViewOf(After(d, es), k).op.None? && forall i :: 0 <= i < |more| ==> !Mutates(more[i], k)
    requires Matching(d, Copy(d, After(d, es).files, n, k), etag) && Honest(d, es + more, n, k, reply)
    ensures RowMatches(d, Fetched(After(d, es + more).files, FileOf(d, n, k), reply), etag, PutBelow(d, es + more, n, k))
  {
    hide After, FileOf, Copy, Matching, Mutates, PutBelow, ViewOf, LiesBelow, Fetched;
    QuietRun(d, es, more, k);
    MatchingFetch(d, After(d, es + more).files, n, k, etag, reply);
  }

  lemma FailoverMatches(d: Deployment, r: Record, fromPrimary: Option<Bytes>, fromReplica: Option<Bytes>, directory: bool)
    requires RowMatches(d, fromPrimary, r.etag, directory) && RowMatches(d, fromReplica, r.etag, directory)
    ensures var result := Failover(r, fromPrimary, fromReplica);
            result.Streamed? ==> result.record == r && RowMatches(d, result.stream, r.etag, directory)
  {}

  lemma RowMatchesWeaker(d: Deployment, got: Option<Bytes>, etag: string, directory: bool, wider: bool)
    requires RowMatches(d, got, etag, directory) && (directory ==> wider)
    ensures RowMatches(d, got, etag, wider)
  {}

  /**
   * Integrity of downloads: after a run in which the key's own events were tidy, whatever its puts and
   * deletes did, a download of the idle key streams bytes with the etag of the row it returns, or the
   * empty body of a directory that a put of an object below this one made.
   */
  lemma DownloadsMatchEtag(d: Deployment, es: seq<Event>, more: seq<Event>, more': seq<Event>, k: ObjectKey,
                           primary: Reply, replica: Reply)
    requires TidyRun(d, es, k) && ViewOf(After(d, es), k).op.None?
    requires forall i :: 0 <= i < |more + more'| ==> !Mutates((more + more')[i], k)
    requires ViewOf(After(d, es), k).row.Some? ==>
               var r := ViewOf(After(d, es), k).row.value;
               Honest(d, es + more, r.primary, k, primary) && Honest(d, es + (more + more'), r.replica, k, replica)
    ensures var result := DownloadAcross(d, After(d, es), After(d, es + more), After(d, es + (more + more')), k, primary, replica);
            result.Streamed? ==>
              var r := result.record;
              RowMatches(d, result.stream, r.etag, PutBelow(d, es + more, r.primary, k) || PutBelow(d, es + (more + more'), r.replica, k))
  {
    hide After, FileOf, TidyRun, Copy, Matching, Mutates, PutBelow, ViewOf, Honest, DownloadAcross, Fetched, Failover, RowMatches;
    var s2, s3, row := After(d, es + more), After(d, es + (more + more')), ViewOf(After(d, es), k).row;
    if row.None? {
      AcrossNothing(d, After(d, es), s2, s3, k, primary, replica);
    } else {
      var r := row.value;
      assert forall i :: 0 <= i < |more| ==> more[i] == (more + more')[i];
      RecordedCopiesMatch(d, es, k);
      FetchAfterQuiet(d, es, more, r.primary, k, r.etag, primary);
      FetchAfterQuiet(d, es, more + more', r.replica, k, r.etag, replica);
      var directory := PutBelow(d, es + more, r.primary, k) || PutBelow(d, es + (more + more'), r.replica, k);
      var got, got' := Fetched(s2.files, FileOf(d, r.primary, k), primary), Fetched(s3.files, FileOf(d, r.replica, k), replica);
      RowMatchesWeaker(d, got, r.etag, PutBelow(d, es + more, r.primary, k), directory);
      RowMatchesWeaker(d, got', r.etag, PutBelow(d, es + (more + more'), r.replica, k), directory);
      AcrossIsFailover(d, After(d, es), s2, s3, k, primary, replica);
      FailoverMatches(d, r, got, got', directory);
    }
  }

  // The exact condition for downloads

  predicate HasEtag(d: Deployment, got: Option<Bytes>, etag: string) {
    got.Some? ==> d.etag(got.value) == etag
  }

  /** Whatever the node may answer, it gives nothing or bytes with the etag. */
  ghost predicate NodeServes(d: Deployment, es: seq<Event>, n: Node, k: ObjectKey, etag: string) {
    forall reply :: Honest(d, es, n, k, reply) ==> HasEtag(d, Fetched(After(d, es).files, FileOf(d, n, k), reply), etag)
  }

  /** The node has the file, or its path is no directory, or the row is that of the empty object. */
  ghost predicate NotBare(d: Deployment, es: seq<Event>, n: Node, k: ObjectKey, etag: string) {
    Copy(d, After(d, es).files, n, k).Some? || !PutBelow(d, es, n, k) || d.etag([]) == etag
  }

  /** There is always something a node may answer. */
  lemma HonestAnswer(d: Deployment, es: seq<Event>, n: Node, k: ObjectKey)
    ensures Honest(d, es, n, k, Answers(PutBelow(d, es, n, k)))
  {
    CanonicalHasFile(d, n, k);
    hide After, FileOf, PutBelow, LiesBelow;
    if LiesBelow(After(d, es).files, FileOf(d, n, k).value) {
      LyingBelowWasPut(d, es, n, k);
    }
  }

  lemma NodeServesIff(d: Deployment, es: seq<Event>, n: Node, k: ObjectKey, etag: string)
    ensures NodeServes(d, es, n, k, etag) <==> Matching(d, Copy(d, After(d, es).files, n, k), etag) && NotBare(d, es, n, k, etag)
  {
    hide After, FileOf, PutBelow, LiesBelow;
    var reply := Answers(PutBelow(d, es, n, k));
    CanonicalHasFile(d, n, k);
    HonestAnswer(d, es, n, k);
    if NodeServes(d, es, n, k, etag) {
      assert HasEtag(d, Fetched(After(d, es).files, FileOf(d, n, k), reply), etag);
    }
  }

  /** Whatever the two nodes may answer, a download of the key, if it is idle, streams bytes with the row's etag. */
  ghost predicate Serves(d: Deployment, es: seq<Event>, k: ObjectKey) {
    var s := After(d, es);
    var v := ViewOf(s, k);
    v.op.None? && v.row.Some? ==>
      forall primary, replica :: Honest(d, es, v.row.value.primary, k, primary) && Honest(d, es, v.row.value.replica, k, replica) ==>
        var result := DownloadAcross(d, s, s, s, k, primary, replica);
        result.Streamed? ==> HasEtag(d, result.stream, v.row.value.etag)
  }

  /** Neither recorded node of the key, if it is idle and has a row, has a directory where the file should be. */
  ghost predicate NoBareDirectory(d: Deployment, es: seq<Event>, k: ObjectKey) {
    var v := ViewOf(After(d, es), k);
    v.op.None? && v.row.Some? ==>
      var r := v.row.value;
      NotBare(d, es, r.primary, k, r.etag) && NotBare(d, es, r.replica, k, r.etag)
  }

  lemma FailoverServes(d: Deployment, r: Record, fromPrimary: Option<Bytes>, fromReplica: Option<Bytes>)
    ensures HasEtag(d, fromPrimary, r.etag) && HasEtag(d, fromReplica, r.etag) ==>
            var result := Failover(r, fromPrimary, fromReplica); result.Streamed? ==> HasEtag(d, result.stream, r.etag)
    ensures fromPrimary.Some? ==> Failover(r, fromPrimary, fromReplica) == Streamed(r, fromPrimary)
    ensures fromPrimary.None? && fromReplica.Some? && r.replica.url != "" ==> Failover(r, fromPrimary, fromReplica) == Streamed(r, fromReplica)
  {}

  lemma ServingNodesServe(d: Deployment, es: seq<Event>, k: ObjectKey)
    requires ViewOf(After(d, es), k).op.None? && ViewOf(After(d, es), k).row.Some?
    requires var r := ViewOf(After(d, es), k).row.value; NodeServes(d, es, r.primary, k, r.etag) && NodeServes(d, es, r.replica, k, r.etag)
    ensures Serves(d, es, k)
  {
    hide After, FileOf, Honest, Fetched, Failover, HasEtag, DownloadAcross, ViewOf;
    var s := After(d, es);
    var r := ViewOf(s, k).row.value;
    forall primary, replica | Honest(d, es, r.primary, k, primary) && Honest(d, es, r.replica, k, replica)
      ensures var result := DownloadAcross(d, s, s, s, k, primary, replica); result.Streamed? ==> HasEtag(d, result.stream, r.etag)
    {
      AcrossIsFailover(d, s, s, s, k, primary, replica);
      FailoverServes(d, r, Fetched(s.files, FileOf(d, r.primary, k), primary), Fetched(s.files, FileOf(d, r.replica, k), replica));
    }
  }

  lemma SilentIsHonest(d: Deployment, es: seq<Event>, n: Node, k: ObjectKey)
    ensures Honest(d, es, n, k, Silent) && Fetched(After(d, es).files, FileOf(d, n, k), Silent) == None
  {}

  lemma NothingHasEtag(d: Deployment, etag: string)
    ensures HasEtag(d, None, etag)
  {}

  lemma ServedFromPrimary(d: Deployment, es: seq<Event>, k: ObjectKey, reply: Reply)
    requires ViewOf(After(d, es), k).op.None? && ViewOf(After(d, es), k).row.Some? && Serves(d, es, k)
    requires Honest(d, es, ViewOf(After(d, es), k).row.value.primary, k, reply)
    ensures var r := ViewOf(After(d, es), k).row.value; HasEtag(d, Fetched(After(d, es).files, FileOf(d, r.primary, k), reply), r.etag)
  {
    hide After, FileOf, Honest, Fetched, Failover, HasEtag, DownloadAcross, ViewOf;
    var s := After(d, es);
    var r := ViewOf(s, k).row.value;
    var got := Fetched(s.files, FileOf(d, r.primary, k), reply);
    SilentIsHonest(d, es, r.replica, k);
    AcrossIsFailover(d, s, s, s, k, reply, Silent);
    FailoverServes(d, r, got, None);
    NothingHasEtag(d, r.etag);
  }

  lemma ServedFromReplica(d: Deployment, es: seq<Event>, k: ObjectKey, reply: Reply)
    requires ViewOf(After(d, es), k).op.None? && ViewOf(After(d, es), k).row.Some? && Serves(d, es, k)
    requires Honest(d, es, ViewOf(After(d, es), k).row.value.replica, k, reply) && ViewOf(After(d, es), k).row.value.replica.url != ""
    ensures var r := ViewOf(After(d, es), k).row.value; HasEtag(d, Fetched(After(d, es).files, FileOf(d, r.replica, k), reply), r.etag)
  {
    hide After, FileOf, Honest, Fetched, Failover, HasEtag, DownloadAcross, ViewOf;
    var s := After(d, es);
    var r := ViewOf(s, k).row.value;
    var got := Fetched(s.files, FileOf(d, r.replica, k), reply);
    SilentIsHonest(d, es, r.primary, k);
    AcrossIsFailover(d, s, s, s, k, Silent, reply);
    FailoverServes(d, r, None, got);
    NothingHasEtag(d, r.etag);
  }

  lemma ServesIff(d: Deployment, es: seq<Event>, k: ObjectKey)
    requires Node("") !in d.nodes
    ensures Serves(d, es, k) <==> RecordedMatch(d, After(d, es), k) && NoBareDirectory(d, es, k)
  {
    var v := ViewOf(After(d, es), k);
    if v.op.None? && v.row.Some? {
      var r := v.row.value;
      RowNamesNodes(d, es, k);
      NodeServesIff(d, es, r.primary, k, r.etag);
      NodeServesIff(d, es, r.replica, k, r.etag);
      hide After, FileOf, Honest, Fetched, DownloadAcross, ViewOf, Matching, Copy, NotBare, HasEtag, Serves;
      if Serves(d, es, k) {
        forall reply | Honest(d, es, r.primary, k, reply)
          ensures HasEtag(d, Fetched(After(d, es).files, FileOf(d, r.primary, k), reply), r.etag)
        {
          ServedFromPrimary(d, es, k, reply);
        }
        forall reply | Honest(d, es, r.replica, k, reply)
          ensures HasEtag(d, Fetched(After(d, es).files, FileOf(d, r.replica, k), reply), r.etag)
        {
          ServedFromReplica(d, es, k, reply);
        }
      } else if NodeServes(d, es, r.primary, k, r.etag) && NodeServes(d, es, r.replica, k, r.etag) {
        ServingNodesServe(d, es, k);
      }
    }
  }

  /**
   * The exact condition for downloads: over any run that leaves the key idle, every download made while
   * it was idle, whatever the nodes answered, streams bytes with the row's etag if and only if all the
   * key's own events were tidy and no recorded node ever had a directory where the file should be.
   */
  lemma DownloadsMatchIff(d: Deployment, es: seq<Event>, k: ObjectKey)
    requires Node("") !in d.nodes && ViewOf(After(d, es), k).op.None?
    ensures (forall i: nat :: i <= |es| ==> Serves(d, es[..i], k)) <==>
            TidyRun(d, es, k) && forall i: nat :: i <= |es| ==> NoBareDirectory(d, es[..i], k)
  {
    hide After, TidyRun, RecordedMatch, ViewOf, Serves, NoBareDirectory;
    RecordedCopiesMatchIff(d, es, k);
    forall i: nat | i <= |es|
      ensures Serves(d, es[..i], k) <==> RecordedMatch(d, After(d, es[..i]), k) && NoBareDirectory(d, es[..i], k)
    {
      ServesIff(d, es[..i], k);
    }
  }

  // A directory served as an object

  /** No rollback delete of the key, and no statement lost. */
  predicate Plain(es: seq<Event>, k: ObjectKey) {
    forall i :: 0 <= i < |es| && es[i].k == k ==> !es[i].RollbackDelete? && (es[i].Commit? ==> es[i].sql != NotDone)
  }

  lemma {:induction false} PlainIsTidy(d: Deployment, es: seq<Event>, k: ObjectKey)
    requires Plain(es, k)
    ensures TidyRun(d, es, k)
  {
    if es != [] {
      PlainIsTidy(d, es[..|es| - 1], k);
    }
    hide After, Possible, Matching;
  }

  lemma PlainConcat(a: seq<Event>, b: seq<Event>, k: ObjectKey)
    requires Plain(a, k) && Plain(b, k)
    ensures Plain(a + b, k)
  {}

  /** All events of the run are of this key, and plain. */
  predicate PlainOf(es: seq<Event>, k: ObjectKey) {
    Plain(es, k) && forall i :: 0 <= i < |es| ==> es[i].k == k
  }

  lemma PlainOfConcat(a: seq<Event>, b: seq<Event>, k: ObjectKey)
    requires PlainOf(a, k) && PlainOf(b, k)
    ensures PlainOf(a + b, k)
  {}

  lemma PlainOfOne(e: Event)
    requires !e.RollbackDelete? && (e.Commit? ==> e.sql != NotDone)
    ensures PlainOf([e], e.k)
  {}

  lemma {:induction false} PutEventsPlain(k: ObjectKey, order: seq<nat>, puts: seq<PutOutcome>, j: nat)
    requires Indices(order, |puts|) && j <= |order|
    ensures PlainOf(PutEvents(k, order, puts, j), k)
  {
    if j > 0 {
      PutEventsPlain(k, order, puts, j - 1);
      hide PlainOf;
      var e := PutReturns(k, order[j - 1], puts[order[j - 1]]);
      PlainOfOne(e);
      PlainOfConcat(PutEvents(k, order, puts, j - 1), [e], k);
    }
  }

  lemma GoodUploadShape(d: Deployment, k: ObjectKey, contentType: string, data: Bytes, order: seq<nat>)
    requires Indices(order, |Targets(d, k)|)
    ensures GoodUpload(d, k, contentType, data, order) ==
            [BeginUpload(k, contentType, data)] + PutEvents(k, order, EachStored(|Targets(d, k)|), |order|) + [Commit(k, Done)]
  {
    hide Targets, Places, SomePutFails, EachStored, PutEvents, NoneRemoved;
    EachStoredSucceed(d, k);
  }

  lemma GoodUploadPlain(d: Deployment, k: ObjectKey, contentType: string, data: Bytes, order: seq<nat>)
    requires Indices(order, |Targets(d, k)|)
    ensures PlainOf(GoodUpload(d, k, contentType, data, order), k)
  {
    hide Targets, EachStored, PutEvents, PlainOf, GoodUpload, Indices;
    var puts, begin := PutEvents(k, order, EachStored(|Targets(d, k)|), |order|), BeginUpload(k, contentType, data);
    GoodUploadShape(d, k, contentType, data, order);
    PutEventsPlain(k, order, EachStored(|Targets(d, k)|), |order|);
    PlainOfOne(begin);
    PlainOfOne(Commit(k, Done));
    PlainOfConcat([begin], puts, k);
    PlainOfConcat([begin] + puts, [Commit(k, Done)], k);
  }

  /** An object is uploaded, and then deleted but for its row: the copies go, the statement is lost. */
  function UploadedAndCleared(d: Deployment, k: ObjectKey, data: Bytes): seq<Event> {
    GoodUpload(d, k, "", data, InTurn(|Targets(d, k)|)) + DeleteEvents(k, true, true, NotDone)
  }

  lemma CopiesCleared(d: Deployment, files: Files, k: ObjectKey, r: Record)
    requires r.primary.url != ""
    ensures Copy(d, WithoutCopies(d, files, k, r, true, true), r.primary, k) == None
  {
    hide FileOf;
  }

  lemma NothingYet(d: Deployment)
    ensures After(d, []) == EMPTY && forall k :: ViewOf(EMPTY, k) == View(None, None, None)
  {}

  lemma DeleteEventsPlain(k: ObjectKey)
    ensures PlainOf(DeleteEvents(k, true, true, NotDone), k)
  {
    hide PlainOf;
    var begin, copy, row := BeginDelete(k), DeleteCopy(k, true), DeleteRow(k, NotDone);
    PlainOfOne(begin);
    PlainOfOne(copy);
    PlainOfOne(row);
    PlainOfConcat([begin], [copy], k);
    PlainOfConcat([begin] + [copy], [copy], k);
    PlainOfConcat([begin] + [copy] + [copy], [row], k);
  }

  lemma UploadedAndClearedPlain(d: Deployment, k: ObjectKey, data: Bytes)
    ensures PlainOf(UploadedAndCleared(d, k, data), k)
  {
    hide Targets, GoodUpload, DeleteEvents, InTurn, PlainOf;
    GoodUploadPlain(d, k, "", data, InTurn(|Targets(d, k)|));
    DeleteEventsPlain(k);
    PlainOfConcat(GoodUpload(d, k, "", data, InTurn(|Targets(d, k)|)), DeleteEvents(k, true, true, NotDone), k);
  }

  lemma AfterFirstUpload(d: Deployment, k: ObjectKey, data: Bytes)
    requires Node("") !in d.nodes && |Targets(d, k)| >= 2
    ensures var s := After(d, GoodUpload(d, k, "", data, InTurn(|Targets(d, k)|)));
            && ViewOf(s, k).op.None? && Describes(d, ViewOf(s, k).row, "", data) && ViewOf(s, k).row.value.primary.url != ""
            && forall k' :: k' != k ==> ViewOf(s, k') == View(None, None, None)
  {
    hide Targets, After, GoodUpload, Stores, InTurn, ViewOf, Describes;
    var es := GoodUpload(d, k, "", data, InTurn(|Targets(d, k)|));
    NothingYet(d);
    assert [] + es == es;
    GoodUploadAfterRun(d, [], k, "", data);
    DescribesSome(d, ViewOf(After(d, es), k).row, data);
    RowNamesNodes(d, es, k);
  }

  lemma DescribesSome(d: Deployment, row: Option<Record>, data: Bytes)
    requires Describes(d, row, "", data)
    ensures row.Some?
  {}

  lemma AfterUploadedAndCleared(d: Deployment, k: ObjectKey, data: Bytes)
    requires Node("") !in d.nodes && |Targets(d, k)| >= 2
    ensures var s := After(d, UploadedAndCleared(d, k, data));
            && ViewOf(s, k).op.None? && Describes(d, ViewOf(s, k).row, "", data)
            && Copy(d, s.files, ViewOf(s, k).row.value.primary, k) == None
            && forall k' :: k' != k ==> ViewOf(s, k') == View(None, None, None)
  {
    hide Targets, After, From, GoodUpload, Copy, WithoutCopies, InTurn, ViewOf, FileOf, DeleteEvents, Describes;
    var es := GoodUpload(d, k, "", data, InTurn(|Targets(d, k)|));
    var s := After(d, es);
    AfterFirstUpload(d, k, data);
    DescribesSome(d, ViewOf(s, k).row, data);
    DeleteIsARun(d, s, k, true, true, NotDone);
    FromAfter(d, es, DeleteEvents(k, true, true, NotDone));
    CopiesCleared(d, s.files, k, ViewOf(s, k).row.value);
  }

  lemma StoredLiesBelow(d: Deployment, files: Files, n: Node, k: ObjectKey, k': ObjectKey)
    requires Extends(k', k) && Copy(d, files, n, k').Some?
    ensures FileOf(d, n, k).Some? && LiesBelow(files, FileOf(d, n, k).value)
  {
    CanonicalHasFile(d, n, k);
    CanonicalHasFile(d, n, k');
    FileBelowIff(d, n, k, k');
    hide FileOf;
    assert FileOf(d, n, k').value in files;
  }

  lemma StoresCopy(d: Deployment, files: Files, n: Node, k: ObjectKey, data: Bytes)
    requires Stores(d, files, k, data) && n in Targets(d, k)
    ensures Copy(d, files, n, k) == Some(data)
  {
    hide Copy, Targets;
  }

  /** A good upload of an object below a key that is idle and whose file is gone makes its path a directory. */
  lemma DirectoryAfterUpload(d: Deployment, first: seq<Event>, k: ObjectKey, k': ObjectKey, data': Bytes, n: Node)
    requires |Targets(d, k')| >= 2 && n in Targets(d, k') && Extends(k', k)
    requires ViewOf(After(d, first), k').op.None? && ViewOf(After(d, first), k).op.None? && Copy(d, After(d, first).files, n, k) == None
    ensures var s := After(d, first + GoodUpload(d, k', "", data', InTurn(|Targets(d, k')|)));
            && ViewOf(s, k) == ViewOf(After(d, first), k) && Copy(d, s.files, n, k) == None
            && FileOf(d, n, k).Some? && LiesBelow(s.files, FileOf(d, n, k).value)
    ensures PlainOf(GoodUpload(d, k', "", data', InTurn(|Targets(d, k')|)), k') && k' != k
  {
    var second := GoodUpload(d, k', "", data', InTurn(|Targets(d, k')|));
    GoodUploadPlain(d, k', "", data', InTurn(|Targets(d, k')|));
    hide Targets, After, GoodUpload, Stores, Copy, InTurn, ViewOf, FileOf, Acknowledged, LiesBelow;
    GoodUploadAfterRun(d, first, k', "", data');
    QuietRun(d, first, second, k);
    var s := After(d, first + second);
    StoresCopy(d, s.files, n, k', data');
    StoredLiesBelow(d, s.files, n, k, k');
  }

  lemma DirectoryFetched(d: Deployment, es: seq<Event>, n: Node, k: ObjectKey, reply: Reply)
    requires reply.Answers? && Honest(d, es, n, k, reply) && Copy(d, After(d, es).files, n, k) == None
    requires FileOf(d, n, k).Some? && LiesBelow(After(d, es).files, FileOf(d, n, k).value)
    ensures Fetched(After(d, es).files, FileOf(d, n, k), reply) == Some([])
  {
    hide After, FileOf, LiesBelow, PutBelow;
  }

  lemma PrimaryIsFirstTarget(d: Deployment, es: seq<Event>, k: ObjectKey)
    requires ViewOf(After(d, es), k).row.Some?
    ensures |Targets(d, k)| >= 2 && ViewOf(After(d, es), k).row.value.primary == Targets(d, k)[0]
  {
    RunsKeepInv(d, es);
    hide After, Targets, ViewOf;
    assert KeyInv(d, After(d, es).files, k, ViewOf(After(d, es), k));
  }

  lemma TidyWhileOther(d: Deployment, first: seq<Event>, second: seq<Event>, k: ObjectKey, k': ObjectKey)
    requires PlainOf(first, k) && PlainOf(second, k') && k' != k
    ensures TidyRun(d, first + second, k)
  {
    PlainConcat(first, second, k);
    PlainIsTidy(d, first + second, k);
  }

  /**
   * "Whatever happened to other keys" would be false: an object is uploaded and cleared, its row stays,
   * and an object below it is uploaded to its primary. All its own events are tidy, and yet a download
   * that the primary answers has to give its row with no bytes, whatever the object held.
   */
  lemma DirectoryServedAsObject(d: Deployment, k: ObjectKey, data: Bytes, k': ObjectKey, data': Bytes, primary: Reply, replica: Reply)
    requires Node("") !in d.nodes && |Targets(d, k)| >= 2 && |Targets(d, k')| >= 2
    requires Extends(k', k) && Targets(d, k)[0] in Targets(d, k')
    requires var es := UploadedAndCleared(d, k, data) + GoodUpload(d, k', "", data', InTurn(|Targets(d, k')|));
             primary.Answers? && Honest(d, es, Targets(d, k)[0], k, primary)
    ensures var es := UploadedAndCleared(d, k, data) + GoodUpload(d, k', "", data', InTurn(|Targets(d, k')|));
            var s := After(d, es);
            && TidyRun(d, es, k) && ViewOf(s, k).op.None? && Describes(d, ViewOf(s, k).row, "", data)
            && DownloadAcross(d, s, s, s, k, primary, replica) == Streamed(ViewOf(s, k).row.value, Some([]))
  {
    var first, second := UploadedAndCleared(d, k, data), GoodUpload(d, k', "", data', InTurn(|Targets(d, k')|));
    var es, n := first + second, Targets(d, k)[0];
    var s := After(d, es);
    hide Targets, After, GoodUpload, UploadedAndCleared, Stores, Copy, InTurn, ViewOf, FileOf, TidyRun, Honest, Fetched, DownloadAcross, Acknowledged;
    AfterUploadedAndCleared(d, k, data);
    UploadedAndClearedPlain(d, k, data);
    PrimaryIsFirstTarget(d, first, k);
    DirectoryAfterUpload(d, first, k, k', data', n);
    AcrossIsFailover(d, s, s, s, k, primary, replica);
    DirectoryFetched(d, es, n, k, primary);
    TidyWhileOther(d, first, second, k, k');
  }
}
