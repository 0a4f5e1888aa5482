/** `Upload`, `Download` and `Delete` of object-api, each run on its own to the end. */
module ObjectService {
  import opened GoStrings
  import opened Outcomes
  import opened ObjectPaths
  import opened HashRing
  import opened RingPoints
  import opened RingProperties
  import opened ObjectTable

  type Bytes = seq<bv8>

  datatype Location = Location(node: Node, path: string)

  /** Every node's disk: which files there are and what they hold. */
  type Files = map<Location, Bytes>

  /** A node's storage root as `filepath.Abs` returns it. */
  type Root = r: string | CleanAbsolute(r) witness "/"

  /** What does not change while the service runs. `etag` stands for the hex SHA-256. */
  datatype Deployment = Deployment(hash: Hash, nodes: seq<Node>, factor: int, etag: Bytes -> string, root: Node -> Root)

  datatype Error =
    NotFound | Forbidden | InvalidKey | InvalidNodeConfig | ReplicationWriteFail | NodeFailed | RepositoryFailed

  function Targets(d: Deployment, k: RawKey): seq<Node> {
    Placement(d.hash, d.nodes, 50, StoragePath(k.owner, k.key), d.factor)
  }

  /** The file a node uses for an object; none when the node rejects the key. */
  function FileOf(d: Deployment, n: Node, k: RawKey): Option<Location> {
    match PathFor(Some(d.root(n)), StoragePath(k.owner, k.key))
    case Accepted(path) => Some(Location(n, path))
    case Rejected(_) => None
  }

  function At(files: Files, l: Option<Location>): Option<Bytes> {
    if l.Some? && l.value in files then Some(files[l.value]) else None
  }

  // Node calls

  /** A put stores the bytes, or fails and leaves the file as it was or with anything in it. */
  datatype PutOutcome = Stored | Broke(left: Option<Bytes>)

  predicate PutSucceeds(l: Option<Location>, o: PutOutcome) {
    l.Some? && o == Stored
  }

  function AfterPut(files: Files, l: Option<Location>, data: Bytes, o: PutOutcome): Files {
    match l
    case None => files
    case Some(loc) =>
      match o
      case Stored => files[loc := data]
      case Broke(None) => files
      case Broke(Some(left)) => files[loc := left]
  }

  /** A delete's status is ignored; what matters is whether the file is gone afterwards. */
  function AfterDelete(files: Files, l: Option<Location>, removed: bool): Files {
    if l.Some? && removed then files - {l.value} else files
  }

  /**
   * What a node makes of a get: it is silent, or it answers. A path without a file may be a directory,
   * which another object's file lies or lay below; opening that succeeds too, and reading it gives no
   * bytes after the status has gone out as a success.
   */
  datatype Reply = Silent | Answers(directory: bool)

  /** A get answers with the whole file or with a directory's empty body; a missing file is an error. */
  function Fetched(files: Files, l: Option<Location>, reply: Reply): Option<Bytes> {
    if reply.Silent? || l.None? then None
    else if l.value in files then Some(files[l.value])
    else if reply.directory then Some([])
    else None
  }

  // The files of one object on a list of nodes

  function Places(d: Deployment, ns: seq<Node>, k: RawKey): (ls: seq<Option<Location>>)
    ensures |ls| == |ns| && forall i :: 0 <= i < |ns| ==> ls[i] == FileOf(d, ns[i], k)
  {
    seq(|ns|, i requires 0 <= i < |ns| => FileOf(d, ns[i], k))
  }

  ghost predicate Separate(ls: seq<Option<Location>>) {
    forall i, j :: 0 <= i < j < |ls| && ls[i].Some? ==> ls[i] != ls[j]
  }

  lemma PlacesSeparate(d: Deployment, ns: seq<Node>, k: RawKey)
    requires NoRepeats(ns)
    ensures Separate(Places(d, ns, k))
  {
    hide PathFor;
    forall i, j | 0 <= i < j < |ns| && FileOf(d, ns[i], k).Some?
      ensures FileOf(d, ns[i], k) != FileOf(d, ns[j], k)
    {
      assert ns[i] != ns[j];
    }
  }

  /** From `was` to `now` the files `ls` came to hold `held`, and no other file changed. */
  ghost predicate Reflects(was: Files, now: Files, ls: seq<Option<Location>>, held: seq<Option<Bytes>>) {
    && |held| == |ls| && (forall i :: 0 <= i < |ls| ==> At(now, ls[i]) == held[i])
    && forall l :: Some(l) !in ls ==> At(now, Some(l)) == At(was, Some(l))
  }

  function Held(files: Files, ls: seq<Option<Location>>): seq<Option<Bytes>> {
    seq(|ls|, i requires 0 <= i < |ls| => At(files, ls[i]))
  }

  /** What the file holds after the put, given what it held. */
  function PutLeaves(l: Option<Location>, held: Option<Bytes>, data: Bytes, o: PutOutcome): Option<Bytes> {
    if l.None? then None
    else match o
      case Stored => Some(data)
      case Broke(None) => held
      case Broke(Some(left)) => Some(left)
  }

  lemma PutReflects(was: Files, now: Files, ls: seq<Option<Location>>, held: seq<Option<Bytes>>, i: nat, data: Bytes, o: PutOutcome)
    requires Reflects(was, now, ls, held) && Separate(ls) && i < |ls|
    ensures Reflects(was, AfterPut(now, ls[i], data, o), ls, held[i := PutLeaves(ls[i], held[i], data, o)])
  {
  }

  lemma DeleteReflects(was: Files, now: Files, ls: seq<Option<Location>>, held: seq<Option<Bytes>>, i: nat, removed: bool)
    requires Reflects(was, now, ls, held) && Separate(ls) && i < |ls|
    ensures Reflects(was, AfterDelete(now, ls[i], removed), ls, held[i := if removed then None else held[i]])
  {
  }

  // Upload

  /** An arrival order of n goroutines. */
  ghost predicate Schedule(order: seq<nat>, n: nat) {
    && |order| == n && (forall j :: 0 <= j < n ==> order[j] < n)
    && (forall i, j :: 0 <= i < j < n ==> order[i] != order[j])
    && (forall i: nat :: i < n ==> i in order)
  }

  predicate SomePutFails(ls: seq<Option<Location>>, puts: seq<PutOutcome>)
    requires |puts| == |ls|
  {
    exists i :: 0 <= i < |ls| && !PutSucceeds(ls[i], puts[i])
  }

  function AfterPuts(was: Files, ls: seq<Option<Location>>, data: Bytes, puts: seq<PutOutcome>): seq<Option<Bytes>>
    requires |puts| == |ls|
  {
    seq(|ls|, i requires 0 <= i < |ls| => PutLeaves(ls[i], At(was, ls[i]), data, puts[i]))
  }

  predicate Indices(order: seq<nat>, n: nat) {
    forall j :: 0 <= j < |order| ==> order[j] < n
  }

  /** The same files put by put, after the first `n` puts to arrive. */
  function Arrived(was: Files, ls: seq<Option<Location>>, data: Bytes, puts: seq<PutOutcome>, order: seq<nat>, n: nat): (held: seq<Option<Bytes>>)
    requires |puts| == |ls| && Indices(order, |ls|) && n <= |order|
    ensures |held| == |ls|
  {
    if n == 0 then Held(was, ls)
    else
      var held, t := Arrived(was, ls, data, puts, order, n - 1), order[n - 1];
      held[t := PutLeaves(ls[t], held[t], data, puts[t])]
  }

  lemma {:induction false} ArrivedAt(was: Files, ls: seq<Option<Location>>, data: Bytes, puts: seq<PutOutcome>, order: seq<nat>, n: nat)
    requires |puts| == |ls| && Schedule(order, |ls|) && n <= |order|
    ensures Indices(order, |ls|)
    ensures forall i: nat :: i < |ls| ==>
              Arrived(was, ls, data, puts, order, n)[i] ==
              if exists j :: 0 <= j < n && order[j] == i then PutLeaves(ls[i], At(was, ls[i]), data, puts[i]) else At(was, ls[i])
  {
    if n > 0 {
      ArrivedAt(was, ls, data, puts, order, n - 1);
    }
  }

  lemma ArrivalReflects(was: Files, now: Files, ls: seq<Option<Location>>, data: Bytes, puts: seq<PutOutcome>, order: seq<nat>, j: nat)
    requires |puts| == |ls| && j < |order| && Separate(ls) && Indices(order, |ls|)
    requires Reflects(was, now, ls, Arrived(was, ls, data, puts, order, j))
    ensures order[j] < |ls|
    ensures Reflects(was, AfterPut(now, ls[order[j]], data, puts[order[j]]), ls, Arrived(was, ls, data, puts, order, j + 1))
  {
    var t := order[j];
    PutReflects(was, now, ls, Arrived(was, ls, data, puts, order, j), t, data, puts[t]);
  }

  lemma OrderIrrelevantToPuts(was: Files, ls: seq<Option<Location>>, data: Bytes, puts: seq<PutOutcome>, order: seq<nat>)
    requires |puts| == |ls| && Schedule(order, |ls|)
    ensures Indices(order, |ls|) && Arrived(was, ls, data, puts, order, |order|) == AfterPuts(was, ls, data, puts)
  {
    ArrivedAt(was, ls, data, puts, order, |order|);
    var held := Arrived(was, ls, data, puts, order, |order|);
    forall i: nat | i < |ls|
      ensures held[i] == PutLeaves(ls[i], At(was, ls[i]), data, puts[i])
    {
      assert i in order;
    }
  }

  /** What the first `n` goroutines to finish send on the results channel. */
  function Results(ls: seq<Option<Location>>, puts: seq<PutOutcome>, order: seq<nat>, n: nat): seq<bool>
    requires |puts| == |ls| && Indices(order, |ls|) && n <= |order|
  {
    if n == 0 then []
    else Results(ls, puts, order, n - 1) + [PutSucceeds(ls[order[n - 1]], puts[order[n - 1]])]
  }

  lemma {:induction false} ResultsAt(ls: seq<Option<Location>>, puts: seq<PutOutcome>, order: seq<nat>, n: nat)
    requires |puts| == |ls| && Indices(order, |ls|) && n <= |order|
    ensures |Results(ls, puts, order, n)| == n
    ensures forall i :: 0 <= i < n ==> Results(ls, puts, order, n)[i] == PutSucceeds(ls[order[i]], puts[order[i]])
  {
    if n > 0 {
      ResultsAt(ls, puts, order, n - 1);
    }
  }

  lemma NothingArrived(files: Files, ls: seq<Option<Location>>, data: Bytes, puts: seq<PutOutcome>, order: seq<nat>)
    requires |puts| == |ls| && Indices(order, |ls|)
    ensures Reflects(files, files, ls, Arrived(files, ls, data, puts, order, 0))
  {
  }

  function AfterRollback(held: seq<Option<Bytes>>, removed: seq<bool>): seq<Option<Bytes>>
    requires |removed| == |held|
  {
    seq(|held|, i requires 0 <= i < |held| => if removed[i] then None else held[i])
  }

  function Defaulted(contentType: string): string {
    if contentType == "" then "application/octet-stream" else contentType
  }

  /**
   * What one upload of a trimmed, non-empty key leaves behind and returns. Neither depends on the
   * order in which the goroutines ran.
   */
  ghost predicate Uploaded(d: Deployment, was: Files, now: Files, rowsWas: Rows, rowsNow: Rows, err: Option<Error>,
                           k: RawKey, contentType: string, data: Bytes,
                           puts: seq<PutOutcome>, removed: seq<bool>, sql: Effect)
    requires |puts| == |removed| == |Targets(d, k)| >= 2
  {
    var ns := Targets(d, k);
    var ls := Places(d, ns, k);
    var held := AfterPuts(was, ls, data, puts);
    if SomePutFails(ls, puts) then
      && rowsNow == rowsWas && err == Some(ReplicationWriteFail)
      && Reflects(was, now, ls, AfterRollback(held, removed))
    else
      && Reflects(was, now, ls, held)
      && var next := Upserted(RowOf(rowsWas, k), Defaulted(contentType), |data|, d.etag(data), ns[0], ns[1]);
         && rowsNow == (if next.Some? && sql != NotDone then Updated(rowsWas, k, next) else rowsWas)
         && err == if next.Some? && sql == Done then None else Some(RepositoryFailed)
  }

  // Download and delete

  datatype Downloaded = Refused(error: Error) | Streamed(record: Record, stream: Option<Bytes>)

  /**
   * What the reads give: the primary's answer, or the replica's when the primary fails and there is
   * a replica. With no replica a failed primary still streams, with nothing to stream.
   */
  function Failover(r: Record, fromPrimary: Option<Bytes>, fromReplica: Option<Bytes>): Downloaded {
    if fromPrimary.Some? || r.replica.url == "" then Streamed(r, fromPrimary)
    else if fromReplica.Some? then Streamed(r, fromReplica)
    else Refused(NodeFailed)
  }

  /** The files after the two deletes of `Delete`. */
  function WithoutCopies(d: Deployment, files: Files, k: RawKey, r: Record, primaryGone: bool, replicaGone: bool): Files {
    AfterDelete(AfterDelete(files, FileOf(d, r.primary, k), primaryGone && r.primary.url != ""),
                FileOf(d, r.replica, k), replicaGone && r.replica.url != "")
  }

  class Service {
    const d: Deployment
    const ring: HashRing
    const table: Table
    var files: Files

    ghost predicate Valid()
      reads this, ring
    {
      ring.Valid() && ring.hash == d.hash && ring.nodes == d.nodes && ring.replicas == 50
    }

    constructor (d: Deployment)
      ensures Valid() && this.d == d && files == map[] && table.rows == map[]
      ensures fresh(ring) && fresh(table)
    {
      this.d := d;
      ring := new HashRing(d.hash, d.nodes, 50);
      table := new Table();
      files := map[];
    }

    method PutToNode(n: Node, k: RawKey, data: Bytes, o: PutOutcome) returns (ok: bool)
      modifies `files
      ensures files == AfterPut(old(files), FileOf(d, n, k), data, o) && ok == PutSucceeds(FileOf(d, n, k), o)
    {
      var l := FileOf(d, n, k);
      if l.None? {
        return false;
      }
      match o
      case Stored =>
        files := files[l.value := data];
        return true;
      case Broke(left) =>
        if left.Some? {
          files := files[l.value := left.value];
        }
        return false;
    }

    method DeleteFromNode(n: Node, k: RawKey, removed: bool)
      modifies `files
      ensures files == AfterDelete(old(files), FileOf(d, n, k), removed)
    {
      var l := FileOf(d, n, k);
      if l.Some? && removed {
        files := files - {l.value};
      }
    }

    method Upload(ownerID: string, objectKey: string, contentType: string, data: Bytes,
                  order: seq<nat>, puts: seq<PutOutcome>, removed: seq<bool>, sql: Effect) returns (err: Option<Error>)
      requires Valid() && |puts| == |removed| == |Targets(d, RawKey(ownerID, TrimSpace(objectKey)))|
      requires Schedule(order, |puts|)
      modifies `files, table
      ensures var k := RawKey(ownerID, TrimSpace(objectKey));
              if k.key == "" then err == Some(InvalidKey) && files == old(files) && table.rows == old(table.rows)
              else if |Targets(d, k)| < 2 then
                err == Some(InvalidNodeConfig) && files == old(files) && table.rows == old(table.rows)
              else Uploaded(d, old(files), files, old(table.rows), table.rows, err, k, contentType, data, puts, removed, sql)
    {
      var k := RawKey(ownerID, TrimSpace(objectKey));
      if k.key == "" {
        return Some(InvalidKey);
      }
      var targets := ring.GetNodes(StoragePath(k.owner, k.key), d.factor);
      if |targets| < 2 {
        return Some(InvalidNodeConfig);
      }
      TargetsDiffer(d, k);
      var fails := PutAll(k, targets, data, order, puts);
      if fails > 0 {
        RollBack(k, targets, removed);
        return Some(ReplicationWriteFail);
      }
      var ok := table.UpsertObject(k, Defaulted(contentType), |data|, d.etag(data), targets[0], targets[1], sql);
      return if ok then None else Some(RepositoryFailed);
    }

    method Download(k: RawKey, findOk: bool, primary: Reply, replica: Reply) returns (result: Downloaded)
      ensures result ==
              if !findOk then Refused(RepositoryFailed)
              else if k !in table.rows then Refused(NotFound)
              else var r := table.rows[k];
                   Failover(r, Fetched(files, FileOf(d, r.primary, k), primary),
                            Fetched(files, FileOf(d, r.replica, k), replica))
    {
      if !findOk {
        return Refused(RepositoryFailed);
      }
      if k !in table.rows {
        return Refused(NotFound);
      }
      var r := table.rows[k];
      var stream := Fetched(files, FileOf(d, r.primary, k), primary);
      if stream == None && r.replica.url != "" {
        stream := Fetched(files, FileOf(d, r.replica, k), replica);
        if stream == None {
          return Refused(NodeFailed);
        }
      }
      return Streamed(r, stream);
    }

    /** A download without credentials: public-read and visible rows only. */
    method DownloadPublic(k: RawKey, findOk: bool, primary: Reply, replica: Reply) returns (result: Downloaded)
      ensures findOk ==> (result == Refused(NotFound) <==> k !in table.rows)
      ensures findOk && k in table.rows ==> (result == Refused(Forbidden) <==> !PublicGate(RowOf(table.rows, k)))
      ensures findOk && PublicGate(RowOf(table.rows, k)) ==>
                var r := table.rows[k];
                result == Failover(r, Fetched(files, FileOf(d, r.primary, k), primary),
                                   Fetched(files, FileOf(d, r.replica, k), replica))
      ensures !findOk ==> result == Refused(RepositoryFailed)
    {
      if !findOk {
        return Refused(RepositoryFailed);
      }
      if k !in table.rows {
        return Refused(NotFound);
      }
      var r := table.rows[k];
      if r.permission != "public-read" || r.visibility != Visible {
        return Refused(Forbidden);
      }
      result := Download(k, findOk, primary, replica);
    }

    method Delete(k: RawKey, findOk: bool, primaryGone: bool, replicaGone: bool, sql: Effect) returns (err: Option<Error>)
      modifies `files, table
      ensures !findOk || k !in old(table.rows) ==>
                && files == old(files) && table.rows == old(table.rows)
                && err == Some(if findOk then NotFound else RepositoryFailed)
      ensures findOk && k in old(table.rows) ==>
                var r := old(table.rows)[k];
                && files == WithoutCopies(d, old(files), k, r, primaryGone, replicaGone)
                && table.rows == (if sql == NotDone then old(table.rows) else Updated(old(table.rows), k, None))
                && err == if sql == Done then None else Some(RepositoryFailed)
    {
      if !findOk {
        return Some(RepositoryFailed);
      }
      if k !in table.rows {
        return Some(NotFound);
      }
      var r := table.rows[k];
      if r.primary.url != "" {
        DeleteFromNode(r.primary, k, primaryGone);
      }
      if r.replica.url != "" {
        DeleteFromNode(r.replica, k, replicaGone);
      }
      var report := table.DeleteByOwnerAndKey(k, sql);
      if report == Failed {
        return Some(RepositoryFailed);
      }
      return if report.ok then None else Some(NotFound);
    }

    /** The goroutines' puts, and the count of the errors they sent. */
    method PutAll(k: RawKey, targets: seq<Node>, data: Bytes, order: seq<nat>, puts: seq<PutOutcome>) returns (fails: nat)
      requires |puts| == |targets| && Schedule(order, |targets|) && NoRepeats(targets)
      modifies `files
      ensures var ls := Places(d, targets, k); Reflects(old(files), files, ls, AfterPuts(old(files), ls, data, puts))
      ensures fails > 0 <==> SomePutFails(Places(d, targets, k), puts)
    {
      ghost var ls := Places(d, targets, k);
      var results := RunPuts(k, targets, data, order, puts);
      OrderIrrelevantToPuts(old(files), ls, data, puts, order);
      fails := CountErrors(results);
      FailureIsReported(ls, order, puts);
    }

    /** The puts in arrival order, each sending its result on the channel. */
    method RunPuts(k: RawKey, targets: seq<Node>, data: Bytes, order: seq<nat>, puts: seq<PutOutcome>) returns (results: seq<bool>)
      requires |puts| == |targets| && NoRepeats(targets) && Indices(order, |targets|)
      modifies `files
      ensures var ls := Places(d, targets, k); Reflects(old(files), files, ls, Arrived(old(files), ls, data, puts, order, |order|))
      ensures results == Results(Places(d, targets, k), puts, order, |order|)
    {
      ghost var ls := Places(d, targets, k);
      PlacesSeparate(d, targets, k);
      NothingArrived(files, ls, data, puts, order);
      hide FileOf, AfterPut, PutSucceeds, Separate, Reflects, Arrived, NoRepeats;
      results := [];
      for j := 0 to |order|
        invariant Reflects(old(files), files, ls, Arrived(old(files), ls, data, puts, order, j))
        invariant results == Results(ls, puts, order, j)
      {
        ArrivalReflects(old(files), files, ls, data, puts, order, j);
        var t := order[j];
        var ok := PutToNode(targets[t], k, data, puts[t]);
        results := results + [ok];
      }
    }

    static method CountErrors(results: seq<bool>) returns (fails: nat)
      ensures fails > 0 <==> exists i :: 0 <= i < |results| && !results[i]
    {
      fails := 0;
      for j := 0 to |results|
        invariant fails > 0 <==> exists i :: 0 <= i < j && !results[i]
      {
        if !results[j] {
          fails := fails + 1;
        }
      }
    }

    method RollBack(k: RawKey, targets: seq<Node>, removed: seq<bool>)
      requires |removed| == |targets| && NoRepeats(targets)
      modifies `files
      ensures var ls := Places(d, targets, k); Reflects(old(files), files, ls, AfterRollback(Held(old(files), ls), removed))
    {
      ghost var ls := Places(d, targets, k);
      ghost var held := Held(files, ls);
      PlacesSeparate(d, targets, k);
      hide FileOf;
      for j := 0 to |targets|
        invariant Reflects(old(files), files, ls, held)
        invariant forall i :: 0 <= i < |ls| ==>
                    held[i] == if i < j && removed[i] then None else At(old(files), ls[i])
      {
        DeleteReflects(old(files), files, ls, held, j, removed[j]);
        held := held[j := if removed[j] then None else held[j]];
        DeleteFromNode(targets[j], k, removed[j]);
      }
      assert held == AfterRollback(Held(old(files), ls), removed);
    }
  }

  lemma TargetsDiffer(d: Deployment, k: RawKey)
    ensures NoRepeats(Targets(d, k)) && forall n :: n in Targets(d, k) ==> n in d.nodes
  {
    PreferenceNodes(d.hash, d.nodes, 50, StoragePath(k.owner, k.key));
  }

  /** `New`: two nodes at least, and a factor between two and the number of nodes. */
  method New(d: Deployment) returns (svc: Service?)
    ensures svc == null <==> |d.nodes| < 2
    ensures svc != null ==>
              && fresh(svc) && svc.Valid() && svc.d == d.(factor := svc.d.factor)
              && svc.d.factor == if d.factor < 2 then 2 else Min(d.factor, |d.nodes|)
  {
    if |d.nodes| < 2 {
      return null;
    }
    var factor := d.factor;
    if factor < 2 {
      factor := 2;
    }
    if factor > |d.nodes| {
      factor := |d.nodes|;
    }
    svc := new Service(d.(factor := factor));
  }

  lemma FailureIsReported(ls: seq<Option<Location>>, order: seq<nat>, puts: seq<PutOutcome>)
    requires |puts| == |ls| && Schedule(order, |ls|) && Indices(order, |ls|)
    ensures var results := Results(ls, puts, order, |order|);
            SomePutFails(ls, puts) <==> exists i :: 0 <= i < |results| && !results[i]
  {
    var results := Results(ls, puts, order, |order|);
    ResultsAt(ls, puts, order, |order|);
    if SomePutFails(ls, puts) {
      var t :| 0 <= t < |ls| && !PutSucceeds(ls[t], puts[t]);
      assert t in order;
      var i :| 0 <= i < |order| && order[i] == t;
      assert !results[i];
    }
  }

  // What an upload and a delete mean

  /** Nil means stored: the row describes the data and every target holds it. */
  lemma UploadNilStores(d: Deployment, was: Files, now: Files, rowsWas: Rows, rowsNow: Rows, k: RawKey, contentType: string,
                        data: Bytes, puts: seq<PutOutcome>, removed: seq<bool>, sql: Effect)
    requires |puts| == |removed| == |Targets(d, k)| >= 2
    requires Uploaded(d, was, now, rowsWas, rowsNow, None, k, contentType, data, puts, removed, sql)
    ensures k in rowsNow && rowsNow[k].sizeBytes == |data| && rowsNow[k].etag == d.etag(data) && rowsNow[k].visibility == Visible
    ensures rowsNow[k].contentType == if contentType == "" then "application/octet-stream" else contentType
    ensures rowsNow[k].permission == if k in rowsWas then rowsWas[k].permission else "private-read"
    ensures forall n :: n in Targets(d, k) ==> At(now, FileOf(d, n, k)) == Some(data)
    ensures rowsNow[k].primary != rowsNow[k].replica && rowsNow[k].primary in Targets(d, k) && rowsNow[k].replica in Targets(d, k)
  {
    hide FileOf;
    var ns := Targets(d, k);
    var ls := Places(d, ns, k);
    forall n | n in ns
      ensures At(now, FileOf(d, n, k)) == Some(data)
    {
      var i :| 0 <= i < |ns| && ns[i] == n;
      assert PutSucceeds(ls[i], puts[i]);
    }
  }

  /** Which error an upload returns: the nodes' when some put failed, else the table's when it did not answer. */
  lemma UploadErrorIs(d: Deployment, was: Files, now: Files, rowsWas: Rows, rowsNow: Rows, err: Option<Error>, k: RawKey,
                      contentType: string, data: Bytes, puts: seq<PutOutcome>, removed: seq<bool>, sql: Effect)
    requires |puts| == |removed| == |Targets(d, k)| >= 2
    requires Uploaded(d, was, now, rowsWas, rowsNow, err, k, contentType, data, puts, removed, sql)
    ensures err == Some(ReplicationWriteFail) <==> exists i :: 0 <= i < |puts| && !PutSucceeds(FileOf(d, Targets(d, k)[i], k), puts[i])
    ensures err == Some(RepositoryFailed) <==> !SomePutFails(Places(d, Targets(d, k), k), puts) && sql != Done
    ensures err.None? || err == Some(ReplicationWriteFail) || err == Some(RepositoryFailed)
  {
    TargetsDiffer(d, k);
    assert Targets(d, k)[0] != Targets(d, k)[1];
    hide FileOf, Placement, NoRepeats, PutSucceeds;
    var ls := Places(d, Targets(d, k), k);
    assert SomePutFails(ls, puts) <==> exists i :: 0 <= i < |puts| && !PutSucceeds(ls[i], puts[i]);
  }

  /** And the two recorded nodes are the next two on the ring from the hash of the trimmed owner and key. */
  lemma UploadNilFollowsRing(d: Deployment, was: Files, now: Files, rowsWas: Rows, rowsNow: Rows, k: RawKey, contentType: string,
                             data: Bytes, puts: seq<PutOutcome>, removed: seq<bool>, sql: Effect)
    requires |puts| == |removed| == |Targets(d, k)| >= 2
    requires Uploaded(d, was, now, rowsWas, rowsNow, None, k, contentType, data, puts, removed, sql)
    ensures k in rowsNow
    ensures NextOnRing(OwnerMap(Writes(d.hash, d.nodes, 50)), d.hash(TrimSpace(k.owner) + "/" + TrimPrefix(TrimSpace(k.key), "/")),
                       rowsNow[k].primary, rowsNow[k].replica)
  {
    hide FileOf, Placement, NextOnRing;
    PlacementIsNextOnRing(d.hash, d.nodes, 50, StoragePath(k.owner, k.key), d.factor);
  }

  /**
   * "Partial writes are not left behind": an upload that returns an error, of whatever kind, leaves
   * no file on any target exactly when some put failed and every target was either cleaned or empty
   * after its put. A failed metadata statement never leaves the targets clean.
   */
  lemma FailedUploadLeavesNothingIff(d: Deployment, was: Files, now: Files, rowsWas: Rows, rowsNow: Rows, e: Error, k: RawKey,
                                     contentType: string, data: Bytes, puts: seq<PutOutcome>, removed: seq<bool>, sql: Effect)
    requires |puts| == |removed| == |Targets(d, k)| >= 2
    requires Uploaded(d, was, now, rowsWas, rowsNow, Some(e), k, contentType, data, puts, removed, sql)
    ensures var ls := Places(d, Targets(d, k), k);
            (forall i :: 0 <= i < |ls| ==> At(now, ls[i]) == None) <==>
            && SomePutFails(ls, puts)
            && forall i :: 0 <= i < |ls| ==> removed[i] || PutLeaves(ls[i], At(was, ls[i]), data, puts[i]) == None
  {
    hide FileOf;
    var ls := Places(d, Targets(d, k), k);
    if !SomePutFails(ls, puts) {
      assert PutSucceeds(ls[0], puts[0]);
    }
  }

  /** The file is gone, or was never there, after its put and its rollback delete. */
  predicate Cleared(was: Files, l: Option<Location>, data: Bytes, put: PutOutcome, removed: bool) {
    removed || PutLeaves(l, At(was, l), data, put) == None
  }

  /** The get finds nothing to stream: no answer, or neither a file nor a directory. */
  predicate NothingFound(l: Option<Location>, cleared: bool, reply: Reply) {
    reply.Silent? || (cleared && (l.None? || !reply.directory))
  }

  /**
   * Rollback also destroys what was there before. A failed overwrite keeps the row, and then a
   * download is refused exactly when each of the two recorded nodes is silent, or was cleared and has
   * no directory at the path.
   */
  lemma FailedOverwriteLosesObjectIff(d: Deployment, was: Files, now: Files, rowsWas: Rows, rowsNow: Rows, e: Option<Error>, k: RawKey,
                                      contentType: string, data: Bytes, puts: seq<PutOutcome>, removed: seq<bool>, sql: Effect,
                                      i: nat, j: nat, primary: Reply, replica: Reply)
    requires |puts| == |removed| == |Targets(d, k)| >= 2 && k in rowsWas && i < |puts| && j < |puts|
    requires rowsWas[k].primary == Targets(d, k)[i] && rowsWas[k].replica == Targets(d, k)[j] && rowsWas[k].replica.url != ""
    requires Uploaded(d, was, now, rowsWas, rowsNow, e, k, contentType, data, puts, removed, sql)
    requires SomePutFails(Places(d, Targets(d, k), k), puts)
    ensures k in rowsNow && rowsNow[k] == rowsWas[k]
    ensures var r, ls := rowsNow[k], Places(d, Targets(d, k), k);
            Failover(r, Fetched(now, FileOf(d, r.primary, k), primary), Fetched(now, FileOf(d, r.replica, k), replica))
            == Refused(NodeFailed) <==>
            && NothingFound(ls[i], Cleared(was, ls[i], data, puts[i], removed[i]), primary)
            && NothingFound(ls[j], Cleared(was, ls[j], data, puts[j], removed[j]), replica)
  {
    hide FileOf;
    var ls := Places(d, Targets(d, k), k);
    assert ls[i] == FileOf(d, rowsWas[k].primary, k) && ls[j] == FileOf(d, rowsWas[k].replica, k);
    assert At(now, ls[i]) == AfterRollback(AfterPuts(was, ls, data, puts), removed)[i];
    assert At(now, ls[j]) == AfterRollback(AfterPuts(was, ls, data, puts), removed)[j];
  }

  /** The worse case: a broken put to the primary whose rollback delete is lost serves what it left as the old object. */
  lemma FailedOverwriteServesLeftover(d: Deployment, was: Files, now: Files, rowsWas: Rows, rowsNow: Rows, e: Option<Error>, k: RawKey,
                                      contentType: string, data: Bytes, puts: seq<PutOutcome>, removed: seq<bool>, sql: Effect,
                                      left: Bytes, directory: bool, replica: Reply)
    requires |puts| == |removed| == |Targets(d, k)| >= 2 && k in rowsWas && rowsWas[k].primary == Targets(d, k)[0]
    requires Uploaded(d, was, now, rowsWas, rowsNow, e, k, contentType, data, puts, removed, sql)
    requires FileOf(d, Targets(d, k)[0], k).Some? && puts[0] == Broke(Some(left)) && !removed[0]
    ensures k in rowsNow && rowsNow[k] == rowsWas[k]
    ensures var r := rowsNow[k];
            Failover(r, Fetched(now, FileOf(d, r.primary, k), Answers(directory)), Fetched(now, FileOf(d, r.replica, k), replica))
            == Streamed(rowsWas[k], Some(left))
  {
    hide FileOf;
    var ls := Places(d, Targets(d, k), k);
    assert !PutSucceeds(ls[0], puts[0]);
    assert ls[0] == FileOf(d, rowsWas[k].primary, k);
  }
}
