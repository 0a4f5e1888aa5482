/**
 * The consistent-hash ring. The 64-bit hash is an arbitrary function, so every result below holds
 * for all hashes, including ones in which the points of different nodes collide.
 */
module HashRing {

  type Point = int
  type Hash = string -> Point

  /** A storage node, known by its base URL. */
  datatype Node = Node(url: string)

  /** One iteration of the constructor's inner loop: `virtualNodes[point] = owner`. */
  datatype Write = Write(point: Point, owner: Node)

  function Decimal(n: nat): string {
    if n < 10 then ["0123456789"[n]] else Decimal(n / 10) + ["0123456789"[n % 10]]
  }

  function VirtualKey(node: Node, i: nat): string {
    node.url + "#" + Decimal(i)
  }

  function NodeWrites(hash: Hash, node: Node, n: nat): seq<Write> {
    seq(n, i requires 0 <= i < n => Write(hash(VirtualKey(node, i)), node))
  }

  /** All writes of the constructor, in order. */
  function Writes(hash: Hash, nodes: seq<Node>, n: nat): seq<Write> {
    if nodes == [] then [] else Writes(hash, nodes[..|nodes| - 1], n) + NodeWrites(hash, nodes[|nodes| - 1], n)
  }

  function Points(ws: seq<Write>): seq<Point> {
    seq(|ws|, i requires 0 <= i < |ws| => ws[i].point)
  }

  /** Who owns each point after the writes. */
  function OwnerMap(ws: seq<Write>): map<Point, Node> {
    if ws == [] then map[]
    else OwnerMap(ws[..|ws| - 1])[ws[|ws| - 1].point := ws[|ws| - 1].owner]
  }

  // Sorted points

  predicate Sorted(s: seq<Point>) {
    forall i, j :: 0 <= i < j < |s| ==> s[i] <= s[j]
  }

  /** The least index whose point is at or after `target`. */
  function Cut(s: seq<Point>, target: Point): (i: nat)
    ensures i <= |s|
    ensures forall j :: 0 <= j < i ==> s[j] < target
    ensures i < |s| ==> s[i] >= target
  {
    if s == [] || s[0] >= target then 0 else 1 + Cut(s[1..], target)
  }

  function Splice(s: seq<Point>, i: nat, p: Point): seq<Point>
    requires i <= |s|
  {
    s[..i] + [p] + s[i..]
  }

  function Insert(s: seq<Point>, p: Point): (r: seq<Point>)
    requires Sorted(s)
    ensures Sorted(r)
  {
    Splice(s, Cut(s, p), p)
  }

  function Sort(s: seq<Point>): (r: seq<Point>)
    ensures Sorted(r)
  {
    if s == [] then [] else Insert(Sort(s[..|s| - 1]), s[|s| - 1])
  }

  lemma SplicePermutes(s: seq<Point>, i: nat, p: Point)
    requires i <= |s|
    ensures multiset(Splice(s, i, p)) == multiset(s) + multiset{p}
  {
    assert s == s[..i] + s[i..];
  }

  lemma {:induction false} SortPermutes(s: seq<Point>)
    ensures multiset(Sort(s)) == multiset(s)
  {
    if s != [] {
      var init, p := s[..|s| - 1], s[|s| - 1];
      SortPermutes(init);
      assert s == init + [p];
      SplicePermutes(Sort(init), Cut(Sort(init), p), p);
    }
  }

  /** A multiset of points has only one sorted arrangement. */
  lemma {:induction false} SortedUnique(a: seq<Point>, b: seq<Point>)
    requires Sorted(a) && Sorted(b) && multiset(a) == multiset(b)
    ensures a == b
  {
    assert |multiset(a)| == |a| && |multiset(b)| == |b|;
    if a != [] {
      LeastFirst(a, b);
      LeastFirst(b, a);
      TailMultiset(a);
      TailMultiset(b);
      SortedUnique(a[1..], b[1..]);
    }
  }

  lemma LeastFirst(a: seq<Point>, b: seq<Point>)
    requires Sorted(a) && a != [] && b != [] && multiset(a) == multiset(b)
    ensures a[0] <= b[0]
  {
    assert b[0] in multiset(a);
  }

  lemma TailMultiset(s: seq<Point>)
    requires s != []
    ensures s == [s[0]] + s[1..] && multiset(s[1..]) == multiset(s) - multiset{s[0]}
  {
    assert s == [s[0]] + s[1..];
  }

  // What a lookup should return

  function AtOrAfter(s: seq<Point>, target: Point): seq<Point> {
    if s == [] then []
    else if s[0] >= target then [s[0]] + AtOrAfter(s[1..], target)
    else AtOrAfter(s[1..], target)
  }

  function Before(s: seq<Point>, target: Point): seq<Point> {
    if s == [] then []
    else if s[0] < target then [s[0]] + Before(s[1..], target)
    else Before(s[1..], target)
  }

  /** Once around the ring: the points at or after the target in order, then those before it. */
  function Walk(keys: seq<Point>, target: Point): seq<Point> {
    AtOrAfter(keys, target) + Before(keys, target)
  }

  /** A map read in Go: a missing key reads as the empty name. */
  function OwnerAt(owner: map<Point, Node>, p: Point): Node {
    if p in owner then owner[p] else Node("")
  }

  function Owners(walk: seq<Point>, owner: map<Point, Node>): seq<Node> {
    seq(|walk|, i requires 0 <= i < |walk| => OwnerAt(owner, walk[i]))
  }

  predicate NoRepeats(s: seq<Node>) {
    forall i, j :: 0 <= i < j < |s| ==> s[i] != s[j]
  }

  /** First occurrences, in order. */
  function Distinct(s: seq<Node>): seq<Node> {
    if s == [] then []
    else
      var d := Distinct(s[..|s| - 1]);
      if s[|s| - 1] in d then d else d + [s[|s| - 1]]
  }

  function Min(a: int, b: int): int { if a < b then a else b }

  lemma {:induction false} DistinctOnce(s: seq<Node>)
    ensures NoRepeats(Distinct(s))
    ensures forall n :: n in Distinct(s) <==> n in s
  {
    if s != [] {
      var init, last := s[..|s| - 1], s[|s| - 1];
      DistinctOnce(init);
      assert s == init + [last];
    }
  }

  /** The distinct owners met on one walk from the key's hash. */
  function Preference(hash: Hash, nodes: seq<Node>, n: nat, key: string): seq<Node> {
    var ws := Writes(hash, nodes, n);
    Distinct(Owners(RingWalk(ws, hash(key)), OwnerMap(ws)))
  }

  function RingWalk(ws: seq<Write>, target: Point): seq<Point> {
    Walk(Sort(Points(ws)), target)
  }

  /** The specification of `GetNodes`: the first `count` nodes of the preference list. */
  function Placement(hash: Hash, nodes: seq<Node>, n: nat, key: string, count: int): seq<Node> {
    var d := Preference(hash, nodes, n, key);
    if count <= 0 then [] else d[..Min(count, Min(|nodes|, |d|))]
  }

  lemma WalkMembers(keys: seq<Point>, target: Point)
    ensures forall p :: p in Walk(keys, target) <==> p in keys
  {
    if keys != [] {
      WalkMembers(keys[1..], target);
      assert keys == [keys[0]] + keys[1..];
      assert forall p :: p in Walk(keys, target) <==> p == keys[0] || p in Walk(keys[1..], target);
    }
  }

  function Rotate(s: seq<Point>, c: nat): (r: seq<Point>)
    requires c <= |s|
    ensures |r| == |s|
  {
    s[c..] + s[..c]
  }

  lemma {:induction false} PartsAtCut(keys: seq<Point>, target: Point)
    requires Sorted(keys)
    ensures var c := Cut(keys, target);
            AtOrAfter(keys, target) == keys[c..] && Before(keys, target) == keys[..c]
  {
    if keys != [] {
      PartsAtCut(keys[1..], target);
      var c := Cut(keys[1..], target);
      if keys[0] >= target {
        assert c == 0;
        assert keys == [keys[0]] + keys[1..];
      } else {
        assert keys[..c + 1] == [keys[0]] + keys[1..][..c];
      }
    }
  }

  /** On sorted points a walk is a rotation, which is how the code computes it. */
  lemma WalkIsRotation(keys: seq<Point>, target: Point)
    requires Sorted(keys)
    ensures Walk(keys, target) == Rotate(keys, Cut(keys, target))
  {
    PartsAtCut(keys, target);
  }

  lemma {:induction false} DistinctPrefix(s: seq<Node>, i: nat)
    requires i <= |s|
    ensures Distinct(s[..i]) <= Distinct(s)
  {
    if i < |s| {
      DistinctPrefix(s[..|s| - 1], i);
      assert s[..|s| - 1][..i] == s[..i];
    } else {
      assert s[..i] == s;
    }
  }

  // The ring as the service builds it

  /** The index `i` steps past `idx`, cyclically. */
  function Around(idx: nat, i: nat, n: nat): (j: nat)
    requires n > 0
    ensures j < n
  {
    (idx + i) % n
  }

  class HashRing {
    const hash: Hash
    var nodes: seq<Node>
    var virtualNodes: map<Point, Node>
    var keys: seq<Point>
    ghost const replicas: nat

    ghost predicate Valid()
      reads this
    {
      var ws := Writes(hash, nodes, replicas);
      virtualNodes == OwnerMap(ws) && keys == Sort(Points(ws))
    }

    constructor (hash: Hash, nodes: seq<Node>, replicasPerNode: int)
      ensures Valid() && this.hash == hash && this.nodes == nodes
      ensures replicas == if replicasPerNode <= 0 then 50 else replicasPerNode
    {
      this.hash := hash;
      this.nodes := nodes;
      var perNode := if replicasPerNode <= 0 then 50 else replicasPerNode;
      replicas := perNode;
      var virtual: map<Point, Node> := map[];
      var points: seq<Point> := [];
      ghost var done: seq<Write> := [];
      for k := 0 to |nodes|
        invariant done == Writes(hash, nodes[..k], perNode)
        invariant virtual == OwnerMap(done) && points == Points(done)
      {
        var node := nodes[k];
        ghost var before := done;
        for i := 0 to perNode
          invariant done == before + NodeWrites(hash, node, i)
          invariant virtual == OwnerMap(done) && points == Points(done)
        {
          var sum := hash(VirtualKey(node, i));
          virtual := virtual[sum := node];
          points := points + [sum];
          WriteOne(done, Write(sum, node));
          NodeWritesOne(hash, node, i);
          done := done + [Write(sum, node)];
        }
        assert nodes[..k + 1][..k] == nodes[..k];
      }
      assert nodes[..|nodes|] == nodes;
      virtualNodes := virtual;
      keys := Sort(points);
    }

    method GetNodes(key: string, count: int) returns (selected: seq<Node>)
      requires Valid()
      ensures selected == Placement(hash, nodes, replicas, key, count)
    {
      hide Walk, Distinct, Writes, OwnerMap, Points, Sort, Cut, Around, OwnerAt;
      if |nodes| == 0 || count <= 0 {
        return [];
      }
      var wanted := count;
      if wanted > |nodes| {
        wanted := |nodes|;
      }
      var target := hash(key);
      var idx := Search(target);
      CutUnique(keys, target, idx);
      if idx == |keys| {
        idx := 0;
      }
      ghost var owners := Owners(Walk(keys, target), virtualNodes);
      RotationLength(keys, target);
      forall i | 0 <= i < |keys|
        ensures OwnerAt(virtualNodes, keys[Around(idx, i, |keys|)]) == owners[i]
      {
        RotationOwner(keys, virtualNodes, target, idx, i);
      }
      selected := Collect(idx, wanted, owners);
    }

    /** The loop of `GetNodes`: one round of the ring from `idx`, skipping nodes already seen. */
    method Collect(idx: nat, wanted: nat, ghost owners: seq<Node>) returns (selected: seq<Node>)
      requires |owners| == |keys| && (keys == [] || idx < |keys|)
      requires forall i :: 0 <= i < |keys| ==> OwnerAt(virtualNodes, keys[Around(idx, i, |keys|)]) == owners[i]
      ensures var d := Distinct(owners); selected == d[..Min(wanted, |d|)]
    {
      ghost var met: seq<Node> := [];
      selected := [];
      var seen: set<Node> := {};
      var i := 0;
      while i < |keys| && |selected| < wanted
        invariant 0 <= i <= |keys| && met == owners[..i]
        invariant selected == Distinct(met)
        invariant forall n :: n in seen <==> n in selected
        invariant |selected| <= wanted
      {
        var node := OwnerAt(virtualNodes, keys[Around(idx, i, |keys|)]);
        DistinctOne(met, node);
        if node !in seen {
          seen := seen + {node};
          selected := selected + [node];
        }
        met := met + [node];
        i := i + 1;
      }
      DistinctTake(owners, i, wanted);
    }

    /** `sort.Search` for the first key at or after the target. */
    method Search(target: Point) returns (i: nat)
      requires Sorted(keys)
      ensures i <= |keys|
      ensures forall j :: 0 <= j < i ==> keys[j] < target
      ensures i < |keys| ==> keys[i] >= target
    {
      i := 0;
      var j := |keys|;
      while i < j
        invariant 0 <= i <= j <= |keys|
        invariant forall k :: 0 <= k < i ==> keys[k] < target
        invariant j < |keys| ==> keys[j] >= target
      {
        var h := (i + j) / 2;
        if !(keys[h] >= target) {
          i := h + 1;
        } else {
          j := h;
        }
      }
    }
  }

  lemma CutUnique(s: seq<Point>, target: Point, i: nat)
    requires i <= |s|
    requires forall j :: 0 <= j < i ==> s[j] < target
    requires i < |s| ==> s[i] >= target
    ensures i == Cut(s, target)
  {
  }

  lemma RotationLength(keys: seq<Point>, target: Point)
    requires Sorted(keys)
    ensures |Walk(keys, target)| == |keys|
  {
    WalkIsRotation(keys, target);
  }

  /** The i-th owner on the walk is the one the code finds by indexing modulo the ring size. */
  lemma RotationOwner(keys: seq<Point>, owner: map<Point, Node>, target: Point, idx: nat, i: nat)
    requires Sorted(keys) && i < |keys| && idx == if Cut(keys, target) == |keys| then 0 else Cut(keys, target)
    ensures |Walk(keys, target)| == |keys|
    ensures Owners(Walk(keys, target), owner)[i] == OwnerAt(owner, keys[Around(idx, i, |keys|)])
  {
    WalkIsRotation(keys, target);
    Wrap(idx + i, |keys|);
    assert Walk(keys, target)[i] == if idx + i < |keys| then keys[idx + i] else keys[idx + i - |keys|];
  }

  /** Stopping after `i` owners, at the end or with enough nodes, gives a prefix of them all. */
  lemma DistinctTake(s: seq<Node>, i: nat, wanted: nat)
    requires i <= |s| && |Distinct(s[..i])| <= wanted
    requires i == |s| || |Distinct(s[..i])| == wanted
    ensures Distinct(s[..i]) == Distinct(s)[..Min(wanted, |Distinct(s)|)]
  {
    DistinctPrefix(s, i);
    assert i == |s| ==> s[..i] == s;
  }

  lemma Wrap(x: nat, n: nat)
    requires x < 2 * n
    ensures x % n == if x < n then x else x - n
  {
  }

  lemma DistinctOne(s: seq<Node>, n: Node)
    ensures Distinct(s + [n]) == if n in Distinct(s) then Distinct(s) else Distinct(s) + [n]
  {
    assert (s + [n])[..|s|] == s;
  }

  lemma {:induction false} OwnerMapPoints(ws: seq<Write>)
    ensures forall p :: p in OwnerMap(ws) <==> p in Points(ws)
  {
    if ws != [] {
      var init, w := ws[..|ws| - 1], ws[|ws| - 1];
      OwnerMapPoints(init);
      assert Points(ws) == Points(init) + [w.point];
    }
  }

  lemma WriteOne(ws: seq<Write>, w: Write)
    ensures OwnerMap(ws + [w]) == OwnerMap(ws)[w.point := w.owner]
    ensures Points(ws + [w]) == Points(ws) + [w.point]
  {
    assert (ws + [w])[..|ws|] == ws;
  }

  lemma NodeWritesOne(hash: Hash, node: Node, i: nat)
    ensures NodeWrites(hash, node, i + 1) == NodeWrites(hash, node, i) + [Write(hash(VirtualKey(node, i)), node)]
  {
  }

  lemma {:induction false} WritesLength(hash: Hash, nodes: seq<Node>, n: nat)
    ensures |Writes(hash, nodes, n)| == |nodes| * n
  {
    if nodes != [] {
      var k: nat := |nodes| - 1;
      WritesLength(hash, nodes[..k], n);
      assert k * n + n == (k + 1) * n;
    }
  }

  /** The ring's points are sorted, as many as were written, and are the owner map's domain. */
  lemma RingShape(hash: Hash, nodes: seq<Node>, n: nat)
    ensures var ws := Writes(hash, nodes, n);
            var keys := Sort(Points(ws));
            Sorted(keys) && |keys| == |nodes| * n && forall p :: p in OwnerMap(ws) <==> p in keys
  {
    var ws := Writes(hash, nodes, n);
    WritesLength(hash, nodes, n);
    SortMembers(Points(ws));
    OwnerMapPoints(ws);
  }

  lemma SortMembers(s: seq<Point>)
    ensures |Sort(s)| == |s|
    ensures forall p :: p in Sort(s) <==> p in s
  {
    SortPermutes(s);
    assert |Sort(s)| == |multiset(Sort(s))| == |multiset(s)|;
    forall p
      ensures p in Sort(s) <==> p in s
    {
      assert p in Sort(s) <==> p in multiset(Sort(s));
    }
  }
}
