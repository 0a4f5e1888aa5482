/** What adding or reordering nodes does to placements, for every hash. */
module RingProperties {
  import opened HashRing

  lemma Assoc<T>(a: seq<T>, b: seq<T>, c: seq<T>)
    ensures a + b + c == a + (b + c)
  {
  }

  /** How a concatenation ends. */
  lemma InitConcat<T>(a: seq<T>, b: seq<T>)
    requires b != []
    ensures a + b != [] && (a + b)[..|a + b| - 1] == a + b[..|b| - 1] && (a + b)[|a + b| - 1] == b[|b| - 1]
  {
  }

  // The writes of a concatenation

  lemma {:induction false} WritesConcat(hash: Hash, a: seq<Node>, b: seq<Node>, n: nat)
    ensures Writes(hash, a + b, n) == Writes(hash, a, n) + Writes(hash, b, n)
  {
    if b == [] {
      assert a + b == a;
    } else {
      var init, last := b[..|b| - 1], b[|b| - 1];
      WritesConcat(hash, a, init, n);
      InitConcat(a, b);
      Assoc(Writes(hash, a, n), Writes(hash, init, n), NodeWrites(hash, last, n));
    }
  }

  lemma {:induction false} OwnerMapConcat(a: seq<Write>, b: seq<Write>)
    ensures OwnerMap(a + b) == OwnerMap(a) + OwnerMap(b)
  {
    if b == [] {
      assert a + b == a;
    } else {
      var init := b[..|b| - 1];
      OwnerMapConcat(a, init);
      InitConcat(a, b);
    }
  }

  lemma {:induction false} OwnerMapUniform(ws: seq<Write>, x: Node)
    requires forall i :: 0 <= i < |ws| ==> ws[i].owner == x
    ensures forall p :: p in OwnerMap(ws) ==> OwnerMap(ws)[p] == x
  {
    if ws != [] {
      OwnerMapUniform(ws[..|ws| - 1], x);
    }
  }

  lemma InsertedMaps(hash: Hash, before: seq<Node>, x: Node, after: seq<Node>, n: nat)
    ensures var a, o, b := Writes(hash, before, n), NodeWrites(hash, x, n), Writes(hash, after, n);
            && Writes(hash, before + after, n) == a + b
            && Writes(hash, before + [x] + after, n) == a + o + b
            && OwnerMap(a + b) == OwnerMap(a) + OwnerMap(b)
            && OwnerMap(a + o + b) == OwnerMap(a) + OwnerMap(o) + OwnerMap(b)
  {
    var a, o, b := Writes(hash, before, n), NodeWrites(hash, x, n), Writes(hash, after, n);
    WritesConcat(hash, before, after, n);
    WritesConcat(hash, before + [x], after, n);
    WritesConcat(hash, before, [x], n);
    WritesOfOne(hash, x, n);
    OwnerMapConcat(a, b);
    OwnerMapConcat(a + o, b);
    OwnerMapConcat(a, o);
  }

  lemma WritesOfOne(hash: Hash, x: Node, n: nat)
    ensures Writes(hash, [x], n) == NodeWrites(hash, x, n)
  {
    assert [x][..0] == [];
    assert [] + NodeWrites(hash, x, n) == NodeWrites(hash, x, n);
  }

  /** The owner maps before and after inserting `x` between `before` and `after`. */
  lemma InsertedOwners(hash: Hash, before: seq<Node>, x: Node, after: seq<Node>, n: nat)
    ensures var was := OwnerMap(Writes(hash, before + after, n));
            var now := OwnerMap(Writes(hash, before + [x] + after, n));
            var own := OwnerMap(NodeWrites(hash, x, n));
            && (forall p :: p in now <==> p in was || p in own)
            && (forall p :: p in was ==> now[p] == was[p] || now[p] == x)
            && (forall p :: p in own && p !in was ==> now[p] == x)
  {
    InsertedMaps(hash, before, x, after, n);
    var o := NodeWrites(hash, x, n);
    OwnerMapUniform(o, x);
  }

  // The primary

  /** `p` is met no later than `q` on a walk from `t`. */
  predicate NoLater(t: Point, p: Point, q: Point) {
    if p >= t then q < t || p <= q else q < t && p <= q
  }

  lemma WalkStart(keys: seq<Point>, t: Point)
    requires Sorted(keys) && keys != []
    ensures |Walk(keys, t)| == |keys| && Walk(keys, t)[0] in keys
    ensures forall q :: q in keys ==> NoLater(t, Walk(keys, t)[0], q)
  {
    WalkIsRotation(keys, t);
    var c := Cut(keys, t);
    assert Walk(keys, t)[0] == if c < |keys| then keys[c] else keys[0];
  }

  lemma {:induction false} DistinctHead(s: seq<Node>)
    requires s != []
    ensures Distinct(s) != [] && Distinct(s)[0] == s[0]
  {
    if |s| > 1 {
      DistinctHead(s[..|s| - 1]);
    }
  }

  /** The primary is the owner of the first point met; there is one as soon as there is a node. */
  lemma PrimaryIsFirstOwner(hash: Hash, nodes: seq<Node>, n: nat, key: string, count: int)
    requires nodes != [] && n > 0 && count > 0
    ensures var ws := Writes(hash, nodes, n);
            var keys := Sort(Points(ws));
            && keys != [] && Sorted(keys) && |Walk(keys, hash(key))| == |keys|
            && Walk(keys, hash(key))[0] in keys
            && Placement(hash, nodes, n, key, count) != []
            && Placement(hash, nodes, n, key, count)[0] == OwnerAt(OwnerMap(ws), Walk(keys, hash(key))[0])
  {
    var ws := Writes(hash, nodes, n);
    var keys, owner, t := Sort(Points(ws)), OwnerMap(ws), hash(key);
    hide Sort, OwnerMap, Writes, Points;
    RingShape(hash, nodes, n);
    Product(|nodes|, n);
    WalkStart(keys, t);
    hide Walk, Sorted;
    var owners := Owners(Walk(keys, t), owner);
    DistinctHead(owners);
    hide Distinct;
  }

  lemma Product(a: nat, b: nat)
    requires a > 0 && b > 0
    ensures a * b > 0
  {
  }

  /**
   * Minimal disruption, part one: inserting a node anywhere in the list leaves every key's primary
   * alone or moves it to the new node, whatever points collide.
   */
  lemma PrimaryMovesOnlyToNewNode(hash: Hash, before: seq<Node>, x: Node, after: seq<Node>, n: nat, key: string, count: int)
    requires n > 0 && count > 0
    ensures var was := Placement(hash, before + after, n, key, count);
            var now := Placement(hash, before + [x] + after, n, key, count);
            now != [] && (now[0] == x || (was != [] && now[0] == was[0]))
  {
    var nodes, nodes', t := before + after, before + [x] + after, hash(key);
    var ws, ws' := Writes(hash, nodes, n), Writes(hash, nodes', n);
    var keys, keys' := Sort(Points(ws)), Sort(Points(ws'));
    InsertedOwners(hash, before, x, after, n);
    PrimaryIsFirstOwner(hash, nodes', n, key, count);
    RingShape(hash, nodes, n);
    RingShape(hash, nodes', n);
    var p' := Walk(keys', t)[0];
    if p' in keys {
      assert keys != [] && nodes != [];
      PrimaryIsFirstOwner(hash, nodes, n, key, count);
      WalkStart(keys, t);
      WalkStart(keys', t);
      var p := Walk(keys, t)[0];
      assert p in keys';
      assert NoLater(t, p, p') && NoLater(t, p', p);
    }
  }

  // The rest of the preference list

  function Without(x: Node, s: seq<Node>): seq<Node> {
    if s == [] then []
    else
      var r := Without(x, s[..|s| - 1]);
      if s[|s| - 1] == x then r else r + [s[|s| - 1]]
  }

  lemma {:induction false} WithoutConcat(x: Node, a: seq<Node>, b: seq<Node>)
    ensures Without(x, a + b) == Without(x, a) + Without(x, b)
  {
    if b == [] {
      assert a + b == a;
    } else {
      var init := b[..|b| - 1];
      WithoutConcat(x, a, init);
      InitConcat(a, b);
    }
  }

  lemma {:induction false} WithoutAbsent(x: Node, s: seq<Node>)
    requires x !in s
    ensures Without(x, s) == s
  {
    if s != [] {
      WithoutAbsent(x, s[..|s| - 1]);
    }
  }

  lemma {:induction false} WithoutMembers(x: Node, s: seq<Node>)
    ensures forall n :: n in Without(x, s) <==> n in s && n != x
  {
    if s != [] {
      WithoutMembers(x, s[..|s| - 1]);
      assert s == s[..|s| - 1] + [s[|s| - 1]];
    }
  }

  lemma {:induction false} WithoutDistinct(x: Node, s: seq<Node>)
    ensures Without(x, Distinct(s)) == Distinct(Without(x, s))
  {
    if s != [] {
      var init, last := s[..|s| - 1], s[|s| - 1];
      WithoutDistinct(x, init);
      WithoutConcat(x, Distinct(init), [last]);
      WithoutMembers(x, init);
      DistinctOnce(init);
      DistinctOnce(Without(x, init));
      DistinctOne(Without(x, init), last);
    }
  }

  lemma {:induction false} WithoutLength(x: Node, s: seq<Node>)
    requires NoRepeats(s)
    ensures |Without(x, s)| == if x in s then |s| - 1 else |s|
  {
    if s != [] {
      var init, last := s[..|s| - 1], s[|s| - 1];
      assert NoRepeats(init) && last !in init;
      WithoutLength(x, init);
      assert s == init + [last];
    }
  }

  lemma {:induction false} DistinctCongruent(a: seq<Node>, b: seq<Node>, c: seq<Node>)
    requires Distinct(a) == Distinct(b)
    ensures Distinct(a + c) == Distinct(b + c)
  {
    hide Distinct;
    if c == [] {
      assert a + c == a && b + c == b;
    } else {
      var init, last := c[..|c| - 1], c[|c| - 1];
      DistinctCongruent(a, b, init);
      DistinctOne(a + init, last);
      DistinctOne(b + init, last);
      assert c == init + [last];
      assert a + init + [last] == a + c && b + init + [last] == b + c;
    }
  }

  lemma SpliceRotatedAbove(keys: seq<Point>, c: nat, k: nat, p: Point)
    requires c <= k <= |keys|
    ensures Rotate(Splice(keys, k, p), c) == Splice(Rotate(keys, c), k - c, p)
  {
  }

  lemma SpliceRotatedBelow(keys: seq<Point>, c: nat, k: nat, p: Point)
    requires k <= c <= |keys|
    ensures Rotate(Splice(keys, k, p), c + 1) == Splice(Rotate(keys, c), |keys| - c + k, p)
  {
    var r, i := Splice(keys, k, p), |keys| - c + k;
    assert r[c + 1..] == keys[c..] && r[..c + 1] == keys[..k] + [p] + keys[k..c];
    assert Rotate(keys, c)[..i] == keys[c..] + keys[..k] && Rotate(keys, c)[i..] == keys[k..c];
  }

  lemma InsertCut(keys: seq<Point>, p: Point, t: Point)
    requires Sorted(keys)
    ensures Cut(Insert(keys, p), t) == if p >= t then Cut(keys, t) else Cut(keys, t) + 1
    ensures if p >= t then Cut(keys, t) <= Cut(keys, p) else Cut(keys, p) <= Cut(keys, t)
  {
    var c := if p >= t then Cut(keys, t) else Cut(keys, t) + 1;
    CutUnique(Insert(keys, p), t, c);
  }

  lemma CutFinds(keys: seq<Point>, p: Point)
    requires Sorted(keys) && p in keys
    ensures Cut(keys, p) < |keys| && keys[Cut(keys, p)] == p
  {
  }

  /** Inserting a point into the ring inserts it once into every walk, next to its equals. */
  lemma WalkInsert(keys: seq<Point>, p: Point, t: Point) returns (i: nat)
    requires Sorted(keys)
    ensures i <= |Walk(keys, t)| && Walk(Insert(keys, p), t) == Splice(Walk(keys, t), i, p)
    ensures p in keys ==> i < |Walk(keys, t)| && Walk(keys, t)[i] == p
  {
    hide Splice, Sorted, Walk;
    var c, k := Cut(keys, t), Cut(keys, p);
    WalkIsRotation(keys, t);
    WalkIsRotation(Insert(keys, p), t);
    InsertCut(keys, p, t);
    if p in keys {
      CutFinds(keys, p);
    }
    if p >= t {
      i := k - c;
      SpliceRotatedAbove(keys, c, k, p);
    } else {
      i := |keys| - c + k;
      SpliceRotatedBelow(keys, c, k, p);
    }
  }

  /** The owners other than `x`, in preference order. */
  function Others(x: Node, keys: seq<Point>, t: Point, owner: map<Point, Node>): seq<Node> {
    Distinct(Without(x, Owners(Walk(keys, t), owner)))
  }

  lemma OwnersConcat(a: seq<Point>, b: seq<Point>, owner: map<Point, Node>)
    ensures Owners(a + b, owner) == Owners(a, owner) + Owners(b, owner)
  {
  }

  lemma OwnersInsert(a: seq<Point>, p: Point, b: seq<Point>, owner: map<Point, Node>)
    ensures Owners(a + [p] + b, owner) == Owners(a, owner) + [OwnerAt(owner, p)] + Owners(b, owner)
  {
  }

  lemma WithoutInsert(x: Node, a: seq<Node>, y: Node, b: seq<Node>)
    ensures Without(x, a + [y] + b) == Without(x, a) + (if y == x then [] else [y]) + Without(x, b)
  {
    WithoutConcat(x, a + [y], b);
    WithoutConcat(x, a, [y]);
    assert [y][..0] == [];
  }

  lemma DistinctAgain(a: seq<Node>, y: Node)
    ensures Distinct(a + [y] + [y]) == Distinct(a + [y])
  {
    DistinctOne(a, y);
    DistinctOne(a + [y], y);
  }

  lemma DistinctTwice(a: seq<Node>, y: Node, b: seq<Node>)
    requires b != [] && b[0] == y
    ensures Distinct(a + [y] + b) == Distinct(a + b)
  {
    hide Distinct;
    var c, rest := a + [y], b[1..];
    DistinctAgain(a, y);
    DistinctCongruent(c + [y], c, rest);
    assert b == [y] + rest;
    Assoc(c, [y], rest);
    Assoc(a, [y], rest);
  }

  lemma DistinctInsert(x: Node, a: seq<Node>, y: Node, b: seq<Node>)
    requires y == x || (b != [] && b[0] == y)
    ensures Distinct(Without(x, a + [y] + b)) == Distinct(Without(x, a + b))
  {
    WithoutInsert(x, a, y, b);
    WithoutConcat(x, a, b);
    if y == x {
      assert Without(x, a) + [] == Without(x, a);
    } else {
      assert [] + [y] + b[1..] == b;
      WithoutInsert(x, [], y, b[1..]);
      DistinctTwice(Without(x, a), y, Without(x, b));
    }
  }

  /** A point of `x`, or one already on the ring, does not change the order of the other owners. */
  lemma OthersUnchanged(x: Node, keys: seq<Point>, p: Point, t: Point, owner: map<Point, Node>)
    requires Sorted(keys) && (OwnerAt(owner, p) == x || p in keys)
    ensures Others(x, Insert(keys, p), t, owner) == Others(x, keys, t, owner)
  {
    var i := WalkInsert(keys, p, t);
    var w := Walk(keys, t);
    var a, b := w[..i], w[i..];
    assert w == a + b;
    assert Splice(w, i, p) == a + [p] + b;
    OwnersInsert(a, p, b, owner);
    OwnersConcat(a, b, owner);
    DistinctInsert(x, Owners(a, owner), OwnerAt(owner, p), Owners(b, owner));
  }

  lemma {:induction false} OthersUnchangedAll(x: Node, ps: seq<Point>, qs: seq<Point>, t: Point, owner: map<Point, Node>)
    requires forall q :: q in qs ==> OwnerAt(owner, q) == x || q in ps
    ensures Others(x, Sort(ps + qs), t, owner) == Others(x, Sort(ps), t, owner)
  {
    if qs == [] {
      assert ps + qs == ps;
    } else {
      var init, q := qs[..|qs| - 1], qs[|qs| - 1];
      OthersUnchangedAll(x, ps, init, t, owner);
      assert (ps + qs)[..|ps + qs| - 1] == ps + init;
      SortMembers(ps + init);
      assert q in qs;
      assert Sort(ps + qs) == Insert(Sort(ps + init), q);
      OthersUnchanged(x, Sort(ps + init), q, t, owner);
    }
  }

  lemma SortMiddle(a: seq<Point>, o: seq<Point>, b: seq<Point>)
    ensures Sort(a + o + b) == Sort(a + b + o)
  {
    SortPermutes(a + o + b);
    SortPermutes(a + b + o);
    assert multiset(a + o + b) == multiset(a + b + o);
    SortedUnique(Sort(a + o + b), Sort(a + b + o));
  }

  /** No point already on the ring gets a new owner when `x` is inserted. */
  ghost predicate TakesNoPoint(hash: Hash, before: seq<Node>, x: Node, after: seq<Node>, n: nat) {
    var was, now := OwnerMap(Writes(hash, before + after, n)), OwnerMap(Writes(hash, before + [x] + after, n));
    forall p :: p in was ==> OwnerAt(now, p) == was[p]
  }

  /** In particular when the new node's points are all new. */
  lemma FreshPointsTakeNone(hash: Hash, before: seq<Node>, x: Node, after: seq<Node>, n: nat)
    requires forall i :: 0 <= i < n ==> hash(VirtualKey(x, i)) !in Points(Writes(hash, before + after, n))
    ensures TakesNoPoint(hash, before, x, after, n)
  {
    InsertedMaps(hash, before, x, after, n);
    var a, o, b := Writes(hash, before, n), NodeWrites(hash, x, n), Writes(hash, after, n);
    OwnerMapPoints(o);
    OwnerMapPoints(a + b);
    forall p | p in OwnerMap(o)
      ensures p !in Points(a + b)
    {
      var i :| 0 <= i < |o| && Points(o)[i] == p;
    }
  }

  lemma {:induction false} NoRepeatsFit(s: seq<Node>, t: seq<Node>)
    requires NoRepeats(s) && forall n :: n in s ==> n in t
    ensures |s| <= |t|
  {
    if s != [] {
      var init, last := s[..|s| - 1], s[|s| - 1];
      assert last in s && s == init + [last];
      var k :| 0 <= k < |t| && t[k] == last;
      var t' := t[..k] + t[k + 1..];
      assert t == t[..k] + [last] + t[k + 1..];
      forall n | n in init
        ensures n in t'
      {
        assert n in s && n != last;
      }
      NoRepeatsFit(init, t');
    }
  }

  lemma {:induction false} WritesBy(hash: Hash, nodes: seq<Node>, n: nat)
    ensures forall w :: w in Writes(hash, nodes, n) ==>
              w.owner in nodes && exists i :: 0 <= i < n && w.point == hash(VirtualKey(w.owner, i))
  {
    if nodes != [] {
      WritesBy(hash, nodes[..|nodes| - 1], n);
    }
  }

  lemma {:induction false} OwnerWrote(ws: seq<Write>)
    ensures forall p :: p in OwnerMap(ws) ==> Write(p, OwnerMap(ws)[p]) in ws
  {
    if ws != [] {
      OwnerWrote(ws[..|ws| - 1]);
    }
  }

  /** A preference list holds configured nodes, each once, so it is never longer than the list. */
  lemma PreferenceNodes(hash: Hash, nodes: seq<Node>, n: nat, key: string)
    ensures var d := Preference(hash, nodes, n, key);
            NoRepeats(d) && (forall x :: x in d ==> x in nodes) && |d| <= |nodes|
  {
    var ws := Writes(hash, nodes, n);
    var keys, owner := Sort(Points(ws)), OwnerMap(ws);
    var owners := Owners(Walk(keys, hash(key)), owner);
    WalkMembers(keys, hash(key));
    RingShape(hash, nodes, n);
    OwnerWrote(ws);
    WritesBy(hash, nodes, n);
    DistinctOnce(owners);
    forall x | x in Distinct(owners)
      ensures x in nodes
    {
      var i :| 0 <= i < |owners| && owners[i] == x;
      assert Write(Walk(keys, hash(key))[i], x) in ws;
    }
    NoRepeatsFit(Distinct(owners), nodes);
  }

  // How many nodes a key gets

  /** The nodes that own some point of the ring. */
  function RingOwners(hash: Hash, nodes: seq<Node>, n: nat): set<Node> {
    Range(OwnerMap(Writes(hash, nodes, n)))
  }

  function Range(owner: map<Point, Node>): set<Node> {
    set p | p in owner :: owner[p]
  }

  lemma {:induction false} NoRepeatsSize(s: seq<Node>, t: set<Node>)
    requires NoRepeats(s) && forall x :: x in s <==> x in t
    ensures |s| == |t|
  {
    if s != [] {
      var init, last := s[..|s| - 1], s[|s| - 1];
      assert s == init + [last];
      NoRepeatsSize(init, t - {last});
    }
  }

  lemma WalkOwners(keys: seq<Point>, target: Point, owner: map<Point, Node>)
    requires forall p :: p in owner <==> p in keys
    ensures forall x :: x in Owners(Walk(keys, target), owner) <==> x in Range(owner)
  {
    WalkMembers(keys, target);
    var walk := Walk(keys, target);
    forall x | x in Range(owner)
      ensures x in Owners(walk, owner)
    {
      var p :| p in owner && owner[p] == x;
      assert p in walk;
      var i :| 0 <= i < |walk| && walk[i] == p;
      assert Owners(walk, owner)[i] == x;
    }
  }

  /** Every key's preference list holds every ring owner, so all are equally long. */
  lemma PreferenceHoldsAllOwners(hash: Hash, nodes: seq<Node>, n: nat, key: string)
    ensures forall x :: x in Preference(hash, nodes, n, key) <==> x in RingOwners(hash, nodes, n)
    ensures |Preference(hash, nodes, n, key)| == |RingOwners(hash, nodes, n)|
  {
    var ws := Writes(hash, nodes, n);
    var keys, owner := Sort(Points(ws)), OwnerMap(ws);
    RingShape(hash, nodes, n);
    WalkOwners(keys, hash(key), owner);
    DistinctOnce(Owners(Walk(keys, hash(key)), owner));
    NoRepeatsSize(Preference(hash, nodes, n, key), RingOwners(hash, nodes, n));
  }

  /** The length of a placement: the count asked for or the number of ring owners, for every key. */
  lemma PlacementLength(hash: Hash, nodes: seq<Node>, n: nat, key: string, count: int)
    ensures |Placement(hash, nodes, n, key, count)| == if count <= 0 then 0 else Min(count, |RingOwners(hash, nodes, n)|)
  {
    PreferenceHoldsAllOwners(hash, nodes, n, key);
    PreferenceNodes(hash, nodes, n, key);
    hide Preference, RingOwners;
  }

  /** Two points of the ring have different owners. */
  ghost predicate TwoOwners(hash: Hash, nodes: seq<Node>, n: nat) {
    var owner := OwnerMap(Writes(hash, nodes, n));
    exists p, q :: p in owner && q in owner && owner[p] != owner[q]
  }

  lemma TwoOwnersIff(hash: Hash, nodes: seq<Node>, n: nat)
    ensures |RingOwners(hash, nodes, n)| >= 2 <==> TwoOwners(hash, nodes, n)
  {
    var owner := OwnerMap(Writes(hash, nodes, n));
    if TwoOwners(hash, nodes, n) {
      var p, q :| p in owner && q in owner && owner[p] != owner[q];
      AtLeastTwo(Range(owner), owner[p], owner[q]);
    } else if Range(owner) != {} {
      var x :| x in Range(owner);
      assert Range(owner) == {x};
    }
  }

  lemma AtLeastTwo(s: set<Node>, x: Node, y: Node)
    requires x in s && y in s && x != y
    ensures |s| >= 2
  {
    assert {x, y} <= s;
    assert |s| == |{x, y}| + |s - {x, y}|;
  }

  /** A count of two or more is met with two nodes exactly when two points have different owners. */
  lemma TwoNodesIff(hash: Hash, nodes: seq<Node>, n: nat, key: string, count: int)
    requires count >= 2
    ensures |Placement(hash, nodes, n, key, count)| >= 2 <==> TwoOwners(hash, nodes, n)
  {
    PlacementLength(hash, nodes, n, key, count);
    TwoOwnersIff(hash, nodes, n);
    hide Placement, RingOwners, TwoOwners;
  }

  /** The other nodes' preference order is what it was before `x` came. */
  lemma OthersKeepOrder(hash: Hash, before: seq<Node>, x: Node, after: seq<Node>, n: nat, key: string)
    requires x !in before + after && TakesNoPoint(hash, before, x, after, n)
    ensures Without(x, Preference(hash, before + [x] + after, n, key)) == Preference(hash, before + after, n, key)
  {
    var a, o, b := Writes(hash, before, n), NodeWrites(hash, x, n), Writes(hash, after, n);
    var was, now, t := OwnerMap(a + b), OwnerMap(a + o + b), hash(key);
    var ps, qs := Points(a + b), Points(o);
    InsertedMaps(hash, before, x, after, n);
    PointsConcat(a, o, b);
    SortMiddle(Points(a), Points(o), Points(b));
    OwnedOrThere(hash, before, x, after, n);
    OthersUnchangedAll(x, ps, qs, t, now);
    WithoutDistinct(x, Owners(Walk(Sort(Points(a + o + b)), t), now));
    SameOwners(hash, before + after, n, t, now);
    var owners := Owners(Walk(Sort(ps), t), was);
    PreferenceNodes(hash, before + after, n, key);
    DistinctOnce(owners);
    WithoutAbsent(x, owners);
  }

  lemma PointsConcat(a: seq<Write>, o: seq<Write>, b: seq<Write>)
    ensures Points(a + b) == Points(a) + Points(b)
    ensures Points(a + o + b) == Points(a) + Points(o) + Points(b)
  {
  }

  lemma OwnedOrThere(hash: Hash, before: seq<Node>, x: Node, after: seq<Node>, n: nat)
    ensures forall q :: q in Points(NodeWrites(hash, x, n)) ==>
              OwnerAt(OwnerMap(Writes(hash, before + [x] + after, n)), q) == x ||
              q in Points(Writes(hash, before + after, n))
  {
    InsertedOwners(hash, before, x, after, n);
    OwnerMapPoints(NodeWrites(hash, x, n));
    OwnerMapPoints(Writes(hash, before + after, n));
  }

  lemma SameOwners(hash: Hash, nodes: seq<Node>, n: nat, t: Point, now: map<Point, Node>)
    requires var was := OwnerMap(Writes(hash, nodes, n)); forall p :: p in was ==> OwnerAt(now, p) == was[p]
    ensures var walk := Walk(Sort(Points(Writes(hash, nodes, n))), t);
            Owners(walk, now) == Owners(walk, OwnerMap(Writes(hash, nodes, n)))
  {
    WalkMembers(Sort(Points(Writes(hash, nodes, n))), t);
    RingShape(hash, nodes, n);
  }

  /**
   * Minimal disruption, part two: when no existing point changes hands, a new node displaces at
   * most one member of any placement and leaves the others in order.
   */
  lemma AtMostOneDisplaced(hash: Hash, before: seq<Node>, x: Node, after: seq<Node>, n: nat, key: string, count: int)
    requires x !in before + after && TakesNoPoint(hash, before, x, after, n)
    ensures var was := Placement(hash, before + after, n, key, count);
            var now := Placement(hash, before + [x] + after, n, key, count);
            Without(x, now) <= was && |was| <= |Without(x, now)| + 1
  {
    var nodes, nodes' := before + after, before + [x] + after;
    var d, d' := Preference(hash, nodes, n, key), Preference(hash, nodes', n, key);
    hide Preference;
    OthersKeepOrder(hash, before, x, after, n, key);
    PreferenceNodes(hash, nodes, n, key);
    PreferenceNodes(hash, nodes', n, key);
    var k := if count <= 0 then 0 else Min(count, Min(|nodes'|, |d'|));
    TakeWithout(x, d', k);
  }

  lemma TakeWithout(x: Node, d: seq<Node>, k: nat)
    requires NoRepeats(d) && k <= |d|
    ensures Without(x, d[..k]) <= Without(x, d)
    ensures k - 1 <= |Without(x, d[..k])| <= k
    ensures |d| - 1 <= |Without(x, d)| <= |d|
  {
    WithoutLength(x, d);
    WithoutLength(x, d[..k]);
    WithoutConcat(x, d[..k], d[k..]);
    assert d == d[..k] + d[k..];
  }

  // Order of the node list

  ghost predicate NoSharedPoint(hash: Hash, nodes: seq<Node>, n: nat) {
    forall u, v, i: nat, j: nat ::
      (u in nodes && v in nodes && i < n && j < n && hash(VirtualKey(u, i)) == hash(VirtualKey(v, j))) ==> u == v
  }

  lemma MultisetMiddle<T>(a: seq<T>, o: seq<T>, b: seq<T>)
    ensures multiset(a + o + b) == multiset(a + b) + multiset(o)
  {
  }

  lemma MultisetWithout<T>(s: seq<T>, t: seq<T>, k: nat)
    requires s != [] && k < |t| && t[k] == s[|s| - 1] && multiset(s) == multiset(t)
    ensures multiset(s[..|s| - 1]) == multiset(t[..k] + t[k + 1..])
  {
    var x, init := t[k], s[..|s| - 1];
    assert s == init + [x];
    assert t == t[..k] + [x] + t[k + 1..];
    MultisetMiddle(t[..k], [x], t[k + 1..]);
    Cancel(multiset(init), multiset(t[..k] + t[k + 1..]), x);
  }

  lemma Cancel<T>(a: multiset<T>, b: multiset<T>, x: T)
    requires a + multiset([x]) == b + multiset([x])
    ensures a == b
  {
    assert a == a + multiset([x]) - multiset([x]);
    assert b == b + multiset([x]) - multiset([x]);
  }

  lemma SameLength<T>(s: seq<T>, t: seq<T>)
    requires multiset(s) == multiset(t)
    ensures |s| == |t|
  {
    assert |multiset(s)| == |s| && |multiset(t)| == |t|;
  }

  lemma InsertedWrites(hash: Hash, before: seq<Node>, x: Node, after: seq<Node>, n: nat)
    ensures Writes(hash, before + after, n) == Writes(hash, before, n) + Writes(hash, after, n)
    ensures Writes(hash, before + [x] + after, n) == Writes(hash, before, n) + NodeWrites(hash, x, n) + Writes(hash, after, n)
  {
    InsertedMaps(hash, before, x, after, n);
  }

  lemma WritesMiddle(hash: Hash, a: seq<Node>, x: Node, b: seq<Node>, n: nat)
    ensures multiset(Writes(hash, a + [x] + b, n)) == multiset(Writes(hash, a + b, n)) + multiset(NodeWrites(hash, x, n))
  {
    InsertedWrites(hash, a, x, b, n);
    hide Writes, NodeWrites;
    MultisetMiddle(Writes(hash, a, n), NodeWrites(hash, x, n), Writes(hash, b, n));
  }

  lemma WritesEnd(hash: Hash, s: seq<Node>, n: nat)
    requires s != []
    ensures multiset(Writes(hash, s, n)) == multiset(Writes(hash, s[..|s| - 1], n)) + multiset(NodeWrites(hash, s[|s| - 1], n))
  {
    hide NodeWrites;
  }

  /** The writes do not depend on the order of the nodes, apart from their own order. */
  lemma {:induction false} WritesPermute(hash: Hash, s: seq<Node>, t: seq<Node>, n: nat)
    requires multiset(s) == multiset(t)
    ensures multiset(Writes(hash, s, n)) == multiset(Writes(hash, t, n))
  {
    hide Writes, NodeWrites;
    SameLength(s, t);
    if s == [] {
      assert t == [];
    } else {
      var last := s[|s| - 1];
      assert last in multiset(t);
      var k :| 0 <= k < |t| && t[k] == last;
      MultisetWithout(s, t, k);
      WritesPermute(hash, s[..|s| - 1], t[..k] + t[k + 1..], n);
      assert t == t[..k] + [last] + t[k + 1..];
      WritesEnd(hash, s, n);
      WritesMiddle(hash, t[..k], last, t[k + 1..], n);
    }
  }

  lemma {:induction false} PointsPermute(s: seq<Write>, t: seq<Write>)
    requires multiset(s) == multiset(t)
    ensures multiset(Points(s)) == multiset(Points(t))
  {
    SameLength(s, t);
    hide Points;
    if s != [] {
      var last := s[|s| - 1];
      assert last in multiset(t);
      var k :| 0 <= k < |t| && t[k] == last;
      MultisetWithout(s, t, k);
      PointsPermute(s[..|s| - 1], t[..k] + t[k + 1..]);
      assert t == t[..k] + [last] + t[k + 1..];
      PointsConcat(t[..k], [last], t[k + 1..]);
      assert Points(s) == Points(s[..|s| - 1]) + [last.point];
      assert Points([last]) == [last.point];
    }
  }

  /** When no two nodes share a point, the order of the node list changes no placement. */
  lemma OrderIrrelevant(hash: Hash, nodes: seq<Node>, nodes': seq<Node>, n: nat, key: string, count: int)
    requires multiset(nodes) == multiset(nodes') && NoSharedPoint(hash, nodes, n)
    ensures Placement(hash, nodes, n, key, count) == Placement(hash, nodes', n, key, count)
  {
    var ws, ws' := Writes(hash, nodes, n), Writes(hash, nodes', n);
    WritesPermute(hash, nodes, nodes', n);
    PointsPermute(ws, ws');
    SortPermutes(Points(ws));
    SortPermutes(Points(ws'));
    SortedUnique(Sort(Points(ws)), Sort(Points(ws')));
    SameOwnerMap(hash, nodes, ws, ws', n);
    SameLength(nodes, nodes');
  }

  lemma SameOwnerMap(hash: Hash, nodes: seq<Node>, ws: seq<Write>, ws': seq<Write>, n: nat)
    requires ws == Writes(hash, nodes, n) && multiset(ws) == multiset(ws')
    requires multiset(Points(ws)) == multiset(Points(ws')) && NoSharedPoint(hash, nodes, n)
    ensures OwnerMap(ws) == OwnerMap(ws')
  {
    OwnerMapPoints(ws);
    OwnerMapPoints(ws');
    OwnerWrote(ws);
    OwnerWrote(ws');
    WritesBy(hash, nodes, n);
    hide Writes, OwnerMap, VirtualKey, Points;
    forall p | p in OwnerMap(ws)
      ensures p in OwnerMap(ws') && OwnerMap(ws')[p] == OwnerMap(ws)[p]
    {
      assert p in multiset(Points(ws'));
      assert Write(p, OwnerMap(ws')[p]) in multiset(ws);
    }
    forall p | p in OwnerMap(ws')
      ensures p in OwnerMap(ws)
    {
      assert p in multiset(Points(ws));
    }
  }

  lemma LastOwns(hash: Hash, rest: seq<Node>, v: Node, n: nat, j: nat)
    requires j < n
    ensures var p, owner := hash(VirtualKey(v, j)), OwnerMap(Writes(hash, rest + [v], n));
            p in owner && owner[p] == v
  {
    var o := NodeWrites(hash, v, n);
    InsertedMaps(hash, rest, v, [], n);
    assert rest + [v] + [] == rest + [v];
    OwnerMapUniform(o, v);
    assert o[j].point == hash(VirtualKey(v, j)) && Points(o)[j] == o[j].point;
    OwnerMapPoints(o);
  }

  /** The last node of the list is the primary of every key that hashes to one of its points. */
  lemma LaterWriteWins(hash: Hash, rest: seq<Node>, v: Node, n: nat, j: nat, key: string)
    requires j < n && hash(VirtualKey(v, j)) == hash(key)
    ensures Placement(hash, rest + [v], n, key, 1) == [v]
  {
    var nodes := rest + [v];
    var t, keys := hash(key), Sort(Points(Writes(hash, nodes, n)));
    LastOwns(hash, rest, v, n, j);
    hide OwnerMap, Points, Writes, Sort;
    RingShape(hash, nodes, n);
    PrimaryIsFirstOwner(hash, nodes, n, key, 1);
    WalkStart(keys, t);
    assert NoLater(t, Walk(keys, t)[0], t);
  }

  /** The list with one occurrence of the node moved to the end. */
  lemma MovedLast(nodes: seq<Node>, u: Node) returns (rest: seq<Node>)
    requires u in nodes
    ensures multiset(rest + [u]) == multiset(nodes)
  {
    var k :| 0 <= k < |nodes| && nodes[k] == u;
    rest := nodes[..k] + nodes[k + 1..];
    assert nodes == nodes[..k] + [u] + nodes[k + 1..];
    MultisetMiddle(nodes[..k], [u], nodes[k + 1..]);
  }

  /** Some permutation of the list places some key differently. */
  ghost predicate OrderMatters(hash: Hash, nodes: seq<Node>, n: nat) {
    exists nodes', key, count :: multiset(nodes) == multiset(nodes') &&
                                 Placement(hash, nodes, n, key, count) != Placement(hash, nodes', n, key, count)
  }

  /** Two nodes that share a point both become the primary of a key there, each when moved last. */
  lemma SharedPointFollowsOrder(hash: Hash, nodes: seq<Node>, u: Node, v: Node, n: nat, i: nat, j: nat)
    requires u != v && u in nodes && v in nodes && i < n && j < n && hash(VirtualKey(u, i)) == hash(VirtualKey(v, j))
    ensures OrderMatters(hash, nodes, n)
  {
    var key := VirtualKey(u, i);
    var a := MovedLast(nodes, u);
    var b := MovedLast(nodes, v);
    LaterWriteWins(hash, a, u, n, i, key);
    LaterWriteWins(hash, b, v, n, j, key);
    hide Placement;
    assert [u][0] != [v][0];
  }

  /** The order of the node list changes some placement exactly when two of its nodes share a point. */
  lemma OrderIrrelevantIff(hash: Hash, nodes: seq<Node>, n: nat)
    ensures OrderMatters(hash, nodes, n) <==> !NoSharedPoint(hash, nodes, n)
  {
    hide Placement;
    if NoSharedPoint(hash, nodes, n) {
      forall nodes', key, count | multiset(nodes) == multiset(nodes')
        ensures Placement(hash, nodes, n, key, count) == Placement(hash, nodes', n, key, count)
      {
        OrderIrrelevant(hash, nodes, nodes', n, key, count);
      }
    } else {
      var u, v, i: nat, j: nat :| u in nodes && v in nodes && i < n && j < n &&
                                  hash(VirtualKey(u, i)) == hash(VirtualKey(v, j)) && u != v;
      SharedPointFollowsOrder(hash, nodes, u, v, n, i, j);
    }
  }
}
