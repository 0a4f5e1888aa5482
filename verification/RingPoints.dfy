/** Where the points of the ring come from, and which two nodes a key gets, in terms of the strings hashed. */
module RingPoints {
  import opened HashRing
  import opened RingProperties

  // The names that are hashed

  predicate Digits(s: string) {
    forall i :: 0 <= i < |s| ==> '0' <= s[i] <= '9'
  }

  /** The value of a numeral in base ten. */
  function ReadDecimal(s: string): int
    requires Digits(s)
  {
    if s == [] then 0 else 10 * ReadDecimal(s[..|s| - 1]) + (s[|s| - 1] as int - '0' as int)
  }

  lemma DigitReads(d: nat)
    requires d < 10
    ensures "0123456789"[d] as int == '0' as int + d
  {}

  /** `%d` writes the numeral of its argument, without leading zeros. */
  lemma {:induction false} DecimalReads(n: nat)
    ensures Digits(Decimal(n)) && ReadDecimal(Decimal(n)) == n
    ensures Decimal(n) != "" && (Decimal(n)[0] == '0' ==> n == 0)
  {
    DigitReads(n % 10);
    if n < 10 {
      assert Decimal(n)[..0] == "";
    } else {
      DecimalReads(n / 10);
      assert Decimal(n)[..|Decimal(n)| - 1] == Decimal(n / 10);
      assert Decimal(n)[0] == Decimal(n / 10)[0];
    }
  }

  /** The text before the last '#', and the text after it. */
  function BeforeLastHash(s: string): string
    requires '#' in s
  {
    if s[|s| - 1] == '#' then s[..|s| - 1] else BeforeLastHash(s[..|s| - 1])
  }

  function AfterLastHash(s: string): string
    requires '#' in s
  {
    if s[|s| - 1] == '#' then "" else AfterLastHash(s[..|s| - 1]) + [s[|s| - 1]]
  }

  lemma {:induction false} LastHash(a: string, b: string)
    requires '#' !in b
    ensures '#' in a + "#" + b && BeforeLastHash(a + "#" + b) == a && AfterLastHash(a + "#" + b) == b
  {
    var s := a + "#" + b;
    assert s[|a|] == '#';
    if b == "" {
      assert s[..|s| - 1] == a;
    } else {
      LastHash(a, b[..|b| - 1]);
      assert s[..|s| - 1] == a + "#" + b[..|b| - 1];
      assert b == b[..|b| - 1] + [b[|b| - 1]];
    }
  }

  /** Every virtual key is its node's URL, the last '#' in it, and the numeral of its index. */
  lemma VirtualKeyReads(node: Node, i: nat)
    ensures var s := VirtualKey(node, i);
            '#' in s && BeforeLastHash(s) == node.url && Digits(AfterLastHash(s)) && ReadDecimal(AfterLastHash(s)) == i
  {
    DecimalReads(i);
    LastHash(node.url, Decimal(i));
  }

  lemma VirtualKeysDiffer(u: Node, i: nat, v: Node, j: nat)
    requires VirtualKey(u, i) == VirtualKey(v, j)
    ensures u == v && i == j
  {
    hide VirtualKey;
    VirtualKeyReads(u, i);
    VirtualKeyReads(v, j);
  }

  // The points of a node

  /** The hash keeps the nodes' virtual keys apart. */
  ghost predicate NoCollision(hash: Hash, nodes: seq<Node>, n: nat) {
    forall u, v, i: nat, j: nat ::
      (u in nodes && v in nodes && i < n && j < n && hash(VirtualKey(u, i)) == hash(VirtualKey(v, j))) ==>
        VirtualKey(u, i) == VirtualKey(v, j)
  }

  function PointsOf(hash: Hash, u: Node, n: nat): set<Point> {
    if n == 0 then {} else PointsOf(hash, u, n - 1) + {hash(VirtualKey(u, n - 1))}
  }

  lemma {:induction false} PointsOfMembers(hash: Hash, u: Node, n: nat)
    ensures forall p :: p in PointsOf(hash, u, n) <==> exists i: nat :: i < n && p == hash(VirtualKey(u, i))
  {
    hide VirtualKey;
    if n > 0 {
      PointsOfMembers(hash, u, n - 1);
    }
  }

  lemma NewPoint(hash: Hash, nodes: seq<Node>, u: Node, m: nat, n: nat)
    requires u in nodes && NoCollision(hash, nodes, n) && m < n
    ensures hash(VirtualKey(u, m)) !in PointsOf(hash, u, m)
  {
    hide VirtualKey, PointsOf;
    PointsOfMembers(hash, u, m);
    var p := hash(VirtualKey(u, m));
    if p in PointsOf(hash, u, m) {
      var i: nat :| i < m && p == hash(VirtualKey(u, i));
      VirtualKeysDiffer(u, i, u, m);
    }
  }

  lemma {:induction false} PointsOfCount(hash: Hash, nodes: seq<Node>, u: Node, m: nat, n: nat)
    requires u in nodes && NoCollision(hash, nodes, n) && m <= n
    ensures |PointsOf(hash, u, m)| == m
  {
    hide VirtualKey, NoCollision;
    if m > 0 {
      PointsOfCount(hash, nodes, u, m - 1, n);
      NewPoint(hash, nodes, u, m - 1, n);
    }
  }

  lemma {:induction false} NodesWrite(hash: Hash, nodes: seq<Node>, u: Node, n: nat, i: nat)
    requires u in nodes && i < n
    ensures Write(hash(VirtualKey(u, i)), u) in Writes(hash, nodes, n)
  {
    var init, last := nodes[..|nodes| - 1], nodes[|nodes| - 1];
    if last == u {
      assert NodeWrites(hash, u, n)[i] == Write(hash(VirtualKey(u, i)), u);
      assert Write(hash(VirtualKey(u, i)), u) in NodeWrites(hash, u, n);
    } else {
      assert nodes == init + [last];
      NodesWrite(hash, init, u, n, i);
    }
    hide NodeWrites, VirtualKey;
  }

  lemma WrittenIsOwned(ws: seq<Write>, w: Write)
    requires w in ws
    ensures w.point in OwnerMap(ws)
  {
    var k :| 0 <= k < |ws| && ws[k] == w;
    assert Points(ws)[k] == w.point;
    OwnerMapPoints(ws);
  }

  lemma OwnPointOwned(hash: Hash, nodes: seq<Node>, n: nat, u: Node, i: nat)
    requires u in nodes && NoCollision(hash, nodes, n) && i < n
    ensures var owner, p := OwnerMap(Writes(hash, nodes, n)), hash(VirtualKey(u, i)); p in owner && owner[p] == u
  {
    var ws, p := Writes(hash, nodes, n), hash(VirtualKey(u, i));
    OwnerWrote(ws);
    WritesBy(hash, nodes, n);
    hide Writes, OwnerMap, VirtualKey;
    NodesWrite(hash, nodes, u, n, i);
    WrittenIsOwned(ws, Write(p, u));
    var v := OwnerMap(ws)[p];
    assert Write(p, v) in ws;
    var j :| 0 <= j < n && p == hash(VirtualKey(v, j));
    VirtualKeysDiffer(u, i, v, j);
  }

  /** Without collisions a node owns its own points and no others. */
  lemma OwnsItsPoints(hash: Hash, nodes: seq<Node>, n: nat, u: Node, p: Point)
    requires u in nodes && NoCollision(hash, nodes, n)
    ensures var owner := OwnerMap(Writes(hash, nodes, n));
            p in owner && owner[p] == u <==> exists i: nat :: i < n && p == hash(VirtualKey(u, i))
  {
    var ws := Writes(hash, nodes, n);
    OwnerWrote(ws);
    WritesBy(hash, nodes, n);
    hide Writes, OwnerMap, VirtualKey;
    if p in OwnerMap(ws) && OwnerMap(ws)[p] == u {
      assert Write(p, u) in ws;
    }
    if i: nat :| i < n && p == hash(VirtualKey(u, i)) {
      OwnPointOwned(hash, nodes, n, u, i);
    }
  }

  /** Without collisions every listed node owns exactly n points. */
  lemma EqualShares(hash: Hash, nodes: seq<Node>, n: nat, u: Node)
    requires u in nodes && NoCollision(hash, nodes, n)
    ensures var owner := OwnerMap(Writes(hash, nodes, n)); |set p | p in owner && owner[p] == u| == n
  {
    hide PointsOf, OwnerMap, Writes;
    var owner := OwnerMap(Writes(hash, nodes, n));
    PointsOfMembers(hash, u, n);
    forall p
      ensures p in owner && owner[p] == u <==> p in PointsOf(hash, u, n)
    {
      OwnsItsPoints(hash, nodes, n, u, p);
    }
    assert (set p | p in owner && owner[p] == u) == PointsOf(hash, u, n);
    PointsOfCount(hash, nodes, u, n, n);
  }

  // The two nodes of a key

  /** Going up from `t`, and on from the least point after the greatest, `p` is met before `q`. */
  predicate MetBefore(t: Point, p: Point, q: Point) {
    if p >= t then q < t || p < q else q < t && p < q
  }

  /** `primary` owns the first point met from `t`, and `replica` the first one met that is not the primary's. */
  ghost predicate NextOnRing(owner: map<Point, Node>, t: Point, primary: Node, replica: Node) {
    exists p, q ::
      && p in owner && q in owner && owner[p] == primary && owner[q] == replica && primary != replica
      && (forall x :: x in owner && x != p ==> MetBefore(t, p, x))
      && (forall x :: x in owner && MetBefore(t, x, q) ==> owner[x] == primary)
  }

  lemma WalkInOrder(keys: seq<Point>, t: Point, i: nat, j: nat)
    requires Sorted(keys) && i < j < |Walk(keys, t)|
    ensures !MetBefore(t, Walk(keys, t)[j], Walk(keys, t)[i])
  {
    WalkIsRotation(keys, t);
    var c := Cut(keys, t);
    assert forall k :: 0 <= k < |keys| ==> Rotate(keys, c)[k] == if k < |keys| - c then keys[c + k] else keys[k - (|keys| - c)];
  }

  lemma {:induction false} SecondOfDistinct(s: seq<Node>) returns (j: nat)
    requires |Distinct(s)| >= 2
    ensures 0 < j < |s| && s[j] == Distinct(s)[1] && Distinct(s)[1] != s[0] && forall i :: 0 <= i < j ==> s[i] == s[0]
  {
    var init, last := s[..|s| - 1], s[|s| - 1];
    assert s == init + [last];
    if |Distinct(init)| >= 2 {
      j := SecondOfDistinct(init);
    } else {
      j := |s| - 1;
      DistinctOnce(init);
      DistinctHead(init);
      OneDistinct(init);
    }
  }

  lemma OneDistinct(s: seq<Node>)
    requires s != [] && |Distinct(s)| < 2
    ensures Distinct(s) == [s[0]] && forall i :: 0 <= i < |s| ==> s[i] == s[0]
  {
    DistinctOnce(s);
    DistinctHead(s);
    forall i | 0 <= i < |s|
      ensures s[i] == s[0]
    {
      assert s[i] in Distinct(s);
    }
  }

  lemma WalkFacts(hash: Hash, nodes: seq<Node>, n: nat, t: Point) returns (walk: seq<Point>)
    ensures var ws := Writes(hash, nodes, n);
            && walk == Walk(Sort(Points(ws)), t)
            && (forall p :: p in walk <==> p in OwnerMap(ws))
            && (walk != [] ==> forall x :: x in walk && x != walk[0] ==> MetBefore(t, walk[0], x))
            && (forall i, j :: 0 <= i < j < |walk| ==> !MetBefore(t, walk[j], walk[i]))
  {
    var ws := Writes(hash, nodes, n);
    var keys := Sort(Points(ws));
    walk := Walk(keys, t);
    RingShape(hash, nodes, n);
    WalkMembers(keys, t);
    if keys != [] {
      WalkStart(keys, t);
    }
    forall i, j | 0 <= i < j < |walk|
      ensures !MetBefore(t, walk[j], walk[i])
    {
      WalkInOrder(keys, t, i, j);
    }
    hide Writes, Sort, Points, OwnerMap, Walk;
  }

  lemma MetAtIndex(t: Point, walk: seq<Point>, i: nat, j: nat)
    requires i < |walk| && j < |walk| && MetBefore(t, walk[i], walk[j])
    requires forall a, b :: 0 <= a < b < |walk| ==> !MetBefore(t, walk[b], walk[a])
    ensures i < j
  {}

  lemma SecondOnWalk(owner: map<Point, Node>, t: Point, walk: seq<Point>, j: nat)
    requires 0 < j < |walk| && (forall p :: p in walk <==> p in owner)
    requires forall x :: x in walk && x != walk[0] ==> MetBefore(t, walk[0], x)
    requires forall i, k :: 0 <= i < k < |walk| ==> !MetBefore(t, walk[k], walk[i])
    requires var s := Owners(walk, owner); s[j] != s[0] && forall i :: 0 <= i < j ==> s[i] == s[0]
    ensures NextOnRing(owner, t, Owners(walk, owner)[0], Owners(walk, owner)[j])
  {
    hide MetBefore;
    var p, q := walk[0], walk[j];
    assert p in walk && q in walk;
    forall x | x in owner && MetBefore(t, x, q)
      ensures owner[x] == owner[p]
    {
      var i :| 0 <= i < |walk| && walk[i] == x;
      MetAtIndex(t, walk, i, j);
      assert Owners(walk, owner)[i] == Owners(walk, owner)[0];
    }
    assert Owners(walk, owner)[0] == owner[p] && Owners(walk, owner)[j] == owner[q];
  }

  lemma SecondOfPreference(owner: map<Point, Node>, t: Point, walk: seq<Point>, placed: seq<Node>)
    requires (forall p :: p in walk <==> p in owner) && |placed| >= 2 && placed <= Distinct(Owners(walk, owner))
    requires walk != [] ==> forall x :: x in walk && x != walk[0] ==> MetBefore(t, walk[0], x)
    requires forall i, k :: 0 <= i < k < |walk| ==> !MetBefore(t, walk[k], walk[i])
    ensures NextOnRing(owner, t, placed[0], placed[1])
  {
    hide MetBefore, NextOnRing;
    var s := Owners(walk, owner);
    var j := SecondOfDistinct(s);
    DistinctHead(s);
    SecondOnWalk(owner, t, walk, j);
  }

  /** The first two nodes of a placement are the next two on the ring. */
  lemma PlacementIsNextOnRing(hash: Hash, nodes: seq<Node>, n: nat, key: string, count: int)
    requires |Placement(hash, nodes, n, key, count)| >= 2
    ensures var placed := Placement(hash, nodes, n, key, count);
            NextOnRing(OwnerMap(Writes(hash, nodes, n)), hash(key), placed[0], placed[1])
  {
    hide Writes, OwnerMap, Walk, Sort, Points, MetBefore, NextOnRing, Distinct, Owners;
    var walk := WalkFacts(hash, nodes, n, hash(key));
    SecondOfPreference(OwnerMap(Writes(hash, nodes, n)), hash(key), walk, Placement(hash, nodes, n, key, count));
  }
}
