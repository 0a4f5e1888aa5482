/** Where an object lives: the path object-api asks for and the file the storage node opens. */
module ObjectPaths {
  import opened GoStrings

  datatype PathError = EmptyKey | Traversal | NoRoot | EscapesRoot

  datatype PathResult = Accepted(path: string) | Rejected(error: PathError)

  predicate Proper(c: string) {
    c != "" && c != "." && c != ".." && '/' !in c
  }

  predicate AllProper(cs: seq<string>) {
    forall c :: c in cs ==> Proper(c)
  }

  /** Lexical cleaning of a rooted path, as a stack: ".." pops, and is dropped at the root. */
  function CleanComponents(parts: seq<string>): (stack: seq<string>)
    requires Separated(parts, '/')
    ensures AllProper(stack)
  {
    if parts == [] then []
    else
      var stack := CleanComponents(parts[..|parts| - 1]);
      var c := parts[|parts| - 1];
      if c == "" || c == "." then stack
      else if c == ".." then (if stack == [] then [] else stack[..|stack| - 1])
      else stack + [c]
  }

  function Components(path: string): (cs: seq<string>)
    ensures AllProper(cs)
  {
    CleanComponents(Split(path, '/'))
  }

  function Absolute(cs: seq<string>): string {
    "/" + Join(cs, '/')
  }

  /** `filepath.Clean` of a rooted path. */
  function Clean(path: string): string
    requires HasPrefix(path, "/")
  {
    Absolute(Components(path))
  }

  predicate CleanAbsolute(root: string) {
    HasPrefix(root, "/") && Clean(root) == root
  }

  function FilepathJoin(dir: string, name: string): string
    requires HasPrefix(dir, "/") && name != ""
  {
    Clean(dir + "/" + name)
  }

  function CommonPrefix(a: seq<string>, b: seq<string>): (n: nat)
    ensures n <= |a| && n <= |b|
  {
    if a != [] && b != [] && a[0] == b[0] then 1 + CommonPrefix(a[1..], b[1..]) else 0
  }

  function Ups(n: nat): (parts: seq<string>)
    ensures |parts| == n && Separated(parts, '/')
  {
    seq(n, _ => "..")
  }

  /** Climb out of the base, then descend. */
  function RelParts(b: seq<string>, t: seq<string>): (parts: seq<string>)
    requires AllProper(b) && AllProper(t)
    ensures Separated(parts, '/') && (parts != [] ==> parts[0] != "")
  {
    var n := CommonPrefix(b, t);
    var down := t[n..];
    assert forall c :: c in down ==> c in t && Proper(c);
    assert down != [] ==> down[0] in down;
    Ups(|b| - n) + down
  }

  /** `filepath.Rel` of two rooted paths. */
  function Rel(base: string, target: string): string
    requires HasPrefix(base, "/") && HasPrefix(target, "/")
  {
    var parts := RelParts(Components(base), Components(target));
    if parts == [] then "." else Join(parts, '/')
  }

  /** `Store.pathFor`. `absRoot` is what `filepath.Abs` of the root returned, `None` for an error. */
  function PathFor(absRoot: Option<string>, key: string): PathResult
    requires absRoot.Some? ==> CleanAbsolute(absRoot.value)
  {
    var trimmed := TrimSpace(key);
    if trimmed == "" then Rejected(EmptyKey)
    else
      var clean := TrimPrefix(Clean("/" + trimmed), "/");
      if clean == "" || clean == "." || HasPrefix(clean, "..") then Rejected(Traversal)
      else if absRoot.None? then Rejected(NoRoot)
      else
        var target := FilepathJoin(absRoot.value, clean);
        if HasPrefix(Rel(absRoot.value, target), "..") then Rejected(EscapesRoot)
        else Accepted(target)
  }

  /** `storagePath`: a single leading slash of the key is dropped. */
  function StoragePath(ownerID: string, objectKey: string): string {
    TrimSpace(ownerID) + "/" + TrimPrefix(TrimSpace(objectKey), "/")
  }

  // Lemmas about cleaning

  lemma {:induction false} CleanAppendsProper(parts: seq<string>, cs: seq<string>)
    requires Separated(parts, '/') && AllProper(cs)
    ensures Separated(parts + cs, '/') && CleanComponents(parts + cs) == CleanComponents(parts) + cs
  {
    if cs == [] {
      assert parts + cs == parts;
    } else {
      var init := cs[..|cs| - 1];
      assert AllProper(init) && Separated(parts + cs, '/');
      CleanAppendsProper(parts, init);
      assert (parts + cs)[..|parts + cs| - 1] == parts + init;
      assert Proper(cs[|cs| - 1]);
      assert cs == init + [cs[|cs| - 1]];
    }
  }

  /** Appending a joined list of proper components to any path appends the list. */
  lemma ComponentsExtend(path: string, cs: seq<string>)
    requires AllProper(cs) && cs != []
    ensures Components(path + "/" + Join(cs, '/')) == Components(path) + cs
  {
    SplitConcat(path, Join(cs, '/'), '/');
    SplitJoin(cs, '/');
    CleanAppendsProper(Split(path, '/'), cs);
  }

  lemma ComponentsOfAbsolute(cs: seq<string>)
    requires AllProper(cs)
    ensures Components(Absolute(cs)) == cs
  {
    if cs == [] {
      assert Components("/") == CleanComponents(["", ""]);
    } else {
      ComponentsExtend("", cs);
      assert Absolute(cs) == "" + "/" + Join(cs, '/');
      assert Components("") == CleanComponents([""]) == [];
    }
  }

  lemma LeadingSlashIgnored(path: string)
    ensures Components("/" + path) == Components(path)
  {
    SplitConcat("", path, '/');
    assert "" + "/" + path == "/" + path;
    DropEmptyHead(Split(path, '/'));
  }

  lemma {:induction false} DropEmptyHead(parts: seq<string>)
    requires Separated(parts, '/')
    ensures CleanComponents([""] + parts) == CleanComponents(parts)
  {
    if parts != [] {
      var init := parts[..|parts| - 1];
      DropEmptyHead(init);
      assert ([""] + parts)[..|parts|] == [""] + init;
    }
  }

  lemma JoinHead(cs: seq<string>)
    requires AllProper(cs) && cs != []
    ensures Join(cs, '/') != "" && Join(cs, '/') != "."
    ensures HasPrefix(Join(cs, '/'), "..") <==> HasPrefix(cs[0], "..")
  {
    assert Proper(cs[0]);
    var s := Join(cs, '/');
    assert cs[0] <= s;
    if |cs[0]| == 1 {
      assert cs[0] == [s[0]] && cs[0] != ".";
    } else {
      assert s[..2] == cs[0][..2];
    }
  }

  lemma {:induction false} CommonPrefixExtend(a: seq<string>, b: seq<string>)
    ensures CommonPrefix(a, a + b) == |a|
  {
    if a != [] {
      CommonPrefixExtend(a[1..], b);
      assert (a + b)[1..] == a[1..] + b;
    }
  }

  lemma Regrouped(a: seq<string>, b: seq<string>, c: seq<string>)
    ensures a + (b + c) == a + b + c
  {}

  lemma {:induction false} SameStack(a: seq<string>, a': seq<string>, b: seq<string>)
    requires Separated(a, '/') && Separated(a', '/') && Separated(b, '/') && CleanComponents(a) == CleanComponents(a')
    ensures Separated(a + b, '/') && Separated(a' + b, '/') && CleanComponents(a + b) == CleanComponents(a' + b)
  {
    hide CleanComponents;
    if b == [] {
      assert a + b == a && a' + b == a';
    } else {
      var init, last := b[..|b| - 1], b[|b| - 1];
      SameStack(a, a', init);
      assert b == init + [last];
      Regrouped(a, init, [last]);
      Regrouped(a', init, [last]);
      OneMoreComponent(a + init, last);
      OneMoreComponent(a' + init, last);
    }
  }

  lemma OneMoreComponent(a: seq<string>, c: string)
    requires Separated(a, '/') && '/' !in c
    ensures Separated(a + [c], '/')
    ensures var stack := CleanComponents(a);
            CleanComponents(a + [c]) ==
            if c == "" || c == "." then stack else if c == ".." then (if stack == [] then [] else stack[..|stack| - 1]) else stack + [c]
  {
    assert (a + [c])[..|a|] == a;
  }

  /**
   * The rules `filepath.Clean` documents for a rooted path: empty elements and "." go, a name goes with
   * the ".." after it, ".." at the root goes, and then nothing else does.
   */
  lemma CleanRules(a: seq<string>, x: string, b: seq<string>)
    requires Separated(a, '/') && Separated(b, '/') && Proper(x)
    ensures Separated(a + [""] + b, '/') && CleanComponents(a + [""] + b) == CleanComponents(a + b)
    ensures Separated(a + ["."] + b, '/') && CleanComponents(a + ["."] + b) == CleanComponents(a + b)
    ensures Separated(a + [x] + [".."] + b, '/') && CleanComponents(a + [x] + [".."] + b) == CleanComponents(a + b)
    ensures Separated([".."] + b, '/') && CleanComponents([".."] + b) == CleanComponents(b)
    ensures AllProper(a) ==> CleanComponents(a) == a
  {
    hide CleanComponents;
    OneMoreComponent(a, "");
    OneMoreComponent(a, ".");
    OneMoreComponent(a, x);
    OneMoreComponent(a + [x], "..");
    SameStack(a + [""], a, b);
    SameStack(a + ["."], a, b);
    SameStack(a + [x] + [".."], a, b);
    NothingCleaned();
    OneMoreComponent([], "..");
    assert [] + [".."] == [".."] && [] + b == b;
    SameStack([".."], [], b);
    if AllProper(a) {
      CleanAppendsProper([], a);
      assert [] + a == a;
    }
  }

  lemma NothingCleaned()
    ensures CleanComponents([]) == []
  {}

  lemma {:induction false} CommonPrefixIsShared(a: seq<string>, b: seq<string>)
    ensures var n := CommonPrefix(a, b); a[..n] == b[..n] && (n < |a| && n < |b| ==> a[n] != b[n])
  {
    if a != [] && b != [] && a[0] == b[0] {
      CommonPrefixIsShared(a[1..], b[1..]);
      var n := CommonPrefix(a[1..], b[1..]);
      assert a[..n + 1] == [a[0]] + a[1..][..n];
      assert b[..n + 1] == [b[0]] + b[1..][..n];
    }
  }

  lemma {:induction false} ClimbOut(base: seq<string>, n: nat)
    requires AllProper(base) && n <= |base|
    ensures Separated(base + Ups(|base| - n), '/') && CleanComponents(base + Ups(|base| - n)) == base[..n]
    decreases |base| - n
  {
    if n == |base| {
      assert base + Ups(0) == base && base[..n] == base;
      CleanAppendsProper([], base);
      assert [] + base == base;
      NothingCleaned();
    } else {
      ClimbOut(base, n + 1);
      var some := base + Ups(|base| - n - 1);
      assert base + Ups(|base| - n) == some + [".."];
      OneMoreComponent(some, "..");
      assert base[..n + 1][..n] == base[..n];
    }
    hide CleanComponents;
  }

  lemma RelLeadsBack(b: seq<string>, t: seq<string>)
    requires AllProper(b) && AllProper(t)
    ensures var n := CommonPrefix(b, t);
            Separated(b + (Ups(|b| - n) + t[n..]), '/') && CleanComponents(b + (Ups(|b| - n) + t[n..])) == t
  {
    hide CleanComponents, Separated, AllProper, CommonPrefix, Ups;
    var n := CommonPrefix(b, t);
    CommonPrefixIsShared(b, t);
    ClimbOut(b, n);
    ProperTail(t, n);
    CleanAppendsProper(b + Ups(|b| - n), t[n..]);
    Regrouped(b, Ups(|b| - n), t[n..]);
  }

  lemma ProperTail(t: seq<string>, n: nat)
    requires n <= |t| && AllProper(t)
    ensures AllProper(t[n..]) && t == t[..n] + t[n..]
  {}

  lemma ProperStays(a: seq<string>)
    requires AllProper(a)
    ensures Separated(a, '/') && CleanComponents(a) == a
  {
    CleanAppendsProper([], a);
    assert [] + a == a;
    NothingCleaned();
  }

  lemma JoinedRel(base: string, parts: seq<string>)
    requires parts != [] && Separated(parts, '/') && parts[0] != ""
    ensures Join(parts, '/') != "" && Split(base + "/" + Join(parts, '/'), '/') == Split(base, '/') + parts
  {
    SplitConcat(base, Join(parts, '/'), '/');
    SplitJoin(parts, '/');
    assert parts[0] <= Join(parts, '/');
  }

  lemma DotLeadsNowhere(base: string)
    ensures Components(base + "/" + ".") == Components(base)
  {
    SplitConcat(base, ".", '/');
    SplitSingle(".", '/');
    OneMoreComponent(Split(base, '/'), ".");
  }

  lemma RelStaysOrJoins(base: string, parts: seq<string>)
    requires Separated(parts, '/') && (parts != [] ==> parts[0] != "")
    ensures var rel := if parts == [] then "." else Join(parts, '/');
            rel != "" && Separated(Components(base) + parts, '/') && Components(base + "/" + rel) == CleanComponents(Components(base) + parts)
  {
    hide CleanComponents, Join, Split;
    ProperStays(Components(base));
    if parts == [] {
      DotLeadsNowhere(base);
      assert Components(base) + parts == Components(base);
    } else {
      JoinedRel(base, parts);
      SameStack(Split(base, '/'), Components(base), parts);
    }
  }

  /** What `filepath.Rel` promises: joined to the base, the result leads to the target. */
  lemma RelJoinsToTarget(base: string, target: string)
    requires HasPrefix(base, "/") && HasPrefix(target, "/")
    ensures Rel(base, target) != "" && FilepathJoin(base, Rel(base, target)) == Clean(target)
  {
    hide CleanComponents, Join, Split, CommonPrefix, Components, Absolute;
    var b, t := Components(base), Components(target);
    RelLeadsBack(b, t);
    RelStaysOrJoins(base, RelParts(b, t));
  }

  // Main results

  /**
   * What `pathFor` does with any key: it accepts exactly the keys whose cleaned component list is
   * non-empty and does not start with "..", and the file is the root followed by that list. The
   * second check, on `filepath.Rel`, never rejects what the first one let through.
   */
  lemma PathForDecides(root: string, key: string)
    requires CleanAbsolute(root)
    ensures var cs := Components(TrimSpace(key));
            PathFor(Some(root), key) ==
            if TrimSpace(key) == "" then Rejected(EmptyKey)
            else if cs == [] || HasPrefix(cs[0], "..") then Rejected(Traversal)
            else Accepted(Absolute(Components(root) + cs))
  {
    var trimmed := TrimSpace(key);
    var cs := Components(trimmed);
    LeadingSlashIgnored(trimmed);
    assert TrimPrefix(Absolute(cs), "/") == Join(cs, '/');
    if trimmed != "" && cs != [] {
      JoinHead(cs);
      if !HasPrefix(cs[0], "..") {
        var target := FilepathJoin(root, Join(cs, '/'));
        ComponentsExtend(root, cs);
        ComponentsOfAbsolute(Components(root) + cs);
        CommonPrefixExtend(Components(root), cs);
        assert (Components(root) + cs)[|Components(root)|..] == cs;
        assert Rel(root, target) == Join(cs, '/') by {
          assert Ups(0) + cs == cs;
        }
      }
    }
  }

  /** Containment: an accepted path is the root followed by at least one proper component. */
  lemma AcceptedPathStaysInside(root: string, key: string)
    requires CleanAbsolute(root) && PathFor(Some(root), key).Accepted?
    ensures exists cs :: cs != [] && AllProper(cs) &&
              PathFor(Some(root), key).path == Absolute(Components(root) + cs) &&
              Components(PathFor(Some(root), key).path) == Components(root) + cs
  {
    PathForDecides(root, key);
    var cs := Components(TrimSpace(key));
    ComponentsOfAbsolute(Components(root) + cs);
    assert cs != [] && AllProper(cs);
  }

  /** Two accepted keys open the same file exactly when their cleaned component lists agree. */
  lemma SharedFileIff(root: string, key: string, key': string)
    requires CleanAbsolute(root)
    requires PathFor(Some(root), key).Accepted? && PathFor(Some(root), key').Accepted?
    ensures PathFor(Some(root), key) == PathFor(Some(root), key') <==>
            Components(TrimSpace(key)) == Components(TrimSpace(key'))
  {
    PathForDecides(root, key);
    PathForDecides(root, key');
    var r, cs, cs' := Components(root), Components(TrimSpace(key)), Components(TrimSpace(key'));
    ComponentsOfAbsolute(r + cs);
    ComponentsOfAbsolute(r + cs');
    assert (r + cs)[|r|..] == cs && (r + cs')[|r|..] == cs';
  }

  /** Without an absolute root every key that is well formed is refused for that. */
  lemma NoRootNoPath(root: string, key: string)
    requires CleanAbsolute(root)
    ensures PathFor(None, key) ==
            if PathFor(Some(root), key).Accepted? then Rejected(NoRoot) else PathFor(Some(root), key)
  {
    PathForDecides(root, key);
    hide FilepathJoin, Rel, TrimSpace;
    LeadingSlashIgnored(TrimSpace(key));
    var cs := Components(TrimSpace(key));
    assert TrimPrefix(Absolute(cs), "/") == Join(cs, '/');
    if cs != [] {
      JoinHead(cs);
    }
  }

  /** Spaces around owner and key, and one slash before the key, make no difference to the storage path. */
  lemma StoragePathTrims(ownerID: string, objectKey: string)
    ensures StoragePath(ownerID, objectKey) == StoragePath(TrimSpace(ownerID), TrimSpace(objectKey))
    ensures !HasPrefix(TrimSpace(objectKey), "/") ==>
            StoragePath(ownerID, objectKey) == TrimSpace(ownerID) + "/" + TrimSpace(objectKey)
  {
    TrimSpaceTwice(ownerID);
    TrimSpaceTwice(objectKey);
    hide TrimSpace;
  }

  // Owners and keys the two services agree on

  datatype RawKey = RawKey(owner: string, key: string)

  predicate CanonicalOwner(owner: string) {
    Proper(owner) && TrimSpace(owner) == owner && !HasPrefix(owner, "..")
  }

  predicate CanonicalKey(key: string) {
    TrimSpace(key) == key && AllProper(Split(key, '/'))
  }

  predicate Canonical(k: RawKey) {
    CanonicalOwner(k.owner) && CanonicalKey(k.key)
  }

  lemma PlainIsCanonical(owner: string, key: string)
    requires CanonicalOwner(owner) && Proper(key) && TrimSpace(key) == key
    ensures Canonical(RawKey(owner, key))
  {
    SplitSingle(key, '/');
  }

  lemma SampleIsCanonical()
    ensures Canonical(RawKey("o", "k"))
  {
    hide Canonical, Split;
    PlainIsCanonical("o", "k");
  }

  lemma CanonicalKeyShape(key: string)
    requires CanonicalKey(key)
    ensures key != "" && key[0] != '/' && !HasPrefix(key, "/")
  {
    var parts := Split(key, '/');
    assert Proper(parts[0]);
  }

  lemma CanonicalStoragePath(k: RawKey)
    requires Canonical(k)
    ensures StoragePath(k.owner, k.key) == k.owner + "/" + k.key
    ensures TrimSpace(k.owner + "/" + k.key) == k.owner + "/" + k.key
    ensures Components(k.owner + "/" + k.key) == [k.owner] + Split(k.key, '/')
  {
    CanonicalKeyShape(k.key);
    var path := k.owner + "/" + k.key;
    assert path[0] == k.owner[0] && path[|path| - 1] == k.key[|k.key| - 1];
    JoinSplit(k.key, '/');
    ComponentsExtend(k.owner, Split(k.key, '/'));
    SplitSingle(k.owner, '/');
    CleanAppendsProper([], [k.owner]);
    assert [] + [k.owner] == [k.owner];
  }

  /** End to end: canonical objects are accepted, below root/owner, and never share a file. */
  lemma CanonicalFile(root: string, k: RawKey)
    requires CleanAbsolute(root) && Canonical(k)
    ensures PathFor(Some(root), StoragePath(k.owner, k.key)) ==
            Accepted(Absolute(Components(root) + [k.owner] + Split(k.key, '/')))
  {
    CanonicalStoragePath(k);
    PathForDecides(root, StoragePath(k.owner, k.key));
    assert Components(root) + ([k.owner] + Split(k.key, '/')) == Components(root) + [k.owner] + Split(k.key, '/');
  }

  lemma CanonicalFilesDistinct(root: string, k: RawKey, k': RawKey)
    requires CleanAbsolute(root) && Canonical(k) && Canonical(k') && k != k'
    ensures PathFor(Some(root), StoragePath(k.owner, k.key)) != PathFor(Some(root), StoragePath(k'.owner, k'.key))
  {
    CanonicalFile(root, k);
    CanonicalFile(root, k');
    SharedFileIff(root, StoragePath(k.owner, k.key), StoragePath(k'.owner, k'.key));
    CanonicalStoragePath(k);
    CanonicalStoragePath(k');
    JoinSplit(k.key, '/');
    JoinSplit(k'.key, '/');
    var a, b := [k.owner] + Split(k.key, '/'), [k'.owner] + Split(k'.key, '/');
    assert a[0] == k.owner && b[0] == k'.owner;
    assert a[1..] == Split(k.key, '/') && b[1..] == Split(k'.key, '/');
  }

  /** The directory under which a node keeps the owners' directories, with its slash. */
  function Base(root: string): string {
    if Components(root) == [] then "/" else Absolute(Components(root)) + "/"
  }

  lemma BaseIsRoot(root: string)
    requires CleanAbsolute(root)
    ensures Base(root) == if root == "/" then "/" else root + "/"
  {
    hide Components;
    var cs := Components(root);
    if cs != [] {
      assert Proper(cs[0]);
      assert cs[0] <= Join(cs, '/');
      assert root[1..] == Join(cs, '/');
    }
  }

  lemma JoinOne(part: string)
    ensures Join([part], '/') == part
  {}

  lemma Regroup(a: string, b: string)
    ensures "/" + (a + ['/'] + b) == "/" + a + "/" + b
  {}

  lemma JoinOwnerKey(owner: string, parts: seq<string>)
    requires parts != []
    ensures Join([owner] + parts, '/') == owner + "/" + Join(parts, '/')
  {
    hide Join;
    JoinConcat([owner], parts, '/');
    JoinOne(owner);
  }

  lemma AbsoluteOwnerKey(r: seq<string>, owner: string, parts: seq<string>)
    requires parts != []
    ensures Absolute(r + [owner] + parts) == (if r == [] then "/" else Absolute(r) + "/") + (owner + "/" + Join(parts, '/'))
  {
    hide Join;
    JoinOwnerKey(owner, parts);
    assert r + [owner] + parts == r + ([owner] + parts);
    if r == [] {
      assert r + ([owner] + parts) == [owner] + parts;
    } else {
      JoinConcat(r, [owner] + parts, '/');
      Regroup(Join(r, '/'), Join([owner] + parts, '/'));
    }
  }

  /** The file of a canonical object, spelt out. */
  lemma CanonicalPath(root: string, k: RawKey)
    requires CleanAbsolute(root) && Canonical(k)
    ensures PathFor(Some(root), StoragePath(k.owner, k.key)) == Accepted(Base(root) + (k.owner + "/" + k.key))
  {
    hide PathFor, StoragePath, Components, Split, Join, Absolute, TrimSpace;
    CanonicalFile(root, k);
    JoinSplit(k.key, '/');
    AbsoluteOwnerKey(Components(root), k.owner, Split(k.key, '/'));
  }

  /** An object whose key goes on where the other's ends, after a slash. */
  predicate Extends(k': RawKey, k: RawKey) {
    k'.owner == k.owner && HasPrefix(k'.key, k.key + "/")
  }

  lemma SamePrefixDrops(base: string, a: string, b: string)
    ensures HasPrefix(base + a, base + b) <==> HasPrefix(a, b)
  {
    if |b| <= |a| {
      assert (base + a)[..|base + b|] == base + a[..|b|];
      assert base + a[..|b|] == base + b ==> (base + a[..|b|])[|base|..] == (base + b)[|base|..];
    }
  }

  lemma FirstPart(o: string, rest: string)
    requires '/' !in o
    ensures Split(o + "/" + rest, '/')[0] == o
  {
    SplitConcat(o, rest, '/');
    SplitSingle(o, '/');
  }

  lemma SameOwner(o: string, key: string, o': string, key': string)
    requires '/' !in o && '/' !in o' && HasPrefix(o' + "/" + key', o + "/" + key + "/")
    ensures o == o'
  {
    var s, t := o' + "/" + key', o + "/" + key + "/";
    var rest := key + "/" + s[|t|..];
    assert s == t + s[|t|..];
    assert t + s[|t|..] == o + "/" + rest;
    FirstPart(o, rest);
    FirstPart(o', key');
  }

  lemma OwnersBeforeSlash(o: string, key: string, o': string, key': string)
    requires '/' !in o && '/' !in o'
    ensures HasPrefix(o' + "/" + key', o + "/" + key + "/") <==> o == o' && HasPrefix(key', key + "/")
  {
    if HasPrefix(o' + "/" + key', o + "/" + key + "/") {
      SameOwner(o, key, o', key');
    }
    if o == o' {
      SamePrefixDrops(o + "/", key', key + "/");
      assert o + "/" + (key + "/") == o + "/" + key + "/";
    }
  }

  /** The files that make a canonical object's path a directory are those of the objects that extend it. */
  lemma LiesBelowIff(root: string, k: RawKey, k': RawKey)
    requires CleanAbsolute(root) && Canonical(k) && Canonical(k')
    ensures PathFor(Some(root), StoragePath(k.owner, k.key)).Accepted? && PathFor(Some(root), StoragePath(k'.owner, k'.key)).Accepted?
    ensures HasPrefix(PathFor(Some(root), StoragePath(k'.owner, k'.key)).path, PathFor(Some(root), StoragePath(k.owner, k.key)).path + "/")
            <==> Extends(k', k)
  {
    hide PathFor, StoragePath, Components, Base, HasPrefix, TrimSpace, Split;
    CanonicalPath(root, k);
    CanonicalPath(root, k');
    assert Base(root) + (k.owner + "/" + k.key) + "/" == Base(root) + (k.owner + "/" + k.key + "/");
    SamePrefixDrops(Base(root), k'.owner + "/" + k'.key, k.owner + "/" + k.key + "/");
    OwnersBeforeSlash(k.owner, k.key, k'.owner, k'.key);
  }

  lemma SlashIsNoSpace()
    ensures !IsSpace('/')
  {}

  /**
   * Outside the canonical keys injectivity fails: a key and the same key with a leading slash are
   * two metadata rows that share one file on every node.
   */
  lemma LeadingSlashSharesFile(root: string, k: RawKey)
    requires CleanAbsolute(root) && Canonical(k)
    ensures RawKey(k.owner, "/" + k.key) != k
    ensures PathFor(Some(root), StoragePath(k.owner, "/" + k.key)) == PathFor(Some(root), StoragePath(k.owner, k.key))
  {
    hide PathFor, TrimSpace, IsSpace, Components, Split;
    CanonicalKeyShape(k.key);
    SlashIsNoSpace();
    var slashed := "/" + k.key;
    assert slashed[0] == '/' && slashed[|slashed| - 1] == k.key[|k.key| - 1];
    assert TrimPrefix(slashed, "/") == k.key;
    assert slashed != k.key;
  }
}
