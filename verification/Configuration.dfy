/** The node list object-api is started with, and what it means for every run after that. */
module Configuration {
  import opened GoStrings
  import opened ObjectPaths
  import opened HashRing
  import opened RingProperties
  import opened ObjectService
  import opened StoreMachine
  import opened StoreRefinement

  /** One entry of the comma-separated list: blank entries are skipped, a scheme is added. */
  function ParsedNode(part: string): Option<Node> {
    var v := TrimSpace(part);
    if v == "" then None
    else if HasPrefix(v, "http://") || HasPrefix(v, "https://") then Some(Node(v))
    else Some(Node("http://" + v))
  }

  function ParsedNodes(parts: seq<string>): seq<Node> {
    if parts == [] then []
    else
      var nodes, node := ParsedNodes(parts[..|parts| - 1]), ParsedNode(parts[|parts| - 1]);
      if node.Some? then nodes + [node.value] else nodes
  }

  lemma ParsedNodesOne(parts: seq<string>, part: string)
    ensures ParsedNodes(parts + [part]) ==
            if ParsedNode(part).Some? then ParsedNodes(parts) + [ParsedNode(part).value] else ParsedNodes(parts)
  {
    assert (parts + [part])[..|parts|] == parts;
  }

  lemma ParsedNodeSpelt(part: string)
    ensures ParsedNode(part).None? <==> TrimSpace(part) == ""
    ensures ParsedNode(part).Some? ==>
              var url := ParsedNode(part).value.url;
              && (HasPrefix(url, "http://") || HasPrefix(url, "https://"))
              && (url == TrimSpace(part) || url == "http://" + TrimSpace(part))
              && (HasPrefix(TrimSpace(part), "http://") || HasPrefix(TrimSpace(part), "https://") ==> url == TrimSpace(part))
  {
    hide TrimSpace;
  }

  /** Every parsed node has a scheme. */
  lemma {:induction false} ParsedNodesHaveScheme(parts: seq<string>)
    ensures forall n :: n in ParsedNodes(parts) ==> HasPrefix(n.url, "http://") || HasPrefix(n.url, "https://")
  {
    hide HasPrefix, ParsedNode;
    if parts != [] {
      ParsedNodesHaveScheme(parts[..|parts| - 1]);
      ParsedNodeSpelt(parts[|parts| - 1]);
    }
  }

  method ParseNodeList(raw: string) returns (nodes: seq<Node>)
    ensures nodes == ParsedNodes(Split(raw, ','))
    ensures forall n :: n in nodes ==> HasPrefix(n.url, "http://") || HasPrefix(n.url, "https://")
  {
    ParsedNodesHaveScheme(Split(raw, ','));
    hide Split, TrimSpace, HasPrefix;
    var parts := Split(raw, ',');
    nodes := [];
    for i := 0 to |parts|
      invariant nodes == ParsedNodes(parts[..i])
    {
      ParsedNodesOne(parts[..i], parts[i]);
      assert parts[..i + 1] == parts[..i] + [parts[i]];
      var v := TrimSpace(parts[i]);
      if v != "" {
        if !HasPrefix(v, "http://") && !HasPrefix(v, "https://") {
          v := "http://" + v;
        }
        nodes := nodes + [Node(v)];
      }
    }
    assert parts[..|parts|] == parts;
  }

  lemma {:induction false} ParsedNodesNamed(parts: seq<string>)
    ensures Node("") !in ParsedNodes(parts)
  {
    if parts != [] {
      ParsedNodesNamed(parts[..|parts| - 1]);
    }
  }

  /**
   * Failover is sound for every configuration string: whatever runs before a download, and whatever
   * the two nodes do during it, it never reports success without a stream.
   */
  lemma ConfiguredDownloadsStream(raw: string, d: Deployment, es: seq<Event>, s2: State, s3: State, k: ObjectKey,
                                  primary: Reply, replica: Reply)
    requires d.nodes == ParsedNodes(Split(raw, ','))
    ensures var result := DownloadAcross(d, After(d, es), s2, s3, k, primary, replica);
            result.Streamed? ==> result.stream.Some?
  {
    ParsedNodesNamed(Split(raw, ','));
    NoEmptySuccess(d, es, s2, s3, k, primary, replica);
  }

  lemma NothingYet(d: Deployment, k: ObjectKey)
    ensures ViewOf(After(d, []), k) == View(None, None, None)
  {}

  /**
   * `New` counts list entries, which guarantees no placement. Some run gives a key a row exactly when
   * two points of the ring have different owners, and then so does every key: two nodes listed do not
   * suffice, neither when they are one node nor when one takes all the other's points.
   */
  lemma SomeUploadSucceedsIff(d: Deployment, k: ObjectKey)
    requires d.factor >= 2
    ensures (exists es :: ViewOf(After(d, es), k).row.Some?) <==> TwoOwners(d.hash, d.nodes, 50)
  {
    TwoNodesIff(d.hash, d.nodes, 50, StoragePath(k.owner, k.key), d.factor);
    hide Placement, TwoOwners, After, ViewOf;
    if |Targets(d, k)| >= 2 {
      NothingYet(d, k);
      GoodUploadAfterRun(d, [], k, "", []);
    }
    if es :| ViewOf(After(d, es), k).row.Some? {
      RunsKeepInv(d, es);
      assert KeyInv(d, After(d, es).files, k, ViewOf(After(d, es), k));
    }
  }

  /** In particular one node listed twice starts but places nothing. */
  lemma RepeatedNodePlacesNothing(d: Deployment, k: ObjectKey, x: Node, es: seq<Event>)
    requires forall n :: n in d.nodes ==> n == x
    ensures |Targets(d, k)| < 2 && ViewOf(After(d, es), k).row.None?
  {
    TargetsDiffer(d, k);
    NoRepeatsFit(Targets(d, k), [x]);
    RunsKeepInv(d, es);
    assert KeyInv(d, After(d, es).files, k, ViewOf(After(d, es), k));
  }
}
