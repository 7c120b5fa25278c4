/** The node -> relative-path map of a wiki-tree download (buildPaths in
    cmd/download.go) and the output directory chosen for each document. The
    nodes are what GetAllChildNodes returned for the root: every node's
    parent is the root or an earlier node that has children. */
module PathMap {
  import opened Strs
  import opened Paths
  import opened Sanitize
  import opened Client
  import opened Tree

  /** The first index of a node with token `t`, or -1. */
  function IndexOf(nodes: seq<Document>, t: string): (r: int)
    ensures -1 <= r < |nodes|
    ensures r == -1 <==> forall i :: 0 <= i < |nodes| ==> nodes[i].nodeToken != t
    ensures r >= 0 ==> nodes[r].nodeToken == t && forall i :: 0 <= i < r ==> nodes[i].nodeToken != t
    decreases |nodes|
  {
    if |nodes| == 0 then -1
    else if nodes[0].nodeToken == t then 0
    else
      var r := IndexOf(nodes[1..], t);
      if r == -1 then -1 else r + 1
  }

  predicate DistinctTokens(nodes: seq<Document>) {
    forall i, j :: 0 <= i < j < |nodes| ==> nodes[i].nodeToken != nodes[j].nodeToken
  }

  /** What the walk below `root` yields on a consistent remote: distinct
      node tokens, none of them the root's, each parent listed before its
      children. */
  ghost predicate WellFormed(nodes: seq<Document>, root: string) {
    DistinctTokens(nodes)
    && (forall i :: 0 <= i < |nodes| ==> nodes[i].nodeToken != root)
    && Parented(nodes, root)
  }

  /** The parent of a node below the root is an earlier node that has
      children. */
  lemma ParentIndex(nodes: seq<Document>, root: string, i: int)
    requires WellFormed(nodes, root) && 0 <= i < |nodes| && nodes[i].parentToken != root
    ensures 0 <= IndexOf(nodes, nodes[i].parentToken) < i
    ensures nodes[IndexOf(nodes, nodes[i].parentToken)].hasChild
  {
    assert ParentBefore(nodes, i);
    var t := nodes[i].parentToken;
    var j :| 0 <= j < i && nodes[j].hasChild && nodes[j].nodeToken == t;
    FirstOfDistinct(nodes, j);
  }

  /** With distinct tokens, a node is the first with its token. */
  lemma FirstOfDistinct(nodes: seq<Document>, j: int)
    requires DistinctTokens(nodes) && 0 <= j < |nodes|
    ensures IndexOf(nodes, nodes[j].nodeToken) == j
  {
    var r := IndexOf(nodes, nodes[j].nodeToken);
    assert r != -1;
    assert r <= j;
  }

  /** The relative path of the i-th node: its sanitized name joined to the
      path of its parent, "." for the root. */
  ghost function PathOf(nodes: seq<Document>, root: string, i: int): (p: string)
    requires WellFormed(nodes, root) && 0 <= i < |nodes|
    decreases i
  {
    var n := nodes[i];
    if n.parentToken == root then Join(".", Sanitized(n.name))
    else
      ParentIndex(nodes, root, i);
      Join(PathOf(nodes, root, IndexOf(nodes, n.parentToken)), Sanitized(n.name))
  }

  /** The path buildPaths gives a token: "." for the root, PathOf for a node. */
  ghost function Expected(nodes: seq<Document>, root: string, k: string): string
    requires WellFormed(nodes, root)
  {
    if k == root then "."
    else if IndexOf(nodes, k) >= 0 then PathOf(nodes, root, IndexOf(nodes, k))
    else ""
  }

  /** Every entry of the map is the root's or a node's, with its expected
      path. */
  ghost predicate Sound(nodes: seq<Document>, root: string, m: map<string, string>)
    requires WellFormed(nodes, root)
  {
    forall k :: k in m ==> (k == root || IndexOf(nodes, k) >= 0) && m[k] == Expected(nodes, root, k)
  }

  /** Node m lies below `p`: its parent is `p`, or its parent is an earlier
      node that has children and lies below `p`. */
  ghost predicate Under(nodes: seq<Document>, root: string, m: int, p: string)
    requires 0 <= m < |nodes|
    decreases m
  {
    var parent := nodes[m].parentToken;
    parent == p ||
    (parent != root &&
     var j := IndexOf(nodes, parent);
     0 <= j < m && nodes[j].hasChild && Under(nodes, root, j, p))
  }

  /** What lies below `p` lies below one of its children that has children,
      or is one of its children. */
  lemma {:induction false} UnderSplit(nodes: seq<Document>, root: string, m: int, p: string)
    requires 0 <= m < |nodes| && Under(nodes, root, m, p)
    ensures exists c ::
              0 <= c < |nodes| && nodes[c].parentToken == p &&
              (c == m || (nodes[c].hasChild && Under(nodes, root, m, nodes[c].nodeToken)))
    decreases m
  {
    var parent := nodes[m].parentToken;
    if parent != p {
      var j := IndexOf(nodes, parent);
      UnderSplit(nodes, root, j, p);
      var c :| 0 <= c < |nodes| && nodes[c].parentToken == p &&
        (c == j || (nodes[c].hasChild && Under(nodes, root, j, nodes[c].nodeToken)));
      if c == j {
        assert Under(nodes, root, m, nodes[c].nodeToken);
      } else {
        assert Under(nodes, root, m, nodes[c].nodeToken);
      }
    }
  }

  /** Every node lies below the root. */
  lemma {:induction false} AllUnderRoot(nodes: seq<Document>, root: string, m: int)
    requires WellFormed(nodes, root) && 0 <= m < |nodes|
    ensures Under(nodes, root, m, root)
    decreases m
  {
    if nodes[m].parentToken != root {
      ParentIndex(nodes, root, m);
      AllUnderRoot(nodes, root, IndexOf(nodes, nodes[m].parentToken));
    }
  }

  /** Every node below `t` is mapped. */
  ghost predicate Covered(nodes: seq<Document>, root: string, t: string, m: map<string, string>) {
    forall x :: 0 <= x < |nodes| && Under(nodes, root, x, t) ==> nodes[x].nodeToken in m
  }

  /** The first i nodes whose parent is `p` are mapped, with everything below
      those that have children. */
  ghost predicate Done(nodes: seq<Document>, root: string, p: string, i: int, m: map<string, string>)
    requires 0 <= i <= |nodes|
  {
    forall c :: 0 <= c < i && nodes[c].parentToken == p ==>
      nodes[c].nodeToken in m && (nodes[c].hasChild ==> Covered(nodes, root, nodes[c].nodeToken, m))
  }

  lemma DoneMono(nodes: seq<Document>, root: string, p: string, i: int, m: map<string, string>, m': map<string, string>)
    requires 0 <= i <= |nodes| && Done(nodes, root, p, i, m) && m.Keys <= m'.Keys
    ensures Done(nodes, root, p, i, m')
  {
  }

  lemma SoundUpdate(nodes: seq<Document>, root: string, m: map<string, string>, k: string, v: string)
    requires WellFormed(nodes, root) && Sound(nodes, root, m)
    requires (k == root || IndexOf(nodes, k) >= 0) && v == Expected(nodes, root, k)
    ensures Sound(nodes, root, m[k := v])
  {
  }

  lemma DoneStep(nodes: seq<Document>, root: string, p: string, i: int, m: map<string, string>)
    requires 0 <= i < |nodes| && Done(nodes, root, p, i, m)
    requires nodes[i].parentToken == p ==>
      nodes[i].nodeToken in m && (nodes[i].hasChild ==> Covered(nodes, root, nodes[i].nodeToken, m))
    ensures Done(nodes, root, p, i + 1, m)
  {
  }

  /** When the first |nodes| children are done, everything below `p` is
      mapped. */
  lemma DoneCovers(nodes: seq<Document>, root: string, p: string, m: map<string, string>)
    requires Done(nodes, root, p, |nodes|, m)
    ensures Covered(nodes, root, p, m)
  {
    forall x | 0 <= x < |nodes| && Under(nodes, root, x, p)
      ensures nodes[x].nodeToken in m
    {
      UnderSplit(nodes, root, x, p);
    }
  }

  /** The closure of downloadWikiChildren that builds `pathMap`. */
  class PathBuilder {
    var pathMap: map<string, string>

    constructor(root: string)
      ensures pathMap == map[root := "."]
    {
      pathMap := map[root := "."];
    }

    /** buildPaths(parentToken, parentPath): maps every node whose parent is
        `parentToken` to its sanitized name joined to `parentPath`, and
        recurses into those that have children. */
    method BuildPaths(nodes: seq<Document>, ghost root: string, parentToken: string, parentPath: string)
      requires WellFormed(nodes, root)
      requires parentToken == root || IndexOf(nodes, parentToken) >= 0
      requires parentPath == Expected(nodes, root, parentToken)
      requires Sound(nodes, root, pathMap)
      modifies this
      ensures Sound(nodes, root, pathMap)
      ensures old(pathMap).Keys <= pathMap.Keys
      ensures Covered(nodes, root, parentToken, pathMap)
      decreases |nodes| - IndexOf(nodes, parentToken)
    {
      var i := 0;
      while i < |nodes|
        invariant 0 <= i <= |nodes|
        invariant Sound(nodes, root, pathMap)
        invariant old(pathMap).Keys <= pathMap.Keys
        invariant Done(nodes, root, parentToken, i, pathMap)
      {
        ghost var before := pathMap;
        var node := nodes[i];
        if node.parentToken == parentToken {
          ChildStep(nodes, root, i, parentToken);
          var nodePath := Join(parentPath, Sanitized(node.name));
          SoundUpdate(nodes, root, pathMap, node.nodeToken, nodePath);
          pathMap := pathMap[node.nodeToken := nodePath];
          if node.hasChild {
            BuildPaths(nodes, root, node.nodeToken, nodePath);
          }
        }
        DoneMono(nodes, root, parentToken, i, before, pathMap);
        DoneStep(nodes, root, parentToken, i, pathMap);
        i := i + 1;
      }
      DoneCovers(nodes, root, parentToken, pathMap);
    }
  }

  /** A child of `parentToken` comes after it and gets the path buildPaths
      writes for it. */
  lemma ChildStep(nodes: seq<Document>, root: string, i: int, parentToken: string)
    requires WellFormed(nodes, root) && 0 <= i < |nodes| && nodes[i].parentToken == parentToken
    requires parentToken == root || IndexOf(nodes, parentToken) >= 0
    ensures IndexOf(nodes, nodes[i].nodeToken) == i
    ensures IndexOf(nodes, parentToken) < i
    ensures Expected(nodes, root, nodes[i].nodeToken) ==
      Join(Expected(nodes, root, parentToken), Sanitized(nodes[i].name))
  {
    if parentToken != root {
      ParentIndex(nodes, root, i);
    } else {
      assert IndexOf(nodes, root) == -1;
    }
  }

  /** The path map of downloadWikiChildren: the root maps to ".", every node
      to its expected path, and nothing else is mapped. */
  method BuildPathMap(nodes: seq<Document>, root: string) returns (pathMap: map<string, string>)
    requires WellFormed(nodes, root)
    ensures forall k :: k in pathMap <==> k == root || exists i :: 0 <= i < |nodes| && nodes[i].nodeToken == k
    ensures forall k :: k in pathMap ==> pathMap[k] == Expected(nodes, root, k)
  {
    var b := new PathBuilder(root);
    b.BuildPaths(nodes, root, root, ".");
    forall m | 0 <= m < |nodes|
      ensures nodes[m].nodeToken in b.pathMap
    {
      AllUnderRoot(nodes, root, m);
    }
    pathMap := b.pathMap;
  }

  /** The output directory of a document: its parent's entry, or "." when the
      parent is not mapped (a missing key reads as ""). */
  function OutputDirFor(pathMap: map<string, string>, parentToken: string): (dir: string)
    ensures dir != ""
    ensures parentToken in pathMap && pathMap[parentToken] != "" ==> dir == pathMap[parentToken]
    ensures parentToken !in pathMap ==> dir == "."
  {
    var p := if parentToken in pathMap then pathMap[parentToken] else "";
    if p == "" then "." else p
  }

  /** Every expected path is a relative path of safe elements: the sanitized
      names of the node's ancestors below the root, outermost first, then its
      own. */
  lemma {:induction false} PathOfShaped(nodes: seq<Document>, root: string, i: int)
    requires WellFormed(nodes, root) && 0 <= i < |nodes|
    ensures Shaped(PathOf(nodes, root, i))
    ensures Segments(PathOf(nodes, root, i)) ==
      Segments(Expected(nodes, root, nodes[i].parentToken)) + [Sanitized(nodes[i].name)]
    decreases i
  {
    var parent := nodes[i].parentToken;
    if parent != root {
      ParentIndex(nodes, root, i);
      PathOfShaped(nodes, root, IndexOf(nodes, parent));
    }
    JoinShaped(Expected(nodes, root, parent), Sanitized(nodes[i].name));
  }

  /** Every document's output directory is its parent's expected path, a
      shaped relative path. */
  lemma OutputDirOfNode(nodes: seq<Document>, root: string, pathMap: map<string, string>, i: int)
    requires WellFormed(nodes, root) && 0 <= i < |nodes|
    requires forall k :: k in pathMap <==> k == root || exists i :: 0 <= i < |nodes| && nodes[i].nodeToken == k
    requires forall k :: k in pathMap ==> pathMap[k] == Expected(nodes, root, k)
    ensures OutputDirFor(pathMap, nodes[i].parentToken) == Expected(nodes, root, nodes[i].parentToken)
    ensures Shaped(OutputDirFor(pathMap, nodes[i].parentToken))
  {
    var parent := nodes[i].parentToken;
    if parent != root {
      ParentIndex(nodes, root, i);
      var j := IndexOf(nodes, parent);
      assert nodes[j].nodeToken == parent;
      PathOfShaped(nodes, root, j);
    }
  }
  /** What the download of one document of the tree is given: its node, its
      URL, the directory it is written to and that directory relative to the
      output root. */
  datatype Job = Job(nodeToken: string, url: string, outputDir: string, relDir: string)

  function JobOf(d: Document, pathMap: map<string, string>, outputDir: string, prefixURL: string): Job {
    var nodePath := OutputDirFor(pathMap, d.parentToken);
    Job(d.nodeToken, prefixURL + "/wiki/" + d.nodeToken, Join(outputDir, nodePath), nodePath)
  }

  /** The documents downloadWikiChildren downloads: one job per docx node,
      in the order of the nodes; other node types are skipped. */
  function DocJobs(nodes: seq<Document>, pathMap: map<string, string>, outputDir: string, prefixURL: string)
    : (r: seq<Job>)
    ensures |r| <= |nodes|
    ensures forall j :: j in r <==>
      exists i :: 0 <= i < |nodes| && nodes[i].docType == "docx" && j == JobOf(nodes[i], pathMap, outputDir, prefixURL)
    decreases |nodes|
  {
    if |nodes| == 0 then []
    else
      var init := nodes[..|nodes| - 1];
      var last := nodes[|nodes| - 1];
      var r := DocJobs(init, pathMap, outputDir, prefixURL) + (if last.docType == "docx" then [JobOf(last, pathMap, outputDir, prefixURL)] else []);
      assert forall i :: 0 <= i < |init| ==> init[i] == nodes[i];
      r
  }
}
