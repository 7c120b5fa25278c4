/** GetAllChildNodes (core/client.go): the depth-first, pre-order walk of the
    wiki below one node, recursing into every child that has children. The
    remote is `listing(tok)`, the child-list service of node `tok`; the walk
    is specified over `children(tok)`, what GetChildNodes collects from it. */
module Tree {
  import opened Wrappers
  import opened Paging
  import opened Client

  type Children = string -> Result<seq<Document>, string>

  /** `children` is what GetChildNodes collects from each node's listing, and
      every listing stops within `fuel(tok)` requests. */
  ghost predicate Serves(listing: string -> Lister<WikiItem>, fuel: string -> nat, children: Children) {
    forall tok :: Ends(listing(tok), ChildRule, None, fuel(tok)) &&
      children(tok) == AsDocuments(Collect(listing(tok), ChildRule, None, fuel(tok)))
  }

  /** The wiki is a finite tree: `height` strictly decreases from a node to
      each of its children that has children. */
  ghost predicate Finite(children: Children, height: string -> nat) {
    forall tok, i :: children(tok).Ok? && 0 <= i < |children(tok).value| && children(tok).value[i].hasChild ==>
      height(children(tok).value[i].nodeToken) < height(tok)
  }

  /** The remote is consistent: every child listed under a node names that
      node as its parent. */
  ghost predicate Consistent(children: Children) {
    forall tok, i :: children(tok).Ok? && 0 <= i < |children(tok).value| ==>
      children(tok).value[i].parentToken == tok
  }

  /** Everything below `tok`, in pre-order: each child, then everything below
      it when it has children, then the next child. The first listing error
      ends the walk with that error. */
  ghost function AllChildren(children: Children, height: string -> nat, tok: string): Result<seq<Document>, string>
    requires Finite(children, height)
    decreases height(tok), 1, 0
  {
    match children(tok)
    case Err(e) => Err(e)
    case Ok(docs) => Walk(children, height, tok, docs, 0)
  }

  /** The part of the walk below `tok` that starts at its i-th child. */
  ghost function Walk(children: Children, height: string -> nat, tok: string, docs: seq<Document>, i: nat)
    : Result<seq<Document>, string>
    requires Finite(children, height)
    requires children(tok) == Ok(docs) && i <= |docs|
    decreases height(tok), 0, |docs| - i
  {
    if i == |docs| then Ok([])
    else
      var d := docs[i];
      var sub := if d.hasChild then AllChildren(children, height, d.nodeToken) else Ok([]);
      if sub.Err? then sub
      else Prepend([d] + sub.value, Walk(children, height, tok, docs, i + 1))
  }

  /** The walk after the first i children, advanced by the i-th. */
  lemma WalkAdvance(children: Children, height: string -> nat, tok: string, docs: seq<Document>, i: nat,
                    acc: seq<Document>)
    requires Finite(children, height)
    requires children(tok) == Ok(docs) && i < |docs|
    requires Walk(children, height, tok, docs, 0) == Prepend(acc, Walk(children, height, tok, docs, i))
    ensures docs[i].hasChild ==> height(docs[i].nodeToken) < height(tok)
    ensures docs[i].hasChild && AllChildren(children, height, docs[i].nodeToken).Err? ==>
      Walk(children, height, tok, docs, 0) == AllChildren(children, height, docs[i].nodeToken)
    ensures docs[i].hasChild && AllChildren(children, height, docs[i].nodeToken).Ok? ==>
      Walk(children, height, tok, docs, 0) ==
      Prepend(acc + ([docs[i]] + AllChildren(children, height, docs[i].nodeToken).value),
              Walk(children, height, tok, docs, i + 1))
    ensures !docs[i].hasChild ==>
      Walk(children, height, tok, docs, 0) == Prepend(acc + [docs[i]], Walk(children, height, tok, docs, i + 1))
  {
    var next := Walk(children, height, tok, docs, i + 1);
    if docs[i].hasChild {
      var sub := AllChildren(children, height, docs[i].nodeToken);
      if sub.Ok? {
        PrependTwice(acc, [docs[i]] + sub.value, next);
      }
    } else {
      assert [docs[i]] + [] == [docs[i]];
      PrependTwice(acc, [docs[i]], next);
    }
  }

  /** The closure of GetAllChildNodes, with the `result` slice it captures and
      appends to. */
  class Walker {
    var result: seq<Document>

    constructor()
      ensures result == []
    {
      result := [];
    }

    /** processNode: lists the children of `tok`, then appends each child
        and, for a child with children, everything below it; returns the
        first error. */
    method ProcessNode(listing: string -> Lister<WikiItem>, ghost fuel: string -> nat, ghost children: Children,
                       ghost height: string -> nat, tok: string) returns (err: Option<string>)
      requires Serves(listing, fuel, children) && Finite(children, height)
      modifies this
      ensures AllChildren(children, height, tok).Ok? ==>
        err == None && result == old(result) + AllChildren(children, height, tok).value
      ensures AllChildren(children, height, tok).Err? ==>
        err == Some(AllChildren(children, height, tok).error)
      decreases height(tok), 1
    {
      var nodes := GetChildNodes(listing(tok), fuel(tok));
      if nodes.Err? {
        return Some(nodes.error);
      }
      err := ProcessChildren(listing, fuel, children, height, tok, nodes.value);
    }

    /** The loop of processNode over the children `docs` of `tok`. */
    method ProcessChildren(listing: string -> Lister<WikiItem>, ghost fuel: string -> nat, ghost children: Children,
                           ghost height: string -> nat, tok: string, docs: seq<Document>) returns (err: Option<string>)
      requires Serves(listing, fuel, children) && Finite(children, height)
      requires children(tok) == Ok(docs)
      modifies this
      ensures Walk(children, height, tok, docs, 0).Ok? ==>
        err == None && result == old(result) + Walk(children, height, tok, docs, 0).value
      ensures Walk(children, height, tok, docs, 0).Err? ==>
        err == Some(Walk(children, height, tok, docs, 0).error)
      decreases height(tok), 0
    {
      ghost var base := result;
      ghost var acc: seq<Document> := [];
      var i := 0;
      while i < |docs|
        invariant 0 <= i <= |docs|
        invariant result == base + acc
        invariant Walk(children, height, tok, docs, 0) == Prepend(acc, Walk(children, height, tok, docs, i))
      {
        var node := docs[i];
        WalkAdvance(children, height, tok, docs, i, acc);
        result := result + [node];
        ghost var sub: seq<Document> := [];
        if node.hasChild {
          var e := ProcessNode(listing, fuel, children, height, node.nodeToken);
          if e.Some? {
            return e;
          }
          sub := AllChildren(children, height, node.nodeToken).value;
        } else {
          assert [node] + sub == [node];
        }
        AppendAssoc(base, acc, node, sub);
        acc := acc + ([node] + sub);
        i := i + 1;
      }
      assert acc + [] == acc;
      err := None;
    }
  }

  lemma AppendAssoc(base: seq<Document>, acc: seq<Document>, node: Document, sub: seq<Document>)
    ensures base + acc + [node] + sub == base + (acc + ([node] + sub))
  {
  }

  /** GetAllChildNodes: everything below `root`, in pre-order, or the first
      listing error. */
  method GetAllChildNodes(listing: string -> Lister<WikiItem>, ghost fuel: string -> nat, ghost children: Children,
                          ghost height: string -> nat, root: string) returns (r: Result<seq<Document>, string>)
    requires Serves(listing, fuel, children) && Finite(children, height)
    ensures r == AllChildren(children, height, root)
  {
    var w := new Walker();
    var err := w.ProcessNode(listing, fuel, children, height, root);
    assert AllChildren(children, height, root).Ok? ==> w.result == AllChildren(children, height, root).value;
    if err.Some? {
      r := Err(err.value);
    } else {
      r := Ok(w.result);
    }
  }

  /** Every node of `s` is a child of `root` or comes after a node that has
      children and is its parent. */
  ghost predicate Parented(s: seq<Document>, root: string) {
    forall k :: 0 <= k < |s| ==> s[k].parentToken == root || ParentBefore(s, k)
  }

  /** Some node before the k-th has children and is its parent. */
  ghost predicate ParentBefore(s: seq<Document>, k: nat)
    requires k < |s|
  {
    exists j :: 0 <= j < k && s[j].hasChild && s[j].nodeToken == s[k].parentToken
  }

  lemma ParentBeforeAppend(s: seq<Document>, t: seq<Document>, k: nat)
    requires k < |s| && ParentBefore(s, k)
    ensures ParentBefore(s + t, k)
  {
    var j :| 0 <= j < k && s[j].hasChild && s[j].nodeToken == s[k].parentToken;
    assert (s + t)[j] == s[j] && (s + t)[k] == s[k];
  }

  lemma ParentBeforePrepend(p: seq<Document>, s: seq<Document>, k: nat)
    requires k < |s| && ParentBefore(s, k)
    ensures ParentBefore(p + s, |p| + k)
  {
    var j :| 0 <= j < k && s[j].hasChild && s[j].nodeToken == s[k].parentToken;
    assert (p + s)[|p| + j] == s[j] && (p + s)[|p| + k] == s[k];
  }

  /** On a consistent remote the walk lists every node after its parent, and
      only below parents that have children. */
  lemma {:induction false} AllChildrenParented(children: Children, height: string -> nat, tok: string)
    requires Finite(children, height) && Consistent(children)
    requires AllChildren(children, height, tok).Ok?
    ensures Parented(AllChildren(children, height, tok).value, tok)
    decreases height(tok), 1, 0
  {
    WalkParented(children, height, tok, children(tok).value, 0);
  }

  lemma {:induction false} WalkParented(children: Children, height: string -> nat, tok: string,
                                        docs: seq<Document>, i: nat)
    requires Finite(children, height) && Consistent(children)
    requires children(tok) == Ok(docs) && i <= |docs|
    requires Walk(children, height, tok, docs, i).Ok?
    ensures Parented(Walk(children, height, tok, docs, i).value, tok)
    decreases height(tok), 0, |docs| - i
  {
    if i < |docs| {
      var d := docs[i];
      assert d.parentToken == tok;
      var sub: seq<Document> := [];
      if d.hasChild {
        AllChildrenParented(children, height, d.nodeToken);
        sub := AllChildren(children, height, d.nodeToken).value;
      }
      WalkParented(children, height, tok, docs, i + 1);
      var rest := Walk(children, height, tok, docs, i + 1).value;
      assert Walk(children, height, tok, docs, i).value == [d] + sub + rest;
      ParentedConcat(d, sub, rest, tok);
    }
  }

  /** A child of `tok`, everything below it, then the rest of the walk below
      `tok` keeps every node after its parent. */
  lemma ParentedConcat(d: Document, sub: seq<Document>, rest: seq<Document>, tok: string)
    requires d.parentToken == tok && (|sub| > 0 ==> d.hasChild)
    requires Parented(sub, d.nodeToken) && Parented(rest, tok)
    ensures Parented([d] + sub + rest, tok)
  {
    ParentedCons(d, sub, tok);
    ParentedAppend([d] + sub, rest, tok);
  }

  /** A child of `tok` followed by everything below it. */
  lemma ParentedCons(d: Document, sub: seq<Document>, tok: string)
    requires d.parentToken == tok && (|sub| > 0 ==> d.hasChild)
    requires Parented(sub, d.nodeToken)
    ensures Parented([d] + sub, tok)
  {
    forall k | 0 < k < 1 + |sub|
      ensures ([d] + sub)[k].parentToken == tok || ParentBefore([d] + sub, k)
    {
      ParentBeforeCons(d, sub, k);
    }
  }

  lemma ParentBeforeCons(d: Document, sub: seq<Document>, k: nat)
    requires 0 < k < 1 + |sub| && d.hasChild
    requires sub[k - 1].parentToken == d.nodeToken || ParentBefore(sub, k - 1)
    ensures ParentBefore([d] + sub, k)
  {
    var s := [d] + sub;
    assert s[k] == sub[k - 1];
    if sub[k - 1].parentToken == d.nodeToken {
      assert s[0] == d;
      assert 0 <= 0 < k && s[0].hasChild && s[0].nodeToken == s[k].parentToken;
    } else {
      ParentBeforePrepend([d], sub, k - 1);
    }
  }

  /** Two walks below `tok`, one after the other. */
  lemma ParentedAppend(a: seq<Document>, b: seq<Document>, tok: string)
    requires Parented(a, tok) && Parented(b, tok)
    ensures Parented(a + b, tok)
  {
    var s := a + b;
    forall k | 0 <= k < |s|
      ensures s[k].parentToken == tok || ParentBefore(s, k)
    {
      if k < |a| {
        assert s[k] == a[k];
        if a[k].parentToken != tok {
          ParentBeforeAppend(a, b, k);
        }
      } else {
        assert s[k] == b[k - |a|];
        if b[k - |a|].parentToken != tok {
          ParentBeforePrepend(a, b, k - |a|);
        }
      }
    }
  }
}
