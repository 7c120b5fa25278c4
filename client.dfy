/** The listing calls of the Feishu client (core/client.go): wiki node lists,
    drive folder lists, the block list of a document, and the rate-limited
    single requests. Each remote endpoint is a Lister for the fixed request
    arguments; `wait(k)` is the outcome of the k-th limiter wait. */
module Client {
  import opened Wrappers
  import opened Paging

  /** One entry of a wiki node list page. */
  datatype WikiItem = WikiItem(nodeToken: string, objToken: string, objType: string,
                               parentNodeToken: string, title: string, hasChild: bool)

  /** A wiki document node as the client hands it to the mirror. */
  datatype Document = Document(token: string, nodeToken: string, name: string, docType: string,
                               parentToken: string, hasChild: bool)

  /** One entry of a drive folder listing. */
  datatype DriveFile = DriveFile(token: string, name: string, fileType: string, url: string)

  /** The identity of a docx document. */
  datatype DocxMeta = DocxMeta(documentId: string, revisionId: int, title: string)

  /** One block of a docx document; its content belongs to the parser, which
      is not part of this model. */
  datatype Block = Block(blockId: string, parentId: string)

  function ToDocument(item: WikiItem): Document {
    Document(item.objToken, item.nodeToken, item.title, item.objType, item.parentNodeToken, item.hasChild)
  }

  function ToDocuments(items: seq<WikiItem>): (docs: seq<Document>)
    ensures |docs| == |items|
    ensures forall i :: 0 <= i < |items| ==> docs[i] == ToDocument(items[i])
  {
    seq(|items|, i requires 0 <= i < |items| => ToDocument(items[i]))
  }

  function AsDocuments(r: Result<seq<WikiItem>, string>): Result<seq<Document>, string> {
    if r.Ok? then Ok(ToDocuments(r.value)) else Err(r.error)
  }

  /** GetChildNodes asks for the next page while the server says there is
      more and names a non-empty page token. */
  const ChildRule: Rule<WikiItem> := (c: Option<string>, p: Page<WikiItem>) => p.hasMore && p.next != ""

  /** The drive folder and block listings follow the server's HasMore flag. */
  function UntilLast<T>(): Rule<T> {
    (c: Option<string>, p: Page<T>) => p.hasMore
  }

  /** The intended wiki node list rule: follow HasMore unless the server
      repeats the page token just used. */
  const WikiRule: Rule<WikiItem> :=
    (c: Option<string>, p: Page<WikiItem>) => p.hasMore && p.next != (if c.Some? then c.value else "")

  /** GetChildNodes: every page of the children of one wiki node, each item
      copied into a Document, in page order. */
  method GetChildNodes(list: Lister<WikiItem>, ghost n: nat) returns (r: Result<seq<Document>, string>)
    requires Ends(list, ChildRule, None, n)
    ensures r == AsDocuments(Collect(list, ChildRule, None, n))
  {
    var allNodes: seq<Document> := [];
    var pageToken := "";
    ghost var m := n;
    ghost var acc: seq<WikiItem> := [];
    while true
      invariant Ends(list, ChildRule, if pageToken != "" then Some(pageToken) else None, m)
      invariant allNodes == ToDocuments(acc)
      invariant Collect(list, ChildRule, None, n)
             == Prepend(acc, Collect(list, ChildRule, if pageToken != "" then Some(pageToken) else None, m))
      decreases m
    {
      var cursor := if pageToken != "" then Some(pageToken) else None;
      var resp := list(cursor);
      if resp.Err? {
        return Err(resp.error);
      }
      var items := resp.value.items;
      var j := 0;
      while j < |items|
        invariant 0 <= j <= |items|
        invariant allNodes == ToDocuments(acc + items[..j])
      {
        allNodes := allNodes + [ToDocument(items[j])];
        assert acc + items[..j + 1] == (acc + items[..j]) + [items[j]];
        j := j + 1;
      }
      assert items[..j] == items;
      PrependTwice(acc, items, Rest(list, ChildRule, cursor, m));
      acc := acc + items;
      if !resp.value.hasMore || resp.value.next == "" {
        break;
      }
      pageToken := resp.value.next;
      m := m - 1;
    }
    assert acc + [] == acc;
    r := Ok(allNodes);
  }

  /** GetDriveFolderFileList: the files of every page from `pageToken` on, in
      page order, following HasMore. */
  method GetDriveFolderFileList(list: Lister<DriveFile>, pageToken: Option<string>, ghost n: nat)
    returns (r: Result<seq<DriveFile>, string>)
    requires Ends(list, UntilLast(), pageToken, n)
    ensures r == Collect(list, UntilLast(), pageToken, n)
  {
    var cursor := pageToken;
    ghost var m := n;
    var resp := list(cursor);
    if resp.Err? {
      return Err(resp.error);
    }
    var files := resp.value.items;
    while resp.value.hasMore
      invariant Ends(list, UntilLast(), cursor, m)
      invariant resp == list(cursor) && resp.Ok?
      invariant Collect(list, UntilLast(), pageToken, n) == Prepend(files, Rest(list, UntilLast(), cursor, m))
      decreases m
    {
      cursor := Some(resp.value.next);
      m := m - 1;
      resp := list(cursor);
      if resp.Err? {
        return Err(resp.error);
      }
      PrependTwice(files, resp.value.items, Rest(list, UntilLast(), cursor, m));
      files := files + resp.value.items;
    }
    assert files + [] == files;
    r := Ok(files);
  }

  /** The documented outcome of GetDocxContent: a limiter wait, the document
      request, then a wait before every block page. */
  function DocxContent(getDoc: Result<DocxMeta, string>, listBlocks: string -> Lister<Block>,
                       wait: nat -> bool, n: nat): (r: (Result<(DocxMeta, seq<Block>), string>, seq<Event>))
    requires getDoc.Ok? ==> Ends(listBlocks(getDoc.value.documentId), UntilLast(), None, n)
    ensures Paced(r.1)
    ensures r.0.Ok? ==> getDoc.Ok? && r.0.value.0 == getDoc.value
    ensures !wait(0) ==> r == (Err(LimiterFailed), [Wait(false)])
  {
    if !wait(0) then (Err(LimiterFailed), [Wait(false)])
    else if getDoc.Err? then (Err(getDoc.error), [Wait(true), Call])
    else
      var c := CollectPaced(listBlocks(getDoc.value.documentId), UntilLast(), None, n, wait, 1);
      var t := [Wait(true), Call] + c.1;
      assert Paced(t) by { assert t[2..] == c.1; }
      (if c.0.Ok? then Ok((getDoc.value, c.0.value)) else Err(c.0.error), t)
  }

  /** When the limiter never refuses, the blocks are every page of the
      document's block list, in page order. */
  lemma DocxContentAllowed(getDoc: Result<DocxMeta, string>, listBlocks: string -> Lister<Block>,
                           wait: nat -> bool, n: nat)
    requires getDoc.Ok? ==> Ends(listBlocks(getDoc.value.documentId), UntilLast(), None, n)
    requires forall j :: wait(j)
    ensures getDoc.Err? ==> DocxContent(getDoc, listBlocks, wait, n).0 == Err(getDoc.error)
    ensures getDoc.Ok? ==>
      var blocks := Collect(listBlocks(getDoc.value.documentId), UntilLast(), None, n);
      DocxContent(getDoc, listBlocks, wait, n).0
        == if blocks.Ok? then Ok((getDoc.value, blocks.value)) else Err(blocks.error)
  {
    assert wait(0);
    if getDoc.Ok? {
      CollectPacedAllowed(listBlocks(getDoc.value.documentId), UntilLast(), None, n, wait, 1);
    }
  }

  function Attach(d: DocxMeta, r: Result<seq<Block>, string>): Result<(DocxMeta, seq<Block>), string> {
    if r.Ok? then Ok((d, r.value)) else Err(r.error)
  }

  /** GetDocxContent: the document, then every page of its block list. */
  method GetDocxContent(getDoc: Result<DocxMeta, string>, listBlocks: string -> Lister<Block>,
                        wait: nat -> bool, ghost n: nat)
    returns (r: Result<(DocxMeta, seq<Block>), string>, trace: seq<Event>)
    requires getDoc.Ok? ==> Ends(listBlocks(getDoc.value.documentId), UntilLast(), None, n)
    ensures (r, trace) == DocxContent(getDoc, listBlocks, wait, n)
  {
    if !wait(0) {
      return Err(LimiterFailed), [Wait(false)];
    }
    trace := [Wait(true), Call];
    if getDoc.Err? {
      return Err(getDoc.error), trace;
    }
    var docx := getDoc.value;
    var list := listBlocks(docx.documentId);
    var blocks: seq<Block> := [];
    var pageToken: Option<string> := None;
    var k := 1;
    ghost var m := n;
    while true
      invariant Ends(list, UntilLast(), pageToken, m)
      invariant
        var c := CollectPaced(list, UntilLast(), pageToken, m, wait, k);
        DocxContent(getDoc, listBlocks, wait, n) == (Attach(docx, Prepend(blocks, c.0)), trace + c.1)
      decreases m
    {
      if !wait(k) {
        return Err(LimiterFailed), trace + [Wait(false)];
      }
      var resp := list(pageToken);
      if resp.Err? {
        return Err(resp.error), trace + [Wait(true), Call];
      }
      var more := resp.value.hasMore;
      if more {
        CollectPacedStep(list, UntilLast(), pageToken, m, wait, k, blocks, trace);
      }
      trace := trace + [Wait(true), Call];
      blocks := blocks + resp.value.items;
      pageToken := Some(resp.value.next);
      if !more {
        break;
      }
      k := k + 1;
      m := m - 1;
    }
    r := Ok((docx, blocks));
  }

  /** GetDocxDocumentMeta: one limiter wait, then the document request. */
  function GetDocxDocumentMeta(waitOk: bool, response: Result<DocxMeta, string>): (r: (Result<DocxMeta, string>, seq<Event>))
    ensures Paced(r.1)
    ensures !waitOk ==> r.0 == Err(LimiterFailed) && Call !in r.1
    ensures waitOk ==> r.0 == response && |r.1| == 2
  {
    Guarded(waitOk, response)
  }

  /** GetWikiNodeInfo: one limiter wait, then the node request. */
  function GetWikiNodeInfo(waitOk: bool, response: Result<WikiItem, string>): (r: (Result<WikiItem, string>, seq<Event>))
    ensures Paced(r.1)
    ensures !waitOk ==> r.0 == Err(LimiterFailed) && Call !in r.1
    ensures waitOk ==> r.0 == response && |r.1| == 2
  {
    Guarded(waitOk, response)
  }

  function Guarded<T>(waitOk: bool, response: Result<T, string>): (Result<T, string>, seq<Event>) {
    if !waitOk then (Err(LimiterFailed), [Wait(false)]) else (response, [Wait(true), Call])
  }

  /** What GetWikiNodeList does as written: the request inside its loop
      declares a new `resp`, so the loop condition keeps reading the first
      page and the loop runs at most once: the first page and, when that page
      has more and a non-empty token, one more page. */
  function WikiNodeListAsWritten(list: Lister<WikiItem>, waitOk: bool): (r: (Result<seq<WikiItem>, string>, seq<Event>))
    ensures |r.1| >= 1 && r.1[0] == Wait(waitOk)
    ensures forall i :: 0 < i < |r.1| ==> r.1[i] == Call
    ensures |r.1| <= 3
    ensures !waitOk ==> r.0 == Err(LimiterFailed) && |r.1| == 1
  {
    if !waitOk then (Err(LimiterFailed), [Wait(false)])
    else match list(None)
      case Err(e) => (Err(e), [Wait(true), Call])
      case Ok(p) =>
        if p.hasMore && p.next != "" then
          match list(Some(p.next))
          case Err(e) => (Err(e), [Wait(true), Call, Call])
          case Ok(q) => (Ok(p.items + q.items), [Wait(true), Call, Call])
        else (Ok(p.items), [Wait(true), Call])
  }

  /** GetWikiNodeList as written. */
  method GetWikiNodeList(list: Lister<WikiItem>, waitOk: bool) returns (r: Result<seq<WikiItem>, string>, trace: seq<Event>)
    ensures (r, trace) == WikiNodeListAsWritten(list, waitOk)
  {
    if !waitOk {
      return Err(LimiterFailed), [Wait(false)];
    }
    trace := [Wait(true), Call];
    var resp := list(None);
    if resp.Err? {
      return Err(resp.error), trace;
    }
    var nodes := resp.value.items;
    var previousPageToken := "";
    while resp.value.hasMore && previousPageToken != resp.value.next
      invariant resp == list(None) && resp.Ok?
      invariant previousPageToken == "" ==> nodes == resp.value.items && trace == [Wait(true), Call]
      invariant previousPageToken != "" ==> previousPageToken == resp.value.next
      invariant previousPageToken != "" ==> WikiNodeListAsWritten(list, waitOk) == (Ok(nodes), trace)
      decreases if previousPageToken == resp.value.next then 0 else 1
    {
      assert previousPageToken == "";
      previousPageToken := resp.value.next;
      // the inner declaration: the loop condition still reads the first page
      var inner := list(Some(resp.value.next));
      trace := trace + [Call];
      assert trace == [Wait(true), Call, Call];
      if inner.Err? {
        return Err(inner.error), trace;
      }
      nodes := nodes + inner.value.items;
    }
    r := Ok(nodes);
  }

  /** GetWikiNodeList as evidently intended: every page, in page order, until
      the server has no more or repeats the page token just used. */
  method GetWikiNodeListAllPages(list: Lister<WikiItem>, waitOk: bool, ghost n: nat) returns (r: Result<seq<WikiItem>, string>)
    requires Ends(list, WikiRule, None, n)
    ensures !waitOk ==> r == Err(LimiterFailed)
    ensures waitOk ==> r == Collect(list, WikiRule, None, n)
  {
    if !waitOk {
      return Err(LimiterFailed);
    }
    var cursor: Option<string> := None;
    ghost var m := n;
    var resp := list(cursor);
    if resp.Err? {
      return Err(resp.error);
    }
    var nodes := resp.value.items;
    var previousPageToken := "";
    while resp.value.hasMore && previousPageToken != resp.value.next
      invariant Ends(list, WikiRule, cursor, m)
      invariant resp == list(cursor) && resp.Ok?
      invariant previousPageToken == if cursor.Some? then cursor.value else ""
      invariant Collect(list, WikiRule, None, n) == Prepend(nodes, Rest(list, WikiRule, cursor, m))
      decreases m
    {
      previousPageToken := resp.value.next;
      cursor := Some(resp.value.next);
      m := m - 1;
      resp := list(cursor);
      if resp.Err? {
        return Err(resp.error);
      }
      PrependTwice(nodes, resp.value.items, Rest(list, WikiRule, cursor, m));
      nodes := nodes + resp.value.items;
    }
    assert nodes + [] == nodes;
    r := Ok(nodes);
  }

  /** The listing as written never returns more than the intended one: when
      both succeed, the first is a prefix of the second. */
  lemma {:induction false} WikiNodeListAsWrittenIsPrefix(list: Lister<WikiItem>, n: nat)
    requires Ends(list, WikiRule, None, n)
    requires WikiNodeListAsWritten(list, true).0.Ok? && Collect(list, WikiRule, None, n).Ok?
    ensures WikiNodeListAsWritten(list, true).0.value <= Collect(list, WikiRule, None, n).value
  {
    var p := list(None).value;
    var all := Collect(list, WikiRule, None, n);
    assert all == Prepend(p.items, Rest(list, WikiRule, None, n));
    if p.hasMore && p.next != "" {
      var q := list(Some(p.next)).value;
      var inner := Collect(list, WikiRule, Some(p.next), n - 1);
      assert inner == Prepend(q.items, Rest(list, WikiRule, Some(p.next), n - 1));
      PrependTwice(p.items, q.items, Rest(list, WikiRule, Some(p.next), n - 1));
    }
  }

  /** When the intended listing stops after at most two pages, the listing as
      written returns the same result. */
  lemma WikiNodeListAgreesOnTwoPages(list: Lister<WikiItem>, n: nat)
    requires Ends(list, WikiRule, None, n)
    requires list(None).Ok? && WikiRule(None, list(None).value) ==>
      var c := Some(list(None).value.next);
      list(c).Err? || !WikiRule(c, list(c).value)
    ensures WikiNodeListAsWritten(list, true).0 == Collect(list, WikiRule, None, n)
  {
    if list(None).Ok? && WikiRule(None, list(None).value) {
      var p := list(None).value;
      var c := Some(p.next);
      if list(c).Ok? {
        assert Rest(list, WikiRule, c, n - 1) == Ok([]);
        assert list(c).value.items + [] == list(c).value.items;
      }
    } else if list(None).Ok? {
      assert list(None).value.items + [] == list(None).value.items;
    }
  }

  function Item(token: string): WikiItem {
    WikiItem(token, token, "docx", "", token, false)
  }

  /** A wiki whose node list has three pages, a, b and c. */
  const ThreePages: Lister<WikiItem> :=
    (c: Option<string>) =>
      if c == None then Ok(Page([Item("a")], true, "p2"))
      else if c == Some("p2") then Ok(Page([Item("b")], true, "p3"))
      else Ok(Page([Item("c")], false, ""))

  /** The two-page cap: on a three-page listing, GetWikiNodeList as written
      loses the third page, which the intended loop returns. */
  lemma WikiNodeListDropsThirdPage()
    ensures Ends(ThreePages, WikiRule, None, 3)
    ensures WikiNodeListAsWritten(ThreePages, true).0 == Ok([Item("a"), Item("b")])
    ensures Collect(ThreePages, WikiRule, None, 3) == Ok([Item("a"), Item("b"), Item("c")])
  {
    var p1 := Page([Item("a")], true, "p2");
    var p2 := Page([Item("b")], true, "p3");
    var p3 := Page([Item("c")], false, "");
    assert ThreePages(None) == Ok(p1);
    assert ThreePages(Some("p2")) == Ok(p2);
    assert ThreePages(Some("p3")) == Ok(p3);
    assert WikiRule(None, p1) && WikiRule(Some("p2"), p2) && !WikiRule(Some("p3"), p3);
    assert Ends(ThreePages, WikiRule, Some("p3"), 1);
    assert Ends(ThreePages, WikiRule, Some("p2"), 2);
    assert Ends(ThreePages, WikiRule, None, 3);
    assert Rest(ThreePages, WikiRule, Some("p3"), 1) == Ok([]);
    assert [Item("c")] + [] == [Item("c")];
    assert Collect(ThreePages, WikiRule, Some("p3"), 1) == Ok([Item("c")]);
    assert Rest(ThreePages, WikiRule, Some("p2"), 2) == Ok([Item("c")]);
    assert [Item("b")] + [Item("c")] == [Item("b"), Item("c")];
    assert Collect(ThreePages, WikiRule, Some("p2"), 2) == Ok([Item("b"), Item("c")]);
    assert [Item("a")] + [Item("b"), Item("c")] == [Item("a"), Item("b"), Item("c")];
    assert Rest(ThreePages, WikiRule, None, 3) == Ok([Item("b"), Item("c")]);
    assert WikiNodeListAsWritten(ThreePages, true).0 == Ok([Item("a")] + [Item("b")]);
    assert [Item("a")] + [Item("b")] == [Item("a"), Item("b")];
  }
}
