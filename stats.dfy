/** The accumulators of the wiki-tree download (cmd/download.go): the
    DownloadStats counters, the LogCollector of per-document entries, the
    status labels of the summary and the count of changes. */
module Stats {
  import opened Strs
  import opened Paths

  /** The counters shared by the document downloads of one wiki tree. */
  class DownloadStats {
    var totalDocs: int
    var docsNew: int
    var totalImages: int
    var imagesNew: int

    /** &DownloadStats{}: every counter zero. */
    constructor()
      ensures totalDocs == 0 && docsNew == 0 && totalImages == 0 && imagesNew == 0
    {
      totalDocs, docsNew, totalImages, imagesNew := 0, 0, 0, 0;
    }

    /** The new images never outnumber the images met. */
    predicate Consistent()
      reads this
    {
      0 <= docsNew && 0 <= imagesNew <= totalImages
    }

    method SetTotalDocs(n: int)
      modifies this
      ensures totalDocs == n
      ensures docsNew == old(docsNew) && totalImages == old(totalImages) && imagesNew == old(imagesNew)
      ensures old(Consistent()) ==> Consistent()
    {
      totalDocs := n;
    }

    method AddDocNew()
      modifies this
      ensures docsNew == old(docsNew) + 1
      ensures totalDocs == old(totalDocs) && totalImages == old(totalImages) && imagesNew == old(imagesNew)
      ensures old(Consistent()) ==> Consistent()
    {
      docsNew := docsNew + 1;
    }

    method AddImages(encountered: int, newlyDownloaded: int)
      modifies this
      ensures totalImages == old(totalImages) + encountered && imagesNew == old(imagesNew) + newlyDownloaded
      ensures totalDocs == old(totalDocs) && docsNew == old(docsNew)
      ensures old(Consistent()) && 0 <= newlyDownloaded <= encountered ==> Consistent()
    {
      totalImages := totalImages + encountered;
      imagesNew := imagesNew + newlyDownloaded;
    }

    method Snapshot() returns (total: int, docs: int, images: int, newImages: int)
      ensures total == totalDocs && docs == docsNew && images == totalImages && newImages == imagesNew
    {
      total, docs, images, newImages := totalDocs, docsNew, totalImages, imagesNew;
    }
  }

  /** The changes the summary reports: new documents plus new images; with
      consistent counters it is zero exactly when nothing was added. */
  function Changes(docsNew: int, imagesNew: int): (c: int)
    requires 0 <= docsNew && 0 <= imagesNew
    ensures c == 0 <==> docsNew == 0 && imagesNew == 0
    ensures c >= docsNew && c >= imagesNew
  {
    docsNew + imagesNew
  }

  /** One document's entry in the summary. */
  datatype DocLog = DocLog(path: string, skipped: bool, reason: string, imgCache: int, imgNew: int, docNew: bool)

  /** The path a document is logged under: its file name below its directory
      relative to the output root, or the bare file name outside a tree. */
  function LogPath(relDir: string, mdName: string): string {
    if relDir != "" then Join(relDir, mdName) else mdName
  }

  /** Below a directory of the mirror, the logged path is the directory's
      elements followed by the file name. */
  lemma LogPathShaped(relDir: string, mdName: string)
    requires Shaped(relDir) && Safe(mdName)
    ensures Shaped(LogPath(relDir, mdName))
    ensures Segments(LogPath(relDir, mdName)) == Segments(relDir) + [mdName]
  {
    JoinShaped(relDir, mdName);
  }

  /** The entry for a document's images: the image-bed hits as cached, the
      images to upload as new. */
  function ImageLog(relDir: string, mdName: string, hits: int, downloaded: int): (l: DocLog)
    ensures !l.docNew && !l.skipped && l.reason == ""
    ensures l.path == LogPath(relDir, mdName) && l.imgCache == hits && l.imgNew == downloaded
  {
    DocLog(LogPath(relDir, mdName), false, "", hits, downloaded, false)
  }

  /** The entry for a document file that was written. */
  function NewDocLog(relDir: string, mdName: string): (l: DocLog)
    ensures l.docNew && l.path == LogPath(relDir, mdName) && l.imgCache == 0 && l.imgNew == 0
  {
    DocLog(LogPath(relDir, mdName), false, "", 0, 0, true)
  }

  const NewLabel: string := "\U{65B0}\U{589E}"      // "new"
  const SkippedLabel: string := "\U{8DF3}\U{8FC7}"  // "skipped"
  const CachedLabel: string := "\U{7F13}\U{5B58}"   // "cached"

  /** The status printed for an entry: new before skipped before cached, then
      the reason in parentheses when there is one. */
  function StatusLabel(l: DocLog): (s: string)
    ensures var word := if l.docNew then NewLabel else if l.skipped then SkippedLabel else CachedLabel;
      HasPrefix(s, word) && (l.reason == "" <==> s == word)
    ensures var word := if l.docNew then NewLabel else if l.skipped then SkippedLabel else CachedLabel;
      l.reason != "" ==> s == word + " (" + l.reason + ")"
  {
    var word := if l.docNew then NewLabel else if l.skipped then SkippedLabel else CachedLabel;
    var s := if l.reason != "" then word + " (" + l.reason + ")" else word;
    assert s[..|word|] == word;
    s
  }

  /** The three labels are told apart by their first rune, so the status
      names the state of the entry. */
  lemma StatusDistinguishes(a: DocLog, b: DocLog)
    requires StatusLabel(a)[0] == StatusLabel(b)[0]
    ensures a.docNew == b.docNew
    ensures !a.docNew ==> a.skipped == b.skipped
  {
    var wa := if a.docNew then NewLabel else if a.skipped then SkippedLabel else CachedLabel;
    var wb := if b.docNew then NewLabel else if b.skipped then SkippedLabel else CachedLabel;
    assert StatusLabel(a)[0] == wa[0] && StatusLabel(b)[0] == wb[0];
  }

  /** Ordered by path, in Go's string order. */
  predicate PathOrdered(s: seq<DocLog>) {
    forall i, j :: 0 <= i < j < |s| ==> StrLe(s[i].path, s[j].path)
  }

  /** The entries collected from the concurrent downloads. */
  class LogCollector {
    var logs: seq<DocLog>

    constructor()
      ensures logs == []
    {
      logs := [];
    }

    method Add(l: DocLog)
      modifies this
      ensures logs == old(logs) + [l]
    {
      logs := logs + [l];
    }

    /** A copy of the entries sorted by path; the entries themselves stay as
        they are. */
    method SortedByPath() returns (out: seq<DocLog>)
      ensures PathOrdered(out)
      ensures multiset(out) == multiset(logs)
    {
      out := [];
      var i := 0;
      while i < |logs|
        invariant 0 <= i <= |logs|
        invariant PathOrdered(out)
        invariant multiset(out) == multiset(logs[..i])
      {
        out := InsertByPath(out, logs[i]);
        assert logs[..i + 1] == logs[..i] + [logs[i]];
        i := i + 1;
      }
      assert logs[..|logs|] == logs;
    }
  }

  /** Inserts `l` after every entry whose path is not above its own. */
  method InsertByPath(s: seq<DocLog>, l: DocLog) returns (r: seq<DocLog>)
    requires PathOrdered(s)
    ensures PathOrdered(r)
    ensures multiset(r) == multiset(s) + multiset{l}
  {
    var i := 0;
    while i < |s| && StrLe(s[i].path, l.path)
      invariant 0 <= i <= |s|
      invariant forall k :: 0 <= k < i ==> StrLe(s[k].path, l.path)
    {
      i := i + 1;
    }
    AfterInsertPoint(s, l, i);
    r := s[..i] + [l] + s[i..];
    assert s[..i] + s[i..] == s;
    assert multiset(r) == multiset(s[..i]) + multiset{l} + multiset(s[i..]);
    InsertKeepsOrder(s, l, i);
  }

  /** Every entry from the first one whose path is above `l`'s on is above
      `l`'s too. */
  lemma AfterInsertPoint(s: seq<DocLog>, l: DocLog, i: nat)
    requires PathOrdered(s) && i <= |s|
    requires i < |s| ==> !StrLe(s[i].path, l.path)
    ensures forall k :: i <= k < |s| ==> StrLe(l.path, s[k].path)
  {
    if i < |s| {
      StrLeTotal(s[i].path, l.path);
    }
    forall k | i <= k < |s|
      ensures StrLe(l.path, s[k].path)
    {
      if k > i {
        StrLeTrans(l.path, s[i].path, s[k].path);
      }
    }
  }

  /** Putting `l` between the entries not above it and those above it keeps
      the order. */
  lemma InsertKeepsOrder(s: seq<DocLog>, l: DocLog, i: nat)
    requires PathOrdered(s) && i <= |s|
    requires forall k :: 0 <= k < i ==> StrLe(s[k].path, l.path)
    requires forall k :: i <= k < |s| ==> StrLe(l.path, s[k].path)
    ensures PathOrdered(s[..i] + [l] + s[i..])
  {
    var r := s[..i] + [l] + s[i..];
    forall a, b | 0 <= a < b < |r|
      ensures StrLe(r[a].path, r[b].path)
    {
      if b < i {
        assert r[a] == s[a] && r[b] == s[b];
      } else if b == i {
        assert r[b] == l && r[a] == s[a];
      } else if a < i {
        assert r[a] == s[a] && r[b] == s[b - 1];
      } else if a == i {
        assert r[a] == l && r[b] == s[b - 1];
      } else {
        assert r[a] == s[a - 1] && r[b] == s[b - 1];
      }
    }
  }
}
