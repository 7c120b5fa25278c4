/** The per-document steps of downloadDocument (cmd/download.go): the name
    and path of the markdown file, the skip-if-identical decision, the
    de-duplication of image tokens, the merge of the per-token results, the
    switch to image-bed URLs and the rewrite of the links in the body. */
module Assets {
  import opened Wrappers
  import opened Strs
  import opened Paths
  import opened Sanitize
  import Stats

  /** The file name of a document: its sanitized title when titles are used
      as file names, else its token; with ".md" appended. */
  function MdName(docToken: string, title: string, titleAsFilename: bool): (name: string)
    ensures HasSuffix(name, ".md")
  {
    var stem := if titleAsFilename then Sanitized(title) else docToken;
    assert (stem + ".md")[|stem|..] == ".md";
    stem + ".md"
  }

  /** The markdown file is written straight into the output directory, under
      its own name. */
  lemma OutputFileName(outputDir: string, docToken: string, title: string, titleAsFilename: bool)
    requires titleAsFilename || '/' !in docToken
    ensures Base(Join(outputDir, MdName(docToken, title, titleAsFilename))) == MdName(docToken, title, titleAsFilename)
  {
    var stem := if titleAsFilename then Sanitized(title) else docToken;
    var name := stem + ".md";
    assert '/' !in name by {
      forall i | 0 <= i < |name| ensures name[i] != '/' {
        if i < |stem| {
          assert name[i] == stem[i];
        }
      }
    }
    assert name != "." && name != ".." by {
      assert |name| >= 3 && name[|name| - 1] == 'd';
    }
    BaseJoin(outputDir, name);
  }

  /** What sits at an output path before the write. */
  datatype Existing = Absent | Unreadable | Content(data: string)

  /** shouldSkipFile: with skipping on, an existing readable file whose hash
      equals the new content's; `hash` stands for the hex MD5 digest. */
  function ShouldSkipFile(existing: Existing, content: string, skipDuplicate: bool,
                          hash: string -> string): (skip: bool)
    ensures !skipDuplicate || existing.Absent? || existing.Unreadable? ==> !skip
    ensures skipDuplicate && existing.Content? ==> (skip <==> hash(existing.data) == hash(content))
  {
    if !skipDuplicate then false
    else match existing
      case Absent => false
      case Unreadable => false
      case Content(data) => hash(data) == hash(content)
  }

  /** The markdown (and the JSON dump) is written unless downloads are not
      forced and the file can be skipped. */
  function WritesFile(existing: Existing, content: string, skipDuplicate: bool, forceDownload: bool,
                      hash: string -> string): (write: bool)
    ensures forceDownload || !skipDuplicate || !existing.Content? ==> write
  {
    !(!forceDownload && ShouldSkipFile(existing, content, skipDuplicate, hash))
  }

  /** With a collision-free hash, a file is skipped exactly when it already
      holds the new content (and skipping is on and not overridden). */
  lemma SkipExactlyWhenIdentical(existing: Existing, content: string, skipDuplicate: bool, forceDownload: bool,
                                 hash: string -> string)
    requires forall a, b :: hash(a) == hash(b) ==> a == b
    ensures !WritesFile(existing, content, skipDuplicate, forceDownload, hash) <==>
      !forceDownload && skipDuplicate && existing == Content(content)
  {
  }

  /** The tokens of `s` without repeats, each at its first occurrence. */
  function Unique(s: seq<string>): (r: seq<string>)
    ensures forall x :: x in r <==> x in s
    decreases |s|
  {
    if |s| == 0 then []
    else
      var init := s[..|s| - 1];
      var u := Unique(init);
      assert forall x :: x in s <==> x in init || x == s[|s| - 1];
      if s[|s| - 1] in init then u else u + [s[|s| - 1]]
  }

  predicate NoDup<T(==)>(s: seq<T>) {
    forall i, j :: 0 <= i < j < |s| ==> s[i] != s[j]
  }

  /** The index of the first occurrence of x. */
  function FirstIndex<T(==)>(s: seq<T>, x: T): (k: nat)
    requires x in s
    ensures k < |s| && s[k] == x
    ensures forall j :: 0 <= j < k ==> s[j] != x
  {
    if s[0] == x then 0 else 1 + FirstIndex(s[1..], x)
  }

  /** Appending leaves the first occurrence of an earlier element alone. */
  lemma FirstIndexInit<T>(s: seq<T>, y: T)
    requires |s| > 0 && y in s[..|s| - 1]
    ensures y in s && FirstIndex(s, y) == FirstIndex(s[..|s| - 1], y)
  {
    var init := s[..|s| - 1];
    var k := FirstIndex(init, y);
    assert s[k] == y;
    var m := FirstIndex(s, y);
    assert m <= k;
    assert init[m] == s[m];
  }

  /** The de-duplicated tokens hold each token once, in the order of first
      occurrence. */
  lemma {:induction false} UniqueOrdered(s: seq<string>)
    ensures NoDup(Unique(s))
    ensures forall i, j :: 0 <= i < j < |Unique(s)| ==> FirstIndex(s, Unique(s)[i]) < FirstIndex(s, Unique(s)[j])
    decreases |s|
  {
    if |s| > 0 {
      var init := s[..|s| - 1];
      var x := s[|s| - 1];
      UniqueOrdered(init);
      var u := Unique(init);
      forall y | y in init
        ensures FirstIndex(s, y) == FirstIndex(init, y)
      {
        FirstIndexInit(s, y);
      }
      if x !in init {
        var r := u + [x];
        forall i, j | 0 <= i < j < |r|
          ensures r[i] != r[j] && FirstIndex(s, r[i]) < FirstIndex(s, r[j])
        {
          assert r[i] == u[i] && u[i] in init;
          if j < |u| {
            assert r[j] == u[j] && u[j] in init;
          } else {
            assert r[j] == x;
            assert FirstIndex(s, x) == |init|;
          }
        }
      } else {
        forall i, j | 0 <= i < j < |u|
          ensures FirstIndex(s, u[i]) < FirstIndex(s, u[j])
        {
          assert u[i] in init && u[j] in init;
        }
      }
    }
  }

  /** The de-duplication loop, with `seen` as the set of tokens met so far. */
  method DedupTokens(tokens: seq<string>) returns (unique: seq<string>)
    ensures unique == Unique(tokens)
  {
    unique := [];
    var seen: set<string> := {};
    var i := 0;
    while i < |tokens|
      invariant 0 <= i <= |tokens|
      invariant unique == Unique(tokens[..i])
      invariant forall x :: x in seen <==> x in tokens[..i]
    {
      var t := tokens[i];
      assert tokens[..i + 1][..i] == tokens[..i];
      assert forall x :: x in tokens[..i + 1] <==> x in tokens[..i] || x == t;
      if t !in seen {
        seen := seen + {t};
        unique := unique + [t];
      }
      i := i + 1;
    }
    assert tokens[..|tokens|] == tokens;
  }

  /** What a worker reports for one token. */
  datatype Outcome = Outcome(token: string, link: string, fromImgbed: bool, needUpload: bool, err: Option<string>)

  /** The image worker: with an uploader, an object of the image bed whose
      name starts with the token is used as it is; otherwise the image is
      downloaded (`download` gives DownloadImage's link or its error), and a
      downloaded image is marked for upload when there is an uploader. */
  function Worker(token: string, hasUploader: bool, findByPrefix: string -> Option<string>,
                  download: string -> Result<string, string>): (r: Outcome)
    ensures r.token == token
    ensures r.fromImgbed <==> hasUploader && findByPrefix(token).Some?
    ensures r.fromImgbed ==> r.err.None? && r.link == findByPrefix(token).value && !r.needUpload
    ensures !r.fromImgbed ==> (r.err.None? <==> download(token).Ok?)
    ensures !r.fromImgbed && r.err.None? ==> r.link == download(token).value && (r.needUpload <==> hasUploader)
    ensures r.err.Some? ==> r.link == "" && !r.needUpload
  {
    if hasUploader && findByPrefix(token).Some? then Outcome(token, findByPrefix(token).value, true, false, None)
    else match download(token)
      case Err(e) => Outcome(token, "", false, false, Some(e))
      case Ok(link) => Outcome(token, link, false, hasUploader, None)
  }

  /** The merged results: token to link, the downloads to upload, and the
      success, image-bed hit and failure counts. */
  datatype Merged = Merged(tokenToLink: map<string, string>, needUpload: map<string, string>,
                           success: nat, hits: nat, failed: nat)

  /** The result loop over the outcomes, in the order they arrive. */
  function MergeOf(rs: seq<Outcome>): Merged
    decreases |rs|
  {
    if |rs| == 0 then Merged(map[], map[], 0, 0, 0)
    else
      var m := MergeOf(rs[..|rs| - 1]);
      var r := rs[|rs| - 1];
      if r.err.Some? then m.(failed := m.failed + 1)
      else
        m.(tokenToLink := m.tokenToLink[r.token := r.link],
           success := m.success + 1,
           hits := if r.fromImgbed then m.hits + 1 else m.hits,
           needUpload := if !r.fromImgbed && r.needUpload then m.needUpload[r.token := r.link] else m.needUpload)
  }

  method MergeResults(rs: seq<Outcome>) returns (m: Merged)
    ensures m == MergeOf(rs)
  {
    var tokenToLink: map<string, string> := map[];
    var needUpload: map<string, string> := map[];
    var success, hits, failed := 0, 0, 0;
    var i := 0;
    while i < |rs|
      invariant 0 <= i <= |rs|
      invariant MergeOf(rs[..i]) == Merged(tokenToLink, needUpload, success, hits, failed)
    {
      var r := rs[i];
      assert rs[..i + 1][..i] == rs[..i];
      if r.err.Some? {
        failed := failed + 1;
      } else {
        tokenToLink := tokenToLink[r.token := r.link];
        success := success + 1;
        if r.fromImgbed {
          hits := hits + 1;
        } else if r.needUpload {
          needUpload := needUpload[r.token := r.link];
        }
      }
      i := i + 1;
    }
    assert rs[..|rs|] == rs;
    m := Merged(tokenToLink, needUpload, success, hits, failed);
  }

  predicate DistinctTokens(rs: seq<Outcome>) {
    forall i, j :: 0 <= i < j < |rs| ==> rs[i].token != rs[j].token
  }

  /** Every outcome is counted once as a success or a failure, hits are
      successes, and uploads are linked tokens. */
  lemma {:induction false} MergeCounts(rs: seq<Outcome>)
    ensures MergeOf(rs).success + MergeOf(rs).failed == |rs|
    ensures MergeOf(rs).hits <= MergeOf(rs).success
    ensures MergeOf(rs).needUpload.Keys <= MergeOf(rs).tokenToLink.Keys
    ensures |MergeOf(rs).needUpload| <= MergeOf(rs).success - MergeOf(rs).hits
    decreases |rs|
  {
    if |rs| > 0 {
      MergeCounts(rs[..|rs| - 1]);
    }
  }

  /** With one outcome per token: a token is linked iff its outcome
      succeeded, with the outcome's link; it is to be uploaded iff it was
      downloaded and marked for upload. */
  lemma MergeLinks(rs: seq<Outcome>)
    requires DistinctTokens(rs)
    ensures forall t :: t in MergeOf(rs).tokenToLink <==> exists k :: 0 <= k < |rs| && rs[k].token == t && rs[k].err.None?
    ensures forall k :: 0 <= k < |rs| && rs[k].err.None? ==> MergeOf(rs).tokenToLink[rs[k].token] == rs[k].link
    ensures forall t :: t in MergeOf(rs).needUpload <==>
      exists k :: 0 <= k < |rs| && rs[k].token == t && rs[k].err.None? && !rs[k].fromImgbed && rs[k].needUpload
    ensures forall t :: t in MergeOf(rs).needUpload ==> MergeOf(rs).needUpload[t] == MergeOf(rs).tokenToLink[t]
  {
    MergeLinked(rs);
    MergeUploads(rs);
    MergeUploadLinks(rs);
  }

  /** The token-to-link half of MergeLinks. */
  lemma {:induction false} MergeLinked(rs: seq<Outcome>)
    requires DistinctTokens(rs)
    ensures forall t :: t in MergeOf(rs).tokenToLink <==> exists k :: 0 <= k < |rs| && rs[k].token == t && rs[k].err.None?
    ensures forall k :: 0 <= k < |rs| && rs[k].err.None? ==> MergeOf(rs).tokenToLink[rs[k].token] == rs[k].link
    decreases |rs|
  {
    if |rs| > 0 {
      var init := rs[..|rs| - 1];
      var last := |rs| - 1;
      MergeLinked(init);
      var m := MergeOf(init);
      var m' := MergeOf(rs);
      forall t
        ensures t in m'.tokenToLink <==> exists k :: 0 <= k < |rs| && rs[k].token == t && rs[k].err.None?
      {
        if t in m'.tokenToLink {
          if rs[last].err.None? && t == rs[last].token {
            assert rs[last].token == t && rs[last].err.None?;
          } else {
            assert t in m.tokenToLink;
            var k :| 0 <= k < |init| && init[k].token == t && init[k].err.None?;
            assert rs[k] == init[k];
          }
        }
        if exists k :: 0 <= k < |rs| && rs[k].token == t && rs[k].err.None? {
          var k :| 0 <= k < |rs| && rs[k].token == t && rs[k].err.None?;
          if k < last {
            assert init[k] == rs[k];
          }
        }
      }
      forall k | 0 <= k < |rs| && rs[k].err.None?
        ensures m'.tokenToLink[rs[k].token] == rs[k].link
      {
        if k < last {
          assert init[k] == rs[k];
          assert rs[k].token != rs[last].token;
        }
      }
    }
  }

  /** The upload half of MergeLinks. */
  lemma {:induction false} MergeUploads(rs: seq<Outcome>)
    requires DistinctTokens(rs)
    ensures forall t :: t in MergeOf(rs).needUpload <==>
      exists k :: 0 <= k < |rs| && rs[k].token == t && rs[k].err.None? && !rs[k].fromImgbed && rs[k].needUpload
    decreases |rs|
  {
    if |rs| > 0 {
      var init := rs[..|rs| - 1];
      var last := |rs| - 1;
      MergeUploads(init);
      var m := MergeOf(init);
      var m' := MergeOf(rs);
      forall t
        ensures t in m'.needUpload <==>
          exists k :: 0 <= k < |rs| && rs[k].token == t && rs[k].err.None? && !rs[k].fromImgbed && rs[k].needUpload
      {
        var r := rs[last];
        if t in m'.needUpload {
          if r.err.None? && !r.fromImgbed && r.needUpload && t == r.token {
            assert rs[last].token == t;
          } else {
            assert t in m.needUpload;
            var k :| 0 <= k < |init| && init[k].token == t && init[k].err.None? && !init[k].fromImgbed && init[k].needUpload;
            assert rs[k] == init[k];
          }
        }
        if exists k :: 0 <= k < |rs| && rs[k].token == t && rs[k].err.None? && !rs[k].fromImgbed && rs[k].needUpload {
          var k :| 0 <= k < |rs| && rs[k].token == t && rs[k].err.None? && !rs[k].fromImgbed && rs[k].needUpload;
          if k < last {
            assert init[k] == rs[k];
            assert t != r.token;
          }
        }
      }
    }
  }

  /** An upload carries the link its token is mapped to. */
  lemma {:induction false} MergeUploadLinks(rs: seq<Outcome>)
    requires DistinctTokens(rs)
    ensures MergeOf(rs).needUpload.Keys <= MergeOf(rs).tokenToLink.Keys
    ensures forall t :: t in MergeOf(rs).needUpload ==> MergeOf(rs).needUpload[t] == MergeOf(rs).tokenToLink[t]
    decreases |rs|
  {
    if |rs| > 0 {
      var init := rs[..|rs| - 1];
      MergeUploadLinks(init);
      MergeLinked(init);
    }
  }

  /** The merge of the workers' outcomes for the de-duplicated tokens, in any
      arrival order: a token is linked iff it was found on the image bed or
      downloaded; nothing is uploaded, nor found on the bed, without an
      uploader; only downloads are uploaded. */
  lemma MergeOfWorkers(unique: seq<string>, rs: seq<Outcome>, hasUploader: bool,
                       findByPrefix: string -> Option<string>, download: string -> Result<string, string>)
    requires NoDup(unique) && |rs| == |unique|
    requires forall t :: t in unique <==> exists k :: 0 <= k < |rs| && rs[k].token == t
    requires forall k :: 0 <= k < |rs| ==> rs[k] == Worker(rs[k].token, hasUploader, findByPrefix, download)
    requires DistinctTokens(rs)
    ensures var m := MergeOf(rs);
      m.success + m.failed == |unique| && m.hits <= m.success
    ensures var m := MergeOf(rs);
      forall t :: t in m.tokenToLink <==>
        t in unique && ((hasUploader && findByPrefix(t).Some?) || download(t).Ok?)
    ensures var m := MergeOf(rs);
      forall t :: t in m.needUpload ==>
        (hasUploader && findByPrefix(t).None? && download(t).Ok? && m.needUpload[t] == download(t).value)
    ensures !hasUploader ==> MergeOf(rs).needUpload == map[] && MergeOf(rs).hits == 0
  {
    MergeCounts(rs);
    MergeLinks(rs);
    var m := MergeOf(rs);
    forall t
      ensures t in m.tokenToLink <==> t in unique && ((hasUploader && findByPrefix(t).Some?) || download(t).Ok?)
    {
      if t in unique {
        var k :| 0 <= k < |rs| && rs[k].token == t;
        var w := Worker(t, hasUploader, findByPrefix, download);
        assert rs[k] == w;
      }
    }
    if !hasUploader {
      NoHitsWithoutUploader(rs, hasUploader, findByPrefix, download);
      assert m.needUpload.Keys == {};
    }
  }

  lemma {:induction false} NoHitsWithoutUploader(rs: seq<Outcome>, hasUploader: bool,
                                                 findByPrefix: string -> Option<string>,
                                                 download: string -> Result<string, string>)
    requires !hasUploader
    requires forall k :: 0 <= k < |rs| ==> rs[k] == Worker(rs[k].token, hasUploader, findByPrefix, download)
    ensures MergeOf(rs).hits == 0 && MergeOf(rs).needUpload == map[]
    decreases |rs|
  {
    if |rs| > 0 {
      NoHitsWithoutUploader(rs[..|rs| - 1], hasUploader, findByPrefix, download);
    }
  }

  /** The local file of a downloaded image: its link under the output
      directory. */
  function UploadPath(outputDir: string, link: string): string {
    Join(outputDir, link)
  }

  /** The paths handed to the batch upload. */
  function UploadPaths(outputDir: string, needUpload: map<string, string>): (paths: set<string>)
    ensures forall t :: t in needUpload ==> UploadPath(outputDir, needUpload[t]) in paths
    ensures forall p :: p in paths ==> exists t :: t in needUpload && p == UploadPath(outputDir, needUpload[t])
  {
    set t | t in needUpload :: UploadPath(outputDir, needUpload[t])
  }

  /** A token's final link: the image-bed URL when its local file is a key of
      the upload result, its merged link otherwise. */
  function FinalLink(t: string, tokenToLink: map<string, string>, needUpload: map<string, string>,
                     outputDir: string, uploaded: map<string, string>): string
    requires t in tokenToLink
  {
    if t in needUpload && UploadPath(outputDir, needUpload[t]) in uploaded
    then uploaded[UploadPath(outputDir, needUpload[t])]
    else tokenToLink[t]
  }

  /** The tokens of `done` whose upload succeeded. */
  function Switched(done: set<string>, needUpload: map<string, string>, outputDir: string,
                    uploaded: map<string, string>): set<string>
  {
    set t | t in done && t in needUpload && UploadPath(outputDir, needUpload[t]) in uploaded
  }

  /** Marking one more token done adds one to the count exactly when its
      upload succeeded. */
  lemma SwitchedStep(done: set<string>, t: string, needUpload: map<string, string>, outputDir: string,
                     uploaded: map<string, string>)
    requires t !in done && t in needUpload
    ensures |Switched(done + {t}, needUpload, outputDir, uploaded)|
      == |Switched(done, needUpload, outputDir, uploaded)| + (if UploadPath(outputDir, needUpload[t]) in uploaded then 1 else 0)
  {
    var before := Switched(done, needUpload, outputDir, uploaded);
    var after := Switched(done + {t}, needUpload, outputDir, uploaded);
    if UploadPath(outputDir, needUpload[t]) in uploaded {
      assert after == before + {t};
    } else {
      assert after == before;
    }
  }

  /** The links once the tokens of `done` have been processed. */
  function SwitchedLinks(done: set<string>, tokenToLink: map<string, string>, needUpload: map<string, string>,
                         outputDir: string, uploaded: map<string, string>): map<string, string>
  {
    map t | t in tokenToLink ::
      if t in done && t in needUpload && UploadPath(outputDir, needUpload[t]) in uploaded
      then uploaded[UploadPath(outputDir, needUpload[t])]
      else tokenToLink[t]
  }

  /** Processing one more token changes at most its own link, to its
      image-bed URL when its upload succeeded. */
  lemma SwitchedLinksStep(done: set<string>, t: string, tokenToLink: map<string, string>,
                          needUpload: map<string, string>, outputDir: string, uploaded: map<string, string>)
    requires t in needUpload && needUpload.Keys <= tokenToLink.Keys
    ensures var p := UploadPath(outputDir, needUpload[t]);
      SwitchedLinks(done + {t}, tokenToLink, needUpload, outputDir, uploaded)
        == if p in uploaded then SwitchedLinks(done, tokenToLink, needUpload, outputDir, uploaded)[t := uploaded[p]]
           else SwitchedLinks(done, tokenToLink, needUpload, outputDir, uploaded)
  {
  }

  /** With every upload processed, each token has its final link. */
  lemma SwitchedLinksAll(tokenToLink: map<string, string>, needUpload: map<string, string>, outputDir: string,
                         uploaded: map<string, string>)
    ensures var links := SwitchedLinks(needUpload.Keys, tokenToLink, needUpload, outputDir, uploaded);
      links.Keys == tokenToLink.Keys
      && forall t :: t in links ==> links[t] == FinalLink(t, tokenToLink, needUpload, outputDir, uploaded)
  {
  }

  /** One turn of the upload loop: switch `t` to its image-bed URL and count
      it when its local file was uploaded. */
  method SwitchOne(links: map<string, string>, count: nat, t: string, needUpload: map<string, string>,
                   outputDir: string, uploaded: map<string, string>,
                   ghost done: set<string>, ghost tokenToLink: map<string, string>)
    returns (links': map<string, string>, count': nat)
    requires t in needUpload && t !in done && needUpload.Keys <= tokenToLink.Keys
    requires links == SwitchedLinks(done, tokenToLink, needUpload, outputDir, uploaded)
    requires count == |Switched(done, needUpload, outputDir, uploaded)|
    ensures links' == SwitchedLinks(done + {t}, tokenToLink, needUpload, outputDir, uploaded)
    ensures count' == |Switched(done + {t}, needUpload, outputDir, uploaded)|
  {
    var fullPath := UploadPath(outputDir, needUpload[t]);
    SwitchedStep(done, t, needUpload, outputDir, uploaded);
    SwitchedLinksStep(done, t, tokenToLink, needUpload, outputDir, uploaded);
    links', count' := links, count;
    if fullPath in uploaded {
      links' := links[t := uploaded[fullPath]];
      count' := count + 1;
    }
  }

  lemma DoneStep<T>(all: set<T>, done: set<T>, t: T)
    requires done <= all && t in all - done
    ensures done + {t} <= all && all - done - {t} == all - (done + {t})
  {
  }

  /** The loop over the images to upload: a token whose local file was
      uploaded is switched to its image-bed URL and counted; every other
      link stays. */
  method SwitchToImgbed(tokenToLink: map<string, string>, needUpload: map<string, string>, outputDir: string,
                        uploaded: map<string, string>) returns (links: map<string, string>, uploadedCount: nat)
    requires needUpload.Keys <= tokenToLink.Keys
    ensures links.Keys == tokenToLink.Keys
    ensures forall t :: t in links ==> links[t] == FinalLink(t, tokenToLink, needUpload, outputDir, uploaded)
    ensures uploadedCount == |Switched(needUpload.Keys, needUpload, outputDir, uploaded)|
  {
    links := tokenToLink;
    uploadedCount := 0;
    var remaining := needUpload.Keys;
    ghost var done: set<string> := {};
    assert links == SwitchedLinks(done, tokenToLink, needUpload, outputDir, uploaded);
    while remaining != {}
      invariant done <= needUpload.Keys && remaining == needUpload.Keys - done
      invariant links == SwitchedLinks(done, tokenToLink, needUpload, outputDir, uploaded)
      invariant uploadedCount == |Switched(done, needUpload, outputDir, uploaded)|
      decreases |remaining|
    {
      var t :| t in remaining;
      links, uploadedCount := SwitchOne(links, uploadedCount, t, needUpload, outputDir, uploaded, done, tokenToLink);
      DoneStep(needUpload.Keys, done, t);
      remaining := remaining - {t};
      done := done + {t};
    }
    assert done == needUpload.Keys;
    SwitchedLinksAll(tokenToLink, needUpload, outputDir, uploaded);
  }

  /** With no successful outcome nothing is linked and nothing is to be
      uploaded: behind the `successCount > 0` guard, the upload and the link
      rewrite would change nothing, so the guard matters only to the
      statistics. */
  lemma {:induction false} NoSuccessNothingLinked(rs: seq<Outcome>)
    ensures MergeOf(rs).success == 0 <==> forall k :: 0 <= k < |rs| ==> rs[k].err.Some?
    ensures MergeOf(rs).success == 0 ==> MergeOf(rs).tokenToLink == map[] && MergeOf(rs).needUpload == map[]
    decreases |rs|
  {
    if |rs| > 0 {
      var init := rs[..|rs| - 1];
      NoSuccessNothingLinked(init);
      assert forall k :: 0 <= k < |init| ==> init[k] == rs[k];
    }
  }

  /** The image statistics of one document: when some image succeeded and
      statistics are kept, the images met (every unique token) and the new
      ones (the downloads to upload) are added to the counters, and the
      document's image entry joins the log; otherwise nothing changes. */
  method RecordImages(stats: Stats.DownloadStats?, logs: Stats.LogCollector, uniqueTokens: seq<string>,
                      rs: seq<Outcome>, relDir: string, mdName: string)
    modifies stats, logs
    ensures var m := MergeOf(rs);
      stats != null && m.success > 0 ==>
        stats.totalImages == old(stats.totalImages) + |uniqueTokens|
        && stats.imagesNew == old(stats.imagesNew) + |m.needUpload|
        && stats.totalDocs == old(stats.totalDocs) && stats.docsNew == old(stats.docsNew)
        && logs.logs == old(logs.logs) + [Stats.ImageLog(relDir, mdName, m.hits, |m.needUpload|)]
    ensures stats != null && MergeOf(rs).success == 0 ==> unchanged(stats)
    ensures stats == null || MergeOf(rs).success == 0 ==> logs.logs == old(logs.logs)
    ensures stats != null && |rs| == |uniqueTokens| && old(stats.Consistent()) ==> stats.Consistent()
  {
    var m := MergeResults(rs);
    if m.success > 0 {
      if stats != null {
        MergeCounts(rs);
        var downloaded := |m.needUpload|;
        stats.AddImages(|uniqueTokens|, downloaded);
        logs.Add(Stats.ImageLog(relDir, mdName, m.hits, downloaded));
      }
    }
  }

  /** The body after replacing each token of `order` by its link, in turn. */
  function ReplaceEach(markdown: string, order: seq<string>, links: map<string, string>): string
    requires forall k :: 0 <= k < |order| ==> order[k] in links
    decreases |order|
  {
    if |order| == 0 then markdown
    else
      var t := order[|order| - 1];
      ReplaceAll(ReplaceEach(markdown, order[..|order| - 1], links), t, links[t])
  }

  /** The replacement loop; `order` is the order in which Go's map iteration
      happens to visit the tokens. */
  method ReplaceLinks(markdown: string, links: map<string, string>, order: seq<string>) returns (r: string)
    requires forall t :: t in order <==> t in links
    requires NoDup(order)
    ensures r == ReplaceEach(markdown, order, links)
  {
    r := markdown;
    var i := 0;
    while i < |order|
      invariant 0 <= i <= |order|
      invariant r == ReplaceEach(markdown, order[..i], links)
    {
      assert order[..i + 1][..i] == order[..i];
      r := ReplaceAll(r, order[i], links[order[i]]);
      i := i + 1;
    }
    assert order[..|order|] == order;
  }

  /** A body that holds none of the tokens is left as it is, whatever the
      order. */
  lemma {:induction false} ReplaceEachAbsent(markdown: string, order: seq<string>, links: map<string, string>)
    requires forall k :: 0 <= k < |order| ==> order[k] in links && |order[k]| > 0 && !Contains(markdown, order[k])
    ensures ReplaceEach(markdown, order, links) == markdown
    decreases |order|
  {
    if |order| > 0 {
      var t := order[|order| - 1];
      ReplaceEachAbsent(markdown, order[..|order| - 1], links);
      ReplaceAllAbsent(markdown, t, links[t]);
    }
  }

  /* The rewrite above is meant to swap every image token of the body for
     its link. Image tokens are runs of ASCII letters and digits, so the
     body is read as its maximal such runs (words) and the single runes
     between them (gaps). */

  predicate IsTokenRune(c: char) {
    'a' <= c <= 'z' || 'A' <= c <= 'Z' || '0' <= c <= '9'
  }

  predicate IsWord(w: string) {
    |w| > 0 && forall k :: 0 <= k < |w| ==> IsTokenRune(w[k])
  }

  predicate IsGap(p: string) {
    |p| == 1 && !IsTokenRune(p[0])
  }

  /** The pieces glued together. */
  function Concat(ps: seq<string>): string
    decreases |ps|
  {
    if |ps| == 0 then "" else ps[0] + Concat(ps[1..])
  }

  /** No two neighbouring pieces are both longer than a gap. */
  predicate Separated(ps: seq<string>)
    decreases |ps|
  {
    |ps| <= 1 || ((IsGap(ps[0]) || IsGap(ps[1])) && Separated(ps[1..]))
  }

  /** The length of the run of token runes `s` starts with. */
  function WordLen(s: string): (n: nat)
    ensures n <= |s|
    ensures forall k :: 0 <= k < n ==> IsTokenRune(s[k])
    ensures n < |s| ==> !IsTokenRune(s[n])
    decreases |s|
  {
    if |s| > 0 && IsTokenRune(s[0]) then 1 + WordLen(s[1..]) else 0
  }

  /** `s` cut into its words and gaps. */
  function Pieces(s: string): (ps: seq<string>)
    ensures Concat(ps) == s
    ensures forall k :: 0 <= k < |ps| ==> IsWord(ps[k]) || IsGap(ps[k])
    ensures Separated(ps)
    ensures |s| > 0 && !IsTokenRune(s[0]) ==> |ps| > 0 && IsGap(ps[0])
    decreases |s|
  {
    if |s| == 0 then []
    else
      var n := if IsTokenRune(s[0]) then WordLen(s) else 1;
      var rest := Pieces(s[n..]);
      assert s[..n] + s[n..] == s;
      [s[..n]] + rest
  }

  /** The pieces with every piece in `done` swapped for its link. */
  function LinkPieces(ps: seq<string>, links: map<string, string>, done: set<string>): (qs: seq<string>)
    requires done <= links.Keys
    ensures |qs| == |ps|
    ensures forall k :: 0 <= k < |ps| ==> qs[k] == if ps[k] in done then links[ps[k]] else ps[k]
    decreases |ps|
  {
    if |ps| == 0 then [] else [if ps[0] in done then links[ps[0]] else ps[0]] + LinkPieces(ps[1..], links, done)
  }

  /** The intended rewrite: every word of the body that has a link becomes
      that link; every other word (a token whose download failed, say) and
      every gap stays as it is. */
  function Rewrite(markdown: string, links: map<string, string>): string
  {
    Concat(LinkPieces(Pieces(markdown), links, links.Keys))
  }

  /** What real tokens and links look like: every token is a word, no token
      is part of a longer word of the body, and no link holds another token. */
  predicate TokenLinks(markdown: string, links: map<string, string>) {
    (forall t :: t in links ==> IsWord(t))
    && (forall t, w :: t in links && w in Pieces(markdown) && w != t ==> !Contains(w, t))
    && (forall t, u :: t in links && u in links && u != t ==> !Contains(links[u], t))
  }

  /** Gaps left in place keep the pieces separated. */
  lemma {:induction false} SeparatedKeepsGaps(ps: seq<string>, qs: seq<string>)
    requires Separated(ps) && |qs| == |ps|
    requires forall k :: 0 <= k < |ps| && IsGap(ps[k]) ==> qs[k] == ps[k]
    ensures Separated(qs)
    decreases |ps|
  {
    if |ps| > 1 {
      SeparatedKeepsGaps(ps[1..], qs[1..]);
    }
  }

  /** Replacing a word across separated pieces replaces the pieces equal to
      it and leaves the pieces that do not hold it. */
  lemma {:induction false} ReplaceAllPieces(qs: seq<string>, t: string, r: string, qs': seq<string>)
    requires IsWord(t) && Separated(qs)
    requires forall k :: 0 <= k < |qs| ==> qs[k] == t || !Contains(qs[k], t)
    requires |qs'| == |qs| && forall k :: 0 <= k < |qs| ==> qs'[k] == if qs[k] == t then r else qs[k]
    ensures ReplaceAll(Concat(qs), t, r) == Concat(qs')
    decreases |qs|
  {
    if |qs| > 0 {
      var a := qs[0];
      var b := Concat(qs[1..]);
      forall i | 0 <= i < |a| < i + |t| ensures !OccursAt(a + b, t, i) {
        GapBlocks(qs, t, i);
      }
      ReplaceAllSplit(a, b, t, r);
      if a == t {
        assert a[..|t|] == t && a[|t|..] == "";
      } else {
        ReplaceAllAbsent(a, t, r);
      }
      ReplaceAllPieces(qs[1..], t, r, qs'[1..]);
    }
  }

  /** A word cannot run across the end of the first piece. */
  lemma GapBlocks(qs: seq<string>, t: string, i: int)
    requires |qs| > 0 && IsWord(t) && Separated(qs)
    requires 0 <= i < |qs[0]| < i + |t|
    ensures !OccursAt(Concat(qs), t, i)
  {
    var s := Concat(qs);
    assert s == qs[0] + Concat(qs[1..]);
    if i + |t| <= |s| {
      var p := if IsGap(qs[0]) then 0 else |qs[0]|;
      if !IsGap(qs[0]) {
        assert |Concat(qs[1..])| > 0;
        assert |qs| > 1;
        assert Concat(qs[1..]) == qs[1] + Concat(qs[2..]);
        assert s[p] == qs[1][0];
      }
      assert !IsTokenRune(s[p]) && IsTokenRune(t[p - i]);
      assert s[i..i + |t|][p - i] == s[p];
    }
  }

  /** One more token replaced: its words become its link, and nothing else
      changes. */
  lemma ReplaceStep(markdown: string, links: map<string, string>, before: set<string>, t: string)
    requires TokenLinks(markdown, links)
    requires before <= links.Keys && t in links && t !in before
    ensures ReplaceAll(Concat(LinkPieces(Pieces(markdown), links, before)), t, links[t])
            == Concat(LinkPieces(Pieces(markdown), links, before + {t}))
  {
    TokenLinksFor(markdown, links, before, t);
    StepCore(Pieces(markdown), links, before, t);
  }

  /** What TokenLinks says about the token `t` and the tokens replaced
      before it. */
  lemma TokenLinksFor(markdown: string, links: map<string, string>, before: set<string>, t: string)
    requires TokenLinks(markdown, links)
    requires before <= links.Keys && t in links && t !in before
    ensures IsWord(t) && forall u :: u in before ==> IsWord(u)
    ensures forall w :: w in Pieces(markdown) && w != t ==> !Contains(w, t)
    ensures forall u :: u in before ==> !Contains(links[u], t)
  {
  }

  /** The step on the pieces themselves. */
  lemma StepCore(ps: seq<string>, links: map<string, string>, before: set<string>, t: string)
    requires Separated(ps)
    requires before <= links.Keys && t in links && t !in before
    requires IsWord(t) && forall u :: u in before ==> IsWord(u)
    requires forall w :: w in ps && w != t ==> !Contains(w, t)
    requires forall u :: u in before ==> !Contains(links[u], t)
    ensures ReplaceAll(Concat(LinkPieces(ps, links, before)), t, links[t])
            == Concat(LinkPieces(ps, links, before + {t}))
  {
    var qs := LinkPieces(ps, links, before);
    var qs' := LinkPieces(ps, links, before + {t});
    forall k | 0 <= k < |ps| && IsGap(ps[k]) ensures qs[k] == ps[k] {
      assert !IsWord(ps[k]);
    }
    SeparatedKeepsGaps(ps, qs);
    StepPieces(ps, links, before, t, qs, qs');
    ReplaceAllPieces(qs, t, links[t], qs');
  }

  /** Before `t` is replaced, a piece is `t` itself or does not hold it; once
      replaced, exactly the pieces equal to `t` have become its link. */
  lemma StepPieces(ps: seq<string>, links: map<string, string>, before: set<string>, t: string,
                   qs: seq<string>, qs': seq<string>)
    requires before <= links.Keys && t in links && t !in before && |t| > 0
    requires forall w :: w in ps && w != t ==> !Contains(w, t)
    requires forall u :: u in before ==> !Contains(links[u], t)
    requires qs == LinkPieces(ps, links, before) && qs' == LinkPieces(ps, links, before + {t})
    ensures forall k :: 0 <= k < |qs| ==> qs[k] == t || !Contains(qs[k], t)
    ensures |qs'| == |qs| && forall k :: 0 <= k < |qs| ==> qs'[k] == if qs[k] == t then links[t] else qs[k]
  {
    assert OccursAt(t, t, 0);
    forall k | 0 <= k < |qs| ensures qs[k] == t || !Contains(qs[k], t) {
      if ps[k] !in before {
        assert ps[k] in ps;
      }
    }
  }

  /** Replacing the tokens of `order` one after another swaps exactly the
      words among them for their links. */
  lemma {:induction false} ReplaceEachPieces(markdown: string, order: seq<string>, links: map<string, string>)
    requires TokenLinks(markdown, links)
    requires NoDup(order) && forall k :: 0 <= k < |order| ==> order[k] in links
    ensures ReplaceEach(markdown, order, links)
            == Concat(LinkPieces(Pieces(markdown), links, set x | x in order))
    decreases |order|
  {
    var ps := Pieces(markdown);
    if |order| == 0 {
      assert (set x | x in order) == {};
      assert LinkPieces(ps, links, {}) == ps;
    } else {
      var n := |order| - 1;
      var pre := order[..n];
      var t := order[n];
      NoDupInit(order);
      ReplaceEachPieces(markdown, pre, links);
      ReplaceStep(markdown, links, (set x | x in pre), t);
    }
  }

  /** Dropping the last element of a list without repeats: the rest has no
      repeats and lacks that element, and the elements are those of the rest
      and the last. */
  lemma NoDupInit<T>(s: seq<T>)
    requires NoDup(s) && |s| > 0
    ensures var n := |s| - 1;
      NoDup(s[..n]) && s[n] !in s[..n] && (set x | x in s) == (set x | x in s[..n]) + {s[n]}
  {
    var n := |s| - 1;
    var pre := s[..n];
    forall i, j | 0 <= i < j < n ensures pre[i] != pre[j] {
      assert pre[i] == s[i] && pre[j] == s[j];
    }
    forall k | 0 <= k < n ensures pre[k] != s[n] {
      assert pre[k] == s[k];
    }
    assert s == pre + [s[n]];
  }

  /** The replacement loop, in whatever order the map hands out the tokens,
      performs the intended rewrite. */
  lemma ReplaceEachRewrite(markdown: string, order: seq<string>, links: map<string, string>)
    requires TokenLinks(markdown, links)
    requires NoDup(order) && forall t :: t in order <==> t in links
    ensures ReplaceEach(markdown, order, links) == Rewrite(markdown, links)
  {
    ReplaceEachPieces(markdown, order, links);
    assert (set x | x in order) == links.Keys;
  }

  /** So the result does not depend on the map's iteration order. */
  lemma ReplaceEachOrderFree(markdown: string, order1: seq<string>, order2: seq<string>, links: map<string, string>)
    requires TokenLinks(markdown, links)
    requires NoDup(order1) && forall t :: t in order1 <==> t in links
    requires NoDup(order2) && forall t :: t in order2 <==> t in links
    ensures ReplaceEach(markdown, order1, links) == ReplaceEach(markdown, order2, links)
  {
    ReplaceEachRewrite(markdown, order1, links);
    ReplaceEachRewrite(markdown, order2, links);
  }

  /** Every piece shows up in the glued string. */
  lemma {:induction false} ConcatHolds(ps: seq<string>, k: int)
    requires 0 <= k < |ps|
    ensures Contains(Concat(ps), ps[k])
    decreases |ps|
  {
    var s := Concat(ps);
    if k == 0 {
      assert s[..|ps[0]|] == ps[0];
      assert OccursAt(s, ps[0], 0);
    } else {
      ConcatHolds(ps[1..], k - 1);
      var i :| 0 <= i <= |Concat(ps[1..])| && OccursAt(Concat(ps[1..]), ps[k], i);
      assert s[|ps[0]|..] == Concat(ps[1..]);
      OccursInSuffix(s, |ps[0]|, ps[k], i);
    }
  }

  /** In the rewritten body a token with a link is replaced by it, and a
      token without one (its download failed) is still there. */
  lemma RewritePiece(markdown: string, links: map<string, string>, w: string)
    requires w in Pieces(markdown)
    ensures w in links ==> Contains(Rewrite(markdown, links), links[w])
    ensures w !in links ==> Contains(Rewrite(markdown, links), w)
  {
    var ps := Pieces(markdown);
    var k :| 0 <= k < |ps| && ps[k] == w;
    ConcatHolds(LinkPieces(ps, links, links.Keys), k);
  }
}
