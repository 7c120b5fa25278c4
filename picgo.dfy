/** The picgo wrapper (picgo/picgo.go): the URL found in the output of
    `picgo u <file>`, the token named by an image file, and the cache-first
    batch upload. Running picgo is the `run` parameter. */
module Picgo {
  import opened Wrappers
  import opened Strs
  import opened Paths
  import opened UploadCache

  /** A rune of the class [^\s"'<>]; in Go's regexp syntax \s is the ASCII
      space class \t \n \f \r and ' '. */
  predicate URLRune(c: char) {
    c != '\t' && c != '\n' && c != '\U{C}' && c != '\r' && c != ' ' && c != '"' && c != '\'' && c != '<' && c != '>'
  }

  /** A whole match of https?://[^\s"'<>]+. */
  predicate IsURL(u: string) {
    (HasPrefix(u, "https://") && |u| > 8 && forall k :: 8 <= k < |u| ==> URLRune(u[k]))
    || (HasPrefix(u, "http://") && |u| > 7 && forall k :: 7 <= k < |u| ==> URLRune(u[k]))
  }

  /** The end of the run of URL runes that starts at i. */
  function RunEnd(s: string, i: nat): (j: nat)
    requires i <= |s|
    ensures i <= j <= |s|
    ensures forall k :: i <= k < j ==> URLRune(s[k])
    ensures j == |s| || !URLRune(s[j])
    decreases |s| - i
  {
    if i == |s| || !URLRune(s[i]) then i else RunEnd(s, i + 1)
  }

  /** Where the leftmost-first match that starts at i ends, if one does: the
      scheme, then as many URL runes as there are (at least one). */
  function MatchAt(s: string, i: nat): (r: Option<nat>)
    requires i <= |s|
    ensures r.Some? ==> i < r.value <= |s| && IsURL(s[i..r.value])
    ensures r.Some? ==> r.value == |s| || !URLRune(s[r.value])
  {
    var n := if OccursAt(s, "https://", i) then 8 else if OccursAt(s, "http://", i) then 7 else 0;
    if n == 0 || i + n >= |s| || !URLRune(s[i + n]) then None
    else
      var j := RunEnd(s, i + n);
      var u := s[i..j];
      assert u[..n] == s[i..i + n];
      assert forall k :: n <= k < |u| ==> u[k] == s[i + k];
      Some(j)
  }

  /** No match starts in [lo, hi). */
  predicate NoMatchIn(s: string, lo: nat, hi: nat) {
    forall p :: lo <= p < hi && p < |s| ==> MatchAt(s, p).None?
  }

  /** No match starts at or after q. */
  predicate NoMatchFrom(s: string, q: nat) {
    NoMatchIn(s, q, |s|)
  }

  /** `r` lists, as (start, end) pairs, what a leftmost scan from i finds:
      the first match that starts at or after i, then the list the scan
      finds from where that match ends; nothing when no match starts at or
      after i. */
  predicate MatchList(s: string, r: seq<(nat, nat)>, i: nat)
    decreases |r|
  {
    if r == [] then NoMatchFrom(s, i)
    else
      i <= r[0].0 < r[0].1 <= |s| && MatchAt(s, r[0].0) == Some(r[0].1)
      && NoMatchIn(s, i, r[0].0) && MatchList(s, r[1..], r[0].1)
  }

  /** The scan finds one list only. */
  lemma {:induction false} MatchListUnique(s: string, r1: seq<(nat, nat)>, r2: seq<(nat, nat)>, i: nat)
    requires MatchList(s, r1, i) && MatchList(s, r2, i)
    ensures r1 == r2
    decreases |r1|
  {
    if r1 != [] && r2 != [] {
      assert r1[0] == r2[0];
      MatchListUnique(s, r1[1..], r2[1..], r1[0].1);
      assert r1 == [r1[0]] + r1[1..] && r2 == [r2[0]] + r2[1..];
    }
  }

  /** The successive non-overlapping matches from position i: what
      FindAllString returns. */
  function Matches(s: string, i: nat): (r: seq<(nat, nat)>)
    requires i <= |s|
    ensures MatchList(s, r, i)
    decreases |s| - i
  {
    if i == |s| then []
    else
      var m := MatchAt(s, i);
      if m.Some? then
        var rest := Matches(s, m.value);
        assert ([(i, m.value)] + rest)[1..] == rest;
        [(i, m.value)] + rest
      else
        var rest := Matches(s, i + 1);
        NoMatchStep(s, i, rest);
        rest
  }

  /** No match at i: the matches from i are those from i + 1. */
  lemma NoMatchStep(s: string, i: nat, rest: seq<(nat, nat)>)
    requires i < |s| && MatchAt(s, i).None? && MatchList(s, rest, i + 1)
    ensures MatchList(s, rest, i)
  {
  }

  /** The last pair of a scan is a match after which none starts. */
  lemma {:induction false} MatchListLast(s: string, r: seq<(nat, nat)>, i: nat)
    requires MatchList(s, r, i) && r != []
    ensures var m := r[|r| - 1]; i <= m.0 < m.1 <= |s| && MatchAt(s, m.0) == Some(m.1) && NoMatchFrom(s, m.1)
    decreases |r|
  {
    if |r| > 1 {
      MatchListLast(s, r[1..], r[0].1);
      assert r[1..][|r| - 2] == r[|r| - 1];
    }
  }

  /** `url` is the match that starts at i, and no match follows it. */
  predicate LastMatchAt(output: string, i: nat, url: string) {
    i < |output| && MatchAt(output, i) == Some(i + |url|) && OccursAt(output, url, i)
    && NoMatchFrom(output, i + |url|)
  }

  /** extractURL: the last match, "" when there is none. */
  function ExtractURL(output: string): (url: string)
    ensures url == "" <==> NoMatchFrom(output, 0)
    ensures url != "" ==> IsURL(url)
    ensures url != "" ==> exists i :: LastMatchAt(output, i, url)
  {
    var ms := Matches(output, 0);
    if |ms| == 0 then ""
    else
      var m := ms[|ms| - 1];
      MatchListLast(output, ms, 0);
      var url := output[m.0..m.1];
      assert LastMatchAt(output, m.0, url);
      url
  }

  /** The URL extracted is the last pair of whatever list the scan of the
      whole output finds. */
  lemma ExtractURLIsLast(output: string, r: seq<(nat, nat)>)
    requires MatchList(output, r, 0)
    ensures r == [] ==> ExtractURL(output) == ""
    ensures r != [] ==> r[|r| - 1].0 < r[|r| - 1].1 <= |output|
    ensures r != [] ==> ExtractURL(output) == output[r[|r| - 1].0..r[|r| - 1].1]
  {
    MatchListUnique(output, r, Matches(output, 0), 0);
    if r != [] {
      MatchListLast(output, r, 0);
    }
  }

  /** extractTokenFromPath: the last '/'-separated element, cut at its last
      '.' when that is not its first rune. */
  function ExtractTokenFromPath(filePath: string): (token: string)
    ensures '/' !in token
  {
    var parts := Split(filePath, '/');
    var filename := parts[|parts| - 1];
    var idx := LastIndexOf(filename, '.');
    if idx > 0 then filename[..idx] else filename
  }

  /** The file an image was saved to names its token: <dir>/<token><ext>
      with a token free of '/' and '.'. */
  lemma TokenOfImageFile(dir: string, token: string, ext: string)
    requires token != "" && '/' !in token && '.' !in token
    requires |ext| >= 1 && ext[0] == '.' && '/' !in ext && '.' !in ext[1..]
    ensures ExtractTokenFromPath(Join(dir, token + ext)) == token
  {
    var name := token + ext;
    assert '/' !in name by {
      forall i | 0 <= i < |name| ensures name[i] != '/' {
        if i >= |token| {
          assert name[i] == ext[i - |token|];
        }
      }
    }
    assert name != "." && name != ".." by {
      assert name[0] == token[0] && token[0] != '.';
    }
    JoinLast(dir, name);
    var p := Join(dir, name);
    if p == name {
      SplitNoSep(name, '/');
    } else {
      assert p == p[..|p| - |name| - 1] + ['/'] + name;
      SplitSnoc(p[..|p| - |name| - 1], '/', name);
    }
    assert name == token + ['.'] + ext[1..];
    LastIndexOfJoin(token, '.', ext[1..]);
    assert name[..|token|] == token;
  }

  /** A dot file keeps its whole name. */
  lemma DotFileIsWhole(dir: string, name: string)
    requires |name| >= 1 && name[0] == '.' && '/' !in name && '.' !in name[1..]
    ensures ExtractTokenFromPath(dir + "/" + name) == name
  {
    var p := dir + "/" + name;
    assert p == dir + ['/'] + name;
    SplitSnoc(dir, '/', name);
    assert name == "" + ['.'] + name[1..];
    LastIndexOfJoin("", '.', name[1..]);
  }

  /** How running `picgo u <file>` ended: the timeout, another failure, or
      its combined output. */
  datatype Run = TimedOut | Failed(cause: string) | Output(text: string)

  datatype UploadError = UploadTimeout | PicgoFailed(cause: string, output: string) | NoOutput | NoURL(output: string)

  /** UploadWithContext: an error when picgo fails, prints nothing, or prints
      no URL; the last URL of its trimmed output otherwise. */
  function UploadWithContext(run: Run): (r: Result<string, UploadError>)
    ensures r.Ok? <==> run.Output? && ExtractURL(TrimSpace(run.text)) != ""
    ensures r.Ok? ==> r.value == ExtractURL(TrimSpace(run.text)) && IsURL(r.value)
    ensures run.Output? && TrimSpace(run.text) == "" ==> r == Err(NoOutput)
  {
    match run
    case TimedOut => Err(UploadTimeout)
    case Failed(cause) => Err(PicgoFailed(cause, ""))
    case Output(text) =>
      var out := TrimSpace(text);
      var url := ExtractURL(out);
      if url == "" then
        if out == "" then Err(NoOutput) else Err(NoURL(out))
      else Ok(url)
  }

  /** The batch so far: the path-to-URL results, the cache, and the paths
      that were uploaded. */
  datatype Batch = Batch(results: map<string, string>, cache: CacheState, uploaded: seq<string>)

  /** One path of BatchUpload: a path whose token is cached takes the cached
      URL without an upload; any other is uploaded, a failure is left out,
      and a success is recorded and, for a non-empty token, cached. */
  function BatchStep(b: Batch, path: string, run: string -> Run, file: CacheFile): Batch {
    var token := ExtractTokenFromPath(path);
    var st := if token != "" then Load(b.cache, file) else b.cache;
    var hit := Lookup(st.entries, token);
    if token != "" && hit.1 then Batch(b.results[path := hit.0], st, b.uploaded)
    else match UploadWithContext(run(path))
      case Err(_) => Batch(b.results, st, b.uploaded + [path])
      case Ok(url) =>
        Batch(b.results[path := url], if token != "" then Save(st, token, url, file) else st, b.uploaded + [path])
  }

  /** BatchUpload over `paths`, taken one after the other. */
  function BatchOf(paths: seq<string>, st: CacheState, run: string -> Run, file: CacheFile): (b: Batch)
    ensures b.results.Keys <= set p | p in paths
    ensures forall p :: p in b.uploaded ==> p in paths
    decreases |paths|
  {
    if |paths| == 0 then Batch(map[], st, [])
    else
      var init := paths[..|paths| - 1];
      assert forall p :: p in init ==> p in paths;
      BatchStep(BatchOf(init, st, run, file), paths[|paths| - 1], run, file)
  }

  /** The token of `path` is non-empty and in the cache as the batch stands. */
  predicate CachedAt(b: Batch, path: string, file: CacheFile) {
    var token := ExtractTokenFromPath(path);
    token != "" && token in Load(b.cache, file).entries
  }

  /** One step sets the result of its own path only: the cached URL when
      the path is cached, the upload's URL or nothing otherwise. */
  lemma StepResults(b: Batch, path: string, run: string -> Run, file: CacheFile)
    ensures var b' := BatchStep(b, path, run, file);
      forall q :: q != path ==> (q in b'.results <==> q in b.results) && (q in b.results ==> b'.results[q] == b.results[q])
    ensures var b' := BatchStep(b, path, run, file);
      CachedAt(b, path, file) ==>
        path in b'.results && b'.results[path] == Load(b.cache, file).entries[ExtractTokenFromPath(path)]
    ensures var b' := BatchStep(b, path, run, file);
      !CachedAt(b, path, file) && UploadWithContext(run(path)).Ok? ==>
        path in b'.results && b'.results[path] == UploadWithContext(run(path)).value
    ensures var b' := BatchStep(b, path, run, file);
      !CachedAt(b, path, file) && UploadWithContext(run(path)).Err? ==> b'.results == b.results
  {
  }

  /** A later step for another path leaves a path's result alone. */
  lemma {:induction false} LaterStepsKeep(paths: seq<string>, st: CacheState, run: string -> Run, file: CacheFile,
                                          k: nat, m: nat)
    requires k < m <= |paths|
    requires forall j :: k < j < m ==> paths[j] != paths[k]
    ensures var p := paths[k];
      var b1 := BatchOf(paths[..k + 1], st, run, file);
      var b2 := BatchOf(paths[..m], st, run, file);
      (p in b2.results <==> p in b1.results) && (p in b1.results ==> b2.results[p] == b1.results[p])
    decreases m
  {
    if m > k + 1 {
      LaterStepsKeep(paths, st, run, file, k, m - 1);
      BatchOfSnoc(paths, m - 1, st, run, file);
      StepResults(BatchOf(paths[..m - 1], st, run, file), paths[m - 1], run, file);
    }
  }

  /** What the batch gives a path listed once: the cached URL when its token
      is cached by its turn; otherwise the URL of its upload, and no result
      at all when the upload fails. */
  lemma BatchOutcome(paths: seq<string>, st: CacheState, run: string -> Run, file: CacheFile, k: nat)
    requires k < |paths|
    requires forall j :: 0 <= j < |paths| && j != k ==> paths[j] != paths[k]
    ensures var p := paths[k];
      var before := BatchOf(paths[..k], st, run, file);
      var b := BatchOf(paths, st, run, file);
      CachedAt(before, p, file) ==>
        p in b.results && b.results[p] == Load(before.cache, file).entries[ExtractTokenFromPath(p)]
    ensures var p := paths[k];
      var before := BatchOf(paths[..k], st, run, file);
      var b := BatchOf(paths, st, run, file);
      !CachedAt(before, p, file) ==>
        (p in b.results <==> UploadWithContext(run(p)).Ok?)
        && (p in b.results ==> b.results[p] == UploadWithContext(run(p)).value)
  {
    BatchOfSnoc(paths, k, st, run, file);
    var before := BatchOf(paths[..k], st, run, file);
    assert paths[k] !in before.results by {
      assert forall j :: 0 <= j < k ==> paths[..k][j] == paths[j];
    }
    StepResults(before, paths[k], run, file);
    LaterStepsKeep(paths, st, run, file, k, |paths|);
    assert paths[..|paths|] == paths;
  }

  /** Every path with a result and a non-empty token has that token in a
      loaded cache. */
  predicate Remembers(b: Batch) {
    forall p :: p in b.results && ExtractTokenFromPath(p) != "" ==>
      b.cache.loaded && ExtractTokenFromPath(p) in b.cache.entries
  }

  /** One step keeps what the batch remembers, and a loaded cache stays
      loaded. */
  lemma StepRemembers(b: Batch, path: string, run: string -> Run, file: CacheFile)
    requires Remembers(b)
    ensures Remembers(BatchStep(b, path, run, file))
    ensures b.cache.loaded ==> BatchStep(b, path, run, file).cache.loaded
  {
    var token := ExtractTokenFromPath(path);
    var st := if token != "" then Load(b.cache, file) else b.cache;
    assert forall p :: p in b.results && ExtractTokenFromPath(p) != "" ==> st == b.cache;
  }

  /** After a batch, the cache remembers the token of every path with a
      result. */
  lemma {:induction false} BatchRemembers(paths: seq<string>, st: CacheState, run: string -> Run, file: CacheFile)
    ensures Remembers(BatchOf(paths, st, run, file))
    ensures st.loaded ==> BatchOf(paths, st, run, file).cache.loaded
    decreases |paths|
  {
    if |paths| > 0 {
      var init := paths[..|paths| - 1];
      BatchRemembers(init, st, run, file);
      StepRemembers(BatchOf(init, st, run, file), paths[|paths| - 1], run, file);
    }
  }

  /** Every path has a non-empty token and got a result: run again with the
      cache it left, the same batch uploads nothing and gives every path the
      URL cached for its token. */
  lemma RerunUploadsNothing(paths: seq<string>, st: CacheState, run: string -> Run, run2: string -> Run,
                            file: CacheFile)
    requires forall k :: 0 <= k < |paths| ==> ExtractTokenFromPath(paths[k]) != ""
    requires forall k :: 0 <= k < |paths| ==> paths[k] in BatchOf(paths, st, run, file).results
    ensures var c := BatchOf(paths, st, run, file).cache;
      BatchOf(paths, c, run2, file).uploaded == []
    ensures var c := BatchOf(paths, st, run, file).cache;
      var b := BatchOf(paths, c, run2, file);
      forall k :: 0 <= k < |paths| ==>
        paths[k] in b.results && ExtractTokenFromPath(paths[k]) in c.entries
        && b.results[paths[k]] == c.entries[ExtractTokenFromPath(paths[k])]
  {
    var b := BatchOf(paths, st, run, file);
    BatchRemembers(paths, st, run, file);
    if |paths| > 0 {
      assert b.cache.loaded;
      AllCached(paths, b.cache, run2, file);
      AllCachedResults(paths, b.cache, run2, file);
      assert forall k :: 0 <= k < |paths| ==> paths[k] in set p | p in paths;
    }
  }

  /** With a loaded cache holding every path's token, a batch uploads nothing
      and leaves the cache as it is. */
  lemma {:induction false} AllCached(paths: seq<string>, c: CacheState, run: string -> Run, file: CacheFile)
    requires c.loaded
    requires forall k :: 0 <= k < |paths| ==> ExtractTokenFromPath(paths[k]) != "" && ExtractTokenFromPath(paths[k]) in c.entries
    ensures BatchOf(paths, c, run, file).uploaded == []
    ensures BatchOf(paths, c, run, file).cache == c
    ensures forall p :: p in BatchOf(paths, c, run, file).results ==>
      BatchOf(paths, c, run, file).results[p] == c.entries[ExtractTokenFromPath(p)]
    decreases |paths|
  {
    if |paths| > 0 {
      var init := paths[..|paths| - 1];
      AllCached(init, c, run, file);
    }
  }

  /** ... and gives every path a result. */
  lemma {:induction false} AllCachedResults(paths: seq<string>, c: CacheState, run: string -> Run, file: CacheFile)
    requires c.loaded
    requires forall k :: 0 <= k < |paths| ==> ExtractTokenFromPath(paths[k]) != "" && ExtractTokenFromPath(paths[k]) in c.entries
    ensures BatchOf(paths, c, run, file).results.Keys == set p | p in paths
    ensures BatchOf(paths, c, run, file).cache == c
    decreases |paths|
  {
    if |paths| > 0 {
      var n := |paths| - 1;
      var init := paths[..n];
      AllCachedResults(init, c, run, file);
      var b0 := BatchOf(init, c, run, file);
      assert Load(b0.cache, file) == c;
      StepKeysCached(b0, paths[n], run, file);
      ElemsInit(paths);
    }
  }

  /** A step for a cached path adds that path to the results. */
  lemma StepKeysCached(b: Batch, path: string, run: string -> Run, file: CacheFile)
    requires CachedAt(b, path, file)
    ensures BatchStep(b, path, run, file).results.Keys == b.results.Keys + {path}
    ensures BatchStep(b, path, run, file).cache == Load(b.cache, file)
  {
  }

  /** The elements of a list are those of all but its last, and the last. */
  lemma ElemsInit<T>(s: seq<T>)
    requires |s| > 0
    ensures var n := |s| - 1; (set x | x in s) == (set x | x in s[..n]) + {s[n]}
  {
    var n := |s| - 1;
    assert s == s[..n] + [s[n]];
  }

  /** BatchUpload, with the uploads one after the other. */
  method BatchUpload(cache: Cache, filePaths: seq<string>, run: string -> Run, file: CacheFile)
    returns (results: map<string, string>)
    modifies cache
    ensures results == BatchOf(filePaths, old(cache.State()), run, file).results
    ensures cache.State() == BatchOf(filePaths, old(cache.State()), run, file).cache
  {
    if |filePaths| == 0 {
      return map[];
    }
    results := map[];
    ghost var base := cache.State();
    ghost var uploaded: seq<string> := [];
    var i := 0;
    while i < |filePaths|
      invariant 0 <= i <= |filePaths|
      invariant Batch(results, cache.State(), uploaded) == BatchOf(filePaths[..i], base, run, file)
    {
      BatchOfSnoc(filePaths, i, base, run, file);
      results, uploaded := UploadOne(cache, results, uploaded, filePaths[i], run, file);
      i := i + 1;
    }
    assert filePaths[..|filePaths|] == filePaths;
  }

  lemma BatchOfSnoc(paths: seq<string>, i: nat, st: CacheState, run: string -> Run, file: CacheFile)
    requires i < |paths|
    ensures BatchOf(paths[..i + 1], st, run, file) == BatchStep(BatchOf(paths[..i], st, run, file), paths[i], run, file)
  {
    assert paths[..i + 1][..i] == paths[..i];
  }

  /** One path of BatchUpload: the cached URL, or an upload whose success is
      recorded and cached. */
  method UploadOne(cache: Cache, results: map<string, string>, ghost uploaded: seq<string>, filePath: string,
                   run: string -> Run, file: CacheFile)
    returns (results': map<string, string>, ghost uploaded': seq<string>)
    modifies cache
    ensures Batch(results', cache.State(), uploaded')
      == BatchStep(Batch(results, old(cache.State()), uploaded), filePath, run, file)
  {
    var token := ExtractTokenFromPath(filePath);
    if token != "" {
      var cachedURL, ok := cache.GetCached(token, file);
      if ok {
        return results[filePath := cachedURL], uploaded;
      }
    }
    var r := UploadWithContext(run(filePath));
    results', uploaded' := results, uploaded + [filePath];
    if r.Ok? {
      results' := results[filePath := r.value];
      if token != "" {
        cache.SaveCache(token, r.value, file);
      }
    }
  }
}
