/** The image bed (imgbed/*.go): the checks that create an uploader, the
    object keys and URLs of Aliyun OSS and Tencent COS, the existence
    probe, the lookup of an earlier upload by token prefix, and the upload
    of local files. The SDK calls are parameters: `put` is the answer of the
    store to a write of an object key, a listing is the keys the store
    returns. */
module ImgBed {
  import opened Wrappers
  import opened Strs
  import opened Paths
  import opened Paging
  import opened CoreConfig

  datatype Platform = OSS | COS

  /** GetName */
  function PlatformName(p: Platform): string {
    match p
    case OSS => "\U{963F}\U{91CC}\U{4E91}OSS"
    case COS => "\U{817E}\U{8BAF}\U{4E91}COS"
  }

  datatype Uploader = Uploader(config: ImageBedConfig, platform: Platform)

  datatype SetupError =
    | NotEnabled
    | NoPlatform
    | IncompleteSecret
    | IncompleteBucket
    | Unsupported(platform: string)
    | ClientFailed(cause: string)

  /** Every setting NewUploader requires is present. */
  predicate Complete(cfg: ImageBedConfig) {
    cfg.enabled && cfg.platform != "" && cfg.secretID != "" && cfg.secretKey != "" && cfg.bucket != "" && cfg.region != ""
  }

  /** NewUploader: the first failing check decides the error; only "oss" and
      "cos" are platforms. `client` is the error of creating the SDK client,
      if it fails. */
  function NewUploader(cfg: ImageBedConfig, client: Option<string>): (r: Result<Uploader, SetupError>)
    ensures r.Ok? <==> Complete(cfg) && (cfg.platform == "oss" || cfg.platform == "cos") && client.None?
    ensures r.Ok? ==> r.value.config == cfg && (r.value.platform == OSS <==> cfg.platform == "oss")
    ensures r == Err(NotEnabled) <==> !cfg.enabled
    ensures r == Err(NoPlatform) <==> cfg.enabled && cfg.platform == ""
    ensures r == Err(IncompleteSecret) <==> cfg.enabled && cfg.platform != "" && (cfg.secretID == "" || cfg.secretKey == "")
    ensures (r == Err(IncompleteBucket) <==>
      cfg.enabled && cfg.platform != "" && cfg.secretID != "" && cfg.secretKey != "" && (cfg.bucket == "" || cfg.region == ""))
    ensures (r.Err? && r.error.Unsupported?) <==> Complete(cfg) && cfg.platform != "oss" && cfg.platform != "cos"
  {
    if !cfg.enabled then Err(NotEnabled)
    else if cfg.platform == "" then Err(NoPlatform)
    else if cfg.secretID == "" || cfg.secretKey == "" then Err(IncompleteSecret)
    else if cfg.bucket == "" || cfg.region == "" then Err(IncompleteBucket)
    else if cfg.platform != "oss" && cfg.platform != "cos" then Err(Unsupported(cfg.platform))
    else if client.Some? then Err(ClientFailed(client.value))
    else Ok(Uploader(cfg, if cfg.platform == "oss" then OSS else COS))
  }

  /** IsEnabled: a configuration is given and switched on. */
  function IsEnabled(cfg: Option<ImageBedConfig>): (b: bool)
    ensures b <==> cfg.Some? && cfg.value.enabled
  {
    cfg.Some? && cfg.value.enabled
  }

  /** An uploader exists only for an enabled configuration, and any enabled
      complete configuration for "oss" or "cos" gets one unless the client
      fails. */
  lemma UploaderIffEnabled(cfg: ImageBedConfig, client: Option<string>)
    ensures NewUploader(cfg, client).Ok? ==> IsEnabled(Some(cfg))
    ensures !IsEnabled(Some(cfg)) ==> NewUploader(cfg, client) == Err(NotEnabled)
  {
  }

  /** getObjectKey: the file name below PrefixKey (path.Join), or the bare
      file name. */
  function ObjectKey(cfg: ImageBedConfig, filename: string): (key: string)
    ensures cfg.prefixKey == "" ==> key == filename
    ensures Safe(filename) ==> key == filename || (|key| > |filename| && key == key[..|key| - |filename| - 1] + "/" + filename)
  {
    if Safe(filename) {
      JoinLast(cfg.prefixKey, filename);
    }
    if cfg.prefixKey != "" then Join(cfg.prefixKey, filename) else filename
  }

  /** The custom host without a leading "https://", then without a leading
      "http://". */
  function HostName(host: string): string {
    TrimPrefix(TrimPrefix(host, "https://"), "http://")
  }

  /** The URL of the bucket: the custom host over https when one is set,
      else the platform's public domain for the bucket and region. */
  function Endpoint(cfg: ImageBedConfig, p: Platform): (e: string)
    ensures HasPrefix(e, "https://")
  {
    var e := if cfg.host != "" then "https://" + HostName(cfg.host)
      else match p
        case OSS => "https://" + cfg.bucket + ".oss-" + cfg.region + ".aliyuncs.com"
        case COS => "https://" + cfg.bucket + ".cos." + cfg.region + ".myqcloud.com";
    assert e[..8] == "https://";
    e
  }

  /** getObjectURL: the endpoint, then '/' and the key. */
  function ObjectURL(cfg: ImageBedConfig, p: Platform, key: string): (url: string)
    ensures HasPrefix(url, "https://") && HasSuffix(url, "/" + key)
    ensures url[..|url| - |key| - 1] == Endpoint(cfg, p)
  {
    var e := Endpoint(cfg, p);
    var url := e + "/" + key;
    assert url[..8] == e[..8];
    assert url[|url| - |key| - 1..] == "/" + key;
    url
  }

  /** With a custom host, both platforms give the same URL, and a scheme
      written in front of the host makes no difference. */
  lemma HostURL(cfg: ImageBedConfig, h: string, key: string)
    requires cfg.host != "" && h != "" && !HasPrefix(h, "https://") && !HasPrefix(h, "http://")
    ensures ObjectURL(cfg, OSS, key) == ObjectURL(cfg, COS, key)
    ensures ObjectURL(cfg.(host := "https://" + h), OSS, key) == ObjectURL(cfg.(host := h), OSS, key)
    ensures ObjectURL(cfg.(host := "http://" + h), OSS, key) == ObjectURL(cfg.(host := h), OSS, key)
  {
    assert ("https://" + h)[8..] == h;
    assert ("http://" + h)[7..] == h;
    assert !HasPrefix("http://" + h, "https://") by {
      assert ("http://" + h)[4] == ':';
    }
  }

  /** BuildURL: the URL of the object the file would be stored as; it ends
      with "/" and the file name. */
  function BuildURL(cfg: ImageBedConfig, p: Platform, filename: string): (url: string)
    ensures HasPrefix(url, "https://") && HasSuffix(url, "/" + ObjectKey(cfg, filename))
    ensures Safe(filename) ==> HasSuffix(url, "/" + filename)
  {
    var key := ObjectKey(cfg, filename);
    var url := ObjectURL(cfg, p, key);
    if Safe(filename) {
      assert url[|url| - |key|..] == key;
      assert url[|url| - |filename| - 1..] == key[|key| - |filename| - 1..];
    }
    url
  }

  /** OSS CheckExists: the URL of the file whatever the answer, found only
      when the store says so without error. */
  function OssCheckExists(cfg: ImageBedConfig, filename: string, answer: Result<bool, string>): (r: (bool, string))
    ensures r.1 == BuildURL(cfg, OSS, filename)
    ensures r.0 <==> answer == Ok(true)
  {
    var url := ObjectURL(cfg, OSS, ObjectKey(cfg, filename));
    if answer.Err? then (false, url) else (answer.value, url)
  }

  /** COS CheckExists: found exactly when the HEAD request succeeds. */
  function CosCheckExists(cfg: ImageBedConfig, filename: string, head: Result<(), string>): (r: (bool, string))
    ensures r.1 == BuildURL(cfg, COS, filename)
    ensures r.0 <==> head.Ok?
  {
    var url := ObjectURL(cfg, COS, ObjectKey(cfg, filename));
    if head.Err? then (false, url) else (true, url)
  }

  /** How a listed key is turned back into a file name: as FindByPrefix
      does, or by taking its last element. */
  datatype Naming = AsWritten | ByBase

  /** FindByPrefix's file name of a key: PrefixKey removed from the front,
      then a leading '/' unless nothing would be left. */
  function KeyName(key: string, prefixKey: string): string {
    var f := TrimPrefix(key, prefixKey);
    var g := TrimPrefix(f, "/");
    if g != "" then g else f
  }

  function NameOf(naming: Naming, cfg: ImageBedConfig, key: string): string {
    match naming
    case AsWritten => KeyName(key, cfg.prefixKey)
    case ByBase => Base(key)
  }

  /** The k-th key is the first whose name starts with `prefix`. */
  predicate FirstMatchAt(naming: Naming, cfg: ImageBedConfig, keys: seq<string>, prefix: string, k: int) {
    0 <= k < |keys| && HasPrefix(NameOf(naming, cfg, keys[k]), prefix)
    && forall j :: 0 <= j < k ==> !HasPrefix(NameOf(naming, cfg, keys[j]), prefix)
  }

  /** The search of one listing: found, the URL of the key and its name for
      the first key whose name starts with `prefix`; (false, "", "")
      otherwise. */
  function FindIn(naming: Naming, cfg: ImageBedConfig, p: Platform, keys: seq<string>, prefix: string)
    : (r: (bool, string, string))
    ensures r.0 <==> exists k :: 0 <= k < |keys| && HasPrefix(NameOf(naming, cfg, keys[k]), prefix)
    ensures r.0 ==> HasPrefix(r.2, prefix)
    ensures r.0 ==> exists k :: FirstMatchAt(naming, cfg, keys, prefix, k)
      && r.1 == ObjectURL(cfg, p, keys[k]) && r.2 == NameOf(naming, cfg, keys[k])
    ensures !r.0 ==> r == (false, "", "")
    decreases |keys|
  {
    if |keys| == 0 then (false, "", "")
    else
      var name := NameOf(naming, cfg, keys[0]);
      if HasPrefix(name, prefix) then
        assert FirstMatchAt(naming, cfg, keys, prefix, 0);
        (true, ObjectURL(cfg, p, keys[0]), name)
      else
        var r := FindIn(naming, cfg, p, keys[1..], prefix);
        assert forall k :: 1 <= k < |keys| ==> keys[k] == keys[1..][k - 1];
        if r.0 then
          var k :| FirstMatchAt(naming, cfg, keys[1..], prefix, k)
            && r.1 == ObjectURL(cfg, p, keys[1..][k]) && r.2 == NameOf(naming, cfg, keys[1..][k]);
          assert FirstMatchAt(naming, cfg, keys, prefix, k + 1);
          r
        else
          r
  }

  /** Searching two listings one after the other searches their
      concatenation. */
  lemma {:induction false} FindInConcat(naming: Naming, cfg: ImageBedConfig, p: Platform, a: seq<string>, b: seq<string>,
                                        prefix: string)
    ensures FindIn(naming, cfg, p, a + b, prefix)
         == if FindIn(naming, cfg, p, a, prefix).0 then FindIn(naming, cfg, p, a, prefix) else FindIn(naming, cfg, p, b, prefix)
    decreases |a|
  {
    if |a| > 0 {
      assert (a + b)[0] == a[0];
      assert (a + b)[1..] == a[1..] + b;
      FindInConcat(naming, cfg, p, a[1..], b, prefix);
    } else {
      assert a + b == b;
    }
  }

  /** The name FindByPrefix gives the key a safe file name was stored under is
      that file name, when PrefixKey is empty or a clean relative path. */
  lemma KeyNameOfObjectKey(cfg: ImageBedConfig, filename: string)
    requires cfg.prefixKey == "" || (cfg.prefixKey != "." && Shaped(cfg.prefixKey))
    requires Safe(filename)
    ensures KeyName(ObjectKey(cfg, filename), cfg.prefixKey) == filename
  {
    var pk := cfg.prefixKey;
    if pk != "" {
      JoinShaped(pk, filename);
      var key := pk + "/" + filename;
      assert key[..|pk|] == pk;
      assert TrimPrefix(key, pk) == "/" + filename;
      assert ("/" + filename)[..1] == "/";
      assert ("/" + filename)[1..] == filename;
    } else {
      assert filename[0] != '/' by {
        assert filename != "" && '/' !in filename;
      }
      assert !HasPrefix(filename, "/");
    }
  }

  /** With such a PrefixKey, an object stored under a file name that starts
      with `prefix` is found in any listing that holds it. */
  lemma FindsStoredFile(cfg: ImageBedConfig, p: Platform, keys: seq<string>, filename: string, prefix: string)
    requires cfg.prefixKey == "" || (cfg.prefixKey != "." && Shaped(cfg.prefixKey))
    requires Safe(filename) && HasPrefix(filename, prefix) && ObjectKey(cfg, filename) in keys
    ensures FindIn(AsWritten, cfg, p, keys, prefix).0
  {
    KeyNameOfObjectKey(cfg, filename);
    var k :| 0 <= k < |keys| && keys[k] == ObjectKey(cfg, filename);
    assert HasPrefix(NameOf(AsWritten, cfg, keys[k]), prefix);
  }

  /** A PrefixKey that path.Join rewrites ("./i") hides every stored object:
      the file "a.b" is stored as "i/a.b", and a lookup of "a" in a listing
      holding exactly that key finds nothing. */
  lemma UncleanPrefixHidesUploads()
    ensures var cfg := NoImageBed.(prefixKey := "./i");
      && ObjectKey(cfg, "a.b") == "i/a.b"
      && !FindIn(AsWritten, cfg, OSS, ["i/a.b"], "a").0
  {
    var cfg := NoImageBed.(prefixKey := "./i");
    var s := "./i/a.b";
    assert s == "." + ['/'] + "i/a.b";
    SplitAtSep(".", '/', "i/a.b");
    assert "i/a.b" == "i" + ['/'] + "a.b";
    SplitAtSep("i", '/', "a.b");
    SplitNoSep("a.b", '/');
    var segs := [".", "i", "a.b"];
    assert Split(s, '/') == segs;
    assert segs[1..] == ["i", "a.b"];
    assert segs[1..][1..] == ["a.b"];
    assert CleanFold(segs, false, [], 0) == ["i", "a.b"];
    assert JoinWith(["i", "a.b"], '/') == "i/a.b";
    assert ObjectKey(cfg, "a.b") == "i/a.b";
    var name := KeyName("i/a.b", "./i");
    assert !HasPrefix("i/a.b", "./i");
    assert !HasPrefix("i/a.b", "/");
    assert name == "i/a.b";
    assert !HasPrefix(name, "a");
  }

  /** Named by the last element of the key, every stored safe file name is
      recovered whatever PrefixKey is, so the lookup finds it. */
  lemma FindsStoredFileByBase(cfg: ImageBedConfig, p: Platform, keys: seq<string>, filename: string, prefix: string)
    requires Safe(filename) && HasPrefix(filename, prefix) && ObjectKey(cfg, filename) in keys
    ensures NameOf(ByBase, cfg, ObjectKey(cfg, filename)) == filename
    ensures FindIn(ByBase, cfg, p, keys, prefix).0
  {
    if cfg.prefixKey != "" {
      BaseJoin(cfg.prefixKey, filename);
    } else {
      BaseOfLast("", filename);
    }
    var k :| 0 <= k < |keys| && keys[k] == ObjectKey(cfg, filename);
    assert HasPrefix(NameOf(ByBase, cfg, keys[k]), prefix);
  }

  /** COS FindByPrefix: one listing (the store returns at most ten keys),
      searched in order; a listing error finds nothing. */
  function CosFindByPrefix(cfg: ImageBedConfig, prefix: string, listing: Result<seq<string>, string>)
    : (r: (bool, string, string))
    ensures listing.Err? ==> r == (false, "", "")
    ensures listing.Ok? ==> r == FindIn(AsWritten, cfg, COS, listing.value, prefix)
  {
    match listing
    case Err(_) => (false, "", "")
    case Ok(keys) => FindIn(AsWritten, cfg, COS, keys, prefix)
  }

  /** OSS asks for the page after `NextMarker` while the listing is
      truncated. */
  const Truncated: Rule<string> := (c: Option<string>, page: Page<string>) => page.hasMore

  /** OSS FindByPrefix over the pages from `cursor` on: the first match of
      the first page that has one; an error on the way finds nothing. */
  function OssFind(cfg: ImageBedConfig, prefix: string, list: Lister<string>, cursor: Option<string>, n: nat)
    : (r: (bool, string, string))
    requires Ends(list, Truncated, cursor, n)
    ensures r.0 ==> HasPrefix(r.2, prefix)
    ensures !r.0 ==> r == (false, "", "")
    decreases n
  {
    match list(cursor)
    case Err(_) => (false, "", "")
    case Ok(page) =>
      var r := FindIn(AsWritten, cfg, OSS, page.items, prefix);
      if r.0 then r
      else if page.hasMore then OssFind(cfg, prefix, list, Some(page.next), n - 1)
      else (false, "", "")
  }

  /** Paging changes nothing: when every page arrives, the paged search finds
      what a search of the whole listing finds. */
  lemma {:induction false} OssFindWholeListing(cfg: ImageBedConfig, prefix: string, list: Lister<string>,
                                               cursor: Option<string>, n: nat)
    requires Ends(list, Truncated, cursor, n)
    requires Collect(list, Truncated, cursor, n).Ok?
    ensures OssFind(cfg, prefix, list, cursor, n) == FindIn(AsWritten, cfg, OSS, Collect(list, Truncated, cursor, n).value, prefix)
    decreases n
  {
    var page := list(cursor).value;
    if page.hasMore {
      var next := Some(page.next);
      assert Rest(list, Truncated, cursor, n) == Collect(list, Truncated, next, n - 1);
      OssFindWholeListing(cfg, prefix, list, next, n - 1);
      FindInConcat(AsWritten, cfg, OSS, page.items, Collect(list, Truncated, next, n - 1).value, prefix);
    } else {
      assert Collect(list, Truncated, cursor, n).value == page.items + [];
      assert page.items + [] == page.items;
    }
  }

  /** OSS FindByPrefix, following the markers page by page. */
  method OssFindByPrefix(cfg: ImageBedConfig, prefix: string, list: Lister<string>, ghost n: nat)
    returns (found: bool, url: string, filename: string)
    requires Ends(list, Truncated, None, n)
    ensures (found, url, filename) == OssFind(cfg, prefix, list, None, n)
  {
    var cursor: Option<string> := None;
    ghost var m := n;
    while true
      invariant Ends(list, Truncated, cursor, m)
      invariant OssFind(cfg, prefix, list, None, n) == OssFind(cfg, prefix, list, cursor, m)
      decreases m
    {
      var lsRes := list(cursor);
      if lsRes.Err? {
        return false, "", "";
      }
      var objects := lsRes.value.items;
      var i := 0;
      while i < |objects|
        invariant 0 <= i <= |objects|
        invariant FindIn(AsWritten, cfg, OSS, objects, prefix) == FindIn(AsWritten, cfg, OSS, objects[i..], prefix)
      {
        var name := KeyName(objects[i], cfg.prefixKey);
        if HasPrefix(name, prefix) {
          return true, ObjectURL(cfg, OSS, objects[i]), name;
        }
        assert objects[i..][1..] == objects[i + 1..];
        i := i + 1;
      }
      if !lsRes.value.hasMore {
        break;
      }
      cursor := Some(lsRes.value.next);
      m := m - 1;
    }
    return false, "", "";
  }

  datatype UploadError = ReadFailed(cause: string) | UploadFailed(platform: string, cause: string)

  /** UploadFromLocal: read the file, then store it under its base name.
      Yields the result and the key written, None when nothing was. */
  function UploadFromLocal(up: Uploader, localPath: string, read: Result<(), string>, put: string -> Result<(), string>)
    : (r: (Result<string, UploadError>, Option<string>))
    ensures read.Err? ==> r == (Err(ReadFailed(read.error)), None)
    ensures read.Ok? ==> r.1 == Some(ObjectKey(up.config, Base(localPath)))
    ensures r.0.Ok? <==> read.Ok? && put(ObjectKey(up.config, Base(localPath))).Ok?
    ensures r.0.Ok? ==> r.0.value == BuildURL(up.config, up.platform, Base(localPath))
  {
    if read.Err? then (Err(ReadFailed(read.error)), None)
    else
      var filename := Base(localPath);
      var key := ObjectKey(up.config, filename);
      match put(key)
      case Err(e) => (Err(UploadFailed(PlatformName(up.platform), e)), Some(key))
      case Ok(_) => (Ok(ObjectURL(up.config, up.platform, key)), Some(key))
  }

  /** What a file reaches the bed as: the URL of its base name. */
  predicate Uploads(up: Uploader, path: string, read: string -> Result<(), string>, put: string -> Result<(), string>) {
    UploadFromLocal(up, path, read(path), put).0.Ok?
  }

  /** BatchUploadFromLocal over the paths in order: only the successes, each
      path mapped to its URL. */
  function BatchResults(up: Uploader, paths: seq<string>, read: string -> Result<(), string>,
                        put: string -> Result<(), string>): (m: map<string, string>)
    ensures forall p :: p in m <==> p in paths && Uploads(up, p, read, put)
    ensures forall p :: p in m ==> m[p] == BuildURL(up.config, up.platform, Base(p))
    decreases |paths|
  {
    if |paths| == 0 then map[]
    else
      var init := paths[..|paths| - 1];
      var last := paths[|paths| - 1];
      var m := BatchResults(up, init, read, put);
      assert forall p :: p in paths <==> p in init || p == last;
      match UploadFromLocal(up, last, read(last), put).0
      case Ok(url) => m[last := url]
      case Err(_) => m
  }

  /** BatchUploadFromLocal, with the uploads one after the other. */
  method BatchUploadFromLocal(up: Uploader, localPaths: seq<string>, read: string -> Result<(), string>,
                              put: string -> Result<(), string>) returns (results: map<string, string>)
    ensures results == BatchResults(up, localPaths, read, put)
  {
    results := map[];
    if |localPaths| == 0 {
      return;
    }
    var i := 0;
    while i < |localPaths|
      invariant 0 <= i <= |localPaths|
      invariant results == BatchResults(up, localPaths[..i], read, put)
    {
      var path := localPaths[i];
      assert localPaths[..i + 1][..i] == localPaths[..i];
      var r := UploadFromLocal(up, path, read(path), put);
      if r.0.Ok? {
        results := results[path := r.0.value];
      }
      i := i + 1;
    }
    assert localPaths[..|localPaths|] == localPaths;
  }
}
