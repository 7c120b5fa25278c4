/** DownloadImage and findExistingLocalImage (core/client.go): an image is
    reused when a file named after its token already sits in the image
    directory; otherwise it is fetched through the limiter and saved as
    <token><ext>. The markdown link is "./" + the directory's base name + "/" +
    the file name. */
module Images {
  import opened Wrappers
  import opened Strs
  import opened Paths
  import opened Paging

  /** The names of `entries` that start with `prefix`, in their order. */
  function Matching(entries: seq<string>, prefix: string): (r: seq<string>)
    ensures forall x :: x in r <==> x in entries && HasPrefix(x, prefix)
    decreases |entries|
  {
    if |entries| == 0 then []
    else if HasPrefix(entries[0], prefix) then [entries[0]] + Matching(entries[1..], prefix)
    else Matching(entries[1..], prefix)
  }

  /** The first of `names` in Go's string order (filepath.Glob sorts its
      matches). */
  function Least(names: seq<string>): (r: string)
    requires |names| > 0
    ensures r in names
    decreases |names|
  {
    if |names| == 1 then names[0]
    else
      var m := Least(names[1..]);
      if StrLe(names[0], m) then names[0] else m
  }

  /** Least comes no later than any of the names. */
  lemma {:induction false} LeastIsLeast(names: seq<string>)
    requires |names| > 0
    ensures forall x :: x in names ==> StrLe(Least(names), x)
    decreases |names|
  {
    if |names| == 1 {
      StrLeRefl(names[0]);
    } else {
      var tail := names[1..];
      LeastIsLeast(tail);
      var m := Least(tail);
      StrLeRefl(names[0]);
      StrLeTotal(names[0], m);
      forall x | x in names
        ensures StrLe(Least(names), x)
      {
        if x != names[0] {
          assert x in tail;
          if StrLe(names[0], m) {
            StrLeTrans(names[0], m, x);
          }
        } else if !StrLe(names[0], m) {
          assert StrLe(m, names[0]);
        }
      }
    }
  }

  /** findExistingLocalImage: the first file of the image directory, in sorted
      order, that matches the glob <token>.*, joined to the directory; None
      when there is none. `entries` are the names in the directory (none when
      it does not exist). */
  function FindExistingLocalImage(outDir: string, token: string, entries: seq<string>): (r: Option<string>)
    ensures r.None? <==> forall x :: x in entries ==> !HasPrefix(x, token + ".")
    ensures r.Some? ==> exists x :: x in entries && HasPrefix(x, token + ".") && r.value == Join(outDir, x)
  {
    var found := Matching(entries, token + ".");
    if |found| == 0 then None
    else Some(Join(outDir, Least(found)))
  }

  /** Why DownloadImage failed. */
  datatype ImageError =
    | LimiterError          // the limiter refused to wait
    | Forbidden             // the media request failed with "403" or "Forbidden"
    | DownloadError(cause: string)
    | MkdirError            // the image directory could not be created
    | ReadError             // the media body could not be read
    | CreateError           // the image file could not be opened
    | WriteError            // the image bytes could not be written

  /** What the environment does during one download: the limiter outcome,
      the media response (its file name, or the error text), and whether each
      file-system step succeeds. */
  datatype Env = Env(waitOk: bool, media: Result<string, string>, mkdirOk: bool, readOk: bool,
                     openOk: bool, writeOk: bool)

  /** The link (the token itself on failure), the error, the waits and calls
      made, and the file written. */
  datatype Fetched = Fetched(link: string, err: Option<ImageError>, trace: seq<Event>, saved: Option<string>)

  /** The extension of the remote file name, ".png" when it has none. */
  function ImageExt(filename: string): (r: string)
    ensures |r| >= 1 && r[0] == '.' && '/' !in r && '.' !in r[1..]
    ensures Ext(filename) != "" ==> r == Ext(filename)
  {
    var e := Ext(filename);
    if e == "" then ".png" else e
  }

  /** The markdown link of an image file in the image directory. */
  function ImageLink(outDir: string, name: string): string {
    "./" + Base(outDir) + "/" + name
  }

  /** DownloadImage. */
  function DownloadImage(token: string, outDir: string, entries: seq<string>, env: Env): (r: Fetched)
    ensures Paced(r.trace)
    ensures r.trace == [] <==> FindExistingLocalImage(outDir, token, entries).Some?
    ensures FindExistingLocalImage(outDir, token, entries).Some? ==>
      r.err.None? && r.saved.None? && r.link == ImageLink(outDir, Base(FindExistingLocalImage(outDir, token, entries).value))
    ensures r.trace != [] ==> r.trace[0] == Wait(env.waitOk)
    ensures r.trace != [] && !env.waitOk ==> r.err == Some(LimiterError) && r.trace == [Wait(false)]
    ensures r.err.Some? ==> r.link == token && r.saved.None?
    ensures r.trace != [] && r.err.None? ==>
      env.media.Ok? && r.link == ImageLink(outDir, token + ImageExt(env.media.value))
      && r.saved == Some(Join(outDir, token + ImageExt(env.media.value)))
    ensures r.trace != [] && env.waitOk && env.media.Err? ==>
      r.err == Some(if Contains(env.media.error, "403") || Contains(env.media.error, "Forbidden")
                    then Forbidden else DownloadError(env.media.error))
  {
    match FindExistingLocalImage(outDir, token, entries)
    case Some(path) => Fetched(ImageLink(outDir, Base(path)), None, [], None)
    case None =>
      if !env.waitOk then Fetched(token, Some(LimiterError), [Wait(false)], None)
      else
        var trace := [Wait(true), Call];
        assert Paced(trace) by { assert trace[1] == Call && trace[0] == Wait(true); }
        match env.media
        case Err(e) =>
          var err := if Contains(e, "403") || Contains(e, "Forbidden") then Forbidden else DownloadError(e);
          Fetched(token, Some(err), trace, None)
        case Ok(filename) =>
          var ext := ImageExt(filename);
          if !env.mkdirOk then Fetched(token, Some(MkdirError), trace, None)
          else if !env.readOk then Fetched(token, Some(ReadError), trace, None)
          else if !env.openOk then Fetched(token, Some(CreateError), trace, None)
          else if !env.writeOk then Fetched(token, Some(WriteError), trace, None)
          else Fetched(ImageLink(outDir, token + ext), None, trace, Some(Join(outDir, token + ext)))
  }

  /** A directory entry: not empty, no '/', not "." or "..". */
  predicate Listing(entries: seq<string>) {
    forall x :: x in entries ==> Safe(x)
  }

  /** A reused image is linked by its own file name: the first, in Go's
      string order, of the directory's files named <token>.<anything>. */
  lemma ReusedLink(token: string, outDir: string, entries: seq<string>, env: Env)
    requires Listing(entries)
    requires exists x :: x in entries && HasPrefix(x, token + ".")
    ensures DownloadImage(token, outDir, entries, env).trace == []
    ensures exists name ::
              name in entries && HasPrefix(name, token + ".")
              && (forall x :: x in entries && HasPrefix(x, token + ".") ==> StrLe(name, x))
              && DownloadImage(token, outDir, entries, env).link == ImageLink(outDir, name)
  {
    var found := Matching(entries, token + ".");
    var x :| x in entries && HasPrefix(x, token + ".");
    assert x in found;
    var name := Least(found);
    LeastIsLeast(found);
    BaseJoin(outDir, name);
  }

  /** A fresh download is linked by the name of the file it saved. */
  lemma SavedFileIsLinked(token: string, outDir: string, entries: seq<string>, env: Env)
    requires token != "" && '/' !in token && '.' !in token
    requires DownloadImage(token, outDir, entries, env).saved.Some?
    ensures var r := DownloadImage(token, outDir, entries, env);
      r.link == ImageLink(outDir, Base(r.saved.value))
  {
    var ext := ImageExt(env.media.value);
    var name := token + ext;
    SafeImageName(token, ext);
    BaseJoin(outDir, name);
  }

  /** A token without '/' or '.' followed by an extension is a safe file
      name. */
  lemma SafeImageName(token: string, ext: string)
    requires token != "" && '/' !in token && '.' !in token
    requires |ext| >= 1 && ext[0] == '.' && '/' !in ext
    ensures Safe(token + ext)
  {
    var name := token + ext;
    forall i | 0 <= i < |name|
      ensures name[i] != '/'
    {
      if i >= |token| {
        assert name[i] == ext[i - |token|];
      }
    }
    assert name[0] == token[0] != '.';
  }
}
