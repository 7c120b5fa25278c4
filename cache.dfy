/** The upload cache of picgo/cache.go: an in-memory map from image token to
    image-bed URL, loaded once from a JSON file on first use. Reading the
    file is the `file` parameter; writing it back is left out. */
module UploadCache {

  /** What reading the cache file gives: no file (or a read error), a file
      that is not a JSON object of strings, or the object it holds. */
  datatype CacheFile = Missing | Invalid | Valid(m: map<string, string>)

  /** The package state: the map and the load-once flag. */
  datatype CacheState = CacheState(entries: map<string, string>, loaded: bool)

  /** loadCache: nothing once loaded; otherwise a missing file leaves the map
      as it is, an invalid one empties it, and a valid one is decoded into
      it (json.Unmarshal into a non-nil map adds to what is there). */
  function Load(st: CacheState, file: CacheFile): (r: CacheState)
    ensures r.loaded
    ensures st.loaded ==> r == st
  {
    if st.loaded then st
    else match file
      case Missing => CacheState(st.entries, true)
      case Invalid => CacheState(map[], true)
      case Valid(m) => CacheState(st.entries + m, true)
  }

  /** The URL stored for `token` and whether there is one; "" when there is
      none. */
  function Lookup(entries: map<string, string>, token: string): (r: (string, bool))
    ensures r.1 <==> token in entries
    ensures r.1 ==> r.0 == entries[token]
    ensures !r.1 ==> r.0 == ""
  {
    if token in entries then (entries[token], true) else ("", false)
  }

  /** SaveCache: load, then store. */
  function Save(st: CacheState, token: string, url: string, file: CacheFile): (r: CacheState)
    ensures r.loaded
  {
    var l := Load(st, file);
    CacheState(l.entries[token := url], true)
  }

  /** The file is read at most once: loading again changes nothing. */
  lemma LoadOnce(st: CacheState, f1: CacheFile, f2: CacheFile)
    ensures Load(Load(st, f1), f2) == Load(st, f1)
  {
  }

  /** After SaveCache(t, u) the cache answers (u, true) for t, and every other
      token gets the answer it got before. */
  lemma SaveThenLookup(st: CacheState, t: string, u: string, file: CacheFile)
    ensures Lookup(Save(st, t, u, file).entries, t) == (u, true)
    ensures forall t' :: t' != t ==>
      Lookup(Save(st, t, u, file).entries, t') == Lookup(Load(st, file).entries, t')
  {
  }

  /** Saving grows the cache by one entry iff the token was new. */
  lemma SaveSize(st: CacheState, t: string, u: string, file: CacheFile)
    ensures |Save(st, t, u, file).entries| ==
      |Load(st, file).entries| + if t in Load(st, file).entries then 0 else 1
  {
    var e := Load(st, file).entries;
    if t in e {
      assert e[t := u].Keys == e.Keys;
    } else {
      assert e[t := u].Keys == e.Keys + {t};
    }
  }

  /** A first load of a fresh cache holds exactly what a valid file holds,
      and nothing otherwise. */
  lemma FirstLoad(file: CacheFile)
    ensures Load(CacheState(map[], false), file).entries == if file.Valid? then file.m else map[]
  {
    if file.Valid? {
      assert map[] + file.m == file.m;
    }
  }

  /** The package-level cache. */
  class Cache {
    var entries: map<string, string>
    var loaded: bool

    /** The state at program start: empty and not loaded. */
    constructor()
      ensures entries == map[] && !loaded
    {
      entries := map[];
      loaded := false;
    }

    function State(): CacheState
      reads this
    {
      CacheState(entries, loaded)
    }

    method LoadCache(file: CacheFile)
      modifies this
      ensures State() == Load(old(State()), file)
    {
      if loaded {
        return;
      }
      match file
      case Missing =>
        loaded := true;
      case Invalid =>
        entries := map[];
        loaded := true;
      case Valid(m) =>
        entries := entries + m;
        loaded := true;
    }

    method GetCached(token: string, file: CacheFile) returns (url: string, ok: bool)
      modifies this
      ensures State() == Load(old(State()), file)
      ensures (url, ok) == Lookup(entries, token)
    {
      LoadCache(file);
      if token in entries {
        url, ok := entries[token], true;
      } else {
        url, ok := "", false;
      }
    }

    method SaveCache(token: string, url: string, file: CacheFile)
      modifies this
      ensures State() == Save(old(State()), token, url, file)
    {
      LoadCache(file);
      entries := entries[token := url];
    }

    /** ClearCache empties the map (and removes the file); it does not load. */
    method ClearCache()
      modifies this
      ensures entries == map[] && loaded == old(loaded)
    {
      entries := map[];
    }

    method CacheSize(file: CacheFile) returns (n: nat)
      modifies this
      ensures State() == Load(old(State()), file)
      ensures n == |entries|
    {
      LoadCache(file);
      n := |entries|;
    }
  }
}
