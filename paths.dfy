/** Go's `path/filepath` on a system whose separator is '/': Clean, Join,
    Base and Ext, and the shape of the relative paths the mirror builds. */
module Paths {
  import opened Strs

  /** Folds the '/'-separated elements of a path the way filepath.Clean does:
      empty and "." elements vanish, ".." removes the last real element, and a
      ".." that has nothing to remove is dropped in a rooted path and kept in a
      relative one. `lead` counts the ".." elements kept at the front. */
  function CleanFold(segs: seq<string>, rooted: bool, acc: seq<string>, lead: nat): (r: seq<string>)
    requires lead <= |acc|
    requires forall k :: 0 <= k < |acc| ==> acc[k] != "" && acc[k] != "." && '/' !in acc[k]
    requires forall k :: 0 <= k < |segs| ==> '/' !in segs[k]
    ensures forall k :: 0 <= k < |r| ==> r[k] != "" && r[k] != "." && '/' !in r[k]
    decreases |segs|
  {
    if |segs| == 0 then acc
    else
      var seg := segs[0];
      if seg == "" || seg == "." then CleanFold(segs[1..], rooted, acc, lead)
      else if seg == ".." then
        if |acc| > lead then CleanFold(segs[1..], rooted, acc[..|acc| - 1], lead)
        else if rooted then CleanFold(segs[1..], rooted, acc, lead)
        else CleanFold(segs[1..], rooted, acc + [".."], lead + 1)
      else CleanFold(segs[1..], rooted, acc + [seg], lead)
  }

  /** A join of non-empty elements is non-empty. */
  lemma {:induction false} JoinWithNonEmpty(segs: seq<string>, sep: char)
    requires |segs| >= 1 && forall k :: 0 <= k < |segs| ==> segs[k] != ""
    ensures JoinWith(segs, sep) != ""
    decreases |segs|
  {
    if |segs| > 1 {
      JoinWithNonEmpty(segs[1..], sep);
    }
  }

  /** filepath.Clean: the shortest path naming the same file by purely
      lexical processing; "." for a path that reduces to nothing. */
  function Clean(p: string): (r: string)
    ensures r != ""
  {
    if p == "" then "."
    else
      var rooted := p[0] == '/';
      var stack := CleanFold(Split(p, '/'), rooted, [], 0);
      if rooted then "/" + JoinWith(stack, '/')
      else if |stack| == 0 then "."
      else
        JoinWithNonEmpty(stack, '/');
        JoinWith(stack, '/')
  }

  /** filepath.Join (and path.Join) of two elements: empty elements are
      ignored, the rest are joined with '/' and cleaned; "" when both are
      empty. */
  function Join(a: string, b: string): (r: string)
    ensures r == "" <==> a == "" && b == ""
  {
    if a != "" then Clean(a + "/" + b)
    else if b != "" then Clean(b)
    else ""
  }

  /** filepath.Base: the last element, after trailing slashes are removed;
      "." for the empty path and "/" for a path of slashes only. */
  function Base(p: string): (r: string)
    ensures r != ""
    ensures r == "/" || '/' !in r
  {
    if p == "" then "."
    else
      var q := StripTrailingSlashes(p);
      if q == "" then "/"
      else q[LastIndexOf(q, '/') + 1..]
  }

  function StripTrailingSlashes(p: string): (r: string)
    ensures |r| <= |p| && r == p[..|r|]
    ensures r == "" || r[|r| - 1] != '/'
    decreases |p|
  {
    if |p| > 0 && p[|p| - 1] == '/' then StripTrailingSlashes(p[..|p| - 1]) else p
  }

  /** filepath.Ext: the suffix from the last '.' of the final element, or ""
      when that element has no '.'. */
  function Ext(p: string): (r: string)
    ensures r == "" || (r[0] == '.' && HasSuffix(p, r) && '/' !in r && '.' !in r[1..])
    decreases |p|
  {
    if |p| == 0 || p[|p| - 1] == '/' then ""
    else if p[|p| - 1] == '.' then "."
    else
      var e := Ext(p[..|p| - 1]);
      if e == "" then "" else e + [p[|p| - 1]]
  }

  /** An element the mirror may put in a relative path: not empty, no '/',
      and not one of the special names "." and "..". */
  predicate Safe(seg: string) {
    seg != "" && '/' !in seg && seg != "." && seg != ".."
  }

  predicate AllSafe(segs: seq<string>) {
    forall k :: 0 <= k < |segs| ==> Safe(segs[k])
  }

  /** The relative path made of `segs`: "." for none. */
  function Rel(segs: seq<string>): string {
    if |segs| == 0 then "." else JoinWith(segs, '/')
  }

  /** The elements of a relative path the mirror built: none for ".". */
  function Segments(p: string): seq<string> {
    if p == "." then [] else Split(p, '/')
  }

  /** A relative path made of safe elements, or "." for the root itself. */
  predicate Shaped(p: string) {
    p == "." || AllSafe(Split(p, '/'))
  }

  lemma {:induction false} CleanFoldSafe(segs: seq<string>, rooted: bool, acc: seq<string>, lead: nat)
    requires lead <= |acc|
    requires forall k :: 0 <= k < |acc| ==> acc[k] != "" && acc[k] != "." && '/' !in acc[k]
    requires AllSafe(segs)
    ensures CleanFold(segs, rooted, acc, lead) == acc + segs
    decreases |segs|
  {
    if |segs| > 0 {
      CleanFoldSafe(segs[1..], rooted, acc + [segs[0]], lead);
      assert acc + [segs[0]] + segs[1..] == acc + segs;
    }
  }

  lemma {:induction false} JoinWithHead(segs: seq<string>, sep: char)
    requires |segs| >= 1 && segs[0] != ""
    ensures JoinWith(segs, sep) != "" && JoinWith(segs, sep)[0] == segs[0][0]
  {
  }

  /** Splitting a path and joining the pieces back gives the path. */
  lemma {:induction false} JoinSplit(s: string, sep: char)
    ensures JoinWith(Split(s, sep), sep) == s
    decreases |s|
  {
    if |s| > 0 {
      JoinSplit(s[1..], sep);
      var rest := Split(s[1..], sep);
      if s[0] == sep {
        assert ([""] + rest)[1..] == rest;
      } else if |rest| > 1 {
        var r := [[s[0]] + rest[0]] + rest[1..];
        assert r[1..] == rest[1..];
      }
      assert [s[0]] + s[1..] == s;
    }
  }

  /** A path built from safe elements is already clean. */
  lemma CleanRel(segs: seq<string>)
    requires AllSafe(segs)
    ensures Clean(Rel(segs)) == Rel(segs)
  {
    if |segs| == 0 {
      SplitNoSep(".", '/');
    } else {
      var p := JoinWith(segs, '/');
      JoinWithHead(segs, '/');
      SplitJoin(segs, '/');
      CleanFoldSafe(segs, false, [], 0);
      assert [] + segs == segs;
    }
  }

  /** The elements of a path built from safe elements are those elements. */
  lemma SegmentsRel(segs: seq<string>)
    requires AllSafe(segs)
    ensures Segments(Rel(segs)) == segs
    ensures Shaped(Rel(segs))
  {
    if |segs| > 0 {
      JoinWithHead(segs, '/');
      assert Rel(segs) != ".";
      SplitJoin(segs, '/');
    }
  }

  /** Every shaped path is the path built from its elements. */
  lemma RelSegments(p: string)
    requires Shaped(p)
    ensures AllSafe(Segments(p))
    ensures Rel(Segments(p)) == p
  {
    if p != "." {
      JoinSplit(p, '/');
    }
  }

  /** Joining a safe name onto a shaped path appends one element. */
  lemma JoinShaped(p: string, x: string)
    requires Shaped(p) && Safe(x)
    ensures Shaped(Join(p, x))
    ensures Segments(Join(p, x)) == Segments(p) + [x]
    ensures p != "." ==> Join(p, x) == p + "/" + x
  {
    RelSegments(p);
    var segs := Segments(p);
    var segs' := segs + [x];
    assert AllSafe(segs');
    if |segs| == 0 {
      assert Split("./" + x, '/') == ["."] + Split(x, '/') by {
        SplitAtSep(".", '/', x);
        assert "./" + x == "." + ['/'] + x;
      }
      SplitNoSep(x, '/');
      CleanFoldSafe([x], false, [], 0);
      assert Join(p, x) == x;
      assert Rel(segs') == x;
    } else {
      JoinWithSnoc(segs, x, '/');
      assert p + "/" + x == Rel(segs');
      CleanRel(segs');
    }
    SegmentsRel(segs');
  }

  /** In `a` + sep + `x` with no sep in `x`, the last sep is the one added. */
  lemma LastIndexOfJoin(a: string, c: char, x: string)
    requires c !in x
    ensures LastIndexOf(a + [c] + x, c) == |a|
  {
    var s := a + [c] + x;
    var r := LastIndexOf(s, c);
    assert s[|a|] == c;
  }

  /** The base name of a shaped path is its last element. */
  lemma BaseRel(segs: seq<string>)
    requires AllSafe(segs) && |segs| >= 1
    ensures Base(Rel(segs)) == segs[|segs| - 1]
    decreases |segs|
  {
    var x := segs[|segs| - 1];
    if |segs| == 1 {
      assert Rel(segs) == x;
    } else {
      var init := segs[..|segs| - 1];
      assert init + [x] == segs;
      JoinWithSnoc(init, x, '/');
      JoinWithNonEmpty(init, '/');
      LastIndexOfJoin(JoinWith(init, '/'), '/', x);
      assert Rel(segs) == JoinWith(init, '/') + ['/'] + x;
    }
  }

  /** A safe last element survives cleaning as the last element. */
  lemma {:induction false} CleanFoldSnoc(segs: seq<string>, x: string, rooted: bool, acc: seq<string>, lead: nat)
    requires lead <= |acc|
    requires forall k :: 0 <= k < |acc| ==> acc[k] != "" && acc[k] != "." && '/' !in acc[k]
    requires forall k :: 0 <= k < |segs| ==> '/' !in segs[k]
    requires Safe(x)
    ensures CleanFold(segs + [x], rooted, acc, lead) == CleanFold(segs, rooted, acc, lead) + [x]
    decreases |segs|
  {
    if |segs| == 0 {
      assert [] + [x] == [x];
      assert CleanFold([x], rooted, acc, lead) == CleanFold([], rooted, acc + [x], lead);
    } else {
      var seg := segs[0];
      assert (segs + [x])[1..] == segs[1..] + [x];
      if seg == "" || seg == "." {
        CleanFoldSnoc(segs[1..], x, rooted, acc, lead);
      } else if seg == ".." {
        if |acc| > lead {
          CleanFoldSnoc(segs[1..], x, rooted, acc[..|acc| - 1], lead);
        } else if rooted {
          CleanFoldSnoc(segs[1..], x, rooted, acc, lead);
        } else {
          CleanFoldSnoc(segs[1..], x, rooted, acc + [".."], lead + 1);
        }
      } else {
        CleanFoldSnoc(segs[1..], x, rooted, acc + [seg], lead);
      }
    }
  }

  /** The base name of `p` + "/" + `x`, and of `x` alone, is the safe name `x`. */
  lemma BaseOfLast(p: string, x: string)
    requires Safe(x)
    ensures Base(p + "/" + x) == x
    ensures Base(x) == x
  {
    assert StripTrailingSlashes(x) == x;
    LastIndexOfJoin(p, '/', x);
    var q := p + "/" + x;
    assert q == p + ['/'] + x;
    assert StripTrailingSlashes(q) == q;
    assert q[|p| + 1..] == x;
  }

  /** `p` is the safe element `x`, or ends with '/' followed by `x`. */
  predicate EndsWithElement(p: string, x: string) {
    p == x || (|p| > |x| && p == p[..|p| - |x| - 1] + "/" + x)
  }

  /** filepath.Join(dir, name) ends with a safe `name`, as the whole path or
      after a '/'. */
  lemma JoinLast(dir: string, x: string)
    requires Safe(x)
    ensures EndsWithElement(Join(dir, x), x)
  {
    if dir == "" {
      SplitNoSep(x, '/');
      CleanFoldSafe([x], x[0] == '/', [], 0);
      assert Join(dir, x) == x;
    } else {
      JoinLastNonEmpty(dir, x);
    }
  }

  lemma JoinLastNonEmpty(dir: string, x: string)
    requires Safe(x) && dir != ""
    ensures EndsWithElement(Join(dir, x), x)
  {
    var s := dir + "/" + x;
    assert s == dir + ['/'] + x;
    assert Join(dir, x) == Clean(s);
    SplitSnoc(dir, '/', x);
    var segs := Split(dir, '/');
    var rooted := s[0] == '/';
    CleanFoldSnoc(segs, x, rooted, [], 0);
    var stack := CleanFold(segs, rooted, [], 0);
    var st := CleanFold(Split(s, '/'), rooted, [], 0);
    assert st == stack + [x];
    var root := if rooted then "/" else "";
    assert Clean(s) == root + JoinWith(st, '/');
    if |stack| == 0 {
      assert st == [x];
      JoinEndsWithRoot(Join(dir, x), root, x);
    } else {
      JoinWithSnoc(stack, x, '/');
      JoinEndsWith(Join(dir, x), root + JoinWith(stack, '/'), x);
    }
  }

  lemma JoinEndsWithRoot(p: string, root: string, x: string)
    requires root == "" || root == "/"
    requires p == root + JoinWith([x], '/')
    ensures EndsWithElement(p, x)
  {
    if root == "/" {
      JoinEndsWith(p, "", x);
    }
  }

  lemma JoinEndsWith(p: string, q: string, x: string)
    requires p == q + "/" + x || p == q + ['/'] + x
    ensures EndsWithElement(p, x)
  {
    assert p[..|p| - |x| - 1] == q;
  }

  /** filepath.Base(filepath.Join(dir, name)) is `name` for a safe name,
      whatever the directory. */
  lemma BaseJoin(dir: string, x: string)
    requires Safe(x)
    ensures Base(Join(dir, x)) == x
  {
    JoinLast(dir, x);
    BaseOfElement(Join(dir, x), x);
  }

  lemma BaseOfElement(p: string, x: string)
    requires Safe(x) && EndsWithElement(p, x)
    ensures Base(p) == x
  {
    if p == x {
      BaseOfLast("", x);
    } else {
      BaseOfLast(p[..|p| - |x| - 1], x);
    }
  }
}
