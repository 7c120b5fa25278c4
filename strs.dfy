/** The parts of Go's `strings` package that the mirror relies on, over
    strings of Unicode scalar values. */
module Strs {

  predicate HasPrefix(s: string, p: string) {
    |p| <= |s| && s[..|p|] == p
  }

  predicate HasSuffix(s: string, p: string) {
    |p| <= |s| && s[|s| - |p|..] == p
  }

  /** strings.TrimPrefix: drops `p` once from the front when it is there. */
  function TrimPrefix(s: string, p: string): (r: string)
    ensures HasPrefix(s, p) ==> p + r == s
    ensures !HasPrefix(s, p) ==> r == s
  {
    if HasPrefix(s, p) then s[|p|..] else s
  }

  /** `t` occurs in `s` starting at index `i`. */
  predicate OccursAt(s: string, t: string, i: int) {
    0 <= i && i + |t| <= |s| && s[i..i + |t|] == t
  }

  /** strings.Contains */
  predicate Contains(s: string, t: string) {
    exists i :: 0 <= i <= |s| && OccursAt(s, t, i)
  }

  /** strings.ContainsAny */
  predicate ContainsAny(s: string, chars: string) {
    exists i :: 0 <= i < |s| && s[i] in chars
  }

  /** unicode.IsSpace: ASCII tab, newline, vertical tab, form feed, carriage
      return and space, U+0085, U+00A0, and the other White_Space runes. */
  predicate IsSpace(c: char) {
    c == ' ' || c == '\t' || c == '\n' || c == '\U{B}' || c == '\U{C}' || c == '\r'
    || c == '\U{85}' || c == '\U{A0}' || c == '\U{1680}'
    || ('\U{2000}' <= c <= '\U{200A}')
    || c == '\U{2028}' || c == '\U{2029}' || c == '\U{202F}' || c == '\U{205F}' || c == '\U{3000}'
  }

  function TrimLeftSpace(s: string): (r: string)
    ensures |r| <= |s| && r == s[|s| - |r|..]
    ensures r == [] || !IsSpace(r[0])
    ensures forall k :: 0 <= k < |s| - |r| ==> IsSpace(s[k])
    decreases |s|
  {
    if |s| > 0 && IsSpace(s[0]) then TrimLeftSpace(s[1..]) else s
  }

  function TrimRightSpace(s: string): (r: string)
    ensures |r| <= |s| && r == s[..|r|]
    ensures r == [] || !IsSpace(r[|r| - 1])
    ensures forall k :: |r| <= k < |s| ==> IsSpace(s[k])
    decreases |s|
  {
    if |s| > 0 && IsSpace(s[|s| - 1]) then TrimRightSpace(s[..|s| - 1]) else s
  }

  /** strings.TrimSpace: the longest middle part of `s` that neither starts nor
      ends with white space; everything cut off is white space. */
  function TrimSpace(s: string): (r: string)
    ensures r == [] || (!IsSpace(r[0]) && !IsSpace(r[|r| - 1]))
    ensures exists i :: 0 <= i <= |s| && OccursAt(s, r, i)
    ensures r == [] <==> forall k :: 0 <= k < |s| ==> IsSpace(s[k])
  {
    var l := TrimLeftSpace(s);
    PrefixOfSuffix(s, l, TrimRightSpace(l));
    TrimSpaceBlank(s);
    TrimRightSpace(l)
  }

  /** A prefix `r` of a suffix `l` of `s` occurs in `s` where `l` starts. */
  lemma PrefixOfSuffix(s: string, l: string, r: string)
    requires |l| <= |s| && l == s[|s| - |l|..]
    requires |r| <= |l| && r == l[..|r|]
    ensures OccursAt(s, r, |s| - |l|)
  {
    assert s[|s| - |l|..|s| - |l| + |r|] == r;
  }

  /** Nothing is left exactly when `s` is all white space. */
  lemma TrimSpaceBlank(s: string)
    ensures TrimRightSpace(TrimLeftSpace(s)) == [] <==> forall k :: 0 <= k < |s| ==> IsSpace(s[k])
  {
    var l := TrimLeftSpace(s);
    var r := TrimRightSpace(l);
    var i := |s| - |l|;
    assert l == s[i..];
    if r == [] {
      forall k | i <= k < |s| ensures IsSpace(s[k]) {
        assert s[k] == l[k - i];
      }
    } else {
      assert s[i] == l[0] == r[0];
    }
  }

  /** A string that neither starts nor ends with white space is its own
      TrimSpace. */
  lemma TrimSpaceOfTrimmed(s: string)
    requires s == [] || (!IsSpace(s[0]) && !IsSpace(s[|s| - 1]))
    ensures TrimSpace(s) == s
  {
  }

  /** Index of the last `c` in `s`, or -1 (strings.LastIndex with a one-rune
      separator). */
  function LastIndexOf(s: string, c: char): (r: int)
    ensures -1 <= r < |s|
    ensures r >= 0 ==> s[r] == c
    ensures forall k :: r < k < |s| ==> s[k] != c
    decreases |s|
  {
    if |s| == 0 then -1
    else if s[|s| - 1] == c then |s| - 1
    else LastIndexOf(s[..|s| - 1], c)
  }

  /** strings.Split with a one-rune separator: the pieces between separators,
      always at least one. */
  function Split(s: string, sep: char): (r: seq<string>)
    ensures |r| >= 1
    ensures forall k :: 0 <= k < |r| ==> sep !in r[k]
    decreases |s|
  {
    if |s| == 0 then [""]
    else
      var rest := Split(s[1..], sep);
      if s[0] == sep then [""] + rest
      else [[s[0]] + rest[0]] + rest[1..]
  }

  /** strings.Join with a one-rune separator. */
  function JoinWith(segs: seq<string>, sep: char): string
    decreases |segs|
  {
    if |segs| == 0 then ""
    else if |segs| == 1 then segs[0]
    else segs[0] + [sep] + JoinWith(segs[1..], sep)
  }

  lemma {:induction false} SplitNoSep(a: string, sep: char)
    requires sep !in a
    ensures Split(a, sep) == [a]
    decreases |a|
  {
    if |a| > 0 {
      SplitNoSep(a[1..], sep);
      assert [a[0]] + a[1..] == a;
    }
  }

  /** Splitting at the first separator peels off the piece before it. */
  lemma {:induction false} SplitAtSep(a: string, sep: char, b: string)
    requires sep !in a
    ensures Split(a + [sep] + b, sep) == [a] + Split(b, sep)
    decreases |a|
  {
    if |a| == 0 {
      assert a + [sep] + b == [sep] + b;
      assert ([sep] + b)[1..] == b;
    } else {
      var s := a + [sep] + b;
      assert s[1..] == a[1..] + [sep] + b;
      SplitAtSep(a[1..], sep, b);
      assert [a[0]] + a[1..] == a;
    }
  }

  /** Splitting before a last piece without separators adds that piece. */
  lemma {:induction false} SplitSnoc(a: string, sep: char, b: string)
    requires sep !in b
    ensures Split(a + [sep] + b, sep) == Split(a, sep) + [b]
    decreases |a|
  {
    var s := a + [sep] + b;
    if |a| == 0 {
      assert s == [sep] + b && s[1..] == b;
      SplitNoSep(b, sep);
    } else {
      assert s[1..] == a[1..] + [sep] + b;
      SplitSnoc(a[1..], sep, b);
      var r := Split(a[1..], sep);
      if a[0] != sep {
        assert (r + [b])[1..] == r[1..] + [b];
      }
    }
  }

  /** Split undoes JoinWith when no piece holds the separator. */
  lemma {:induction false} SplitJoin(segs: seq<string>, sep: char)
    requires |segs| >= 1
    requires forall k :: 0 <= k < |segs| ==> sep !in segs[k]
    ensures Split(JoinWith(segs, sep), sep) == segs
    decreases |segs|
  {
    if |segs| == 1 {
      SplitNoSep(segs[0], sep);
    } else {
      SplitJoin(segs[1..], sep);
      SplitAtSep(segs[0], sep, JoinWith(segs[1..], sep));
      assert [segs[0]] + segs[1..] == segs;
    }
  }

  /** Appending one more piece to a join. */
  lemma {:induction false} JoinWithSnoc(segs: seq<string>, x: string, sep: char)
    requires |segs| >= 1
    ensures JoinWith(segs + [x], sep) == JoinWith(segs, sep) + [sep] + x
    decreases |segs|
  {
    if |segs| == 1 {
      assert segs + [x] == [segs[0], x];
    } else {
      assert (segs + [x])[1..] == segs[1..] + [x];
      JoinWithSnoc(segs[1..], x, sep);
    }
  }

  /** `s` with every `k` replaced by `repl` and every other rune kept. */
  function Subst(s: string, k: char, repl: string): (r: string)
    decreases |s|
  {
    if |s| == 0 then ""
    else (if s[0] == k then repl else [s[0]]) + Subst(s[1..], k, repl)
  }

  /** With a one-rune replacement, Subst maps the string rune by rune. */
  lemma {:induction false} SubstPointwise(s: string, k: char, v: char)
    ensures |Subst(s, k, [v])| == |s|
    ensures forall i :: 0 <= i < |s| ==> Subst(s, k, [v])[i] == if s[i] == k then v else s[i]
    decreases |s|
  {
    if |s| > 0 {
      SubstPointwise(s[1..], k, v);
    }
  }

  /** repl, then each rune of `s` followed by repl: what Go's strings.ReplaceAll
      yields for an empty pattern. */
  function Interleave(s: string, repl: string): string
    decreases |s|
  {
    if |s| == 0 then repl else repl + [s[0]] + Interleave(s[1..], repl)
  }

  /** strings.ReplaceAll: replaces the successive leftmost non-overlapping
      occurrences of `pat`. */
  function ReplaceAll(s: string, pat: string, repl: string): string
    decreases |s|
  {
    if |pat| == 0 then Interleave(s, repl)
    else if |s| < |pat| then s
    else if s[..|pat|] == pat then repl + ReplaceAll(s[|pat|..], pat, repl)
    else [s[0]] + ReplaceAll(s[1..], pat, repl)
  }

  /** Replacing a pattern that does not occur changes nothing. */
  lemma {:induction false} ReplaceAllAbsent(s: string, pat: string, repl: string)
    requires |pat| > 0 && !Contains(s, pat)
    ensures ReplaceAll(s, pat, repl) == s
    decreases |s|
  {
    if |s| >= |pat| {
      assert s[..|pat|] != pat by { assert !OccursAt(s, pat, 0); }
      forall i ensures !OccursAt(s[1..], pat, i) {
        if OccursAt(s[1..], pat, i) {
          assert s[1..][i..i + |pat|] == s[i + 1..i + 1 + |pat|];
          assert OccursAt(s, pat, i + 1);
        }
      }
      ReplaceAllAbsent(s[1..], pat, repl);
      assert [s[0]] + s[1..] == s;
    }
  }

  /** Replacing a one-rune pattern is a rune-by-rune substitution. */
  lemma {:induction false} ReplaceAllOneRune(s: string, k: char, repl: string)
    ensures ReplaceAll(s, [k], repl) == Subst(s, k, repl)
    decreases |s|
  {
    if |s| > 0 {
      ReplaceAllOneRune(s[1..], k, repl);
      assert s[..1] == [s[0]];
    }
  }

  /** No occurrence of `pat` in `a + b` starts inside `a` and runs on into `b`. */
  predicate NoStraddle(a: string, b: string, pat: string) {
    forall i :: 0 <= i < |a| < i + |pat| ==> !OccursAt(a + b, pat, i)
  }

  /** The occurrences in a suffix are the occurrences, shifted, that start
      inside it. */
  lemma OccursInSuffix(s: string, n: nat, pat: string, i: int)
    requires n <= |s|
    ensures OccursAt(s[n..], pat, i) <==> 0 <= i && OccursAt(s, pat, i + n)
  {
    if 0 <= i && i + n + |pat| <= |s| {
      assert s[i + n..i + n + |pat|] == s[n..][i..i + |pat|];
    }
  }

  /** The occurrences in a prefix are the occurrences that end inside it. */
  lemma OccursInPrefix(s: string, p: string, pat: string, i: int)
    requires |p| <= |s| && s[..|p|] == p
    ensures OccursAt(s, pat, i) && i + |pat| <= |p| <==> OccursAt(p, pat, i)
  {
    if 0 <= i && i + |pat| <= |p| {
      assert p[i..i + |pat|] == s[i..i + |pat|];
    }
  }

  /** Dropping a front part of `a` keeps the boundary uncrossed. */
  lemma NoStraddleDrop(a: string, b: string, pat: string, n: nat)
    requires NoStraddle(a, b, pat) && n <= |a|
    ensures NoStraddle(a[n..], b, pat)
  {
    assert a[n..] + b == (a + b)[n..];
    forall i | 0 <= i < |a[n..]| < i + |pat| ensures !OccursAt(a[n..] + b, pat, i) {
      OccursInSuffix(a + b, n, pat, i);
    }
  }

  /** strings.ReplaceAll works piece by piece across a boundary that no
      occurrence of the pattern crosses. */
  lemma {:induction false} ReplaceAllSplit(a: string, b: string, pat: string, repl: string)
    requires |pat| > 0 && NoStraddle(a, b, pat)
    ensures ReplaceAll(a + b, pat, repl) == ReplaceAll(a, pat, repl) + ReplaceAll(b, pat, repl)
    decreases |a|
  {
    var s := a + b;
    if |a| == 0 {
      assert s == b;
    } else if |s| < |pat| {
      assert ReplaceAll(s, pat, repl) == s;
    } else if s[..|pat|] == pat {
      assert OccursAt(s, pat, 0);
      assert |a| >= |pat|;
      assert a[..|pat|] == pat;
      assert s[|pat|..] == a[|pat|..] + b;
      NoStraddleDrop(a, b, pat, |pat|);
      ReplaceAllSplit(a[|pat|..], b, pat, repl);
      assert ReplaceAll(a, pat, repl) == repl + ReplaceAll(a[|pat|..], pat, repl);
      assert ReplaceAll(s, pat, repl) == repl + ReplaceAll(s[|pat|..], pat, repl);
    } else {
      assert s[1..] == a[1..] + b;
      NoStraddleDrop(a, b, pat, 1);
      ReplaceAllSplit(a[1..], b, pat, repl);
      assert ReplaceAll(s, pat, repl) == [s[0]] + ReplaceAll(s[1..], pat, repl);
      if |a| >= |pat| {
        assert a[..|pat|] == s[..|pat|];
        assert ReplaceAll(a, pat, repl) == [a[0]] + ReplaceAll(a[1..], pat, repl);
      } else {
        assert ReplaceAll(a[1..], pat, repl) == a[1..];
        assert [a[0]] + a[1..] == a;
      }
    }
  }

  /** strings.Join: the strings of `ps` with `sep` between neighbours. */
  function JoinBy(ps: seq<string>, sep: string): string
    decreases |ps|
  {
    if |ps| == 0 then ""
    else if |ps| == 1 then ps[0]
    else ps[0] + sep + JoinBy(ps[1..], sep)
  }

  /** `ps` cuts a string at the successive leftmost occurrences of `pat`:
      no occurrence starts inside a piece, not even one running on into the
      pattern that follows the piece. */
  predicate LeftmostCut(ps: seq<string>, pat: string)
    requires |pat| > 0
  {
    |ps| >= 1
    && (forall k :: 0 <= k < |ps| - 1 ==> !Contains(ps[k] + pat[..|pat| - 1], pat))
    && !Contains(ps[|ps| - 1], pat)
  }

  /** Putting a rune in front of the first piece. */
  lemma JoinByCons(c: char, ps: seq<string>, sep: string)
    requires |ps| >= 1
    ensures JoinBy([[c] + ps[0]] + ps[1..], sep) == [c] + JoinBy(ps, sep)
  {
    var qs := [[c] + ps[0]] + ps[1..];
    if |ps| > 1 {
      assert qs[1..] == ps[1..];
    }
  }

  /** Every string has a leftmost cut at a non-empty pattern. */
  lemma {:induction false} LeftmostCutExists(s: string, pat: string)
    requires |pat| > 0
    ensures exists ps :: LeftmostCut(ps, pat) && JoinBy(ps, pat) == s
    decreases |s|
  {
    if |s| < |pat| {
      assert LeftmostCut([s], pat) && JoinBy([s], pat) == s;
    } else if s[..|pat|] == pat {
      LeftmostCutExists(s[|pat|..], pat);
      var ps' :| LeftmostCut(ps', pat) && JoinBy(ps', pat) == s[|pat|..];
      var ps := [""] + ps';
      assert ps[1..] == ps';
      assert s == "" + pat + s[|pat|..];
      assert LeftmostCut(ps, pat) && JoinBy(ps, pat) == s;
    } else {
      LeftmostCutExists(s[1..], pat);
      var ps' :| LeftmostCut(ps', pat) && JoinBy(ps', pat) == s[1..];
      CutCons(s, pat, ps');
    }
  }

  /** No match at the front: the first rune joins the first piece. */
  lemma CutCons(s: string, pat: string, ps': seq<string>)
    requires 0 < |pat| <= |s| && s[..|pat|] != pat
    requires LeftmostCut(ps', pat) && JoinBy(ps', pat) == s[1..]
    ensures LeftmostCut([[s[0]] + ps'[0]] + ps'[1..], pat)
    ensures JoinBy([[s[0]] + ps'[0]] + ps'[1..], pat) == s
  {
    JoinByCons(s[0], ps', pat);
    assert [s[0]] + s[1..] == s;
    var x' := if |ps'| > 1 then ps'[0] + pat[..|pat| - 1] else ps'[0];
    assert !Contains(x', pat);
    FirstPieceOfJoin(ps', pat);
    FrontClear(s, x', pat);
    if |ps'| > 1 {
      ConsAssoc(s[0], ps'[0], pat[..|pat| - 1]);
    }
    CutFirstPiece([s[0]] + ps'[0], ps', pat);
  }

  lemma ConsAssoc<T>(c: T, a: seq<T>, b: seq<T>)
    ensures [c] + (a + b) == ([c] + a) + b
  {
  }

  /** The first piece, with the pattern's head when more follow, starts the
      joined string. */
  lemma FirstPieceOfJoin(ps: seq<string>, pat: string)
    requires |ps| >= 1 && |pat| > 0
    ensures var x := if |ps| > 1 then ps[0] + pat[..|pat| - 1] else ps[0];
      |x| <= |JoinBy(ps, pat)| && JoinBy(ps, pat)[..|x|] == x
  {
    if |ps| > 1 {
      var x := ps[0] + pat[..|pat| - 1];
      var j := JoinBy(ps, pat);
      assert j == ps[0] + pat + JoinBy(ps[1..], pat);
      assert j[..|x|] == x;
    }
  }

  /** A rune that starts no match in front of a match-free `x'` leaves it
      match-free. */
  lemma FrontClear(s: string, x': string, pat: string)
    requires 0 < |pat| <= |s| && s[..|pat|] != pat
    requires |x'| <= |s[1..]| && s[1..][..|x'|] == x' && !Contains(x', pat)
    ensures !Contains([s[0]] + x', pat)
  {
    var x := [s[0]] + x';
    assert s[..|x|] == x;
    forall j | 0 <= j <= |x| ensures !OccursAt(x, pat, j) {
      if j == 0 {
        OccursInPrefix(s, x, pat, 0);
      } else {
        assert x[1..] == x';
        OccursInSuffix(x, 1, pat, j - 1);
      }
    }
  }

  /** Replacing the first piece of a leftmost cut by a match-free one keeps
      it a leftmost cut. */
  lemma CutFirstPiece(p: string, ps': seq<string>, pat: string)
    requires |pat| > 0 && LeftmostCut(ps', pat)
    requires !Contains(if |ps'| > 1 then p + pat[..|pat| - 1] else p, pat)
    ensures LeftmostCut([p] + ps'[1..], pat)
  {
    var ps := [p] + ps'[1..];
    assert forall k :: 1 <= k < |ps| ==> ps[k] == ps'[k];
  }

  /** What strings.ReplaceAll computes for a non-empty pattern: the pieces
      of the leftmost cut (which LeftmostCutExists provides for every
      string) joined again with `repl`. */
  lemma {:induction false} ReplaceAllJoin(ps: seq<string>, pat: string, repl: string)
    requires |pat| > 0 && LeftmostCut(ps, pat)
    ensures ReplaceAll(JoinBy(ps, pat), pat, repl) == JoinBy(ps, repl)
    decreases |ps|
  {
    if |ps| == 1 {
      ReplaceAllAbsent(ps[0], pat, repl);
    } else {
      var a := ps[0];
      var rest := JoinBy(ps[1..], pat);
      var b := pat + rest;
      var front := a + pat[..|pat| - 1];
      assert JoinBy(ps, pat) == a + b;
      assert !Contains(front, pat);
      assert (a + b)[..|front|] == front;
      forall i | 0 <= i < |a| ensures !OccursAt(a + b, pat, i) {
        OccursInPrefix(a + b, front, pat, i);
      }
      forall i | 0 <= i <= |a| ensures !OccursAt(a, pat, i) {
        OccursInPrefix(a + b, a, pat, i);
      }
      ReplaceAllSplit(a, b, pat, repl);
      ReplaceAllAbsent(a, pat, repl);
      assert b[..|pat|] == pat && b[|pat|..] == rest;
      ReplaceAllJoin(ps[1..], pat, repl);
    }
  }

  /** Go's string order (byte order of UTF-8, which is code point order):
      `a` is a prefix of `b`, or the first rune where they differ is smaller
      in `a`. */
  predicate StrLe(a: string, b: string)
    decreases |a|
  {
    a == [] || (b != [] && (a[0] < b[0] || (a[0] == b[0] && StrLe(a[1..], b[1..]))))
  }

  lemma {:induction false} StrLeTotal(a: string, b: string)
    ensures StrLe(a, b) || StrLe(b, a)
    decreases |a|
  {
    if a != [] && b != [] && a[0] == b[0] {
      StrLeTotal(a[1..], b[1..]);
    }
  }

  lemma {:induction false} StrLeTrans(a: string, b: string, c: string)
    requires StrLe(a, b) && StrLe(b, c)
    ensures StrLe(a, c)
    decreases |a|
  {
    if a != [] && a[0] == b[0] && b[0] == c[0] {
      StrLeTrans(a[1..], b[1..], c[1..]);
    }
  }

  lemma {:induction false} StrLeAntisym(a: string, b: string)
    requires StrLe(a, b) && StrLe(b, a)
    ensures a == b
    decreases |a|
  {
    if a != [] {
      StrLeAntisym(a[1..], b[1..]);
      assert a == [a[0]] + a[1..] && b == [b[0]] + b[1..];
    }
  }

  lemma {:induction false} StrLeRefl(a: string)
    ensures StrLe(a, a)
    decreases |a|
  {
    if a != [] {
      StrLeRefl(a[1..]);
    }
  }
}
