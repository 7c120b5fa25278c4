/** The metadata downloadDocument writes in front of each markdown file
    (cmd/download.go): the tags and categories derived from the document's
    relative directory, the YAML escaping of scalars, the date fields and the
    frontmatter block itself. */
module Metadata {
  import opened Wrappers
  import opened Strs
  import opened Paths
  import opened Sanitize
  import opened Client
  import opened PathMap
  import opened Timestamps

  /** The parts of a split path that are neither empty nor ".". */
  function KeepParts(parts: seq<string>): (r: seq<string>)
    ensures forall x :: x in r <==> x in parts && x != "" && x != "."
    ensures |r| <= |parts|
    decreases |parts|
  {
    if |parts| == 0 then []
    else (if parts[0] != "" && parts[0] != "." then [parts[0]] else []) + KeepParts(parts[1..])
  }

  /** KeepParts filters element by element: it keeps the order of the parts
      and every repeat of a kept one. */
  lemma {:induction false} KeepPartsAppend(a: seq<string>, b: seq<string>)
    ensures KeepParts(a + b) == KeepParts(a) + KeepParts(b)
    decreases |a|
  {
    if |a| > 0 {
      assert (a + b)[1..] == a[1..] + b;
      KeepPartsAppend(a[1..], b);
    } else {
      assert a + b == b;
    }
  }

  /** Safe parts are all kept, in order. */
  lemma {:induction false} KeepSafe(parts: seq<string>)
    requires AllSafe(parts)
    ensures KeepParts(parts) == parts
    decreases |parts|
  {
    if |parts| > 0 {
      KeepSafe(parts[1..]);
      assert [parts[0]] + parts[1..] == parts;
    }
  }

  /** deriveTagsFromPath and deriveCategoriesFromPath (the two have the same
      body): nothing for the root; with mode "all" every element of the
      cleaned path other than "" and "."; with any other mode its last
      element. */
  function DeriveLabels(relPath: string, mode: string): (r: seq<string>)
    ensures Clean(relPath) == "." || Clean(relPath) == "/" ==> r == []
    ensures forall x :: x in r ==> x != "" && x != "."
    ensures mode == "all" ==>
      forall x :: x in r <==> Clean(relPath) != "/" && x in Split(Clean(relPath), '/') && x != "" && x != "."
    ensures mode == "all" ==> r == KeepParts(Split(Clean(relPath), '/'))
    ensures mode != "all" ==> |r| <= 1 && (r != [] ==> r[0] == Base(Clean(relPath)))
  {
    var clean := Clean(relPath);
    if clean == "." || clean == "/" || clean == "" then []
    else if mode == "all" then KeepParts(Split(clean, '/'))
    else
      var parent := Base(clean);
      if parent == "" || parent == "." then [] else [parent]
  }

  /** On a path the mirror builds, mode "all" yields its elements and any
      other mode its last element. */
  lemma DeriveLabelsShaped(p: string, mode: string)
    requires Shaped(p)
    ensures mode == "all" ==> DeriveLabels(p, mode) == Segments(p)
    ensures mode != "all" ==>
      DeriveLabels(p, mode) == if p == "." then [] else [Segments(p)[|Segments(p)| - 1]]
  {
    RelSegments(p);
    var segs := Segments(p);
    CleanRel(segs);
    if p != "." {
      assert |segs| >= 1;
      JoinWithHead(segs, '/');
      assert p[0] != '/' by { assert p[0] == segs[0][0] && Safe(segs[0]); }
      if mode == "all" {
        KeepSafe(segs);
      } else {
        BaseRel(segs);
      }
    }
  }

  /** The tags of a wiki document in mode "all" are the sanitized titles of
      its ancestors below the root, outermost first; in any other mode the
      sanitized title of its parent, none for a child of the root. */
  lemma NodeLabels(nodes: seq<Document>, root: string, pathMap: map<string, string>, i: int, mode: string)
    requires WellFormed(nodes, root) && 0 <= i < |nodes|
    requires forall k :: k in pathMap <==> k == root || exists i :: 0 <= i < |nodes| && nodes[i].nodeToken == k
    requires forall k :: k in pathMap ==> pathMap[k] == Expected(nodes, root, k)
    ensures var dir := OutputDirFor(pathMap, nodes[i].parentToken);
      mode == "all" ==> DeriveLabels(dir, mode) == Segments(Expected(nodes, root, nodes[i].parentToken))
    ensures var dir := OutputDirFor(pathMap, nodes[i].parentToken);
      mode != "all" && nodes[i].parentToken == root ==> DeriveLabels(dir, mode) == []
    ensures var dir := OutputDirFor(pathMap, nodes[i].parentToken);
      var j := IndexOf(nodes, nodes[i].parentToken);
      mode != "all" && nodes[i].parentToken != root ==>
        0 <= j < |nodes| && DeriveLabels(dir, mode) == [Sanitized(nodes[j].name)]
  {
    var parent := nodes[i].parentToken;
    OutputDirOfNode(nodes, root, pathMap, i);
    var dir := OutputDirFor(pathMap, parent);
    DeriveLabelsShaped(dir, mode);
    if parent != root {
      ParentIndex(nodes, root, i);
      var j := IndexOf(nodes, parent);
      PathOfShaped(nodes, root, j);
    }
  }

  /** The runes that make escapeYAML quote a scalar. */
  const Special: string := ":-#{}[],&*?|\"<>=!%@`) \\"

  /** A backslash before every backslash and every double quote. */
  function EscapeChars(s: string): (r: string)
    ensures |r| >= |s|
    decreases |s|
  {
    if |s| == 0 then ""
    else (if s[0] == '\\' then "\\\\" else if s[0] == '"' then "\\\"" else [s[0]]) + EscapeChars(s[1..])
  }

  /** The inside of a YAML double-quoted scalar that uses only the escapes
      \\ and \" read back: None on a bare double quote, a dangling backslash
      or any other escape. */
  function Unescape(t: string): (r: Option<string>)
    decreases |t|
  {
    if |t| == 0 then Some("")
    else if t[0] == '"' then None
    else if t[0] == '\\' then
      if |t| >= 2 && (t[1] == '\\' || t[1] == '"') then
        match Unescape(t[2..])
        case None => None
        case Some(rest) => Some([t[1]] + rest)
      else None
    else
      match Unescape(t[1..])
      case None => None
      case Some(rest) => Some([t[0]] + rest)
  }

  lemma {:induction false} UnescapeEscape(s: string)
    ensures Unescape(EscapeChars(s)) == Some(s)
    decreases |s|
  {
    if |s| > 0 {
      UnescapeEscape(s[1..]);
      var t := EscapeChars(s);
      var head := if s[0] == '\\' then "\\\\" else if s[0] == '"' then "\\\"" else [s[0]];
      assert t == head + EscapeChars(s[1..]);
      assert t[|head|..] == EscapeChars(s[1..]);
      assert [s[0]] + s[1..] == s;
    }
  }

  lemma {:induction false} SubstConcat(a: string, b: string, k: char, repl: string)
    ensures Subst(a + b, k, repl) == Subst(a, k, repl) + Subst(b, k, repl)
    decreases |a|
  {
    if |a| > 0 {
      SubstConcat(a[1..], b, k, repl);
      assert (a + b)[1..] == a[1..] + b;
    } else {
      assert a + b == b;
    }
  }

  /** The two ReplaceAll calls of escapeYAML escape rune by rune. */
  lemma {:induction false} EscapeByReplace(s: string)
    ensures ReplaceAll(ReplaceAll(s, "\\", "\\\\"), "\"", "\\\"") == EscapeChars(s)
  {
    ReplaceAllOneRune(s, '\\', "\\\\");
    ReplaceAllOneRune(Subst(s, '\\', "\\\\"), '"', "\\\"");
    SubstTwice(s);
  }

  lemma {:induction false} SubstTwice(s: string)
    ensures Subst(Subst(s, '\\', "\\\\"), '"', "\\\"") == EscapeChars(s)
    decreases |s|
  {
    if |s| > 0 {
      SubstTwice(s[1..]);
      var head := if s[0] == '\\' then "\\\\" else [s[0]];
      SubstConcat(head, Subst(s[1..], '\\', "\\\\"), '"', "\\\"");
      if s[0] == '\\' {
        assert Subst(head, '"', "\\\"") == "\\\\" by {
          assert head[1..][1..] == "";
        }
      } else {
        assert Subst(head, '"', "\\\"") == (if s[0] == '"' then "\\\"" else [s[0]]) by {
          assert head[1..] == "";
        }
      }
    }
  }

  lemma {:induction false} EscapeKeepsNewlines(s: string, c: char)
    requires c != '\\' && c != '"' && c !in s
    ensures c !in EscapeChars(s)
    decreases |s|
  {
    if |s| > 0 {
      EscapeKeepsNewlines(s[1..], c);
    }
  }

  /** escapeYAML: a scalar with none of the special runes is written as it
      is; any other is written double-quoted, and the quoted text reads back
      as the scalar. */
  function EscapeYAML(s: string): (r: string)
    ensures !ContainsAny(s, Special) ==> r == s
    ensures ContainsAny(s, Special) ==>
      |r| >= 2 && r[0] == '"' && r[|r| - 1] == '"' && Unescape(r[1..|r| - 1]) == Some(s)
  {
    if ContainsAny(s, Special) then
      EscapeByReplace(s);
      UnescapeEscape(s);
      var q := "\"" + ReplaceAll(ReplaceAll(s, "\\", "\\\\"), "\"", "\\\"") + "\"";
      assert q[1..|q| - 1] == EscapeChars(s);
      q
    else s
  }

  /** A scalar without a newline is escaped without one. */
  lemma EscapeYAMLOneLine(s: string)
    requires '\n' !in s
    ensures '\n' !in EscapeYAML(s)
  {
    if ContainsAny(s, Special) {
      EscapeByReplace(s);
      EscapeKeepsNewlines(s, '\n');
    }
  }

  /** The categories written: the given ones, else the tags, else the single
      default category. */
  function ChooseCategories(categories: seq<string>, tags: seq<string>): (r: seq<string>)
    ensures |r| > 0
    ensures |categories| > 0 ==> r == categories
    ensures |categories| == 0 && |tags| > 0 ==> r == tags
    ensures |categories| == 0 && |tags| == 0 ==> r == [DefaultCategory]
  {
    if |categories| > 0 then categories
    else if |tags| > 0 then tags
    else [DefaultCategory]
  }

  /** The default category, "uncategorised". */
  const DefaultCategory: string := "\U{672A}\U{5206}\U{7C7B}"

  /** The list lines for the entries of a category or tag list, skipping the
      blank ones. */
  function ItemLines(xs: seq<string>): (r: seq<string>)
    ensures |r| <= |xs|
    decreases |xs|
  {
    if |xs| == 0 then []
    else ItemLines(xs[..|xs| - 1]) + ItemLine(xs[|xs| - 1])
  }

  /** The list line of one entry, none for a blank one. */
  function ItemLine(x: string): (r: seq<string>)
    ensures |r| <= 1
  {
    if TrimSpace(x) == "" then [] else ["  - " + EscapeYAML(x)]
  }

  lemma ItemLinesPrefix(xs: seq<string>, i: nat)
    requires i < |xs|
    ensures ItemLines(xs[..i + 1]) == ItemLines(xs[..i]) + ItemLine(xs[i])
  {
    assert xs[..i + 1][..i] == xs[..i];
  }

  lemma ItemLinesStep(ls: seq<string>, xs: seq<string>, i: nat)
    requires i < |xs|
    ensures ls + ItemLines(xs[..i]) + ItemLine(xs[i]) == ls + ItemLines(xs[..i + 1])
  {
    ghost var a := ItemLines(xs[..i]);
    ghost var b := ItemLine(xs[i]);
    assert ls + a + b == ls + (a + b);
    ItemLinesPrefix(xs, i);
  }

  /** Every non-blank entry has its line, and every line is a non-blank
      entry's. */
  lemma {:induction false} ItemLinesMembers(xs: seq<string>)
    ensures forall x :: x in xs && TrimSpace(x) != "" ==> "  - " + EscapeYAML(x) in ItemLines(xs)
    ensures forall l :: l in ItemLines(xs) ==>
      exists x :: x in xs && TrimSpace(x) != "" && l == "  - " + EscapeYAML(x)
    decreases |xs|
  {
    if |xs| > 0 {
      var init := xs[..|xs| - 1];
      var x := xs[|xs| - 1];
      ItemLinesMembers(init);
      assert xs == init + [x];
      forall l | l in ItemLines(xs)
        ensures exists y :: y in xs && TrimSpace(y) != "" && l == "  - " + EscapeYAML(y)
      {
        if l in ItemLines(init) {
          var y :| y in init && TrimSpace(y) != "" && l == "  - " + EscapeYAML(y);
          assert y in xs;
        } else {
          assert l in ItemLine(x);
          assert x in xs;
        }
      }
    }
  }

  /** The lines of the frontmatter block, the last one empty. */
  function FrontmatterLines(title: string, date: string, updated: string, categories: seq<string>,
                            tags: seq<string>, docToken: string): seq<string>
  {
    HeadLines(title, date, updated) + ItemLines(ChooseCategories(categories, tags)) + TagLines(tags)
    + TailLines(docToken)
  }

  function HeadLines(title: string, date: string, updated: string): seq<string> {
    ["---", "title: " + EscapeYAML(title), "date: " + date, "updated: " + updated, "categories:"]
  }

  /** The tags block, written only when there are tags. */
  function TagLines(tags: seq<string>): seq<string> {
    if |tags| > 0 then ["tags:"] + ItemLines(tags) else []
  }

  function TailLines(docToken: string): seq<string> {
    ["id: " + EscapeYAML(docToken), "---", ""]
  }

  /** Each line followed by a newline. */
  function Unlines(ls: seq<string>): string
    decreases |ls|
  {
    if |ls| == 0 then "" else Unlines(ls[..|ls| - 1]) + ls[|ls| - 1] + "\n"
  }

  lemma UnlinesSnoc(ls: seq<string>, l: string)
    ensures Unlines(ls + [l]) == Unlines(ls) + l + "\n"
  {
    assert (ls + [l])[..|ls|] == ls;
  }

  /** Writing two runs of lines writes the first, then the second. */
  lemma {:induction false} UnlinesConcat(a: seq<string>, b: seq<string>)
    ensures Unlines(a + b) == Unlines(a) + Unlines(b)
    decreases |b|
  {
    if |b| > 0 {
      var init := b[..|b| - 1];
      var l := b[|b| - 1];
      UnlinesConcat(a, init);
      assert a + b == (a + init) + [l];
      assert b == init + [l];
      UnlinesSnoc(a + init, l);
      UnlinesSnoc(init, l);
    } else {
      assert a + b == a;
    }
  }

  /** Splitting at newlines gives back the lines of Unlines(ls) + l. */
  lemma {:induction false} SplitUnlines(ls: seq<string>, l: string)
    requires OneLine(ls) && '\n' !in l
    ensures Split(Unlines(ls) + l, '\n') == ls + [l]
    decreases |ls|
  {
    if |ls| == 0 {
      SplitNoSep(l, '\n');
      assert Unlines(ls) + l == l;
    } else {
      var init := ls[..|ls| - 1];
      var last := ls[|ls| - 1];
      SplitUnlines(init, last);
      assert Unlines(ls) + l == (Unlines(init) + last) + ['\n'] + l;
      SplitSnoc(Unlines(init) + last, '\n', l);
      assert init + [last] == ls;
    }
  }

  /** The frontmatter block: "---", the title, the two dates, the categories,
      the tags when there are any, the id, "---" and an empty line. */
  method BuildFrontmatter(title: string, date: string, updated: string, categories: seq<string>,
                          tags: seq<string>, docToken: string) returns (fm: string)
    ensures fm == Unlines(FrontmatterLines(title, date, updated, categories, tags, docToken))
  {
    ghost var ls: seq<string>;
    fm, ls := WriteHead(title, date, updated);
    var cats := categories;
    if |cats| == 0 && |tags| > 0 {
      cats := tags;
    }
    if |cats| == 0 {
      cats := [DefaultCategory];
    }
    fm, ls := AddItems(fm, ls, cats);
    fm, ls := WriteTags(fm, ls, tags);
    fm, ls := WriteTail(fm, ls, docToken);
  }

  /** Writes "---", the title, the two dates and "categories:". */
  method WriteHead(title: string, date: string, updated: string) returns (fm: string, ghost ls: seq<string>)
    ensures ls == HeadLines(title, date, updated) && fm == Unlines(ls)
  {
    fm, ls := AddLine("", [], "---");
    fm, ls := AddLine(fm, ls, "title: " + EscapeYAML(title));
    fm, ls := AddLine(fm, ls, "date: " + date);
    fm, ls := AddLine(fm, ls, "updated: " + updated);
    fm, ls := AddLine(fm, ls, "categories:");
  }

  /** Writes the tags block when there are tags. */
  method WriteTags(fm: string, ghost ls: seq<string>, tags: seq<string>) returns (fm': string, ghost ls': seq<string>)
    requires fm == Unlines(ls)
    ensures ls' == ls + TagLines(tags) && fm' == Unlines(ls')
  {
    if |tags| > 0 {
      assert ls + ["tags:"] + ItemLines(tags) == ls + TagLines(tags);
      ghost var ls1;
      fm', ls1 := AddLine(fm, ls, "tags:");
      fm', ls' := AddItems(fm', ls1, tags);
    } else {
      fm', ls' := fm, ls;
      assert ls' == ls + [];
    }
  }

  /** Writes the id and the closing "---", then an empty line. */
  method WriteTail(fm: string, ghost ls: seq<string>, docToken: string) returns (fm': string, ghost ls': seq<string>)
    requires fm == Unlines(ls)
    ensures ls' == ls + TailLines(docToken) && fm' == Unlines(ls')
  {
    fm', ls' := AddLine(fm, ls, "id: " + EscapeYAML(docToken));
    fm', ls' := AddLine(fm', ls', "---");
    fm', ls' := AddLine(fm', ls', "");
  }

  /** Writes one line. */
  method AddLine(fm: string, ghost ls: seq<string>, line: string) returns (fm': string, ghost ls': seq<string>)
    requires fm == Unlines(ls)
    ensures ls' == ls + [line] && fm' == Unlines(ls')
  {
    UnlinesSnoc(ls, line);
    fm' := fm + line + "\n";
    ls' := ls + [line];
  }

  /** Writes the list line of one entry, if it has one. */
  method AddItem(fm: string, ghost ls: seq<string>, x: string) returns (fm': string, ghost ls': seq<string>)
    requires fm == Unlines(ls)
    ensures ls' == ls + ItemLine(x) && fm' == Unlines(ls')
    ensures fm' == fm + Unlines(ItemLine(x))
  {
    UnlinesConcat(ls, ItemLine(x));
    if TrimSpace(x) != "" {
      fm', ls' := AddLine(fm, ls, "  - " + EscapeYAML(x));
    } else {
      fm', ls' := fm, ls;
      assert ls' == ls + [];
    }
  }

  /** The loop over a category or tag list. */
  method AddItems(fm: string, ghost ls: seq<string>, xs: seq<string>) returns (fm': string, ghost ls': seq<string>)
    requires fm == Unlines(ls)
    ensures ls' == ls + ItemLines(xs) && fm' == Unlines(ls')
    ensures fm' == fm + Unlines(ItemLines(xs))
  {
    fm', ls' := fm, ls;
    var i := 0;
    while i < |xs|
      invariant 0 <= i <= |xs|
      invariant ls' == ls + ItemLines(xs[..i]) && fm' == Unlines(ls')
    {
      fm', ls' := AddItem(fm', ls', xs[i]);
      ItemLinesStep(ls, xs, i);
      i := i + 1;
    }
    assert xs[..|xs|] == xs;
    UnlinesConcat(ls, ItemLines(xs));
  }

  /** No line holds a newline. */
  predicate OneLine(ls: seq<string>) {
    forall k :: 0 <= k < |ls| ==> '\n' !in ls[k]
  }

  lemma OneLineConcat(a: seq<string>, b: seq<string>)
    requires OneLine(a) && OneLine(b)
    ensures OneLine(a + b)
  {
    forall k | 0 <= k < |a + b|
      ensures '\n' !in (a + b)[k]
    {
      if k >= |a| {
        assert (a + b)[k] == b[k - |a|];
      }
    }
  }

  /** When no field holds a newline, splitting the block at newlines gives
      exactly its lines (and the empty text after the last newline): every
      field sits on a line of its own. */
  lemma FrontmatterLinesRecovered(title: string, date: string, updated: string, categories: seq<string>,
                                  tags: seq<string>, docToken: string)
    requires '\n' !in title && '\n' !in date && '\n' !in updated && '\n' !in docToken
    requires OneLine(categories) && OneLine(tags)
    ensures var ls := FrontmatterLines(title, date, updated, categories, tags, docToken);
      Split(Unlines(ls), '\n') == ls + [""]
  {
    var head := HeadLines(title, date, updated);
    var cats := ItemLines(ChooseCategories(categories, tags));
    HeadOneLine(title, date, updated);
    ChooseOneLine(categories, tags);
    ItemLinesOneLine(ChooseCategories(categories, tags));
    TagLinesOneLine(tags);
    TailOneLine(docToken);
    OneLineConcat(head, cats);
    OneLineConcat(head + cats, TagLines(tags));
    OneLineConcat(head + cats + TagLines(tags), TailLines(docToken));
    var ls := head + cats + TagLines(tags) + TailLines(docToken);
    SplitUnlines(ls, "");
    assert Unlines(ls) + "" == Unlines(ls);
  }

  lemma HeadOneLine(title: string, date: string, updated: string)
    requires '\n' !in title && '\n' !in date && '\n' !in updated
    ensures OneLine(HeadLines(title, date, updated))
  {
    EscapeYAMLOneLine(title);
    LabelledOneLine("title: ", EscapeYAML(title));
    LabelledOneLine("date: ", date);
    LabelledOneLine("updated: ", updated);
  }

  lemma SingleOneLine(l: string)
    requires '\n' !in l
    ensures OneLine([l])
  {
  }

  /** A key followed by a value without a newline has no newline. */
  lemma LabelledOneLine(key: string, v: string)
    requires '\n' !in key && '\n' !in v
    ensures '\n' !in key + v
  {
    forall i | 0 <= i < |key + v|
      ensures (key + v)[i] != '\n'
    {
      if i >= |key| {
        assert (key + v)[i] == v[i - |key|];
      }
    }
  }

  lemma ChooseOneLine(categories: seq<string>, tags: seq<string>)
    requires OneLine(categories) && OneLine(tags)
    ensures OneLine(ChooseCategories(categories, tags))
  {
    if |categories| == 0 && |tags| == 0 {
      assert '\n' !in DefaultCategory;
    }
  }

  lemma TailOneLine(docToken: string)
    requires '\n' !in docToken
    ensures OneLine(TailLines(docToken))
  {
    EscapeYAMLOneLine(docToken);
  }

  lemma TagLinesOneLine(tags: seq<string>)
    requires OneLine(tags)
    ensures OneLine(TagLines(tags))
  {
    if |tags| > 0 {
      SingleOneLine("tags:");
      ItemLinesOneLine(tags);
      OneLineConcat(["tags:"], ItemLines(tags));
      assert TagLines(tags) == ["tags:"] + ItemLines(tags);
    }
  }

  lemma {:induction false} ItemLinesOneLine(xs: seq<string>)
    requires OneLine(xs)
    ensures OneLine(ItemLines(xs))
    decreases |xs|
  {
    if |xs| > 0 {
      var init := xs[..|xs| - 1];
      var x := xs[|xs| - 1];
      assert OneLine(init) by {
        forall k | 0 <= k < |init|
          ensures '\n' !in init[k]
        {
          assert init[k] == xs[k];
        }
      }
      ItemLinesOneLine(init);
      ItemLineOneLine(x);
      assert ItemLines(xs) == ItemLines(init) + ItemLine(x);
      OneLineConcat(ItemLines(init), ItemLine(x));
    }
  }

  lemma ItemLineOneLine(x: string)
    requires '\n' !in x
    ensures OneLine(ItemLine(x))
  {
    if TrimSpace(x) != "" {
      EscapeYAMLOneLine(x);
      LabelledOneLine("  - ", EscapeYAML(x));
    }
  }

  /** The date and updated fields: the formatted creation and modification
      times when GetDocxTimes returned them, the current time otherwise. */
  function DateFields(times: Result<(Option<Instant>, Option<Instant>), string>, format: Instant -> string,
                      now: string): (r: (string, string))
    ensures r.0 == now || (times.Ok? && times.value.0.Some? && r.0 == format(times.value.0.value))
    ensures r.1 == now || (times.Ok? && times.value.1.Some? && r.1 == format(times.value.1.value))
    ensures times.Err? || times.value.0.None? ==> r.0 == now
    ensures times.Err? || times.value.1.None? ==> r.1 == now
  {
    var date := if times.Ok? && times.value.0.Some? then format(times.value.0.value) else "";
    var updated := if times.Ok? && times.value.1.Some? then format(times.value.1.value) else "";
    (if date == "" then now else date, if updated == "" then now else updated)
  }
}
