/** utils.SanitizeFileName: turns a document or node title into a name that
    is safe as one element of a file path. */
module Sanitize {
  import opened Strs
  import opened Paths

  /** The replacement table: each rune that is unsafe in file names and the
      rune that stands in for it. */
  const Table: map<char, char> := map[
    '/' := '-', '\\' := '-', ':' := '-',
    '*' := '\U{2605}',   // BLACK STAR
    '?' := '\U{FF1F}',   // FULLWIDTH QUESTION MARK
    '"' := '\'',
    '<' := '\U{300A}',   // LEFT DOUBLE ANGLE BRACKET
    '>' := '\U{300B}',   // RIGHT DOUBLE ANGLE BRACKET
    '|' := '-']

  /** No replacement is itself replaced again, so the order in which the
      table is applied does not matter. */
  lemma TableValuesAreNotKeys()
    ensures forall c :: c in Table ==> Table[c] !in Table
  {
  }

  function MapRune(c: char): char {
    if c in Table then Table[c] else c
  }

  /** The title with every table rune replaced. */
  function Mapped(title: string): (r: string)
    ensures |r| == |title|
    ensures forall i :: 0 <= i < |r| ==> r[i] !in Table
  {
    TableValuesAreNotKeys();
    seq(|title|, i requires 0 <= i < |title| => MapRune(title[i]))
  }

  /** What SanitizeFileName yields: the mapped title without surrounding white
      space, or "untitled" when that is empty, "." or "..". The result is
      always a safe path element that holds no table rune and neither starts
      nor ends with white space. */
  function Sanitized(title: string): (r: string)
    ensures Safe(r)
    ensures forall c :: c in Table ==> c !in r
    ensures !IsSpace(r[0]) && !IsSpace(r[|r| - 1])
  {
    UntitledIsClean();
    var t := TrimSpace(Mapped(title));
    TrimmedClean(Mapped(title), t);
    if t == "" || t == "." || t == ".." then "untitled" else t
  }

  /** The trimmed mapped title holds no table rune, hence no '/', and does
      not start or end with white space. */
  lemma TrimmedClean(m: string, t: string)
    requires forall i :: 0 <= i < |m| ==> m[i] !in Table
    requires t == TrimSpace(m)
    ensures forall c :: c in Table ==> c !in t
    ensures '/' !in t
    ensures t == [] || (!IsSpace(t[0]) && !IsSpace(t[|t| - 1]))
  {
    assert '/' in Table;
    NoTableRunesInPart(m, t);
  }

  /** The fallback name is itself a clean name. */
  lemma UntitledIsClean()
    ensures Safe("untitled")
    ensures forall c :: c in Table ==> c !in "untitled"
    ensures !IsSpace('u') && !IsSpace('d')
  {
  }

  lemma NoTableRunesInPart(m: string, t: string)
    requires forall i :: 0 <= i < |m| ==> m[i] !in Table
    requires exists i :: 0 <= i <= |m| && OccursAt(m, t, i)
    ensures forall c :: c in Table ==> c !in t
  {
    var i :| 0 <= i <= |m| && OccursAt(m, t, i);
    forall j | 0 <= j < |t| ensures t[j] !in Table {
      assert t[j] == m[i + j];
    }
  }

  /** The loop of SanitizeFileName: one strings.ReplaceAll per table entry,
      in `order`, the order in which Go's map iteration happens to visit the
      table's keys. */
  method SanitizeFileName(title: string, order: seq<char>) returns (r: string)
    requires forall c :: c in order <==> c in Table
    ensures r == Sanitized(title)
  {
    TableValuesAreNotKeys();
    var t := title;
    var i := 0;
    while i < |order|
      invariant 0 <= i <= |order|
      invariant |t| == |title|
      invariant forall j :: 0 <= j < |t| ==>
        t[j] == if title[j] in order[..i] then Table[title[j]] else title[j]
    {
      var k := order[i];
      ReplaceAllOneRune(t, k, [Table[k]]);
      SubstPointwise(t, k, Table[k]);
      assert order[..i + 1] == order[..i] + [k];
      t := ReplaceAll(t, [k], [Table[k]]);
      i := i + 1;
    }
    assert order[..i] == order;
    assert t == Mapped(title);
    t := TrimSpace(t);
    if t == "" || t == "." || t == ".." {
      t := "untitled";
    }
    r := t;
  }

  /** Sanitizing a sanitized name changes nothing. */
  lemma SanitizedIdempotent(title: string)
    ensures Sanitized(Sanitized(title)) == Sanitized(title)
  {
    var s := Sanitized(title);
    assert Mapped(s) == s;
    TrimSpaceOfTrimmed(s);
  }

  /** A title that is already a clean name is kept as it is. */
  lemma SanitizedKeepsCleanNames(title: string)
    requires Safe(title)
    requires forall c :: c in Table ==> c !in title
    requires !IsSpace(title[0]) && !IsSpace(title[|title| - 1])
    ensures Sanitized(title) == title
  {
    assert Mapped(title) == title;
    TrimSpaceOfTrimmed(title);
  }
}
