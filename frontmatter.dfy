/**
 * Front matter of a Markdown note: a first line starting with `---`, YAML
 * header lines, and a later line that strips to `---`; everything after
 * that line is the body. `parse_front_matter` splits a note this way and
 * `build_front_matter` writes a header back between `---` lines. The YAML
 * library itself is a parameter.
 */
module FrontMatter {
  import opened Wrappers
  import opened Text
  import opened Values

  /**
   * The YAML library as the script calls it: `yaml.safe_load` (None when it
   * raises) and `yaml.safe_dump(..., sort_keys=False, default_flow_style=False)`.
   */
  datatype Yaml = Yaml(load: string -> Option<Value>, dump: Entries -> string)

  const Delimiter := "---"

  /** A line that closes the header: it strips to `---`. */
  predicate IsDelimiterLine(line: string) { Strip(line) == Delimiter }

  /** What `parse_front_matter` returns: the header (None when there is none) and the body. */
  datatype Note = Note(header: Option<Entries>, body: string)

  /** The first index from `from` on whose line strips to `---` (the `next(...)` of line 128). */
  function CloseIndex(parts: seq<string>, from: nat): (r: Option<nat>)
    ensures r.Some? ==> from <= r.value < |parts| && IsDelimiterLine(parts[r.value])
    ensures r.Some? ==> forall j :: from <= j < r.value ==> !IsDelimiterLine(parts[j])
    ensures r.None? ==> forall j :: from <= j < |parts| ==> !IsDelimiterLine(parts[j])
    decreases |parts| - from
  {
    if from >= |parts| then None
    else if IsDelimiterLine(parts[from]) then Some(from)
    else CloseIndex(parts, from + 1)
  }

  /** Lines 143-149: `yaml.safe_load(t) or {}`, and `{}` again unless that is a dictionary or the load raised. */
  function HeaderEntries(loaded: Option<Value>): (r: Entries)
    ensures loaded.Some? && loaded.value.Dict? ==> r == loaded.value.entries
    ensures !(loaded.Some? && loaded.value.Dict?) ==> r == []
  {
    match loaded
    case Some(Dict(es)) => es
    case _ => []
  }

  /** Python's `parse_front_matter(content)`. */
  function ParseFrontMatter(y: Yaml, content: string): Note {
    if !StartsWith(content, Delimiter) then Note(None, content)
    else
      var parts := Split(content, '\n');
      match CloseIndex(parts, 1)
      case None => Note(None, content)
      case Some(e) =>
        Note(Some(HeaderEntries(y.load(Join(parts[1..e], "\n")))), Join(parts[e + 1..], "\n"))
  }

  /** Python's `build_front_matter(fm)`. */
  function BuildFrontMatter(y: Yaml, fm: Entries): (r: string)
    ensures StartsWith(r, "---\n") && EndsWith(r, "---\n")
  {
    "---\n" + y.dump(fm) + "---\n"
  }

  // ---------------------------------------------------------------------
  // properties
  // ---------------------------------------------------------------------

  /** The text starts with `---` and some later line of it strips to `---`. */
  predicate HasHeaderBlock(content: string) {
    StartsWith(content, Delimiter) &&
    exists k :: 1 <= k < |Split(content, '\n')| && IsDelimiterLine(Split(content, '\n')[k])
  }

  /** Lines 125-133: there is a header exactly when the note has a header block; without one the note is returned untouched. */
  lemma NoHeaderWithoutClose(y: Yaml, content: string)
    ensures ParseFrontMatter(y, content).header.Some? <==> HasHeaderBlock(content)
    ensures ParseFrontMatter(y, content).header.None? ==> ParseFrontMatter(y, content).body == content
  {
    if StartsWith(content, Delimiter) {
      var parts := Split(content, '\n');
      var c := CloseIndex(parts, 1);
      if c.Some? {
        assert IsDelimiterLine(Split(content, '\n')[c.value]);
      }
    }
  }

  /**
   * Lines 128-141: when a header is found, the note is the first line, the
   * header text (the lines strictly between it and the first later line
   * stripping to `---`), that line, and the body, glued by newlines; the
   * header is what loading the header text gives.
   */
  lemma SplitLayout(y: Yaml, content: string) returns (e: nat, text: string)
    requires ParseFrontMatter(y, content).header.Some?
    ensures var parts := Split(content, '\n');
      1 <= e < |parts| && IsDelimiterLine(parts[e]) &&
      (forall j :: 1 <= j < e ==> !IsDelimiterLine(parts[j])) &&
      StartsWith(parts[0], Delimiter) &&
      (e == 1 || Split(text, '\n') == parts[1..e]) &&
      content == parts[0] + "\n" + text + (if e > 1 then "\n" else "") + parts[e]
                 + (if e + 1 < |parts| then "\n" + ParseFrontMatter(y, content).body else "")
    ensures ParseFrontMatter(y, content).header == Some(HeaderEntries(y.load(text)))
  {
    var parts := Split(content, '\n');
    e := CloseIndex(parts, 1).value;
    text := Join(parts[1..e], "\n");
    var body := ParseFrontMatter(y, content).body;
    assert body == Join(parts[e + 1..], "\n");
    LinesAround(content, parts, e, text, body);
  }

  /** The layout of a text around its line `e`, given the joins of the lines before and after it. */
  lemma LinesAround(content: string, parts: seq<string>, e: nat, text: string, body: string)
    requires StartsWith(content, Delimiter) && Split(content, '\n') == parts && 1 <= e < |parts|
    requires Join(parts[1..e], "\n") == text && Join(parts[e + 1..], "\n") == body
    ensures StartsWith(parts[0], Delimiter)
    ensures e == 1 || Split(text, '\n') == parts[1..e]
    ensures content == parts[0] + "\n" + text + (if e > 1 then "\n" else "") + parts[e]
                       + (if e + 1 < |parts| then "\n" + body else "")
  {
    JoinSplit(content, '\n');
    FirstLineStart(content, Delimiter);
    if e > 1 {
      SplitJoin(parts[1..e], '\n');
    }
    JoinAround(parts, e, text, body);
  }

  /** A join cut around the piece at index `e`, given the joins of the pieces before and after it. */
  lemma {:induction false} JoinAround(parts: seq<string>, e: nat, text: string, after: string)
    requires 1 <= e < |parts|
    requires Join(parts[1..e], "\n") == text && Join(parts[e + 1..], "\n") == after
    ensures Join(parts, "\n") == parts[0] + "\n" + text + (if e > 1 then "\n" else "") + parts[e]
                                 + (if e + 1 < |parts| then "\n" + after else "")
  {
    var rest := if e + 1 < |parts| then "\n" + after else "";
    var tail := parts[e..];
    JoinHead(tail);
    assert tail[1..] == parts[e + 1..];
    var tailJoin := Join(tail, "\n");
    assert tailJoin == parts[e] + rest;
    var mid := parts[1..];
    var sep: string := if e > 1 then "\n" else "";
    if e > 1 {
      SliceSplit(parts, 1, e);
      JoinAppend(parts[1..e], tail, "\n");
    } else {
      assert mid == tail;
      assert parts[1..e] == [];
    }
    assert Join(mid, "\n") == text + sep + tailJoin;
    JoinHead(parts);
    assert Join(parts, "\n") == parts[0] + "\n" + (text + sep + (parts[e] + rest));
    Assoc6(parts[0], "\n", text, sep, parts[e], rest);
  }

  lemma SliceSplit(s: seq<string>, i: nat, j: nat)
    requires i <= j <= |s|
    ensures s[i..] == s[i..j] + s[j..]
  {
  }

  lemma Assoc6(a: string, b: string, c: string, d: string, f: string, g: string)
    ensures a + b + (c + d + (f + g)) == a + b + c + d + f + g
  {
    assert c + d + (f + g) == c + d + f + g;
  }

  /** The first piece of a join, and the rest. */
  lemma {:induction false} JoinHead(parts: seq<string>)
    requires parts != []
    ensures Join(parts, "\n") == parts[0] + (if |parts| > 1 then "\n" + Join(parts[1..], "\n") else "")
  {
  }

  /** The first line of a text that starts with a `\n`-free prefix starts with that prefix. */
  lemma {:induction false} FirstLineStart(s: string, p: string)
    requires StartsWith(s, p) && '\n' !in p
    ensures StartsWith(Split(s, '\n')[0], p)
  {
    if p != [] {
      assert s[0] == p[0] && s[0] != '\n';
      assert StartsWith(s[1..], p[1..]) by { assert s[1..][..|p| - 1] == s[..|p|][1..]; }
      FirstLineStart(s[1..], p[1..]);
      assert Split(s, '\n')[0] == [s[0]] + Split(s[1..], '\n')[0];
    }
  }

  /** An empty header between the delimiters gives `{}`, never None (`yaml.safe_load("")` is None). */
  lemma EmptyHeaderIsEmptyDict(y: Yaml, body: string)
    requires y.load("") == None || y.load("") == Some(Null)
    ensures ParseFrontMatter(y, "---\n---\n" + body) == Note(Some([]), body)
  {
    EmptyFrameable();
    FramedParse(y, "", body);
    EmptyFrame(body);
  }

  /** `d` without its final newline. */
  function Chomp(d: string): string {
    if d != [] && d[|d| - 1] == '\n' then d[..|d| - 1] else d
  }

  /** A dump that `build_front_matter` can frame: empty or newline-terminated, and no line of it strips to `---`. */
  predicate Frameable(d: string) {
    (d == [] || d[|d| - 1] == '\n') &&
    forall k :: 0 <= k < |Split(Chomp(d), '\n')| ==> !IsDelimiterLine(Split(Chomp(d), '\n')[k])
  }

  /** The lines of a newline-terminated dump. */
  function DumpLines(d: string): seq<string> {
    if d == [] then [] else Split(Chomp(d), '\n')
  }

  /** The lines of a framed dump: the delimiter, the dump's lines, the delimiter, the body's lines. */
  lemma {:induction false} FramedLines(d: string, body: string)
    requires d == [] || d[|d| - 1] == '\n'
    ensures Split("---\n" + d + "---\n" + body, '\n') == ["---"] + DumpLines(d) + ["---"] + Split(body, '\n')
  {
    var open: string := "---\n";
    assert open == "---" + "\n";
    var rest := open + body;
    LeadingLine("---", body);
    AppendAssoc(open + d, open, body);
    AppendAssoc(open, d, rest);
    LeadingLine("---", d + rest);
    var tail := Split(rest, '\n');
    if d == [] {
      assert d + rest == rest;
      assert ["---"] + DumpLines(d) == ["---"];
    } else {
      var h := Chomp(d);
      assert d == h + "\n";
      SplitAppend(h, rest, '\n');
      AppendAssoc(["---"], Split(h, '\n'), tail);
      AppendAssoc(["---"] + Split(h, '\n'), ["---"], Split(body, '\n'));
    }
  }

  /** A line without a newline, a newline, and more: the line, then the lines of the rest. */
  lemma LeadingLine(a: string, b: string)
    requires '\n' !in a
    ensures Split(a + "\n" + b, '\n') == [a] + Split(b, '\n')
  {
    SplitNoSep(a, '\n');
    SplitAppend(a, b, '\n');
  }

  /** Where the pieces of a framed split sit. */
  lemma FramedIndices(hs: seq<string>, bs: seq<string>, parts: seq<string>)
    requires parts == ["---"] + hs + ["---"] + bs
    requires forall k :: 0 <= k < |hs| ==> !IsDelimiterLine(hs[k])
    ensures |hs| + 1 < |parts| && parts[|hs| + 1] == Delimiter
    ensures parts[1..|hs| + 1] == hs && parts[|hs| + 2..] == bs
    ensures forall j :: 1 <= j < |hs| + 1 ==> !IsDelimiterLine(parts[j])
  {
    forall j | 1 <= j < |hs| + 1 ensures !IsDelimiterLine(parts[j]) {
      assert parts[j] == hs[j - 1];
    }
  }

  /** The delimiter line itself closes a header. */
  lemma DelimiterLine()
    ensures IsDelimiterLine(Delimiter)
  {
    StripOfTrimmed(Delimiter);
  }

  /** The lines of a frameable dump join back to it without its final newline, and none is a delimiter. */
  lemma DumpJoin(d: string)
    requires Frameable(d)
    ensures Join(DumpLines(d), "\n") == Chomp(d)
    ensures forall k :: 0 <= k < |DumpLines(d)| ==> !IsDelimiterLine(DumpLines(d)[k])
  {
    if d != [] {
      JoinSplit(Chomp(d), '\n');
    }
  }

  /** A text starting with a prefix still starts with it once something is appended. */
  lemma StartsWithAppend(a: string, b: string, p: string)
    requires StartsWith(a, p)
    ensures StartsWith(a + b, p)
  {
    assert (a + b)[..|p|] == a[..|p|];
  }

  /** A framed text starts with the delimiter. */
  lemma FramedStart(d: string, body: string)
    ensures StartsWith("---\n" + d + "---\n" + body, Delimiter)
  {
    assert StartsWith("---\n", Delimiter);
    StartsWithAppend("---\n", d, Delimiter);
    StartsWithAppend("---\n" + d, "---\n", Delimiter);
    StartsWithAppend("---\n" + d + "---\n", body, Delimiter);
  }

  /** The empty dump framed in front of a body. */
  lemma EmptyFrame(body: string)
    ensures "---\n" + "" + "---\n" + body == "---\n---\n" + body
  {
    assert "---\n" + "" + "---\n" == "---\n---\n";
  }

  /** The empty dump is frameable and loads as the empty text. */
  lemma EmptyFrameable()
    ensures Frameable("") && Chomp("") == ""
  {
    assert Split(Chomp(""), '\n') == [""];
    assert !IsDelimiterLine("");
  }

  /** The first line after the opening one that strips to `---`. */
  lemma CloseAt(parts: seq<string>, e: nat)
    requires 1 <= e < |parts| && IsDelimiterLine(parts[e])
    requires forall j :: 1 <= j < e ==> !IsDelimiterLine(parts[j])
    ensures CloseIndex(parts, 1) == Some(e)
  {
    var c := CloseIndex(parts, 1);
    assert c.Some?;
    assert c.value == e;
  }

  /** The parse once the closing line and the joins on either side of it are known. */
  lemma ParseAtLines(y: Yaml, content: string, parts: seq<string>, e: nat,
                     hs: seq<string>, header: string, bs: seq<string>, rest: string)
    requires StartsWith(content, Delimiter) && Split(content, '\n') == parts
    requires CloseIndex(parts, 1) == Some(e)
    requires parts[1..e] == hs && Join(hs, "\n") == header
    requires parts[e + 1..] == bs && Join(bs, "\n") == rest
    ensures ParseFrontMatter(y, content) == Note(Some(HeaderEntries(y.load(header))), rest)
  {
  }

  /**
   * Lines 124-159: a frameable dump between two `---` lines in front of a
   * body reads back as what loading the dump (without its final newline)
   * gives, and that body.
   */
  lemma FramedParse(y: Yaml, d: string, body: string)
    requires Frameable(d)
    ensures ParseFrontMatter(y, "---\n" + d + "---\n" + body) == Note(Some(HeaderEntries(y.load(Chomp(d)))), body)
  {
    var c := "---\n" + d + "---\n" + body;
    FramedLines(d, body);
    DumpJoin(d);
    FramedStart(d, body);
    JoinSplit(body, '\n');
    FramedParseOf(y, c, Split(c, '\n'), DumpLines(d), Split(body, '\n'), Chomp(d), body);
  }

  /** The parse of a text whose lines are a delimiter, header lines, a delimiter and body lines. */
  lemma FramedParseOf(y: Yaml, c: string, parts: seq<string>, hs: seq<string>, bs: seq<string>,
                      header: string, body: string)
    requires StartsWith(c, Delimiter) && Split(c, '\n') == parts
    requires parts == ["---"] + hs + ["---"] + bs
    requires forall k :: 0 <= k < |hs| ==> !IsDelimiterLine(hs[k])
    requires Join(hs, "\n") == header && Join(bs, "\n") == body
    ensures ParseFrontMatter(y, c) == Note(Some(HeaderEntries(y.load(header))), body)
  {
    FramedIndices(hs, bs, parts);
    DelimiterLine();
    CloseAt(parts, |hs| + 1);
    ParseAtLines(y, c, parts, |hs| + 1, hs, header, bs, body);
  }

  /**
   * Lines 124-159 together: a header written by `build_front_matter` in front
   * of a body reads back as that header and that body, provided the dump is
   * frameable and loading it gives the header back.
   */
  lemma BuildThenParse(y: Yaml, fm: Entries, body: string)
    requires Frameable(y.dump(fm))
    requires y.load(Chomp(y.dump(fm))) == Some(Dict(fm))
    ensures ParseFrontMatter(y, BuildFrontMatter(y, fm) + body) == Note(Some(fm), body)
  {
    FramedParse(y, y.dump(fm), body);
  }
}
