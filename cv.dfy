/**
 * The "about" page: `update_cv_markdown` turns the LinkedIn export into
 * Markdown lines (front matter, heading, headline, summary and at most six
 * recent positions) and writes them joined by newlines.
 */
module Cv {
  import opened Wrappers
  import opened Text
  import opened Values
  import opened Markdown
  import opened FrontMatter

  const AboutHeader: Entries := [("layout", Str("page")), ("title", Str("Sobre mí")), ("permalink", Str("/about/"))]
  const AboutHeading := "# Sobre mí\n"
  const ExperienceHeading := "## Experiencia reciente\n"
  const MaxPositions := 6
  const UntitledRole := "Rol sin título"
  const Present := "Actualidad"

  // ---------------------------------------------------------------------
  // the fields of the export
  // ---------------------------------------------------------------------

  /** `headline or title or ""`. */
  function Headline(es: Entries): Value {
    OrChain(GetFirst(es, ["headline", "title"]) + [Str("")])
  }

  /** `clean_markdown_text(str(summary or about or description or ""))`. */
  function Summary(es: Entries): string {
    CleanMarkdownText(Display(OrChain(GetFirst(es, ["summary", "about", "description"]) + [Str("")])))
  }

  /** `positions or experience or []`, replaced by `[]` when it is not a list. */
  function Positions(es: Entries): seq<Value> {
    var p := OrChain(GetFirst(es, ["positions", "experience"]) + [List([])]);
    if p.List? then p.items else []
  }

  /** `build_front_matter(fm).rstrip("\n")`. */
  function FrontMatterLine(y: Yaml): string {
    TrimEnd(BuildFrontMatter(y, AboutHeader), IsNewline)
  }

  /** `title or position or role or "Rol sin título"`. */
  function RoleTitle(pos: Entries): Value {
    OrChain(GetFirst(pos, ["title", "position", "role"]) + [Str(UntitledRole)])
  }

  /** `company or organization or ""`. */
  function Company(pos: Entries): Value {
    OrChain(GetFirst(pos, ["company", "organization"]) + [Str("")])
  }

  /** `start_date or from` (None when both are missing). */
  function StartDate(pos: Entries): Value {
    OrChain(GetFirst(pos, ["start_date", "from"]))
  }

  /** `end_date or to or "Actualidad"`. */
  function EndDate(pos: Entries): Value {
    OrChain(GetFirst(pos, ["end_date", "to"]) + [Str(Present)])
  }

  /** Lines 434-439: the title, `en {company}` when there is one, and the period when it has a start. */
  function HeaderText(title: Value, company: Value, start: Value, end: Value): string {
    var parts := [Display(title)] + (if Truthy(company) then ["en " + Display(company)] else []);
    Join(parts, " - ") + (if Truthy(start) then " (" + Display(start) + " - " + Display(end) + ")" else "")
  }

  /** The `- **header**` text of one position. */
  function PositionHeader(pos: Entries): string {
    HeaderText(RoleTitle(pos), Company(pos), StartDate(pos), EndDate(pos))
  }

  /** `clean_markdown_text(str(description or ""))`. */
  function PositionDescription(pos: Entries): string {
    CleanMarkdownText(Display(OrChain(GetFirst(pos, ["description"]) + [Str("")])))
  }

  // ---------------------------------------------------------------------
  // the lines
  // ---------------------------------------------------------------------

  /** A line that opens a position entry. */
  predicate IsEntryLine(line: string) { StartsWith(line, "- **") }

  /** Line 416: `f"**{headline}**\n"`. */
  function HeadlineLine(headline: string): string { "**" + headline + "**\n" }

  /** Line 441: `f"- **{header}**"`. */
  function EntryLine(header: string): string { "- **" + header + "**" }

  /** Lines 442-443: `f"  {desc}"` when the description is not empty. */
  function DescriptionLines(desc: string): seq<string> {
    if desc != [] then ["  " + desc] else []
  }

  /** Lines 406-420: the lines before the experience section. */
  function IntroLines(fmLine: string, headline: Value, summary: string): (r: seq<string>)
    ensures |r| >= 2 && r[0] == fmLine && r[1] == AboutHeading
  {
    [fmLine, AboutHeading]
      + (if Truthy(headline) then [HeadlineLine(Display(headline))] else [])
      + (if summary != [] then [summary, ""] else [])
  }

  /** Lines 425-443: a dictionary becomes its header line and, when non-empty, its description. */
  function PositionLines(pos: Value): seq<string> {
    if !pos.Dict? then []
    else [EntryLine(PositionHeader(pos.entries))] + DescriptionLines(PositionDescription(pos.entries))
  }

  /** The lines of the positions, in order. */
  function EntryLines(ps: seq<Value>): seq<string> {
    if ps == [] then [] else EntryLines(ps[..|ps| - 1]) + PositionLines(ps[|ps| - 1])
  }

  /** Lines 422-444: the experience section, present only for a non-empty list. */
  function ExperienceLines(ps: seq<Value>): seq<string> {
    if ps == [] then [] else [ExperienceHeading] + EntryLines(ps[..Min(|ps|, MaxPositions)]) + [""]
  }

  /** All the lines of the page. */
  function CvLines(fmLine: string, headline: Value, summary: string, ps: seq<Value>): seq<string> {
    IntroLines(fmLine, headline, summary) + ExperienceLines(ps)
  }

  /** Line 446: `"\n".join(lines).rstrip() + "\n"`. */
  function CvText(fmLine: string, headline: Value, summary: string, ps: seq<Value>): string {
    TrimEnd(Join(CvLines(fmLine, headline, summary, ps), "\n"), IsSpace) + "\n"
  }

  /** The page written for the export `es`. */
  function CvContent(y: Yaml, es: Entries): string {
    CvText(FrontMatterLine(y), Headline(es), Summary(es), Positions(es))
  }

  // ---------------------------------------------------------------------
  // update_cv_markdown
  // ---------------------------------------------------------------------

  /** Python's `update_cv_markdown()` without the file reading and writing. */
  method UpdateCvMarkdown(y: Yaml, data: Option<Value>) returns (r: Outcome<string>)
    ensures data.Some? && data.value.Dict? ==> r == Written(CvContent(y, data.value.entries))
    ensures !(data.Some? && data.value.Dict?) ==> r == Skipped
  {
    if data.None? || !data.value.Dict? {
      return Skipped;
    }
    var es := data.value.entries;
    var content := RenderCv(FrontMatterLine(y), Headline(es), Summary(es), Positions(es));
    return Written(content);
  }

  /** Lines 406-446: the lines appended one by one, then joined. */
  method RenderCv(fmLine: string, headline: Value, summary: string, positions: seq<Value>)
    returns (content: string)
    ensures content == CvText(fmLine, headline, summary, positions)
  {
    var lines: seq<string> := [];
    lines := lines + [fmLine];
    lines := lines + [AboutHeading];
    if Truthy(headline) {
      lines := lines + [HeadlineLine(Display(headline))];
    }
    if summary != [] {
      lines := lines + [summary];
      lines := lines + [""];
    }
    assert lines == IntroLines(fmLine, headline, summary);
    lines := AppendExperience(lines, positions);
    content := TrimEnd(Join(lines, "\n"), IsSpace) + "\n";
  }

  /** Lines 425-443 for one position: nothing for a non-dictionary, else its entry line and its description line. */
  method LinesOf(pos: Value) returns (extra: seq<string>)
    ensures extra == PositionLines(pos)
  {
    extra := [];
    if pos.Dict? {
      var header := PositionHeader(pos.entries);
      var desc := PositionDescription(pos.entries);
      extra := [EntryLine(header)];
      if desc != [] {
        extra := extra + ["  " + desc];
      } else {
        AppendEmpty(extra);
      }
      assert extra == [EntryLine(header)] + DescriptionLines(desc);
    }
  }

  /** The lines of one more position follow those of the earlier ones. */
  lemma EntryStep(shown: seq<Value>, i: nat)
    requires i < |shown|
    ensures EntryLines(shown[..i + 1]) == EntryLines(shown[..i]) + PositionLines(shown[i])
  {
    assert shown[..i + 1][..i] == shown[..i] && shown[..i + 1][i] == shown[i];
  }

  /** Lines 422-444: the experience section appended to `lines`. */
  method AppendExperience(lines: seq<string>, positions: seq<Value>) returns (out: seq<string>)
    ensures out == lines + ExperienceLines(positions)
  {
    out := lines;
    if positions == [] {
      AppendEmpty(lines);
      return;
    }
    out := out + [ExperienceHeading];
    ghost var heading := out;
    var shown := positions[..Min(|positions|, MaxPositions)];
    var i := 0;
    while i < |shown|
      invariant 0 <= i <= |shown|
      invariant out == heading + EntryLines(shown[..i])
    {
      var extra := LinesOf(shown[i]);
      EntryStep(shown, i);
      AppendAssoc(heading, EntryLines(shown[..i]), extra);
      out := out + extra;
      i := i + 1;
    }
    assert shown[..|shown|] == shown;
    out := out + [""];
    AppendAssoc(lines, [ExperienceHeading], EntryLines(shown));
    AppendAssoc(lines, [ExperienceHeading] + EntryLines(shown), [""]);
  }

  // ---------------------------------------------------------------------
  // properties
  // ---------------------------------------------------------------------

  /** The front matter line is the built header without its final newline. */
  lemma FrontMatterLineForm(y: Yaml)
    ensures FrontMatterLine(y) == "---\n" + y.dump(AboutHeader) + "---"
  {
    var x := "---\n" + y.dump(AboutHeader) + "---";
    var s := BuildFrontMatter(y, AboutHeader);
    assert s == x + "\n";
    assert s[..|s| - 1] == x;
    assert IsNewline(s[|s| - 1]) && !IsNewline(x[|x| - 1]);
    assert TrimEnd(x, IsNewline) == x;
  }

  lemma {:induction false} JoinStartsWith(ls: seq<string>, sep: string)
    requires ls != []
    ensures StartsWith(Join(ls, sep), ls[0])
  {
  }

  /**
   * Line 446: the page starts with the front matter and the "Sobre mí"
   * heading, and ends in exactly one newline after a non-blank character.
   */
  lemma CvContentShape(y: Yaml, es: Entries)
    ensures StartsWith(CvContent(y, es), "---\n" + y.dump(AboutHeader) + "---" + "\n" + "# Sobre mí")
    ensures EndsInOneNewline(CvContent(y, es))
  {
    var fm, h, sm, ps := FrontMatterLine(y), Headline(es), Summary(es), Positions(es);
    assert CvContent(y, es) == CvText(fm, h, sm, ps);
    FrontMatterLineForm(y);
    CvTextShape(fm, h, sm, ps);
  }

  /** The text ends in a newline preceded by a visible character. */
  predicate EndsInOneNewline(c: string) {
    |c| >= 2 && c[|c| - 1] == '\n' && !IsSpace(c[|c| - 2])
  }

  lemma CvTextShape(fmLine: string, headline: Value, summary: string, ps: seq<Value>)
    ensures StartsWith(CvText(fmLine, headline, summary, ps), fmLine + "\n" + "# Sobre mí")
    ensures EndsInOneNewline(CvText(fmLine, headline, summary, ps))
  {
    var lines := CvLines(fmLine, headline, summary, ps);
    assert lines[0] == fmLine && lines[1] == AboutHeading;
    SplitTwo(lines);
    AboutHeadingForm();
    TrimmedJoinShape(fmLine, AboutHeading, lines[2..]);
  }

  lemma AboutHeadingForm()
    ensures var h := AboutHeading;
      |h| >= 2 && h[|h| - 1] == '\n' && !IsSpace(h[|h| - 2]) && h[..|h| - 1] == "# Sobre mí"
  {
  }

  lemma SplitTwo<T>(s: seq<T>)
    requires |s| >= 2
    ensures s == [s[0], s[1]] + s[2..]
  {
  }

  /**
   * Joining lines and stripping the end keeps everything up to the last
   * visible character of the second line.
   */
  lemma {:induction false} TrimmedJoinShape(first: string, second: string, rest: seq<string>)
    requires |second| >= 2 && second[|second| - 1] == '\n' && !IsSpace(second[|second| - 2])
    ensures var c := TrimEnd(Join([first, second] + rest, "\n"), IsSpace) + "\n";
      StartsWith(c, first + "\n" + second[..|second| - 1]) && EndsInOneNewline(c)
  {
    JoinedStartsWith(first, second, rest);
    TrimmedShape(first + "\n" + second[..|second| - 1], Join([first, second] + rest, "\n"));
  }

  /** The joined lines start with the first line, a newline, and the second line without its final character. */
  lemma {:induction false} JoinedStartsWith(first: string, second: string, rest: seq<string>)
    requires |second| >= 1
    ensures StartsWith(Join([first, second] + rest, "\n"), first + "\n" + second[..|second| - 1])
  {
    var ls := [first, second] + rest;
    var tail := ls[1..];
    assert ls == [first] + tail && tail[0] == second;
    JoinAppend([first], tail, "\n");
    JoinStartsWith(tail, "\n");
    var j := Join(ls, "\n");
    var x := first + "\n" + second[..|second| - 1];
    assert j == first + "\n" + Join(tail, "\n");
    assert Join(tail, "\n")[..|second|] == second;
    assert j[..|x|] == x;
  }

  /** `rstrip() + "\n"` of a text starting with `x`, whose last character is not blank, keeps `x` and ends in one newline. */
  lemma {:induction false} TrimmedShape(x: string, j: string)
    requires x != [] && !IsSpace(x[|x| - 1]) && StartsWith(j, x)
    ensures var c := TrimEnd(j, IsSpace) + "\n"; StartsWith(c, x) && EndsInOneNewline(c)
  {
    assert j == x + j[|x|..];
    TrimEndKeepsPrefix(x, j[|x|..], IsSpace);
    var t := TrimEnd(j, IsSpace);
    assert |t| >= |x| && t[..|x|] == x;
    var c := t + "\n";
    assert c[|c| - 2] == t[|t| - 1];
    assert c[..|x|] == t[..|x|];
  }

  /** Entry lines counted from the front, so that counts add up. */
  function CountEntries(ls: seq<string>): nat {
    if ls == [] then 0 else (if IsEntryLine(ls[0]) then 1 else 0) + CountEntries(ls[1..])
  }

  lemma {:induction false} CountEntriesAppend(a: seq<string>, b: seq<string>)
    ensures CountEntries(a + b) == CountEntries(a) + CountEntries(b)
  {
    if a == [] {
      assert a + b == b;
    } else {
      assert (a + b)[1..] == a[1..] + b;
      CountEntriesAppend(a[1..], b);
    }
  }

  /** Every dictionary among the positions gives exactly one entry line. */
  lemma {:induction false} EntryLinesCount(ps: seq<Value>)
    ensures CountEntries(EntryLines(ps)) == |DictsOf(ps)|
  {
    if ps != [] {
      var last := ps[|ps| - 1];
      EntryLinesCount(ps[..|ps| - 1]);
      CountEntriesAppend(EntryLines(ps[..|ps| - 1]), PositionLines(last));
      if last.Dict? {
        OneEntryPerPosition(PositionHeader(last.entries), PositionDescription(last.entries));
      }
    }
  }

  /** A position's lines hold one entry line: its header, never its description. */
  lemma OneEntryPerPosition(header: string, desc: string)
    ensures CountEntries([EntryLine(header)] + DescriptionLines(desc)) == 1
  {
    var ls := [EntryLine(header)] + DescriptionLines(desc);
    assert IsEntryLine(EntryLine(header)) by {
      assert EntryLine(header)[..4] == "- **";
    }
    if desc == [] {
      assert ls[1..] == [];
    } else {
      var d := "  " + desc;
      var tail: seq<string> := [d];
      assert ls[1..] == tail;
      assert !IsEntryLine(d) by { assert d[0] == ' '; }
      assert CountEntries(tail[1..]) == 0 by { assert |tail[1..]| == 0; }
      assert CountEntries(tail) == 0;
    }
  }

  /**
   * Lines 422-444: the experience section has one entry per dictionary
   * among the first six positions, so never more than six.
   */
  lemma ExperienceEntries(ps: seq<Value>)
    ensures CountEntries(ExperienceLines(ps)) == |DictsOf(ps[..Min(|ps|, MaxPositions)])|
    ensures CountEntries(ExperienceLines(ps)) <= MaxPositions
  {
    if ps != [] {
      var shown := ps[..Min(|ps|, MaxPositions)];
      EntryLinesCount(shown);
      CountEntriesAppend([ExperienceHeading] + EntryLines(shown), [""]);
      CountEntriesAppend([ExperienceHeading], EntryLines(shown));
      assert !IsEntryLine(ExperienceHeading) by { assert ExperienceHeading[0] == '#'; }
      assert !IsEntryLine("");
      assert CountEntries([ExperienceHeading]) == 0 by { assert [ExperienceHeading][1..] == []; }
      assert CountEntries([""]) == 0 by { assert [""][1..] == []; }
    }
  }

  /** Lines 422-423: the experience heading appears exactly when there are positions. */
  lemma ExperienceIffPositions(y: Yaml, es: Entries)
    ensures ExperienceHeading in CvLines(FrontMatterLine(y), Headline(es), Summary(es), Positions(es))
        <==> Positions(es) != []
  {
    var intro := IntroLines(FrontMatterLine(y), Headline(es), Summary(es));
    var lines := CvLines(FrontMatterLine(y), Headline(es), Summary(es), Positions(es));
    if Positions(es) != [] {
      assert lines[|intro|] == ExperienceHeading;
    } else {
      assert lines == intro + [];
      FrontMatterLineForm(y);
      CleanIsCollapsedAndTrimmed(Display(OrChain(GetFirst(es, ["summary", "about", "description"]) + [Str("")])));
      HeadingNotInIntro(FrontMatterLine(y), Headline(es), Summary(es));
    }
  }

  /** No line before the experience section can be its heading. */
  lemma HeadingNotInIntro(fmLine: string, headline: Value, summary: string)
    requires fmLine != [] && fmLine[0] == '-'
    requires summary == [] || !IsSpace(summary[|summary| - 1])
    ensures ExperienceHeading !in IntroLines(fmLine, headline, summary)
  {
    var intro := IntroLines(fmLine, headline, summary);
    assert ExperienceHeading[0] == '#' && ExperienceHeading[|ExperienceHeading| - 1] == '\n';
    assert AboutHeading != ExperienceHeading by { assert |AboutHeading| != |ExperienceHeading|; }
    forall k | 0 <= k < |intro| ensures intro[k] != ExperienceHeading {
      if k == 0 || k == 1 {
      } else if Truthy(headline) && k == 2 {
        assert intro[k][0] == '*';
      } else if intro[k] == summary {
        assert summary != [];
      } else {
        assert intro[k] == "";
      }
    }
  }

  /** A position with no fields is the untitled role and nothing else. */
  lemma EmptyPosition()
    ensures PositionLines(Dict([])) == [EntryLine(UntitledRole)]
  {
    EmptyHeader();
    EmptyDescription();
    assert DescriptionLines("") == [];
  }

  /** The header of a position with no fields: the untitled role. */
  lemma EmptyHeader()
    ensures PositionHeader([]) == UntitledRole
  {
    EmptyRole();
    EmptyCompanyAndStart();
    TitleOnlyHeader(UntitledRole, Company([]), StartDate([]), EndDate([]));
  }

  lemma EmptyRole()
    ensures RoleTitle([]) == Str(UntitledRole)
  {
    assert OrIndex(GetFirst([], ["title", "position", "role"]) + [Str(UntitledRole)]) == 3;
  }

  lemma EmptyCompanyAndStart()
    ensures !Truthy(Company([])) && !Truthy(StartDate([]))
  {
    assert OrIndex(GetFirst([], ["company", "organization"]) + [Str("")]) == 2;
  }

  lemma EmptyDescription()
    ensures PositionDescription([]) == ""
  {
    assert OrIndex(GetFirst([], ["description"]) + [Str("")]) == 1;
    assert Display(Str("")) == "";
    CleanOfTrimmedLine("", "");
  }

  /** Without a company and a start date the header is the title alone. */
  lemma TitleOnlyHeader(t: string, company: Value, start: Value, end: Value)
    requires !Truthy(company) && !Truthy(start)
    ensures HeaderText(Str(t), company, start, end) == t
  {
    assert Join([t], " - ") == t;
    assert t + "" == t;
  }

  /** Lines 429-439: a start date without an end date runs to the present. */
  lemma OpenEndedPosition(t: string, s: string)
    requires t != [] && s != []
    ensures PositionHeader([("title", Str(t)), ("start_date", Str(s))]) == t + " (" + s + " - " + Present + ")"
  {
    var pos := [("title", Str(t)), ("start_date", Str(s))];
    assert Get(pos, "title") == Str(t) && Get(pos, "start_date") == Str(s);
    assert OrIndex(GetFirst(pos, ["title", "position", "role"]) + [Str(UntitledRole)]) == 0;
    assert OrIndex(GetFirst(pos, ["company", "organization"]) + [Str("")]) == 2;
    assert OrIndex(GetFirst(pos, ["start_date", "from"])) == 0;
    assert OrIndex(GetFirst(pos, ["end_date", "to"]) + [Str(Present)]) == 2;
    OpenEndedHeader(t, Company(pos), s);
  }

  lemma OpenEndedHeader(t: string, company: Value, s: string)
    requires !Truthy(company) && s != []
    ensures HeaderText(Str(t), company, Str(s), Str(Present)) == t + " (" + s + " - " + Present + ")"
  {
    assert Join([t], " - ") == t;
  }
}
