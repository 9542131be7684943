/**
 * `clean_markdown_text` (scripts/build.py): the rewrites applied to the CV
 * summary and to every position description. The substitutions run in
 * order: delete `]`, delete the `[cite_start]` and `[cite_end]` markers,
 * turn a `•` bullet at the start of a line into `- `, collapse three or more
 * newlines into two, strip surrounding whitespace.
 */
module Markdown {
  import opened Wrappers
  import opened Text

  predicate IsBlank(c: char) { c == ' ' || c == '\t' }

  predicate NotCloseBracket(c: char) { c != ']' }

  /** A character that is not whitespace, or is whitespace the bullet rule treats as such (space, tab, newline). */
  predicate PlainOrVisible(c: char) { !IsSpace(c) || c == ' ' || c == '\t' || c == '\n' }

  // ---------------------------------------------------------------------
  // the substitutions
  // ---------------------------------------------------------------------

  /** `re.sub(p, "", s)` for a pattern `p` that is a literal: leftmost non-overlapping occurrences go. */
  function RemoveLiteral(s: string, p: string): string
    requires p != []
    decreases |s|
  {
    if s == [] then []
    else if StartsWith(s, p) then RemoveLiteral(s[|p|..], p)
    else [s[0]] + RemoveLiteral(s[1..], p)
  }

  /** Deleting occurrences of a pattern never brings in a character. */
  lemma {:induction false} RemoveLiteralChars(s: string, p: string, q: char -> bool)
    requires p != [] && AllChars(s, q)
    ensures AllChars(RemoveLiteral(s, p), q)
    decreases |s|
  {
    if s != [] {
      if StartsWith(s, p) {
        RemoveLiteralChars(s[|p|..], p, q);
      } else {
        RemoveLiteralChars(s[1..], p, q);
      }
    }
  }

  /** A pattern holding a character the text lacks never matches, so the substitution changes nothing. */
  lemma {:induction false} RemoveLiteralAbsent(s: string, p: string, i: nat)
    requires p != [] && i < |p| && p[i] !in s
    ensures RemoveLiteral(s, p) == s
    decreases |s|
  {
    if s != [] {
      if |p| <= |s| {
        assert s[..|p|][i] == s[i] != p[i];
      }
      RemoveLiteralAbsent(s[1..], p, i);
      assert [s[0]] + s[1..] == s;
    }
  }

  /** Line 116, `re.sub(r"\]*\]", "", s)`: a run of one or more `]` goes, so every `]` does. */
  function RemoveCloseBrackets(s: string): (r: string)
    ensures ']' !in r
  {
    RemoveChar(s, ']')
  }

  /** Lines 116-118: the bracket deletion and the two citation-marker deletions. */
  function DropCitationMarkers(s: string): string {
    RemoveLiteral(RemoveLiteral(RemoveCloseBrackets(s), "[cite_start]"), "[cite_end]")
  }

  /**
   * Lines 117-118 never match: both markers end in `]`, and line 116 has
   * already deleted every `]`. The three substitutions together only
   * delete the `]` characters; the opening `[cite_start` stays.
   */
  lemma {:induction false} CitationMarkersNeverMatch(s: string)
    ensures DropCitationMarkers(s) == RemoveChar(s, ']')
  {
    var a := RemoveCloseBrackets(s);
    RemoveLiteralAbsent(a, "[cite_start]", 11);
    RemoveLiteralAbsent(a, "[cite_end]", 9);
  }

  /** The number of space or tab characters at the start of `s`. */
  function LeadingBlanks(s: string): (n: nat)
    ensures n <= |s| && AllChars(s[..n], IsBlank) && (n == |s| || !IsBlank(s[n]))
  {
    if s != [] && IsBlank(s[0]) then
      var m := LeadingBlanks(s[1..]);
      assert s[..1 + m] == [s[0]] + s[1..][..m];
      1 + m
    else 0
  }

  /** The length of the match of `[ \t]*•[ \t]+` at the start of `line`, if it matches. */
  function MatchBullet(line: string): (r: Option<nat>)
    ensures r.Some? ==> r.value <= |line| && (r.value == |line| || !IsBlank(line[r.value]))
  {
    var n := LeadingBlanks(line);
    if n + 1 < |line| && line[n] == '•' && IsBlank(line[n + 1]) then
      Some(n + 1 + LeadingBlanks(line[n + 1..]))
    else None
  }

  /** The replacement of line 119 on one line. */
  function RewriteBullet(line: string): string {
    match MatchBullet(line)
    case Some(n) => "- " + line[n..]
    case None => line
  }

  /** Line 119, `re.sub(r"^[ \t]*•[ \t]+", "- ", s, flags=re.MULTILINE)`: line by line. */
  function RewriteBullets(s: string): string {
    var lines := Split(s, '\n');
    Join(seq(|lines|, i requires 0 <= i < |lines| => RewriteBullet(lines[i])), "\n")
  }

  /** The length of the run of newlines at the start of `s`. */
  function NewlineRun(s: string): (n: nat)
    ensures n <= |s| && (forall i :: 0 <= i < n ==> s[i] == '\n') && (n == |s| || s[n] != '\n')
  {
    if s != [] && s[0] == '\n' then 1 + NewlineRun(s[1..]) else 0
  }

  /** Line 120, `re.sub(r"\n{3,}", "\n\n", s)`. */
  function CollapseNewlines(s: string): string
    decreases |s|
  {
    if s == [] then []
    else if s[0] != '\n' then [s[0]] + CollapseNewlines(s[1..])
    else
      var n := NewlineRun(s);
      (if n >= 3 then "\n\n" else s[..n]) + CollapseNewlines(s[n..])
  }

  /** Python's `clean_markdown_text`. */
  function CleanMarkdownText(text: string): string {
    Strip(CollapseNewlines(RewriteBullets(DropCitationMarkers(text))))
  }

  // ---------------------------------------------------------------------
  // the properties of the result
  // ---------------------------------------------------------------------

  predicate NoTripleNewline(s: string) {
    forall i :: 0 <= i < |s| - 2 ==> !TripleAt(s, i)
  }

  /** Three newlines start at index `i`. */
  predicate TripleAt(s: string, i: nat)
    requires i + 2 < |s|
  {
    s[i] == '\n' && s[i + 1] == '\n' && s[i + 2] == '\n'
  }

  /**
   * Where a scan of the text stands with respect to the bullet pattern:
   * at a line start with only blanks so far, just past such a `•`, or
   * anywhere else in a line.
   */
  datatype LineState = Fresh | Dot | Mid

  function Next(st: LineState, c: char): LineState {
    if c == '\n' then Fresh
    else if st == Fresh && IsBlank(c) then Fresh
    else if st == Fresh && c == '•' then Dot
    else Mid
  }

  function Run(s: string, st: LineState): LineState {
    if s == [] then st else Run(s[1..], Next(st, s[0]))
  }

  /** Reading `s` from state `st`, no line start is followed by blanks, `•` and a blank. */
  predicate NoBulletFrom(s: string, st: LineState) {
    s == [] || (!(st == Dot && IsBlank(s[0])) && NoBulletFrom(s[1..], Next(st, s[0])))
  }

  /** No line of `s` starts with optional blanks, `•` and a blank. */
  predicate NoBulletLine(s: string) {
    forall k :: 0 <= k < |Split(s, '\n')| ==> MatchBullet(Split(s, '\n')[k]).None?
  }

  /** No line of `s` but possibly the first starts with optional blanks, `•` and a blank. */
  predicate NoBulletLineAfterFirst(s: string) {
    forall k :: 1 <= k < |Split(s, '\n')| ==> MatchBullet(Split(s, '\n')[k]).None?
  }

  lemma {:induction false} NoBulletConcat(a: string, b: string, st: LineState)
    ensures NoBulletFrom(a + b, st) <==> NoBulletFrom(a, st) && NoBulletFrom(b, Run(a, st))
  {
    if a == [] {
      assert a + b == b;
    } else {
      assert (a + b)[0] == a[0] && (a + b)[1..] == a[1..] + b;
      NoBulletConcat(a[1..], b, Next(st, a[0]));
    }
  }

  /** Mid-line is the most permissive state. */
  lemma {:induction false} NoBulletMidWeakest(s: string, st: LineState)
    requires NoBulletFrom(s, st)
    ensures NoBulletFrom(s, Mid)
  {
    if s != [] {
      NoBulletMidWeakest(s[1..], Next(st, s[0]));
    }
  }

  lemma {:induction false} NoBulletInLine(s: string)
    requires '\n' !in s
    ensures NoBulletFrom(s, Mid) && Run(s, Mid) == Mid
  {
    if s != [] {
      NoBulletInLine(s[1..]);
    }
  }

  lemma {:induction false} BlanksKeepFresh(s: string)
    requires AllChars(s, IsBlank)
    ensures NoBulletFrom(s, Fresh) && Run(s, Fresh) == Fresh
  {
    if s != [] {
      BlanksKeepFresh(s[1..]);
    }
  }

  lemma {:induction false} NewlinesEndFresh(s: string, st: LineState)
    requires s != [] && forall i :: 0 <= i < |s| ==> s[i] == '\n'
    ensures NoBulletFrom(s, st) && Run(s, Fresh) == Fresh && Run(s, st) == Fresh
  {
    if |s| > 1 {
      NewlinesEndFresh(s[1..], Fresh);
    }
  }

  lemma {:induction false} PlainSpaceKeepsFresh(s: string)
    requires forall i :: 0 <= i < |s| ==> s[i] == ' ' || s[i] == '\t' || s[i] == '\n'
    ensures Run(s, Fresh) == Fresh
  {
    if s != [] {
      PlainSpaceKeepsFresh(s[1..]);
    }
  }

  /** For one line, the state machine and the regular expression agree. */
  lemma {:induction false} LineNoBulletIffNoMatch(line: string)
    requires '\n' !in line
    ensures NoBulletFrom(line, Fresh) <==> MatchBullet(line).None?
  {
    var n := LeadingBlanks(line);
    assert line == line[..n] + line[n..];
    BlanksKeepFresh(line[..n]);
    NoBulletConcat(line[..n], line[n..], Fresh);
    var t := line[n..];
    if t != [] && t[0] == '•' {
      if |t| > 1 {
        assert t[1..][0] == line[n + 1];
        NoBulletInLine(t[1..][1..]);
      }
    } else if t != [] {
      assert !IsBlank(t[0]);
      NoBulletInLine(t[1..]);
    }
  }

  /** Joining newline-free lines: the first is read from `st`, every other from a line start. */
  lemma {:induction false} NoBulletJoin(lines: seq<string>, st: LineState)
    requires lines != [] && forall k :: 0 <= k < |lines| ==> '\n' !in lines[k]
    ensures NoBulletFrom(Join(lines, "\n"), st) <==>
      NoBulletFrom(lines[0], st) && forall k :: 1 <= k < |lines| ==> NoBulletFrom(lines[k], Fresh)
  {
    if |lines| > 1 {
      var j := Join(lines[1..], "\n");
      NoBulletJoin(lines[1..], Fresh);
      assert Join(lines, "\n") == lines[0] + ("\n" + j);
      NoBulletConcat(lines[0], "\n" + j, st);
      assert ("\n" + j)[1..] == j;
      forall k | 1 <= k < |lines| ensures lines[k] == lines[1..][k - 1] { }
    }
  }

  /** The state-machine reading of a text is its line-by-line reading. */
  lemma {:induction false} NoBulletLines(s: string)
    ensures NoBulletFrom(s, Fresh) <==> NoBulletLine(s)
    ensures NoBulletFrom(s, Mid) <==> NoBulletLineAfterFirst(s)
  {
    var lines := Split(s, '\n');
    JoinSplit(s, '\n');
    NoBulletJoin(lines, Fresh);
    NoBulletJoin(lines, Mid);
    NoBulletInLine(lines[0]);
    forall k | 0 <= k < |lines| ensures NoBulletFrom(lines[k], Fresh) <==> MatchBullet(lines[k]).None? {
      LineNoBulletIffNoMatch(lines[k]);
    }
  }

  lemma RewriteBulletFacts(line: string, q: char -> bool)
    requires '\n' !in line
    ensures '\n' !in RewriteBullet(line)
    ensures NoBulletFrom(RewriteBullet(line), Fresh)
    ensures AllChars(line, q) && q('-') && q(' ') ==> AllChars(RewriteBullet(line), q)
  {
    match MatchBullet(line)
    case Some(n) =>
      var rest := line[n..];
      assert ("- " + rest)[1..] == " " + rest && (" " + rest)[1..] == rest;
      NoBulletInLine(rest);
    case None =>
      LineNoBulletIffNoMatch(line);
  }

  /** After line 119 no line starts with a bullet, and no character was brought in but `-` and space. */
  lemma RewriteBulletsFacts(s: string, q: char -> bool)
    ensures NoBulletFrom(RewriteBullets(s), Fresh)
    ensures AllChars(s, q) && q('-') && q(' ') && q('\n') ==> AllChars(RewriteBullets(s), q)
  {
    var lines := Split(s, '\n');
    var out := seq(|lines|, i requires 0 <= i < |lines| => RewriteBullet(lines[i]));
    forall k | 0 <= k < |out| ensures '\n' !in out[k] && NoBulletFrom(out[k], Fresh) {
      RewriteBulletFacts(lines[k], q);
    }
    NoBulletJoin(out, Fresh);
    if AllChars(s, q) && q('-') && q(' ') && q('\n') {
      SplitChars(s, '\n', q);
      forall k | 0 <= k < |out| ensures AllChars(out[k], q) {
        RewriteBulletFacts(lines[k], q);
      }
      JoinChars(out, "\n", q);
    }
  }

  /** Line 120 starts with what the text starts with, unless the text starts with a newline. */
  lemma {:induction false} CollapseHead(s: string)
    ensures s == [] <==> CollapseNewlines(s) == []
    ensures s != [] && s[0] != '\n' ==> CollapseNewlines(s)[0] == s[0]
  {
  }

  /** Line 120 neither creates nor removes a bullet line. */
  lemma {:induction false} CollapseNoBullet(s: string, st: LineState)
    ensures NoBulletFrom(CollapseNewlines(s), st) <==> NoBulletFrom(s, st)
    decreases |s|
  {
    if s == [] {
    } else if s[0] != '\n' {
      var rest := CollapseNewlines(s[1..]);
      CollapseNoBullet(s[1..], Next(st, s[0]));
      assert ([s[0]] + rest)[1..] == rest;
    } else {
      var n := NewlineRun(s);
      var head: string := if n >= 3 then "\n\n" else s[..n];
      var rest := CollapseNewlines(s[n..]);
      CollapseNoBullet(s[n..], Fresh);
      NewlinesEndFresh(head, st);
      NewlinesEndFresh(s[..n], st);
      NoBulletConcat(head, rest, st);
      assert s == s[..n] + s[n..];
      NoBulletConcat(s[..n], s[n..], st);
    }
  }

  /** After line 120 no three newlines are adjacent. */
  lemma {:induction false} CollapseNoTriple(s: string)
    ensures NoTripleNewline(CollapseNewlines(s))
    decreases |s|
  {
    if s == [] {
    } else if s[0] != '\n' {
      var rest := CollapseNewlines(s[1..]);
      CollapseNoTriple(s[1..]);
      var r := [s[0]] + rest;
      forall i | 0 <= i < |r| - 2 ensures !TripleAt(r, i) {
        if i > 0 {
          assert r[i] == rest[i - 1] && r[i + 1] == rest[i] && r[i + 2] == rest[i + 1];
          assert !TripleAt(rest, i - 1);
        }
      }
    } else {
      var n := NewlineRun(s);
      var head: string := if n >= 3 then "\n\n" else s[..n];
      var rest := CollapseNewlines(s[n..]);
      CollapseNoTriple(s[n..]);
      CollapseHead(s[n..]);
      var r := head + rest;
      assert |head| <= 2;
      forall i | 0 <= i < |r| - 2 ensures !TripleAt(r, i) {
        if i >= |head| {
          assert r[i] == rest[i - |head|] && r[i + 1] == rest[i - |head| + 1] && r[i + 2] == rest[i - |head| + 2];
          assert !TripleAt(rest, i - |head|);
        } else {
          assert r[|head|] == rest[0];
        }
      }
    }
  }

  /** Line 120 brings in no character the text lacks. */
  lemma {:induction false} CollapseChars(s: string, q: char -> bool)
    requires AllChars(s, q)
    ensures AllChars(CollapseNewlines(s), q)
    decreases |s|
  {
    if s == [] {
    } else if s[0] != '\n' {
      CollapseChars(s[1..], q);
    } else {
      var n := NewlineRun(s);
      var head: string := if n >= 3 then "\n\n" else s[..n];
      var rest := CollapseNewlines(s[n..]);
      assert AllChars(s[n..], q) by {
        forall i | 0 <= i < |s[n..]| ensures q(s[n..][i]) { assert s[n..][i] == s[n + i]; }
      }
      CollapseChars(s[n..], q);
      assert q('\n') by { assert s[0] == '\n'; }
      var r := head + rest;
      forall i | 0 <= i < |r| ensures q(r[i]) {
        if i >= |head| { assert r[i] == rest[i - |head|]; }
      }
    }
  }

  /** A text with no triple newline is left alone by line 120. */
  lemma {:induction false} CollapseOfNoTriple(s: string)
    requires NoTripleNewline(s)
    ensures CollapseNewlines(s) == s
    decreases |s|
  {
    if s == [] {
    } else if s[0] != '\n' {
      assert NoTripleNewline(s[1..]) by {
        forall i | 0 <= i < |s| - 3 ensures !TripleAt(s[1..], i) {
          assert s[1..][i] == s[i + 1] && s[1..][i + 1] == s[i + 2] && s[1..][i + 2] == s[i + 3];
          assert !TripleAt(s, i + 1);
        }
      }
      CollapseOfNoTriple(s[1..]);
      assert [s[0]] + s[1..] == s;
    } else {
      var n := NewlineRun(s);
      assert |s| > 2 ==> !TripleAt(s, 0);
      assert n < 3;
      assert NoTripleNewline(s[n..]) by {
        forall i | 0 <= i < |s| - n - 2 ensures !TripleAt(s[n..], i) {
          assert s[n..][i] == s[n + i] && s[n..][i + 1] == s[n + i + 1] && s[n..][i + 2] == s[n + i + 2];
          assert !TripleAt(s, n + i);
        }
      }
      CollapseOfNoTriple(s[n..]);
      assert s[..n] + s[n..] == s;
    }
  }

  /** A piece of a text with no triple newline has none either. */
  lemma NoTripleInfix(c: string, i: nat, r: string)
    requires NoTripleNewline(c) && i + |r| <= |c| && r == c[i..i + |r|]
    ensures NoTripleNewline(r)
  {
    forall k | 0 <= k < |r| - 2 ensures !TripleAt(r, k) {
      assert r[k] == c[i + k] && r[k + 1] == c[i + k + 1] && r[k + 2] == c[i + k + 2];
      assert !TripleAt(c, i + k);
    }
  }

  /** Line 121 keeps no triple newline. */
  lemma StripNoTriple(c: string)
    requires NoTripleNewline(c)
    ensures NoTripleNewline(Strip(c))
  {
    var i := StripIsInfix(c);
    NoTripleInfix(c, i, Strip(c));
  }

  /** The middle of three pieces is read from the state the first leaves. */
  lemma {:induction false} NoBulletMiddle(w: string, r: string, tail: string, st: LineState)
    requires NoBulletFrom(w + (r + tail), st)
    ensures NoBulletFrom(r, Run(w, st)) && StartsWith(w + (r + tail), w)
  {
    NoBulletConcat(w, r + tail, st);
    NoBulletConcat(r, tail, Run(w, st));
    assert (w + (r + tail))[..|w|] == w;
  }

  /** Strip reads the kept text from the state its cut-off whitespace leaves. */
  lemma StripNoBulletState(c: string, st: LineState) returns (w: string)
    requires NoBulletFrom(c, st)
    ensures NoBulletFrom(Strip(c), Run(w, st))
    ensures AllChars(w, IsSpace) && StartsWith(c, w)
  {
    var tail;
    w, tail := StripParts(c);
    NoBulletMiddle(w, Strip(c), tail, st);
  }

  /** Line 121 keeps the bullet property of every line after the first. */
  lemma {:induction false} StripNoBulletAfterFirst(c: string)
    requires NoBulletFrom(c, Fresh)
    ensures NoBulletFrom(Strip(c), Mid)
  {
    var w := StripNoBulletState(c, Fresh);
    NoBulletMidWeakest(Strip(c), Run(w, Fresh));
  }

  /** Line 121 keeps the bullet property of the first line too when only blanks and newlines are cut. */
  lemma {:induction false} StripNoBulletPlain(c: string)
    requires NoBulletFrom(c, Fresh) && AllChars(c, PlainOrVisible)
    ensures NoBulletFrom(Strip(c), Fresh)
  {
    var w := StripNoBulletState(c, Fresh);
    forall k | 0 <= k < |w| ensures w[k] == ' ' || w[k] == '\t' || w[k] == '\n' {
      assert w[k] == c[k];
      assert IsSpace(w[k]) && PlainOrVisible(c[k]);
    }
    PlainSpaceKeepsFresh(w);
  }

  /** Deleting `]` keeps every other character property. */
  lemma RemoveCloseBracketsChars(text: string, q: char -> bool)
    requires AllChars(text, q)
    ensures AllChars(RemoveCloseBrackets(text), q)
  {
    var a := RemoveCloseBrackets(text);
    forall i | 0 <= i < |a| ensures q(a[i]) {
      assert a[i] != ']';
      assert a[i] in text;
      var j :| 0 <= j < |text| && text[j] == a[i];
    }
  }

  /** Lines 117-120 bring in no character but `-`, space and newline. */
  lemma RewritesChars(text: string, q: char -> bool)
    requires AllChars(RemoveCloseBrackets(text), q) && q('-') && q(' ') && q('\n')
    ensures AllChars(CollapseNewlines(RewriteBullets(DropCitationMarkers(text))), q)
  {
    var a := RemoveCloseBrackets(text);
    RemoveLiteralChars(a, "[cite_start]", q);
    RemoveLiteralChars(RemoveLiteral(a, "[cite_start]"), "[cite_end]", q);
    RewriteBulletsFacts(DropCitationMarkers(text), q);
    CollapseChars(RewriteBullets(DropCitationMarkers(text)), q);
  }

  /** The cleaned text has no `]`: line 116 deletes them all and nothing later brings one in. */
  lemma CleanHasNoCloseBracket(text: string)
    ensures ']' !in CleanMarkdownText(text)
  {
    var c := CollapseNewlines(RewriteBullets(DropCitationMarkers(text)));
    RewritesChars(text, NotCloseBracket);
    StripDropsOnlySpace(c, NotCloseBracket);
    var r := CleanMarkdownText(text);
    forall i | 0 <= i < |r| ensures r[i] != ']' { assert NotCloseBracket(r[i]); }
  }

  /** The cleaned text has no run of three newlines and no surrounding whitespace. */
  lemma CleanIsCollapsedAndTrimmed(text: string)
    ensures NoTripleNewline(CleanMarkdownText(text))
    ensures CleanMarkdownText(text) == [] ||
      (!IsSpace(CleanMarkdownText(text)[0]) && !IsSpace(CleanMarkdownText(text)[|CleanMarkdownText(text)| - 1]))
  {
    var b := RewriteBullets(DropCitationMarkers(text));
    var c := CollapseNewlines(b);
    assert CleanMarkdownText(text) == Strip(c);
    CollapseNoTriple(b);
    StripNoTriple(c);
  }

  /**
   * No line of the cleaned text but the first starts with optional blanks,
   * `•` and a blank; the first is bullet-free too when the text has no
   * whitespace but space, tab and newline.
   */
  lemma CleanHasNoBulletLine(text: string)
    ensures NoBulletLineAfterFirst(CleanMarkdownText(text))
    ensures AllChars(text, PlainOrVisible) ==> NoBulletLine(CleanMarkdownText(text))
  {
    var d := DropCitationMarkers(text);
    var b := RewriteBullets(d);
    var c := CollapseNewlines(b);
    assert CleanMarkdownText(text) == Strip(c);
    RewriteBulletsFacts(d, PlainOrVisible);
    CollapseNoBullet(b, Fresh);
    StripNoBulletAfterFirst(c);
    NoBulletLines(Strip(c));
    if AllChars(text, PlainOrVisible) {
      RemoveCloseBracketsChars(text, PlainOrVisible);
      RewritesChars(text, PlainOrVisible);
      StripNoBulletPlain(c);
    }
  }

  /** Line 119 changes nothing in a text none of whose lines is a bullet. */
  lemma RewriteBulletsOfNoBullet(s: string)
    requires NoBulletLine(s)
    ensures RewriteBullets(s) == s
  {
    var lines := Split(s, '\n');
    var out := seq(|lines|, i requires 0 <= i < |lines| => RewriteBullet(lines[i]));
    forall k | 0 <= k < |lines| ensures out[k] == lines[k] {
      assert MatchBullet(lines[k]).None?;
    }
    assert out == lines;
    JoinSplit(s, '\n');
  }

  /** Cleaning a cleaned text changes nothing when the text has no whitespace but space, tab and newline. */
  lemma CleanIdempotentPlain(text: string)
    requires AllChars(text, PlainOrVisible)
    ensures CleanMarkdownText(CleanMarkdownText(text)) == CleanMarkdownText(text)
  {
    var r := CleanMarkdownText(text);
    CleanHasNoCloseBracket(text);
    CleanIsCollapsedAndTrimmed(text);
    CleanHasNoBulletLine(text);
    CitationMarkersNeverMatch(r);
    RemoveCharAbsent(r, ']');
    RewriteBulletsOfNoBullet(r);
    CollapseOfNoTriple(r);
    StripOfTrimmed(r);
  }

  /** Lines 116-121 as the four stages they are, each result named. */
  lemma {:induction false} CleanByStages(text: string, d: string, b: string, c: string)
    requires DropCitationMarkers(text) == d && RewriteBullets(d) == b && CollapseNewlines(b) == c
    ensures CleanMarkdownText(text) == Strip(c)
  {
  }

  /** A text without `]` loses nothing to lines 116-118. */
  lemma DropOfNoBracket(s: string)
    requires ']' !in s
    ensures DropCitationMarkers(s) == s
  {
    RemoveCharAbsent(s, ']');
    CitationMarkersNeverMatch(s);
  }

  /** Line 119 on a one-line text is the rewrite of that line. */
  lemma RewriteBulletsOfOneLine(s: string)
    requires '\n' !in s
    ensures RewriteBullets(s) == RewriteBullet(s)
  {
    SplitNoSep(s, '\n');
  }

  /** Line 119 brings no newline into a one-line text. */
  lemma RewriteBulletOneLine(s: string)
    requires '\n' !in s
    ensures '\n' !in RewriteBullet(s) && NoTripleNewline(RewriteBullet(s))
  {
  }

  /** A one-line text without `]` is cleaned by the rewrite of its one line and the strip. */
  lemma CleanOfOneLine(s: string)
    requires '\n' !in s && ']' !in s
    ensures CleanMarkdownText(s) == Strip(RewriteBullet(s))
  {
    DropOfNoBracket(s);
    RewriteBulletsOfOneLine(s);
    RewriteBulletOneLine(s);
    CollapseOfNoTriple(RewriteBullet(s));
    CleanByStages(s, s, RewriteBullet(s), RewriteBullet(s));
  }

  /** A one-line text without `]` whose rewrite strips to `t` is cleaned to `t`. */
  lemma CleanOfStrippedLine(s: string, r: string, t: string)
    requires '\n' !in s && ']' !in s && RewriteBullet(s) == r && Strip(r) == t
    ensures CleanMarkdownText(s) == t
  {
    CleanOfOneLine(s);
  }

  /** A one-line text whose rewrite has no surrounding whitespace is cleaned to that rewrite. */
  lemma CleanOfTrimmedLine(s: string, r: string)
    requires '\n' !in s && ']' !in s && RewriteBullet(s) == r
    requires r == [] || (!IsSpace(r[0]) && !IsSpace(r[|r| - 1]))
    ensures CleanMarkdownText(s) == r
  {
    StripOfTrimmed(r);
    CleanOfStrippedLine(s, r, r);
  }

  /**
   * A vertical tab before a bullet hides it from line 119 (which only skips
   * spaces and tabs) and is then cut by line 121, so the first line of the
   * result is a bullet, such as `"\v• x"` cleaned to `"• x"`, and cleaning
   * again rewrites it to `"- x"`.
   */
  lemma VerticalTabExposesBullet(x: char)
    requires !IsSpace(x) && x != ']'
    ensures CleanMarkdownText(['\U{b}', '•', ' ', x]) == ['•', ' ', x]
    ensures MatchBullet(['•', ' ', x]) == Some(2)
    ensures CleanMarkdownText(['•', ' ', x]) == ['-', ' ', x]
  {
    VerticalTabHidesBullet(x);
    BulletIsCleaned(x);
  }

  lemma VerticalTabHidesBullet(x: char)
    requires !IsSpace(x) && x != ']'
    ensures CleanMarkdownText(['\U{b}', '•', ' ', x]) == ['•', ' ', x]
  {
    var t := ['•', ' ', x];
    var s := ['\U{b}'] + t;
    assert s == ['\U{b}', '•', ' ', x];
    assert LeadingBlanks(s) == 0;
    assert RewriteBullet(s) == s;
    StripOfSpacePrefix(['\U{b}'], t);
    CleanOfStrippedLine(s, s, t);
  }

  lemma BulletIsRewritten(x: char)
    requires !IsBlank(x)
    ensures MatchBullet(['•', ' ', x]) == Some(2)
    ensures RewriteBullet(['•', ' ', x]) == ['-', ' ', x]
  {
    var t := ['•', ' ', x];
    assert LeadingBlanks(t) == 0;
    assert t[2..] == [x] && LeadingBlanks(t[2..]) == 0;
  }

  lemma BulletIsCleaned(x: char)
    requires !IsSpace(x) && x != ']'
    ensures MatchBullet(['•', ' ', x]) == Some(2)
    ensures CleanMarkdownText(['•', ' ', x]) == ['-', ' ', x]
  {
    BulletIsRewritten(x);
    CleanOfTrimmedLine(['•', ' ', x], ['-', ' ', x]);
  }
}
