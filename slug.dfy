/**
 * `slugify` (scripts/build.py): the URL-safe identifier derived from a note
 * title. The result is made of `a-z`, `0-9` and single hyphens, never starts
 * or ends with a hyphen, is at most `max_length` characters long unless it is
 * the placeholder, and is never empty.
 */
module Slug {
  import opened Text

  const MaxLength: nat := 80
  const Fallback: string := "nota-sin-titulo"

  predicate IsAlnum(c: char) { 'a' <= c <= 'z' || '0' <= c <= '9' }

  predicate IsHyphen(c: char) { c == '-' }

  predicate SlugChars(s: string) {
    forall i :: 0 <= i < |s| ==> IsAlnum(s[i]) || s[i] == '-'
  }

  predicate NoDoubleHyphen(s: string) {
    forall i :: 0 <= i < |s| - 1 ==> !(s[i] == '-' && s[i + 1] == '-')
  }

  /** The output language of `slugify`. */
  predicate IsSlug(s: string) {
    s != [] && SlugChars(s) && NoDoubleHyphen(s) && s[0] != '-' && s[|s| - 1] != '-'
  }

  /** The letters and digits of `s`, in order. */
  function Alnums(s: string): string {
    if s == [] then [] else (if IsAlnum(s[0]) then [s[0]] else []) + Alnums(s[1..])
  }

  lemma {:induction false} AlnumsAppend(a: string, b: string)
    ensures Alnums(a + b) == Alnums(a) + Alnums(b)
  {
    if a == [] {
      assert a + b == b;
    } else {
      assert (a + b)[0] == a[0] && (a + b)[1..] == a[1..] + b;
      AlnumsAppend(a[1..], b);
      AppendAssoc(if IsAlnum(a[0]) then [a[0]] else [], Alnums(a[1..]), Alnums(b));
    }
  }

  lemma {:induction false} AlnumsOfHyphens(s: string)
    requires AllChars(s, IsHyphen)
    ensures Alnums(s) == []
  {
    if s != [] {
      AlnumsOfHyphens(s[1..]);
    }
  }

  /** The letters and digits of a prefix are a prefix of the letters and digits. */
  lemma {:induction false} AlnumsPrefix(s: string, t: string)
    requires |t| <= |s| && t == s[..|t|]
    ensures |Alnums(t)| <= |Alnums(s)| && Alnums(t) == Alnums(s)[..|Alnums(t)|]
  {
    assert s == t + s[|t|..];
    AlnumsAppend(t, s[|t|..]);
  }

  /**
   * `unicodedata.normalize("NFKD", c.lower())` with the combining marks
   * dropped, for ASCII and the Latin letters of Spanish and its neighbours;
   * any other character is kept as it is (and so becomes a separator).
   */
  function FoldChar(c: char): (r: string)
    ensures IsAlnum(c) || c == '-' ==> r == [c]
  {
    if 'A' <= c <= 'Z' then [LowerChar(c)]
    else if c in "áàâäãåÁÀÂÄÃÅª" then "a"
    else if c in "éèêëÉÈÊË" then "e"
    else if c in "íìîïÍÌÎÏ" then "i"
    else if c in "óòôöõÓÒÔÖÕº" then "o"
    else if c in "úùûüÚÙÛÜ" then "u"
    else if c in "ñÑ" then "n"
    else if c in "çÇ" then "c"
    else if c in "ýÿÝ" then "y"
    else if c == '¹' then "1"
    else if c == '²' then "2"
    else if c == '³' then "3"
    else [c]
  }

  function Fold(s: string): string {
    if s == [] then [] else FoldChar(s[0]) + Fold(s[1..])
  }

  lemma {:induction false} FoldOfSlugChars(s: string)
    requires SlugChars(s)
    ensures Fold(s) == s
  {
    if s != [] {
      FoldOfSlugChars(s[1..]);
      assert [s[0]] + s[1..] == s;
    }
  }

  /** Drops the leading run of characters outside `a-z0-9`. */
  function DropSeparators(s: string): (r: string)
    ensures |r| <= |s| && r == s[|s| - |r|..]
    ensures r == [] || IsAlnum(r[0])
    ensures Alnums(r) == Alnums(s)
  {
    if s != [] && !IsAlnum(s[0]) then
      var r := DropSeparators(s[1..]);
      assert s[1..][|s| - 1 - |r|..] == s[|s| - |r|..];
      AlnumsOfNonAlnum(s);
      r
    else s
  }

  /** A first character outside `a-z0-9` contributes nothing to `Alnums`. */
  lemma {:induction false} AlnumsOfNonAlnum(s: string)
    requires s != [] && !IsAlnum(s[0])
    ensures Alnums(s) == Alnums(s[1..])
  {
    assert Alnums(s) == [] + Alnums(s[1..]);
  }

  /** One more character in front of slug text. */
  lemma {:induction false} ConsSlugText(c: char, rest: string)
    requires IsAlnum(c) || c == '-'
    requires SlugChars(rest) && NoDoubleHyphen(rest)
    requires c == '-' ==> rest == [] || rest[0] != '-'
    ensures SlugChars([c] + rest) && NoDoubleHyphen([c] + rest)
    ensures Alnums([c] + rest) == (if IsAlnum(c) then [c] else []) + Alnums(rest)
  {
    var r := [c] + rest;
    assert r[0] == c && r[1..] == rest;
    forall i | 0 <= i < |r| ensures IsAlnum(r[i]) || r[i] == '-' {
      if i > 0 { assert r[i] == rest[i - 1]; }
    }
    forall i | 0 <= i < |r| - 1 ensures !(r[i] == '-' && r[i + 1] == '-') {
      if i > 0 { assert r[i] == rest[i - 1] && r[i + 1] == rest[i]; }
    }
  }

  /** `re.sub(r"[^a-z0-9]+", "-", s)`: every maximal run of other characters becomes one hyphen. */
  function HyphenateRuns(s: string): (r: string)
    ensures SlugChars(r) && NoDoubleHyphen(r)
    ensures Alnums(r) == Alnums(s)
    ensures r == [] <==> s == []
    ensures s != [] && IsAlnum(s[0]) ==> r[0] == s[0]
    decreases |s|
  {
    if s == [] then []
    else if IsAlnum(s[0]) then
      var rest := HyphenateRuns(s[1..]);
      ConsSlugText(s[0], rest);
      assert Alnums(s) == [s[0]] + Alnums(s[1..]);
      [s[0]] + rest
    else
      var d := DropSeparators(s[1..]);
      var rest := HyphenateRuns(d);
      ConsSlugText('-', rest);
      AlnumsOfNonAlnum(s);
      assert Alnums("-" + rest) == [] + Alnums(rest);
      "-" + rest
  }

  /** Text already in the output language of the hyphenation is left alone by it. */
  lemma {:induction false} HyphenateRunsOfSlugText(s: string)
    requires SlugChars(s) && NoDoubleHyphen(s)
    ensures HyphenateRuns(s) == s
  {
    if s != [] {
      HyphenateRunsOfSlugText(s[1..]);
      if s[0] == '-' {
        assert DropSeparators(s[1..]) == s[1..];
      }
      assert [s[0]] + s[1..] == s;
    }
  }

  function DropHyphens(s: string): (r: string)
    ensures |r| <= |s| && r == s[|s| - |r|..]
    ensures r == [] || r[0] != '-'
  {
    if s != [] && s[0] == '-' then DropHyphens(s[1..]) else s
  }

  /** `re.sub(r"-{2,}", "-", s)`: every run of hyphens becomes one hyphen. */
  function CollapseHyphens(s: string): string
    decreases |s|
  {
    if s == [] then []
    else if s[0] == '-' then "-" + CollapseHyphens(DropHyphens(s))
    else [s[0]] + CollapseHyphens(s[1..])
  }

  /** The second substitution of `slugify` never changes anything: the first leaves no double hyphen. */
  lemma {:induction false} CollapseHyphensOfSingle(s: string)
    requires NoDoubleHyphen(s)
    ensures CollapseHyphens(s) == s
  {
    if s != [] {
      CollapseHyphensOfSingle(s[1..]);
      if s[0] == '-' {
        assert DropHyphens(s) == DropHyphens(s[1..]) == s[1..];
      }
      assert [s[0]] + s[1..] == s;
    }
  }

  /** A piece of a string in slug characters without double hyphens is one too. */
  lemma InfixKeepsSlugText(s: string, i: nat, t: string)
    requires i + |t| <= |s| && t == s[i..i + |t|] && SlugChars(s) && NoDoubleHyphen(s)
    ensures SlugChars(t) && NoDoubleHyphen(t)
  {
    forall k | 0 <= k < |t| ensures IsAlnum(t[k]) || t[k] == '-' { assert t[k] == s[i + k]; }
    forall k | 0 <= k < |t| - 1 ensures !(t[k] == '-' && t[k + 1] == '-') {
      assert t[k] == s[i + k] && t[k + 1] == s[i + k + 1];
    }
  }

  /** `s.strip("-")`. */
  function TrimHyphens(s: string): (r: string)
    ensures r == [] || (r[0] != '-' && r[|r| - 1] != '-')
  {
    TrimEnd(TrimStart(s, IsHyphen), IsHyphen)
  }

  /** Lines 59-60 of `slugify`: cut to `maxLength` and drop the hyphens the cut exposes. */
  function Truncate(s: string, maxLength: nat): string {
    if maxLength > 0 && |s| > maxLength then TrimEnd(s[..maxLength], IsHyphen) else s
  }

  /** The hyphenated, trimmed text before the length cap. */
  function SlugBody(text: string): string {
    TrimHyphens(CollapseHyphens(HyphenateRuns(Fold(Strip(text)))))
  }

  /** Python's `slugify(text, max_length)`. */
  function Slugify(text: string, maxLength: nat): string {
    var t := Truncate(SlugBody(text), maxLength);
    if t == [] then Fallback else t
  }

  lemma FallbackIsSlug()
    ensures IsSlug(Fallback)
  {
    var f := Fallback;
    assert forall i :: 0 <= i < |f| ==> IsAlnum(f[i]) || f[i] == '-';
  }

  lemma {:induction false} AlnumsTrimStart(h: string)
    ensures Alnums(TrimStart(h, IsHyphen)) == Alnums(h)
  {
    if h != [] && h[0] == '-' {
      AlnumsTrimStart(h[1..]);
    }
  }

  lemma {:induction false} AlnumsTrimEnd(h: string)
    ensures Alnums(TrimEnd(h, IsHyphen)) == Alnums(h)
  {
    if h != [] && h[|h| - 1] == '-' {
      var p := h[..|h| - 1];
      AlnumsTrimEnd(p);
      assert h == p + [h[|h| - 1]];
      AlnumsAppend(p, [h[|h| - 1]]);
    }
  }

  lemma {:induction false} TrimHyphensIsTrims(h: string)
    ensures TrimHyphens(h) == TrimEnd(TrimStart(h, IsHyphen), IsHyphen)
  {
  }

  /** `strip("-")` keeps the letters and digits. */
  lemma {:induction false} AlnumsTrimHyphens(h: string)
    ensures Alnums(TrimHyphens(h)) == Alnums(h)
  {
    AlnumsTrimStart(h);
    AlnumsTrimEnd(TrimStart(h, IsHyphen));
  }

  /** Trimming hyphens off slug text keeps it slug text and keeps its letters and digits. */
  lemma {:induction false} TrimHyphensFacts(h: string)
    requires SlugChars(h) && NoDoubleHyphen(h)
    ensures SlugChars(TrimHyphens(h)) && NoDoubleHyphen(TrimHyphens(h))
    ensures Alnums(TrimHyphens(h)) == Alnums(h)
  {
    var i := TrimHyphensIsInfix(h);
    InfixKeepsSlugText(h, i, TrimHyphens(h));
    AlnumsTrimHyphens(h);
  }

  /** `strip("-")` leaves a contiguous piece of its input. */
  lemma TrimHyphensIsInfix(h: string) returns (i: nat)
    ensures i + |TrimHyphens(h)| <= |h| && TrimHyphens(h) == h[i..i + |TrimHyphens(h)|]
  {
    TrimHyphensIsTrims(h);
    i := TrimBothSlice(h, IsHyphen, TrimHyphens(h));
  }

  /** `strip("-")` leaves alone a string with no hyphen at either end. */
  lemma TrimHyphensOfTrimmed(s: string)
    requires s == [] || (s[0] != '-' && s[|s| - 1] != '-')
    ensures TrimHyphens(s) == s
  {
    TrimStartOfKept(s, IsHyphen);
    TrimEndOfKept(s, IsHyphen);
  }

  /** The four stages of the body, each result named. */
  lemma {:induction false} SlugBodyByStages(text: string, a: string, b: string, c: string, d: string, e: string)
    requires Strip(text) == a && Fold(a) == b && HyphenateRuns(b) == c && CollapseHyphens(c) == d && TrimHyphens(d) == e
    ensures SlugBody(text) == e
  {
  }

  /** A slug starts with a letter or digit, so it has some. */
  lemma {:induction false} SlugHasAlnum(s: string)
    requires IsSlug(s)
    ensures Alnums(s) != []
  {
    assert IsAlnum(s[0]);
  }

  /**
   * Lines 59-60 keep the slug form and the length cap, let nothing empty
   * through unless the body was empty, keep a prefix of the letters and
   * digits, and change nothing when the body fits.
   */
  lemma {:induction false} TruncateFacts(b: string, m: nat)
    requires b == [] || IsSlug(b)
    ensures Truncate(b, m) == [] || IsSlug(Truncate(b, m))
    ensures m == 0 || |Truncate(b, m)| <= m
    ensures Truncate(b, m) == [] <==> b == []
    ensures |Alnums(Truncate(b, m))| <= |Alnums(b)| && Alnums(Truncate(b, m)) == Alnums(b)[..|Alnums(Truncate(b, m))|]
    ensures (m == 0 || |b| <= m) ==> Truncate(b, m) == b
  {
    if m > 0 && |b| > m {
      TruncateCut(b, m);
    }
  }

  /** The cut of line 59 and the trim of line 60 on a slug longer than the cap. */
  lemma {:induction false} TruncateCut(b: string, m: nat)
    requires IsSlug(b) && 0 < m < |b|
    ensures IsSlug(Truncate(b, m)) && |Truncate(b, m)| <= m
    ensures |Alnums(Truncate(b, m))| <= |Alnums(b)| && Alnums(Truncate(b, m)) == Alnums(b)[..|Alnums(Truncate(b, m))|]
  {
    var p := b[..m];
    var r := TrimEnd(p, IsHyphen);
    assert Truncate(b, m) == r;
    PrefixOfPrefix(b, p, r);
    TrimEndCuts(p, IsHyphen);
    assert p[0] == b[0];
    InfixKeepsSlugText(b, 0, r);
    assert r[0] == b[0];
    AlnumsPrefix(b, r);
  }

  /** The body is in slug form and keeps every letter and digit of the folded title, in order. */
  lemma SlugBodyFacts(text: string)
    ensures SlugBody(text) == [] || IsSlug(SlugBody(text))
    ensures Alnums(SlugBody(text)) == Alnums(Fold(Strip(text)))
  {
    var h := HyphenateRuns(Fold(Strip(text)));
    CollapseHyphensOfSingle(h);
    SlugBodyByStages(text, Strip(text), Fold(Strip(text)), h, h, TrimHyphens(h));
    TrimmedSlugText(h, SlugBody(text));
  }

  /** Trimming hyphens off slug text gives a slug or nothing, with the same letters and digits. */
  lemma TrimmedSlugText(h: string, e: string)
    requires SlugChars(h) && NoDoubleHyphen(h) && e == TrimHyphens(h)
    ensures e == [] || IsSlug(e)
    ensures Alnums(e) == Alnums(h)
  {
    TrimHyphensFacts(h);
  }

  /**
   * The slug form: only `a-z`, `0-9` and single inner hyphens, never empty,
   * capped at `maxLength` unless it is the placeholder; its letters and digits
   * are a prefix of the folded title's (all of them when nothing was cut), and
   * the placeholder appears whenever the title has none.
   */
  lemma SlugifyForm(text: string, maxLength: nat)
    ensures IsSlug(Slugify(text, maxLength))
    ensures Slugify(text, maxLength) == Fallback || maxLength == 0 || |Slugify(text, maxLength)| <= maxLength
    ensures Alnums(Fold(Strip(text))) == [] ==> Slugify(text, maxLength) == Fallback
    ensures Alnums(Fold(Strip(text))) != [] ==>
      var a := Alnums(Slugify(text, maxLength));
      |a| <= |Alnums(Fold(Strip(text)))| && a == Alnums(Fold(Strip(text)))[..|a|]
    ensures Alnums(Fold(Strip(text))) != [] && (maxLength == 0 || |SlugBody(text)| <= maxLength) ==>
      Alnums(Slugify(text, maxLength)) == Alnums(Fold(Strip(text)))
  {
    FallbackIsSlug();
    SlugBodyFacts(text);
    var b := SlugBody(text);
    TruncateFacts(b, maxLength);
    if b != [] {
      SlugHasAlnum(b);
    }
    SlugifyOfBody(text, maxLength, b, Truncate(b, maxLength));
  }

  /** `slugify` is the truncated body, or the placeholder when that is empty. */
  lemma SlugifyOfBody(text: string, maxLength: nat, b: string, t: string)
    requires SlugBody(text) == b && Truncate(b, maxLength) == t
    ensures Slugify(text, maxLength) == if t == [] then Fallback else t
  {
  }

  /** A slug that fits is its own slug. */
  lemma SlugOfSlug(s: string, maxLength: nat)
    requires IsSlug(s) && (maxLength == 0 || |s| <= maxLength)
    ensures Slugify(s, maxLength) == s
  {
    SlugBodyOfSlug(s);
    SlugifyOfBody(s, maxLength, s, s);
  }

  /** Every stage of the body leaves a slug alone. */
  lemma SlugBodyOfSlug(s: string)
    requires IsSlug(s)
    ensures SlugBody(s) == s
  {
    StripOfSlug(s);
    FoldOfSlugChars(s);
    HyphenateRunsOfSlugText(s);
    CollapseHyphensOfSingle(s);
    TrimHyphensOfTrimmed(s);
    SlugBodyByStages(s, s, s, s, s, s);
  }

  /** A slug has no surrounding whitespace. */
  lemma StripOfSlug(s: string)
    requires IsSlug(s)
    ensures Strip(s) == s
  {
    assert IsAlnum(s[0]) && IsAlnum(s[|s| - 1]);
    StripOfTrimmed(s);
  }

  /** Whenever the cap admits the placeholder, a string is a fixed point of `slugify` exactly when it is a slug that fits. */
  lemma SlugifyFixpoints(s: string, maxLength: nat)
    requires maxLength == 0 || maxLength >= |Fallback|
    ensures Slugify(s, maxLength) == s <==> IsSlug(s) && (maxLength == 0 || |s| <= maxLength)
  {
    SlugifyForm(s, maxLength);
    if IsSlug(s) && (maxLength == 0 || |s| <= maxLength) {
      SlugOfSlug(s, maxLength);
    }
  }

  /** `slugify(slugify(t)) == slugify(t)` for the cap the script uses and any cap admitting the placeholder. */
  lemma SlugifyIdempotent(text: string, maxLength: nat)
    requires maxLength == 0 || maxLength >= |Fallback|
    ensures Slugify(Slugify(text, maxLength), maxLength) == Slugify(text, maxLength)
  {
    SlugifyForm(text, maxLength);
    SlugOfSlug(Slugify(text, maxLength), maxLength);
  }
}
