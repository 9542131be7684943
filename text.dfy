/**
 * Python string primitives used by the build script: whitespace as
 * `str.isspace` defines it, `strip`/`lstrip`/`rstrip`, ASCII lower-casing,
 * `str.split(sep)` / `sep.join(parts)`, substring search, and the decimal
 * rendering and parsing that `str(int)` and `int(str)` perform.
 */
module Text {
  import opened Wrappers

  /** The characters for which Python's `str.isspace()` is true. */
  predicate IsSpace(c: char) {
    c == ' ' || ('\t' <= c <= '\r') || ('\U{1c}' <= c <= '\U{1f}')
    || c == '\U{85}' || c == '\U{a0}' || c == '\U{1680}'
    || ('\U{2000}' <= c <= '\U{200a}') || c == '\U{2028}' || c == '\U{2029}'
    || c == '\U{202f}' || c == '\U{205f}' || c == '\U{3000}'
  }

  predicate IsDigit(c: char) { '0' <= c <= '9' }

  /** The character set of `rstrip("\n")` and `lstrip("\n")`. */
  predicate IsNewline(c: char) { c == '\n' }

  /** Every character of `s` satisfies `p`. */
  ghost predicate AllChars(s: string, p: char -> bool) {
    forall i :: 0 <= i < |s| ==> p(s[i])
  }

  /** `s.lstrip(chars)` for the set of characters `p` accepts. */
  function TrimStart(s: string, p: char -> bool): (r: string)
    ensures |r| <= |s| && r == s[|s| - |r|..]
    ensures r == [] || !p(r[0])
  {
    if s != [] && p(s[0]) then
      var r := TrimStart(s[1..], p);
      assert s[1..][|s| - 1 - |r|..] == s[|s| - |r|..];
      r
    else s
  }

  /** What `TrimStart` cuts off consists of `p`-characters only. */
  lemma {:induction false} TrimStartCuts(s: string, p: char -> bool)
    ensures AllChars(s[..|s| - |TrimStart(s, p)|], p)
    decreases |s|
  {
    if s != [] && p(s[0]) {
      TrimStartCuts(s[1..], p);
      var k := |s| - |TrimStart(s, p)|;
      forall i | 0 <= i < k ensures p(s[..k][i]) {
        if i > 0 {
          assert s[..k][i] == s[1..][..k - 1][i - 1];
        }
      }
    }
  }

  /** `s.rstrip(chars)` for the set of characters `p` accepts. */
  function TrimEnd(s: string, p: char -> bool): (r: string)
    ensures |r| <= |s| && r == s[..|r|]
    ensures r == [] || !p(r[|r| - 1])
  {
    if s != [] && p(s[|s| - 1]) then
      var r := TrimEnd(s[..|s| - 1], p);
      assert s[..|s| - 1][..|r|] == s[..|r|];
      r
    else s
  }

  /** What `TrimEnd` cuts off consists of `p`-characters only. */
  lemma {:induction false} TrimEndCuts(s: string, p: char -> bool)
    ensures AllChars(s[|TrimEnd(s, p)|..], p)
    decreases |s|
  {
    if s != [] && p(s[|s| - 1]) {
      TrimEndCuts(s[..|s| - 1], p);
      var n := |TrimEnd(s, p)|;
      forall i | 0 <= i < |s| - n ensures p(s[n..][i]) {
        if i < |s| - 1 - n {
          assert s[n..][i] == s[..|s| - 1][n..][i];
        }
      }
    }
  }

  /** Python's `s.strip()`. */
  function Strip(s: string): (r: string)
    ensures |r| <= |s|
    ensures r == [] || (!IsSpace(r[0]) && !IsSpace(r[|r| - 1]))
  {
    TrimEnd(TrimStart(s, IsSpace), IsSpace)
  }

  /** Trimming both ends with `p` leaves a contiguous piece `r` of `s` with only `p`-characters cut off. */
  lemma TrimBothIsInfix(s: string, p: char -> bool, r: string) returns (i: nat)
    requires r == TrimEnd(TrimStart(s, p), p)
    ensures i + |r| <= |s| && r == s[i..i + |r|]
    ensures AllChars(s[..i], p) && AllChars(s[i + |r|..], p)
  {
    i := TrimBothSlice(s, p, r);
    TrimBothCuts(s, p);
  }

  /** Where the result `r` of trimming both ends sits in `s`. */
  lemma TrimBothSlice(s: string, p: char -> bool, r: string) returns (i: nat)
    requires r == TrimEnd(TrimStart(s, p), p)
    ensures i == |s| - |TrimStart(s, p)|
    ensures i + |r| <= |s| && r == s[i..i + |r|]
  {
    var t := TrimStart(s, p);
    i := |s| - |t|;
    PrefixOfSuffix(s, t, r, i);
  }

  /** What trimming both ends cuts off consists of `p`-characters only. */
  lemma {:induction false} TrimBothCuts(s: string, p: char -> bool)
    ensures var i := |s| - |TrimStart(s, p)|;
      AllChars(s[..i], p) && AllChars(s[i + |TrimEnd(TrimStart(s, p), p)|..], p)
  {
    var t := TrimStart(s, p);
    TrimStartCuts(s, p);
    TrimEndCuts(t, p);
    SuffixOfSuffix(s, t, |s| - |t|, |TrimEnd(t, p)|);
  }

  /** A prefix `r` of the suffix `t == s[i..]` is the slice of `s` at `i`. */
  lemma PrefixOfSuffix<T>(s: seq<T>, t: seq<T>, r: seq<T>, i: nat)
    requires i <= |s| && t == s[i..] && |r| <= |t| && r == t[..|r|]
    ensures i + |r| <= |s| && r == s[i..i + |r|]
  {
  }

  /** A suffix of the suffix `t == s[i..]` is a suffix of `s`. */
  lemma SuffixOfSuffix<T>(s: seq<T>, t: seq<T>, i: nat, n: nat)
    requires i + n <= |s| && t == s[i..]
    ensures t[n..] == s[i + n..]
  {
  }

  /** The prefix one element longer: the shorter prefix and that element. */
  lemma PrefixStep<T>(s: seq<T>, i: nat)
    requires i < |s|
    ensures var p := s[..i + 1]; p[..|p| - 1] == s[..i] && p[|p| - 1] == s[i]
  {
  }

  lemma AppendAssoc<T>(a: seq<T>, b: seq<T>, c: seq<T>)
    ensures (a + b) + c == a + (b + c)
  {
  }

  lemma AppendEmpty<T>(a: seq<T>)
    ensures a + [] == a
  {
  }

  /** A prefix of a prefix of `b` is a prefix of `b`. */
  lemma PrefixOfPrefix<T>(b: seq<T>, p: seq<T>, r: seq<T>)
    requires |p| <= |b| && p == b[..|p|] && |r| <= |p| && r == p[..|r|]
    ensures r == b[..|r|]
  {
  }

  /** The three pieces of `s` around position `i` and length `n`, put back together. */
  lemma ThreePieces(s: string, i: nat, n: nat)
    requires i + n <= |s|
    ensures s == s[..i] + (s[i..i + n] + s[i + n..])
  {
  }

  /** `Strip(s)` is a contiguous piece of `s` with only whitespace cut off. */
  lemma StripIsInfix(s: string) returns (i: nat)
    ensures i + |Strip(s)| <= |s| && Strip(s) == s[i..i + |Strip(s)|]
    ensures AllChars(s[..i], IsSpace) && AllChars(s[i + |Strip(s)|..], IsSpace)
  {
    i := TrimBothIsInfix(s, IsSpace, Strip(s));
  }

  /** `s` is the cut-off whitespace, the stripped text and the trailing whitespace, in that order. */
  lemma StripParts(s: string) returns (w: string, tail: string)
    ensures s == w + (Strip(s) + tail)
    ensures AllChars(w, IsSpace)
  {
    var i := StripIsInfix(s);
    var n := |Strip(s)|;
    w := s[..i];
    tail := s[i + n..];
    ThreePieces(s, i, n);
  }

  lemma StripDropsOnlySpace(s: string, p: char -> bool)
    requires AllChars(s, p)
    ensures AllChars(Strip(s), p)
  {
    var i := StripIsInfix(s);
    var r := Strip(s);
    forall k | 0 <= k < |r| ensures p(r[k]) { assert r[k] == s[i + k]; }
  }

  /** A string with no surrounding whitespace is its own strip. */
  lemma StripOfTrimmed(s: string)
    requires s == [] || (!IsSpace(s[0]) && !IsSpace(s[|s| - 1]))
    ensures Strip(s) == s
  {
  }

  /** Leading whitespace before an already stripped text is all that `strip` removes. */
  lemma StripOfSpacePrefix(w: string, t: string)
    requires AllChars(w, IsSpace)
    requires t == [] || (!IsSpace(t[0]) && !IsSpace(t[|t| - 1]))
    ensures Strip(w + t) == t
  {
    TrimStartOfPrefix(w, t, IsSpace);
    TrimEndOfKept(t, IsSpace);
    StripFromTrims(w + t, t);
  }

  /** `lstrip` removes exactly a prefix of `p`-characters that a kept character follows. */
  lemma {:induction false} TrimStartOfPrefix(w: string, t: string, p: char -> bool)
    requires AllChars(w, p)
    requires t == [] || !p(t[0])
    ensures TrimStart(w + t, p) == t
    decreases |w|
  {
    if w == [] {
      assert w + t == t;
    } else {
      assert (w + t)[0] == w[0] && (w + t)[1..] == w[1..] + t;
      assert AllChars(w[1..], p) by {
        forall i | 0 <= i < |w[1..]| ensures p(w[1..][i]) { assert w[1..][i] == w[i + 1]; }
      }
      TrimStartOfPrefix(w[1..], t, p);
    }
  }

  /** `rstrip` leaves alone a string that ends in a kept character. */
  lemma {:induction false} TrimEndOfKept(t: string, p: char -> bool)
    requires t == [] || !p(t[|t| - 1])
    ensures TrimEnd(t, p) == t
  {
  }

  /** `lstrip` leaves alone a string that starts with a kept character. */
  lemma {:induction false} TrimStartOfKept(t: string, p: char -> bool)
    requires t == [] || !p(t[0])
    ensures TrimStart(t, p) == t
  {
  }

  /** `strip` is `lstrip` followed by `rstrip`. */
  lemma {:induction false} StripFromTrims(s: string, t: string)
    requires TrimStart(s, IsSpace) == t && TrimEnd(t, IsSpace) == t
    ensures Strip(s) == t
  {
  }

  /** `rstrip` never cuts into a prefix that ends in a kept character. */
  lemma {:induction false} TrimEndKeepsPrefix(x: string, y: string, p: char -> bool)
    requires x != [] && !p(x[|x| - 1])
    ensures StartsWith(TrimEnd(x + y, p), x)
  {
    if y == [] {
      assert x + y == x;
    } else if p(y[|y| - 1]) {
      assert (x + y)[..|x + y| - 1] == x + y[..|y| - 1];
      TrimEndKeepsPrefix(x, y[..|y| - 1], p);
    } else {
      assert (x + y)[..|x|] == x;
    }
  }

  /** Python's `c.lower()` restricted to ASCII letters; other characters are kept. */
  function LowerChar(c: char): (r: char)
    ensures 'A' <= c <= 'Z' ==> 'a' <= r <= 'z' && r as int - c as int == 32
    ensures !('A' <= c <= 'Z') ==> r == c
  {
    if 'A' <= c <= 'Z' then (c as int + 32) as char else c
  }

  function AsciiLower(s: string): (r: string)
    ensures |r| == |s| && forall i :: 0 <= i < |s| ==> r[i] == LowerChar(s[i])
  {
    seq(|s|, i requires 0 <= i < |s| => LowerChar(s[i]))
  }

  predicate StartsWith(s: string, prefix: string) {
    |prefix| <= |s| && s[..|prefix|] == prefix
  }

  predicate EndsWith(s: string, suffix: string) {
    |suffix| <= |s| && s[|s| - |suffix|..] == suffix
  }

  /** Python's `needle in haystack` for strings. */
  predicate Contains(haystack: string, needle: string) {
    StartsWith(haystack, needle) || (haystack != [] && Contains(haystack[1..], needle))
  }

  /** Python's `s.replace(c, "")` for a single character `c`. */
  function RemoveChar(s: string, c: char): (r: string)
    ensures c !in r
    ensures forall d :: d != c ==> (d in r <==> d in s)
  {
    if s == [] then [] else (if s[0] == c then [] else [s[0]]) + RemoveChar(s[1..], c)
  }

  /** Replacing a character that does not occur changes nothing. */
  lemma {:induction false} RemoveCharAbsent(s: string, c: char)
    requires c !in s
    ensures RemoveChar(s, c) == s
  {
    if s != [] {
      assert c !in s[1..];
      RemoveCharAbsent(s[1..], c);
      assert [s[0]] + s[1..] == s;
    }
  }

  // ---------------------------------------------------------------------
  // split and join
  // ---------------------------------------------------------------------

  /** Python's `s.split(sep)` for a one-character separator (never empty: `"".split(sep) == [""]`). */
  function Split(s: string, sep: char): (r: seq<string>)
    ensures |r| >= 1
    ensures forall k :: 0 <= k < |r| ==> sep !in r[k]
  {
    if s == [] then [[]]
    else if s[0] == sep then [[]] + Split(s[1..], sep)
    else var t := Split(s[1..], sep); [[s[0]] + t[0]] + t[1..]
  }

  /** Python's `sep.join(parts)`. */
  function Join(parts: seq<string>, sep: string): string {
    if parts == [] then []
    else if |parts| == 1 then parts[0]
    else parts[0] + sep + Join(parts[1..], sep)
  }

  lemma {:induction false} JoinCons(a: string, x: string, rest: seq<string>, sep: string)
    ensures Join([a + x] + rest, sep) == a + Join([x] + rest, sep)
  {
    if rest != [] {
      assert ([a + x] + rest)[1..] == rest;
      assert ([x] + rest)[1..] == rest;
    }
  }

  lemma {:induction false} JoinAppend(ps: seq<string>, qs: seq<string>, sep: string)
    requires ps != [] && qs != []
    ensures Join(ps + qs, sep) == Join(ps, sep) + sep + Join(qs, sep)
  {
    if |ps| == 1 {
      assert (ps + qs)[1..] == qs;
    } else {
      assert (ps + qs)[1..] == ps[1..] + qs;
      JoinAppend(ps[1..], qs, sep);
    }
  }

  /** Joining the pieces of a split gives back the original text. */
  lemma {:induction false} JoinSplit(s: string, sep: char)
    ensures Join(Split(s, sep), [sep]) == s
  {
    if s == [] {
    } else if s[0] == sep {
      JoinSplit(s[1..], sep);
      assert Split(s, sep)[1..] == Split(s[1..], sep);
    } else {
      var t := Split(s[1..], sep);
      JoinSplit(s[1..], sep);
      JoinCons([s[0]], t[0], t[1..], [sep]);
      assert [t[0]] + t[1..] == t;
    }
  }

  /** Splitting at a separator that is present splits the two sides independently. */
  lemma {:induction false} SplitAppend(a: string, b: string, sep: char)
    ensures Split(a + [sep] + b, sep) == Split(a, sep) + Split(b, sep)
  {
    var s := a + [sep] + b;
    var bs := Split(b, sep);
    if a == [] {
      assert s == [sep] + b;
      assert s[1..] == b;
    } else {
      assert s[0] == a[0] && s[1..] == a[1..] + [sep] + b;
      SplitAppend(a[1..], b, sep);
      var t := Split(a[1..], sep);
      if a[0] == sep {
        AppendAssoc([[]], t, bs);
      } else {
        ConsPieces([a[0]], t, bs);
      }
    }
  }

  /** Gluing `x` to the first piece, before or after appending more pieces. */
  lemma ConsPieces<T>(x: seq<T>, t: seq<seq<T>>, u: seq<seq<T>>)
    requires t != []
    ensures [x + (t + u)[0]] + (t + u)[1..] == ([x + t[0]] + t[1..]) + u
  {
    assert (t + u)[0] == t[0];
    assert (t + u)[1..] == t[1..] + u;
  }

  /** A text with no separator in it is one piece. */
  lemma {:induction false} SplitNoSep(s: string, sep: char)
    requires sep !in s
    ensures Split(s, sep) == [s]
  {
    if s != [] {
      assert s[0] != sep;
      SplitNoSep(s[1..], sep);
      assert [s[0]] + s[1..] == s;
    }
  }

  /** Splitting separator-free pieces joined by the separator gives the pieces back. */
  lemma {:induction false} SplitJoin(parts: seq<string>, sep: char)
    requires parts != []
    requires forall k :: 0 <= k < |parts| ==> sep !in parts[k]
    ensures Split(Join(parts, [sep]), sep) == parts
  {
    if |parts| == 1 {
      SplitNoSep(parts[0], sep);
    } else {
      SplitJoin(parts[1..], sep);
      SplitNoSep(parts[0], sep);
      SplitAppend(parts[0], Join(parts[1..], [sep]), sep);
      assert parts[0] + [sep] + Join(parts[1..], [sep]) == Join(parts, [sep]);
      assert [parts[0]] + parts[1..] == parts;
    }
  }

  /** Every piece of a split is made of characters of the text. */
  lemma {:induction false} SplitChars(s: string, sep: char, p: char -> bool)
    requires AllChars(s, p)
    ensures forall k :: 0 <= k < |Split(s, sep)| ==> AllChars(Split(s, sep)[k], p)
  {
    if s != [] {
      SplitChars(s[1..], sep, p);
    }
  }

  /** A join is made of the characters of its pieces and of the separator. */
  lemma {:induction false} JoinChars(parts: seq<string>, sep: string, p: char -> bool)
    requires forall k :: 0 <= k < |parts| ==> AllChars(parts[k], p)
    requires AllChars(sep, p)
    ensures AllChars(Join(parts, sep), p)
  {
    if |parts| > 1 {
      JoinChars(parts[1..], sep, p);
      var j := Join(parts[1..], sep);
      assert Join(parts, sep) == parts[0] + sep + j;
      forall i | 0 <= i < |parts[0] + sep + j| ensures p((parts[0] + sep + j)[i]) {
        if i < |parts[0]| {
        } else if i < |parts[0]| + |sep| {
          assert (parts[0] + sep + j)[i] == sep[i - |parts[0]|];
        } else {
          assert (parts[0] + sep + j)[i] == j[i - |parts[0]| - |sep|];
        }
      }
    }
  }

  // ---------------------------------------------------------------------
  // decimal numbers: str(int) and int(str)
  // ---------------------------------------------------------------------

  function DigitChar(d: nat): (c: char)
    requires d < 10
    ensures IsDigit(c) && c as int - '0' as int == d
  {
    ('0' as int + d) as char
  }

  /** The decimal digits of `n`, most significant first, without leading zeros. */
  function NatToString(n: nat): (r: string)
    ensures r != [] && forall i :: 0 <= i < |r| ==> IsDigit(r[i])
  {
    if n < 10 then [DigitChar(n)] else NatToString(n / 10) + [DigitChar(n % 10)]
  }

  /** Python's `str(n)` for an integer. */
  function IntToString(n: int): (r: string)
    ensures r != []
    ensures forall i :: 0 <= i < |r| ==> IsDigit(r[i]) || (i == 0 && r[i] == '-')
  {
    if n < 0 then "-" + NatToString(-n) else NatToString(n)
  }

  /** The number a string of digits and underscores denotes (underscores are ignored). */
  function DigitsValue(s: string): nat
    requires forall i :: 0 <= i < |s| ==> IsDigit(s[i]) || s[i] == '_'
  {
    if s == [] then 0
    else if s[|s| - 1] == '_' then DigitsValue(s[..|s| - 1])
    else
      assert IsDigit(s[|s| - 1]);
      DigitsValue(s[..|s| - 1]) * 10 + (s[|s| - 1] as int - '0' as int)
  }

  /** The digit part Python's `int(str)` accepts: digits, single underscores between digits. */
  predicate IsDigitGroup(s: string) {
    s != [] && IsDigit(s[0]) && IsDigit(s[|s| - 1])
    && (forall i :: 0 <= i < |s| ==> IsDigit(s[i]) || s[i] == '_')
    && (forall i :: 0 <= i < |s| - 1 ==> !(s[i] == '_' && s[i + 1] == '_'))
  }

  /** A sign-and-digits token, already stripped, as Python's `int` reads it. */
  function ParseSigned(t: string): (r: Option<int>)
    ensures r.Some? ==> t != []
  {
    if t == [] then None
    else
      var digits := if t[0] == '-' || t[0] == '+' then t[1..] else t;
      if !IsDigitGroup(digits) then None
      else
        var v: int := DigitsValue(digits);
        if t[0] == '-' then Some(-v) else Some(v)
  }

  /**
   * Python's `int(s)` for a string: surrounding whitespace is ignored, an
   * optional sign, then a digit group; anything else raises (None here).
   */
  function ParseInt(s: string): (r: Option<int>)
    ensures r.Some? ==> Strip(s) != []
  {
    ParseSigned(Strip(s))
  }

  lemma {:induction false} DigitsValueOfNat(n: nat)
    ensures DigitsValue(NatToString(n)) == n
  {
    var s := NatToString(n);
    if n >= 10 {
      DigitsValueOfNat(n / 10);
      assert s[..|s| - 1] == NatToString(n / 10);
    }
  }

  lemma {:induction false} NatStringIsGroup(n: nat)
    ensures IsDigitGroup(NatToString(n))
  {
  }

  /** `int(str(n)) == n`: the decimal rendering parses back to the number. */
  lemma ParseSignedOfIntToString(n: int)
    ensures ParseSigned(IntToString(n)) == Some(n)
  {
    if n < 0 {
      var m: nat := -n;
      var d := NatToString(m);
      NatStringIsGroup(m);
      DigitsValueOfNat(m);
      var s := "-" + d;
      assert s[0] == '-' && s[1..] == d;
      assert IntToString(n) == s;
    } else {
      NatStringIsGroup(n);
      DigitsValueOfNat(n);
      assert IsDigit(NatToString(n)[0]);
    }
  }

  /** `int(str(n)) == n`: the decimal rendering parses back to the number. */
  lemma ParseIntOfIntToString(n: int)
    ensures ParseInt(IntToString(n)) == Some(n)
  {
    var s := IntToString(n);
    assert s == [] || (!IsSpace(s[0]) && !IsSpace(s[|s| - 1]));
    StripOfTrimmed(s);
    ParseSignedOfIntToString(n);
  }
}
