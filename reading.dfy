/**
 * The reading list: field extractors that probe candidate keys of a
 * Goodreads book record in priority order, and `update_reading`, which
 * finds the book list in the export and normalises every book record to
 * `{titulo, author[, progress]}`.
 */
module Reading {
  import opened Wrappers
  import opened Text
  import opened Values

  const TitleKeys: seq<string> := ["title", "book_title", "name"]
  const UnknownTitle := "Título desconocido"
  const UnknownAuthor := "Autor desconocido"
  const PercentKeys: seq<string> := ["percent", "progress", "percent_complete", "progress_percent"]
  const CurrentPageKeys: seq<string> := ["current_page", "page_read", "pages_read"]
  const BookListKeys: seq<string> := ["books", "reading", "currently_reading"]
  const TotalPageKeys: seq<string> := ["total_pages", "pages", "page_count", "pages_total"]

  /** `isinstance(v, str) and v.strip()`. */
  predicate NonBlankStr(v: Value) { v.Str? && Strip(v.s) != [] }

  /** The first of the keys `ks` whose value is a non-blank string. */
  function FirstNonBlank(book: Entries, ks: seq<string>): (r: Option<nat>)
    ensures r.Some? ==> r.value < |ks| && NonBlankStr(Get(book, ks[r.value]))
    ensures r.Some? ==> forall j :: 0 <= j < r.value ==> !NonBlankStr(Get(book, ks[j]))
    ensures r.None? ==> forall j :: 0 <= j < |ks| ==> !NonBlankStr(Get(book, ks[j]))
  {
    if ks == [] then None
    else if NonBlankStr(Get(book, ks[0])) then Some(0)
    else match FirstNonBlank(book, ks[1..])
      case None => BlankShift(book, ks, |ks| - 1); None
      case Some(k) => BlankShift(book, ks, k); assert ks[1..][k] == ks[k + 1]; Some(k + 1)
  }

  /** No non-blank string under `ks[0]` nor under the first `n` keys after it. */
  lemma BlankShift(book: Entries, ks: seq<string>, n: nat)
    requires n < |ks| && !NonBlankStr(Get(book, ks[0]))
    requires forall j :: 0 <= j < n ==> !NonBlankStr(Get(book, ks[1..][j]))
    ensures forall j :: 0 <= j < n + 1 ==> !NonBlankStr(Get(book, ks[j]))
  {
    NoneShift(ks, n, k => NonBlankStr(Get(book, k)));
  }

  /** `p` fails on `xs[0]` and on the first `n` elements after it. */
  lemma NoneShift<T>(xs: seq<T>, n: nat, p: T -> bool)
    requires n < |xs| && !p(xs[0])
    requires forall j :: 0 <= j < n ==> !p(xs[1..][j])
    ensures forall j :: 0 <= j < n + 1 ==> !p(xs[j])
  {
    forall j | 0 < j < n + 1 ensures !p(xs[j]) {
      assert xs[j] == xs[1..][j - 1];
    }
  }

  /** Python's `extract_book_title(book)`. */
  function ExtractBookTitle(book: Entries): (r: string)
    ensures r != [] && !IsSpace(r[0]) && !IsSpace(r[|r| - 1])
  {
    match FirstNonBlank(book, TitleKeys)
    case Some(k) => Strip(Get(book, TitleKeys[k]).s)
    case None => UnknownTitle
  }

  /**
   * The string `extract_book_author` strips: `author` when it is a string,
   * else the first of `authors` (a string, or a dictionary's `name` or
   * `full_name`), else `authors` itself when it is a string; None when none applies.
   */
  function AuthorSource(book: Entries): Option<string> {
    var authors := Get(book, "authors");
    if HasKey(book, "author") && Get(book, "author").Str? then Some(Get(book, "author").s)
    else if authors.List? && authors.items != [] && authors.items[0].Str? then Some(authors.items[0].s)
    else if authors.List? && authors.items != [] && authors.items[0].Dict?
      && AuthorName(authors.items[0].entries).Str? then
      Some(AuthorName(authors.items[0].entries).s)
    else if authors.Str? then Some(authors.s)
    else None
  }

  /** Line 200: `first.get("name") or first.get("full_name")` for an author record. */
  function AuthorName(first: Entries): (r: Value)
    ensures Truthy(Get(first, "name")) ==> r == Get(first, "name")
    ensures !Truthy(Get(first, "name")) ==> r == Get(first, "full_name")
  {
    var vs := GetFirst(first, ["name", "full_name"]);
    assert vs[0] == Get(first, "name") && vs[1] == Get(first, "full_name");
    OrChain(vs)
  }

  /** No string under `author`: the later branches of `extract_book_author` are reached. */
  predicate NoAuthorString(book: Entries) {
    !(HasKey(book, "author") && Get(book, "author").Str?)
  }

  /** An `authors` value whose first item gives a name: a string, or a record whose `name or full_name` is one. */
  predicate NamedFirstAuthor(authors: Value) {
    authors.List? && authors.items != [] &&
    (authors.items[0].Str? || (authors.items[0].Dict? && AuthorName(authors.items[0].entries).Str?))
  }

  /** Python's `extract_book_author(book)`. */
  function ExtractBookAuthor(book: Entries): (r: string)
    ensures r == UnknownAuthor || r == [] || (!IsSpace(r[0]) && !IsSpace(r[|r| - 1]))
  {
    match AuthorSource(book)
    case Some(a) => Strip(a)
    case None => UnknownAuthor
  }

  function Abs(x: int): nat { if x >= 0 then x else -x }

  /** Python's `int(a / b)` on integers: the quotient truncated toward zero. */
  function TruncDiv(a: int, b: int): (r: int)
    requires b != 0
    ensures Abs(r) * Abs(b) <= Abs(a) < (Abs(r) + 1) * Abs(b)
    ensures r > 0 ==> (a > 0) == (b > 0)
    ensures r < 0 ==> (a > 0) != (b > 0)
  {
    var q := Abs(a) / Abs(b);
    var r := if (a >= 0) == (b > 0) then q else -q;
    TruncBounds(a, b, q, r);
    r
  }

  /** The truncated quotient `r` of `a` by `b`, given the floor quotient `q` of their absolute values. */
  lemma TruncBounds(a: int, b: int, q: int, r: int)
    requires b != 0 && q == Abs(a) / Abs(b) && r == (if (a >= 0) == (b > 0) then q else -q)
    ensures Abs(r) * Abs(b) <= Abs(a) < (Abs(r) + 1) * Abs(b)
    ensures r > 0 ==> (a > 0) == (b > 0)
    ensures r < 0 ==> (a > 0) != (b > 0)
  {
    DivBounds(Abs(a), Abs(b));
    assert Abs(r) == q;
  }

  /** The floor quotient of naturals brackets the dividend. */
  lemma DivBounds(x: nat, y: nat)
    requires y > 0
    ensures (x / y) * y <= x < (x / y + 1) * y
  {
    var q := x / y;
    assert x == q * y + x % y;
    assert (q + 1) * y == q * y + y;
  }

  /** Python's `extract_book_progress(book)`; the template appends the `%` itself. */
  function ExtractBookProgress(book: Entries): (r: Option<string>)
    ensures r.Some? ==> '%' !in r.value
  {
    var pct := OrChain(GetFirst(book, PercentKeys));
    if IsNumber(pct) then Some(IntToString(NumberValue(pct)))
    else if NonBlankStr(pct) then Some(RemoveChar(Strip(pct.s), '%'))
    else
      var current := OrChain(GetFirst(book, CurrentPageKeys));
      var total := OrChain(GetFirst(book, TotalPageKeys));
      if IsNumber(current) && IsNumber(total) && NumberValue(total) != 0 then
        Some(IntToString(TruncDiv(NumberValue(current) * 100, NumberValue(total))))
      else None
  }

  // ---------------------------------------------------------------------
  // properties of the extractors
  // ---------------------------------------------------------------------

  /** Lines 184-188: the first key holding a non-blank string gives the title, stripped. */
  lemma {:induction false} TitleFromFirstKey(book: Entries, i: nat)
    requires i < |TitleKeys| && NonBlankStr(Get(book, TitleKeys[i]))
    requires forall j :: 0 <= j < i ==> !NonBlankStr(Get(book, TitleKeys[j]))
    ensures ExtractBookTitle(book) == Strip(Get(book, TitleKeys[i]).s)
  {
    var k := FirstNonBlank(book, TitleKeys);
    assert k.Some?;
    assert k.value == i;
  }

  /** Line 188: with no non-blank string under any title key the default title is used. */
  lemma {:induction false} TitleDefault(book: Entries)
    requires forall j :: 0 <= j < |TitleKeys| ==> !NonBlankStr(Get(book, TitleKeys[j]))
    ensures ExtractBookTitle(book) == UnknownTitle
  {
    var k := FirstNonBlank(book, TitleKeys);
  }

  /** Lines 192-193: a string under `author` wins over everything, even a blank one. */
  lemma {:induction false} AuthorKeyWins(book: Entries)
    requires HasKey(book, "author") && Get(book, "author").Str?
    ensures ExtractBookAuthor(book) == Strip(Get(book, "author").s)
  {
  }

  /** Lines 194-198: otherwise a leading string in the `authors` list is the author. */
  lemma {:induction false} AuthorFromFirstString(book: Entries)
    requires NoAuthorString(book)
    requires Get(book, "authors").List? && Get(book, "authors").items != []
    requires Get(book, "authors").items[0].Str?
    ensures ExtractBookAuthor(book) == Strip(Get(book, "authors").items[0].s)
  {
  }

  /** Lines 199-202: a leading record gives its `name`, when that is a non-empty string. */
  lemma {:induction false} AuthorFromFirstName(book: Entries, first: Entries)
    requires NoAuthorString(book)
    requires Get(book, "authors").List? && Get(book, "authors").items != []
    requires Get(book, "authors").items[0] == Dict(first)
    requires Get(first, "name").Str? && Get(first, "name").s != []
    ensures ExtractBookAuthor(book) == Strip(Get(first, "name").s)
  {
  }

  /** Lines 199-202: a leading record without a truthy `name` gives its `full_name`, when that is a string. */
  lemma {:induction false} AuthorFromFirstFullName(book: Entries, first: Entries)
    requires NoAuthorString(book)
    requires Get(book, "authors").List? && Get(book, "authors").items != []
    requires Get(book, "authors").items[0] == Dict(first)
    requires !Truthy(Get(first, "name")) && Get(first, "full_name").Str?
    ensures ExtractBookAuthor(book) == Strip(Get(first, "full_name").s)
  {
  }

  /** Lines 203-204: `authors` given as a plain string is the author. */
  lemma {:induction false} AuthorFromString(book: Entries)
    requires NoAuthorString(book) && Get(book, "authors").Str?
    ensures ExtractBookAuthor(book) == Strip(Get(book, "authors").s)
  {
  }

  /**
   * Line 205: otherwise the default, including an `authors` list whose
   * first item is neither a string nor a record with a string name.
   */
  lemma {:induction false} AuthorDefault(book: Entries)
    requires NoAuthorString(book)
    requires !Get(book, "authors").Str? && !NamedFirstAuthor(Get(book, "authors"))
    ensures ExtractBookAuthor(book) == UnknownAuthor
  {
  }

  /** A record whose first author is a number: nothing names the author. */
  lemma AuthorNumberIsUnknown()
    ensures ExtractBookAuthor([("authors", List([Int(7), Str("Ada")]))]) == UnknownAuthor
  {
    AuthorDefault([("authors", List([Int(7), Str("Ada")]))]);
  }

  /**
   * Line 209: the operand the `or` chain over the percent keys lands on is
   * used; a number is written as its integer and parses back to it, a
   * non-blank string is stripped with its `%` signs removed.
   */
  lemma {:induction false} ProgressFromPercentKey(book: Entries, i: nat)
    requires i < |PercentKeys|
    requires forall j :: 0 <= j < i ==> !Truthy(Get(book, PercentKeys[j]))
    requires Truthy(Get(book, PercentKeys[i])) || i == |PercentKeys| - 1
    ensures var v := Get(book, PercentKeys[i]);
      IsNumber(v) ==> ExtractBookProgress(book).Some? && ParseInt(ExtractBookProgress(book).value) == Some(NumberValue(v))
    ensures var v := Get(book, PercentKeys[i]);
      NonBlankStr(v) ==> ExtractBookProgress(book) == Some(RemoveChar(Strip(v.s), '%'))
  {
    var vs := GetFirst(book, PercentKeys);
    assert OrIndex(vs) == i;
    var v := Get(book, PercentKeys[i]);
    if IsNumber(v) {
      ParseIntOfIntToString(NumberValue(v));
    }
  }

  /** A percent of 0 is falsy and skipped: the next key decides (`{percent: 0, progress: 40}` gives `"40"`). */
  lemma {:induction false} ZeroPercentIsSkipped(book: Entries, n: int)
    requires Get(book, "percent") == Int(0) && Get(book, "progress") == Int(n) && n != 0
    ensures ExtractBookProgress(book) == Some(IntToString(n))
  {
    ProgressFromPercentKey(book, 1);
  }

  /**
   * Lines 216-219: with no usable percent, numeric page counts with a
   * non-zero total give the truncated percentage, which lies in 0..100 when
   * the current page is within the book.
   */
  lemma ProgressFromPages(book: Entries, c: int, t: int)
    requires !IsNumber(OrChain(GetFirst(book, PercentKeys))) && !NonBlankStr(OrChain(GetFirst(book, PercentKeys)))
    requires OrChain(GetFirst(book, CurrentPageKeys)) == Int(c)
    requires OrChain(GetFirst(book, TotalPageKeys)) == Int(t) && t != 0
    ensures ExtractBookProgress(book).Some?
    ensures var p := TruncDiv(c * 100, t);
      ParseInt(ExtractBookProgress(book).value) == Some(p) &&
      (0 <= c <= t ==> 0 <= p <= 100 && p * t <= c * 100 < (p + 1) * t)
  {
    var p := TruncDiv(c * 100, t);
    assert ExtractBookProgress(book) == Some(IntToString(p));
    ParseIntOfIntToString(p);
    if 0 <= c <= t {
      PercentBounds(c, t);
    }
  }

  /** A page within the book gives a whole percentage between 0 and 100. */
  lemma PercentBounds(c: int, t: int)
    requires 0 <= c <= t && t != 0
    ensures var p := TruncDiv(c * 100, t);
      0 <= p <= 100 && p * t <= c * 100 < (p + 1) * t
  {
    var a := c * 100;
    var p := TruncDiv(a, t);
    assert a <= t * 100 by { MulLeq(c, t, 100); }
    assert Abs(a) == a && Abs(t) == t && Abs(p) == p;
    if p > 100 {
      MulLeq(101, p, t);
    }
  }

  lemma MulLeq(x: int, y: int, k: int)
    requires x <= y && 0 <= k
    ensures x * k <= y * k
  {
  }

  /** Line 220: a book with none of the percent or page keys has no progress. */
  lemma {:induction false} ProgressAbsent(book: Entries)
    requires forall k :: k in PercentKeys + CurrentPageKeys + TotalPageKeys ==> !HasKey(book, k)
    ensures ExtractBookProgress(book) == None
  {
    assert GetFirst(book, PercentKeys)[3] == Null;
    assert GetFirst(book, CurrentPageKeys)[2] == Null;
    assert GetFirst(book, TotalPageKeys)[3] == Null;
  }

  // ---------------------------------------------------------------------
  // update_reading
  // ---------------------------------------------------------------------

  /**
   * Lines 228-242: the book list in the export: a list as it is, the first
   * list under `books`, `reading` or `currently_reading`, or else the values
   * of the dictionary; None (nothing is written) for a missing file, JSON
   * `null` or any other value.
   */
  function BooksOf(data: Option<Value>): (r: Option<seq<Value>>)
    ensures (data.Some? && data.value.List?) ==> r == Some(data.value.items)
    ensures r.Some? <==> data.Some? && (data.value.List? || data.value.Dict?)
  {
    match data
    case Some(List(items)) => Some(items)
    case Some(Dict(es)) =>
      if Get(es, BookListKeys[0]).List? then Some(Get(es, BookListKeys[0]).items)
      else if Get(es, BookListKeys[1]).List? then Some(Get(es, BookListKeys[1]).items)
      else if Get(es, BookListKeys[2]).List? then Some(Get(es, BookListKeys[2]).items)
      else Some(ValuesOf(es))
    case _ => None
  }

  /** Lines 231-237: a dictionary export gives the first of its `books`, `reading`, `currently_reading` that is a list. */
  lemma {:induction false} BooksFromKey(es: Entries, i: nat)
    requires i < |BookListKeys| && Get(es, BookListKeys[i]).List?
    requires forall j :: 0 <= j < i ==> !Get(es, BookListKeys[j]).List?
    ensures BooksOf(Some(Dict(es))) == Some(Get(es, BookListKeys[i]).items)
  {
  }

  /** Lines 238-239: with no list under those keys, the values of the dictionary are the books. */
  lemma {:induction false} BooksFromValues(es: Entries)
    requires forall j :: 0 <= j < |BookListKeys| ==> !Get(es, BookListKeys[j]).List?
    ensures BooksOf(Some(Dict(es))) == Some(ValuesOf(es))
  {
  }

  /** Lines 250-259: the normalised record of one book. */
  function BookEntry(book: Entries): (r: Value)
    ensures r.Dict? && |r.entries| >= 2
    ensures r.entries[0] == ("titulo", Str(ExtractBookTitle(book)))
    ensures r.entries[1] == ("author", Str(ExtractBookAuthor(book)))
    ensures |r.entries| == 3 <==> ExtractBookProgress(book).Some? && ExtractBookProgress(book).value != []
    ensures |r.entries| == 3 ==> r.entries[2] == ("progress", Str(ExtractBookProgress(book).value))
  {
    var entry := [("titulo", Str(ExtractBookTitle(book))), ("author", Str(ExtractBookAuthor(book)))];
    match ExtractBookProgress(book)
    case Some(p) => if p != [] then Dict(entry + [("progress", Str(p))]) else Dict(entry)
    case None => Dict(entry)
  }

  /** The records lines 245-261 collect: one per dictionary in the book list, in order; other items are skipped. */
  function BookEntries(books: seq<Value>): seq<Value> {
    if books == [] then []
    else
      var last := books[|books| - 1];
      BookEntries(books[..|books| - 1]) + (if last.Dict? then [BookEntry(last.entries)] else [])
  }

  /**
   * The records are the dictionaries of the book list, each normalised:
   * one record per dictionary, in order, each with its title and author
   * first; non-dictionary items leave no trace.
   */
  lemma BookEntriesShape(books: seq<Value>)
    ensures |BookEntries(books)| == |DictsOf(books)|
    ensures forall k :: 0 <= k < |BookEntries(books)| ==> BookEntries(books)[k] == BookEntry(DictsOf(books)[k])
    ensures forall k :: 0 <= k < |BookEntries(books)| ==>
      BookEntries(books)[k].Dict? && Get(BookEntries(books)[k].entries, "titulo").Str?
      && Get(BookEntries(books)[k].entries, "author").Str?
  {
    BookEntriesMap(books);
    forall k | 0 <= k < |BookEntries(books)|
      ensures BookEntries(books)[k].Dict? && Get(BookEntries(books)[k].entries, "titulo").Str?
        && Get(BookEntries(books)[k].entries, "author").Str?
    {
      BookEntryFields(DictsOf(books)[k]);
    }
  }

  /** One record per dictionary of the book list, in order. */
  lemma {:induction false} BookEntriesMap(books: seq<Value>)
    ensures |BookEntries(books)| == |DictsOf(books)|
    ensures forall k :: 0 <= k < |BookEntries(books)| ==> BookEntries(books)[k] == BookEntry(DictsOf(books)[k])
  {
    if books != [] {
      var init := books[..|books| - 1];
      var last := books[|books| - 1];
      BookEntriesMap(init);
      EntriesAppend(BookEntries(init), DictsOf(init),
        if last.Dict? then [BookEntry(last.entries)] else [], if last.Dict? then [last.entries] else []);
    }
  }

  /** Record lists that correspond element-wise still do once both are extended by corresponding lists. */
  lemma EntriesAppend(es: seq<Value>, ds: seq<Entries>, es2: seq<Value>, ds2: seq<Entries>)
    requires |es| == |ds| && forall k :: 0 <= k < |es| ==> es[k] == BookEntry(ds[k])
    requires |es2| == |ds2| && forall k :: 0 <= k < |es2| ==> es2[k] == BookEntry(ds2[k])
    ensures |es + es2| == |ds + ds2|
    ensures forall k :: 0 <= k < |es + es2| ==> (es + es2)[k] == BookEntry((ds + ds2)[k])
  {
    forall k | 0 <= k < |es + es2| ensures (es + es2)[k] == BookEntry((ds + ds2)[k]) {
      if k >= |es| {
        assert (es + es2)[k] == es2[k - |es|];
        assert (ds + ds2)[k] == ds2[k - |es|];
      }
    }
  }

  /** A normalised record is a dictionary with a string title and a string author. */
  lemma BookEntryFields(book: Entries)
    ensures BookEntry(book).Dict?
    ensures Get(BookEntry(book).entries, "titulo").Str? && Get(BookEntry(book).entries, "author").Str?
  {
    var es := BookEntry(book).entries;
    assert es[0].0 == "titulo" && es[1].0 == "author";
  }

  /** A book list without dictionaries writes an empty list. */
  lemma {:induction false} NoDictsNoEntries(books: seq<Value>)
    requires forall i :: 0 <= i < |books| ==> !books[i].Dict?
    ensures BookEntries(books) == []
    decreases |books|
  {
    if books != [] {
      NoDictsNoEntries(books[..|books| - 1]);
    }
  }

  /** Python's `update_reading()`, without the file reading and writing: the list written to `reading.yml`. */
  method UpdateReading(data: Option<Value>) returns (r: Outcome<seq<Value>>)
    ensures BooksOf(data).None? ==> r == Skipped
    ensures BooksOf(data).Some? ==> r == Written(BookEntries(BooksOf(data).value))
  {
    var found := BooksOf(data);
    if found.None? {
      return Skipped;
    }
    var books := found.value;
    var normalized: seq<Value> := [];
    var i := 0;
    while i < |books|
      invariant 0 <= i <= |books|
      invariant normalized == BookEntries(books[..i])
    {
      var book := books[i];
      assert books[..i + 1][..i] == books[..i];
      if book.Dict? {
        var entry := BookEntry(book.entries);
        normalized := normalized + [entry];
      }
      i := i + 1;
    }
    assert books[..|books|] == books;
    return Written(normalized);
  }
}
