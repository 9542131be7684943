/**
 * The loosely shaped data the build script works on: parsed JSON tracker
 * exports and parsed YAML front matter, with the Python operations the
 * script applies to them (truthiness, `dict.get`, `a or b or c`, `str()`,
 * `int()`, iteration, `dict.pop`, `dict.setdefault`).
 */
module Values {
  import opened Wrappers
  import opened Text

  /** A calendar date, as Python's `datetime.date`. */
  datatype Date = Date(year: nat, month: nat, day: nat)

  /**
   * A JSON or YAML value. `Day` only arises from YAML (an unquoted date);
   * dictionaries keep insertion order and are read by the first entry with
   * a key (a dictionary built by a parser has unique keys).
   */
  datatype Value =
    | Null
    | Bool(b: bool)
    | Int(i: int)
    | Str(s: string)
    | Day(date: Date)
    | List(items: seq<Value>)
    | Dict(entries: seq<(string, Value)>)

  type Entries = seq<(string, Value)>

  /** The exceptions a conversion can raise. */
  datatype PyError = TypeError | ValueError

  /**
   * What one pass of the script does with its output file: returns early
   * without writing it, writes it, or lets an exception escape (the run then
   * exits with status 1).
   */
  datatype Outcome<+T> = Skipped | Written(value: T) | Raised(error: PyError)

  /** Python truthiness: None, False, 0, "" and empty containers are false. */
  predicate Truthy(v: Value) {
    match v
    case Null => false
    case Bool(b) => b
    case Int(i) => i != 0
    case Str(s) => s != []
    case Day(_) => true
    case List(xs) => xs != []
    case Dict(es) => es != []
  }

  // ---------------------------------------------------------------------
  // dictionaries
  // ---------------------------------------------------------------------

  /** `key in d`. */
  predicate HasKey(es: Entries, key: string) {
    es != [] && (es[0].0 == key || HasKey(es[1..], key))
  }

  /** `d.get(key)`: the value of the first entry with that key, None when there is none. */
  function Get(es: Entries, key: string): (r: Value)
    ensures !HasKey(es, key) ==> r == Null
    ensures HasKey(es, key) ==> (key, r) in es
  {
    if es == [] then Null
    else if es[0].0 == key then es[0].1
    else Get(es[1..], key)
  }

  /** `setdefault` on one key leaves every other key alone. */
  lemma SetDefaultOther(es: Entries, key: string, v: Value, k: string)
    requires k != key
    ensures (HasKey(SetDefault(es, key, v), k) <==> HasKey(es, k)) && Get(SetDefault(es, key, v), k) == Get(es, k)
  {
  }

  /** `list(d.values())`. */
  function ValuesOf(es: Entries): (r: seq<Value>)
    ensures |r| == |es| && forall i :: 0 <= i < |es| ==> r[i] == es[i].1
  {
    seq(|es|, i requires 0 <= i < |es| => es[i].1)
  }

  /** `d.pop(key, None)` on a copy: the entries without `key`, order kept. */
  function RemoveKey(es: Entries, key: string): (r: Entries)
    ensures !HasKey(r, key)
    ensures !HasKey(es, key) ==> r == es
    ensures forall k :: k != key ==> (HasKey(r, k) <==> HasKey(es, k)) && Get(r, k) == Get(es, k)
  {
    if es == [] then []
    else if es[0].0 == key then RemoveKey(es[1..], key)
    else [es[0]] + RemoveKey(es[1..], key)
  }

  /** Appending an entry for a new key leaves every other lookup alone. */
  lemma {:induction false} GetAppend(es: Entries, key: string, v: Value, k: string)
    requires !HasKey(es, key)
    ensures HasKey(es + [(key, v)], k) <==> HasKey(es, k) || k == key
    ensures Get(es + [(key, v)], k) == if k == key then v else Get(es, k)
  {
    if es != [] {
      assert (es + [(key, v)])[1..] == es[1..] + [(key, v)];
      GetAppend(es[1..], key, v, k);
    }
  }

  /** `d.setdefault(key, v)` on a copy: appended at the end only when the key is absent. */
  function SetDefault(es: Entries, key: string, v: Value): (r: Entries)
    ensures HasKey(r, key)
    ensures Get(r, key) == if HasKey(es, key) then Get(es, key) else v
    ensures forall k :: k != key ==> (HasKey(r, k) <==> HasKey(es, k)) && Get(r, k) == Get(es, k)
    ensures HasKey(es, key) ==> r == es
    ensures !HasKey(es, key) ==> r == es + [(key, v)]
  {
    if HasKey(es, key) then es
    else
      var r := es + [(key, v)];
      GetAppend(es, key, v, key);
      forall k | k != key ensures (HasKey(r, k) <==> HasKey(es, k)) && Get(r, k) == Get(es, k) {
        GetAppend(es, key, v, k);
      }
      r
  }

  /** `min(a, b)`. */
  function Min(a: int, b: int): int { if a <= b then a else b }

  /** The dictionaries among `xs`, in order (what `if not isinstance(x, dict): continue` lets through). */
  function DictsOf(xs: seq<Value>): (r: seq<Entries>)
    ensures |r| <= |xs|
  {
    if xs == [] then []
    else
      var last := xs[|xs| - 1];
      DictsOf(xs[..|xs| - 1]) + (if last.Dict? then [last.entries] else [])
  }

  // ---------------------------------------------------------------------
  // `a or b or c`
  // ---------------------------------------------------------------------

  /** The position of the operand an `or` chain evaluates to. */
  function OrIndex(vs: seq<Value>): (k: nat)
    requires vs != []
    ensures k < |vs|
    ensures forall j :: 0 <= j < k ==> !Truthy(vs[j])
    ensures Truthy(vs[k]) || k == |vs| - 1
  {
    if |vs| == 1 || Truthy(vs[0]) then 0 else 1 + OrIndex(vs[1..])
  }

  /**
   * Python's `vs[0] or vs[1] or ...`: the first truthy operand, or the LAST
   * operand when none is truthy (which may itself be falsy, such as 0 or "").
   */
  function OrChain(vs: seq<Value>): (r: Value)
    requires vs != []
    ensures r in vs
    ensures (exists j :: 0 <= j < |vs| && Truthy(vs[j])) <==> Truthy(r)
    ensures !Truthy(r) ==> r == vs[|vs| - 1]
  {
    vs[OrIndex(vs)]
  }

  /** The `or` chain of `d.get(k)` over candidate keys `ks`, optionally ending in a default. */
  function GetFirst(es: Entries, ks: seq<string>): (r: seq<Value>)
    ensures |r| == |ks| && forall i :: 0 <= i < |ks| ==> r[i] == Get(es, ks[i])
  {
    seq(|ks|, i requires 0 <= i < |ks| => Get(es, ks[i]))
  }

  /** An `or` chain evaluates to operand `i` when it is truthy and every earlier one is falsy. */
  lemma {:induction false} OrChainPicks(vs: seq<Value>, i: nat)
    requires i < |vs| && Truthy(vs[i])
    requires forall j :: 0 <= j < i ==> !Truthy(vs[j])
    ensures OrChain(vs) == vs[i]
  {
  }

  /** `d.get(k1) or ... or d.get(kn) or ...` is the value of the first key holding a truthy one. */
  lemma {:induction false} FirstTruthyKey(es: Entries, ks: seq<string>, tail: seq<Value>, i: nat)
    requires i < |ks| && Truthy(Get(es, ks[i]))
    requires forall j :: 0 <= j < i ==> !Truthy(Get(es, ks[j]))
    ensures OrChain(GetFirst(es, ks) + tail) == Get(es, ks[i])
  {
    var vs := GetFirst(es, ks) + tail;
    assert vs[i] == Get(es, ks[i]);
    forall j | 0 <= j < i ensures !Truthy(vs[j]) {
      assert vs[j] == Get(es, ks[j]);
    }
    OrChainPicks(vs, i);
  }

  /** `d.get(k1) or ... or d.get(kn) or default` is the default when no key holds a truthy value. */
  lemma {:induction false} NoTruthyKey(es: Entries, ks: seq<string>, default: Value)
    requires forall j :: 0 <= j < |ks| ==> !Truthy(Get(es, ks[j]))
    ensures OrChain(GetFirst(es, ks) + [default]) == default
  {
  }

  // ---------------------------------------------------------------------
  // str(), repr(), int(), iteration
  // ---------------------------------------------------------------------

  /** `n` written with at least `width` digits, zero-padded on the left. */
  function PadZero(n: nat, width: nat): (r: string)
    ensures |r| >= width && forall i :: 0 <= i < |r| ==> IsDigit(r[i])
    decreases width
  {
    var s := NatToString(n);
    if |s| >= width then s else "0" + PadZero(n, width - 1)
  }

  /** `d.isoformat()` and `d.strftime("%Y-%m-%d")`, the year zero-padded to four digits. */
  function DateString(d: Date): string {
    PadZero(d.year, 4) + "-" + PadZero(d.month, 2) + "-" + PadZero(d.day, 2)
  }

  /** The backslash escapes `repr` writes for a character inside quotes `q`. */
  function EscapeChar(c: char, q: char): string {
    if c == '\\' then "\\\\"
    else if c == q then ['\\', q]
    else if c == '\n' then "\\n"
    else if c == '\r' then "\\r"
    else if c == '\t' then "\\t"
    else [c]
  }

  function EscapeString(s: string, q: char): string {
    if s == [] then [] else EscapeChar(s[0], q) + EscapeString(s[1..], q)
  }

  /** `repr(s)`: single quotes unless the text has a single quote and no double quote. */
  function QuoteString(s: string): string {
    var q := if '\'' in s && '"' !in s then '"' else '\'';
    [q] + EscapeString(s, q) + [q]
  }

  /** Python's `repr(v)`. */
  function Repr(v: Value): string {
    match v
    case Null => "None"
    case Bool(b) => if b then "True" else "False"
    case Int(i) => IntToString(i)
    case Str(s) => QuoteString(s)
    case Day(d) =>
      "datetime.date(" + IntToString(d.year) + ", " + IntToString(d.month) + ", " + IntToString(d.day) + ")"
    case List(items) =>
      "[" + Join(seq(|items|, i requires 0 <= i < |items| => Repr(items[i])), ", ") + "]"
    case Dict(es) =>
      "{" + Join(seq(|es|, i requires 0 <= i < |es| => QuoteString(es[i].0) + ": " + Repr(es[i].1)), ", ") + "}"
  }

  /** Python's `str(v)` (also what an f-string inserts). */
  function Display(v: Value): (r: string)
    ensures v.Str? ==> r == v.s
    ensures v.Int? ==> r == IntToString(v.i)
  {
    match v
    case Str(s) => s
    case Day(d) => DateString(d)
    case _ => Repr(v)
  }

  /** `isinstance(v, (int, float))`: booleans are integers in Python. */
  predicate IsNumber(v: Value) { v.Int? || v.Bool? }

  function NumberValue(v: Value): int
    requires IsNumber(v)
  {
    if v.Int? then v.i else if v.b then 1 else 0
  }

  /** Python's `int(v)`. */
  function PyInt(v: Value): (r: Result<int, PyError>)
    ensures IsNumber(v) ==> r == Ok(NumberValue(v))
    ensures r.Ok? ==> IsNumber(v) || (v.Str? && ParseInt(v.s) == Some(r.value))
    ensures r.Err? ==> (r.error == ValueError <==> v.Str?)
  {
    match v
    case Int(i) => Ok(i)
    case Bool(b) => Ok(if b then 1 else 0)
    case Str(s) => (match ParseInt(s) case Some(n) => Ok(n) case None => Err(ValueError))
    case _ => Err(TypeError)
  }

  /**
   * What `for x in v` visits: list items, dictionary keys, or the characters
   * of a string; None when `v` is not iterable (a TypeError).
   */
  function Iterate(v: Value): (r: Option<seq<Value>>)
    ensures v.List? ==> r == Some(v.items)
    ensures r.Some? && !v.List? ==> forall k :: 0 <= k < |r.value| ==> r.value[k].Str?
    ensures r.None? <==> !(v.List? || v.Dict? || v.Str?)
  {
    match v
    case List(items) => Some(items)
    case Dict(es) => Some(seq(|es|, i requires 0 <= i < |es| => Str(es[i].0)))
    case Str(s) => Some(seq(|s|, i requires 0 <= i < |s| => Str([s[i]])))
    case _ => None
  }
}
