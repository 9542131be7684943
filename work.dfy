/**
 * Work activity: `update_work_activity` counts commits per repository name
 * in the GitHub export with a `Counter` and writes the total number of
 * commits and the number of distinct repositories.
 */
module Work {
  import opened Wrappers
  import opened Text
  import opened Values

  const RepoKeys: seq<string> := ["repo", "repository", "repo_name", "name"]
  const EventKeys: seq<string> := ["events", "activity"]
  const CountKeys: seq<string> := ["commits", "count"]

  // ---------------------------------------------------------------------
  // the Counter
  // ---------------------------------------------------------------------

  /** A `Counter[str]`: counts by key, in insertion order. */
  type Counter = seq<(string, int)>

  function KeySet(c: Counter): set<string> {
    if c == [] then {} else {c[0].0} + KeySet(c[1..])
  }

  /** No key appears twice (as in any Python dictionary). */
  predicate UniqueKeys(c: Counter) {
    c == [] || (c[0].0 !in KeySet(c[1..]) && UniqueKeys(c[1..]))
  }

  /** `c[k]`: 0 for a missing key. */
  function CountOf(c: Counter, k: string): int {
    if c == [] then 0 else if c[0].0 == k then c[0].1 else CountOf(c[1..], k)
  }

  /** `sum(c.values())`. */
  function Sum(c: Counter): int {
    if c == [] then 0 else c[0].1 + Sum(c[1..])
  }

  /** `c[k] += n`. */
  function Increment(c: Counter, k: string, n: int): (r: Counter)
    requires UniqueKeys(c)
    ensures UniqueKeys(r)
    ensures KeySet(r) == KeySet(c) + {k}
    ensures |r| == |c| + (if k in KeySet(c) then 0 else 1)
    ensures CountOf(r, k) == CountOf(c, k) + n
    ensures forall j :: j != k ==> CountOf(r, j) == CountOf(c, j)
    ensures Sum(r) == Sum(c) + n
  {
    if c == [] then [(k, n)]
    else if c[0].0 == k then
      assert k !in KeySet(c[1..]);
      AbsentCountIsZero(c[1..], k);
      [(k, c[0].1 + n)] + c[1..]
    else
      var rest := Increment(c[1..], k, n);
      assert ([c[0]] + rest)[1..] == rest;
      [c[0]] + rest
  }

  lemma {:induction false} AbsentCountIsZero(c: Counter, k: string)
    requires k !in KeySet(c)
    ensures CountOf(c, k) == 0
  {
    if c != [] {
      AbsentCountIsZero(c[1..], k);
    }
  }

  /** `len(c)`: the number of distinct keys. */
  lemma {:induction false} CounterLength(c: Counter)
    requires UniqueKeys(c)
    ensures |c| == |KeySet(c)|
  {
    if c != [] {
      CounterLength(c[1..]);
    }
  }

  // ---------------------------------------------------------------------
  // events
  // ---------------------------------------------------------------------

  /**
   * Lines 350-360: the events of the export; None when nothing is written
   * (a missing file, JSON `null`, or an unrecognised value). A dictionary
   * gives `d.get("events") or d.get("activity") or list(d.values())`,
   * which raises a TypeError when it cannot be iterated.
   */
  function WorkEvents(data: Option<Value>): (r: Option<Result<seq<Value>, PyError>>)
    ensures r.Some? <==> data.Some? && (data.value.List? || data.value.Dict?)
    ensures data.Some? && data.value.List? ==> r == Some(Ok(data.value.items))
  {
    match data
    case Some(List(items)) => Some(Ok(items))
    case Some(Dict(es)) =>
      (match Iterate(OrChain(GetFirst(es, EventKeys) + [List(ValuesOf(es))]))
       case Some(xs) => Some(Ok(xs))
       case None => Some(Err(TypeError)))
    case _ => None
  }

  /** Line 355: a dictionary export walks the first truthy of `events` and `activity`. */
  lemma {:induction false} EventsFromKey(es: Entries, i: nat)
    requires i < |EventKeys| && Truthy(Get(es, EventKeys[i]))
    requires forall j :: 0 <= j < i ==> !Truthy(Get(es, EventKeys[j]))
    ensures Iterate(Get(es, EventKeys[i])).Some? ==> WorkEvents(Some(Dict(es))) == Some(Ok(Iterate(Get(es, EventKeys[i])).value))
    ensures Iterate(Get(es, EventKeys[i])).None? ==> WorkEvents(Some(Dict(es))) == Some(Err(TypeError))
  {
    FirstTruthyKey(es, EventKeys, [List(ValuesOf(es))], i);
  }

  /** Line 355: with neither key truthy, the values of the dictionary are the events. */
  lemma {:induction false} EventsFromValues(es: Entries)
    requires forall j :: 0 <= j < |EventKeys| ==> !Truthy(Get(es, EventKeys[j]))
    ensures WorkEvents(Some(Dict(es))) == Some(Ok(ValuesOf(es)))
  {
    NoTruthyKey(es, EventKeys, List(ValuesOf(es)));
  }

  /**
   * Lines 365-370: what one event adds: nothing unless it is a dictionary
   * whose first truthy name key holds a string; then the stripped name and
   * `int(commits or count or 1)`, which may raise.
   */
  function EventCommits(ev: Value): (r: Result<Option<(string, int)>, PyError>)
    ensures r.Ok? && r.value.Some? ==> ev.Dict? && Truthy(OrChain(GetFirst(ev.entries, RepoKeys)))
    ensures r.Ok? && r.value.Some? ==> OrChain(GetFirst(ev.entries, RepoKeys)).Str?
    ensures r.Ok? && r.value.Some? ==> r.value.value.0 == Strip(OrChain(GetFirst(ev.entries, RepoKeys)).s)
  {
    if !ev.Dict? then Ok(None)
    else
      var name := OrChain(GetFirst(ev.entries, RepoKeys));
      if !(Truthy(name) && name.Str?) then Ok(None)
      else match PyInt(OrChain(GetFirst(ev.entries, CountKeys) + [Int(1)]))
        case Ok(n) => Ok(Some((Strip(name.s), n)))
        case Err(e) => Err(e)
  }

  /** What one event adds, or the exception converting it raises. */
  type Added = Result<Option<(string, int)>, PyError>

  /** What every event adds, in order. */
  function Adds(events: seq<Value>): (r: seq<Added>)
    ensures |r| == |events| && forall i :: 0 <= i < |events| ==> r[i] == EventCommits(events[i])
  {
    seq(|events|, i requires 0 <= i < |events| => EventCommits(events[i]))
  }

  /** The counter after the additions, or the first exception raised. */
  function Tally(adds: seq<Added>): (r: Result<Counter, PyError>)
    ensures r.Ok? ==> UniqueKeys(r.value)
  {
    if adds == [] then Ok([])
    else
      match Tally(adds[..|adds| - 1])
      case Err(e) => Err(e)
      case Ok(c) =>
        match adds[|adds| - 1]
        case Err(e) => Err(e)
        case Ok(None) => Ok(c)
        case Ok(Some((k, n))) => Ok(Increment(c, k, n))
  }

  /** The names the additions count under. */
  function Names(adds: seq<Added>): set<string> {
    if adds == [] then {}
    else
      Names(adds[..|adds| - 1]) +
        (match adds[|adds| - 1] case Ok(Some((k, _))) => {k} case _ => {})
  }

  /** The commits the additions add up to. */
  function Total(adds: seq<Added>): int {
    if adds == [] then 0
    else
      Total(adds[..|adds| - 1]) +
        (match adds[|adds| - 1] case Ok(Some((_, n))) => n case _ => 0)
  }

  /**
   * Lines 362-373: the counter exists exactly when no event's conversion
   * raises; its total is the sum of what the counted events add and its
   * length the number of distinct stripped names.
   */
  lemma {:induction false} TallySummary(adds: seq<Added>)
    ensures Tally(adds).Ok? <==> forall i :: 0 <= i < |adds| ==> adds[i].Ok?
    ensures Tally(adds).Ok? ==> Sum(Tally(adds).value) == Total(adds)
    ensures Tally(adds).Ok? ==> |Tally(adds).value| == |Names(adds)|
  {
    TallyOk(adds);
    if Tally(adds).Ok? {
      TallySum(adds);
      TallyKeys(adds);
      CounterLength(Tally(adds).value);
    }
  }

  lemma {:induction false} TallyOk(adds: seq<Added>)
    ensures Tally(adds).Ok? <==> forall i :: 0 <= i < |adds| ==> adds[i].Ok?
  {
    if adds != [] {
      var init := adds[..|adds| - 1];
      TallyOk(init);
      assert forall i :: 0 <= i < |init| ==> init[i] == adds[i];
    }
  }

  lemma {:induction false} TallySum(adds: seq<Added>)
    requires Tally(adds).Ok?
    ensures Sum(Tally(adds).value) == Total(adds)
  {
    if adds != [] {
      var init := adds[..|adds| - 1];
      assert Tally(init).Ok?;
      TallySum(init);
    }
  }

  lemma {:induction false} TallyKeys(adds: seq<Added>)
    requires Tally(adds).Ok?
    ensures KeySet(Tally(adds).value) == Names(adds)
  {
    if adds != [] {
      TallyKeys(adds[..|adds| - 1]);
    }
  }

  /**
   * Lines 365-368: a non-dictionary adds nothing, and a dictionary whose
   * name chain is a non-empty string always adds (or raises).
   */
  lemma {:induction false} EventCounts(ev: Value)
    ensures !ev.Dict? ==> EventCommits(ev) == Ok(None)
    ensures ev.Dict? && Truthy(OrChain(GetFirst(ev.entries, RepoKeys))) && OrChain(GetFirst(ev.entries, RepoKeys)).Str? ==>
      EventCommits(ev).Err? || EventCommits(ev).value.Some?
  {
  }

  /** The first truthy of the name keys is `Get(ev, RepoKeys[i])` and a non-empty string. */
  predicate NamedAt(ev: Entries, i: nat) {
    i < |RepoKeys| && Get(ev, RepoKeys[i]).Str? && Get(ev, RepoKeys[i]).s != [] &&
    forall k :: 0 <= k < i ==> !Truthy(Get(ev, RepoKeys[k]))
  }

  /** Line 367: the name chain of an event named at key `i` is that key's value. */
  lemma {:induction false} EventNameFromKey(ev: Entries, i: nat)
    requires NamedAt(ev, i)
    ensures OrChain(GetFirst(ev, RepoKeys)) == Get(ev, RepoKeys[i])
  {
    assert GetFirst(ev, RepoKeys) + [] == GetFirst(ev, RepoKeys);
    FirstTruthyKey(ev, RepoKeys, [], i);
  }

  /**
   * Lines 367-370: an event named at key `i` adds `int()` of the first truthy
   * of `commits` and `count` under its stripped name, or raises what `int()` raises.
   */
  /** Lines 368-370 for a named event once both `or` chains are evaluated. */
  lemma EventCommitsOf(ev: Entries, name: Value, cnt: Value)
    requires OrChain(GetFirst(ev, RepoKeys)) == name && name.Str? && name.s != []
    requires OrChain(GetFirst(ev, CountKeys) + [Int(1)]) == cnt
    ensures PyInt(cnt).Ok? ==> EventCommits(Dict(ev)) == Ok(Some((Strip(name.s), PyInt(cnt).value)))
    ensures PyInt(cnt).Err? ==> EventCommits(Dict(ev)) == Err(PyInt(cnt).error)
  {
  }

  lemma {:induction false} EventCountFromKey(ev: Entries, i: nat, j: nat)
    requires NamedAt(ev, i)
    requires j < |CountKeys| && Truthy(Get(ev, CountKeys[j]))
    requires forall k :: 0 <= k < j ==> !Truthy(Get(ev, CountKeys[k]))
    ensures PyInt(Get(ev, CountKeys[j])).Ok? ==>
      EventCommits(Dict(ev)) == Ok(Some((Strip(Get(ev, RepoKeys[i]).s), PyInt(Get(ev, CountKeys[j])).value)))
    ensures PyInt(Get(ev, CountKeys[j])).Err? ==> EventCommits(Dict(ev)) == Err(PyInt(Get(ev, CountKeys[j])).error)
  {
    EventNameFromKey(ev, i);
    FirstTruthyKey(ev, CountKeys, [Int(1)], j);
    EventCommitsOf(ev, Get(ev, RepoKeys[i]), Get(ev, CountKeys[j]));
  }

  /** Line 369: an event named at any name key, without truthy `commits` or `count`, adds one commit. */
  lemma {:induction false} MissingCommitsCountOne(ev: Entries, i: nat)
    requires NamedAt(ev, i)
    requires forall k :: 0 <= k < |CountKeys| ==> !Truthy(Get(ev, CountKeys[k]))
    ensures EventCommits(Dict(ev)) == Ok(Some((Strip(Get(ev, RepoKeys[i]).s), 1)))
  {
    EventNameFromKey(ev, i);
    NoTruthyKey(ev, CountKeys, Int(1));
    EventCommitsOf(ev, Get(ev, RepoKeys[i]), Int(1));
  }

  /** Line 368: an event whose first truthy name key holds something other than a string adds nothing. */
  lemma {:induction false} EventNameNotString(ev: Entries, i: nat)
    requires i < |RepoKeys| && Truthy(Get(ev, RepoKeys[i])) && !Get(ev, RepoKeys[i]).Str?
    requires forall k :: 0 <= k < i ==> !Truthy(Get(ev, RepoKeys[k]))
    ensures EventCommits(Dict(ev)) == Ok(None)
  {
    assert GetFirst(ev, RepoKeys) + [] == GetFirst(ev, RepoKeys);
    FirstTruthyKey(ev, RepoKeys, [], i);
  }

  /** Line 368: an event with no truthy name key adds nothing. */
  lemma {:induction false} EventUnnamed(ev: Entries)
    requires forall k :: 0 <= k < |RepoKeys| ==> !Truthy(Get(ev, RepoKeys[k]))
    ensures EventCommits(Dict(ev)) == Ok(None)
  {
  }

  // ---------------------------------------------------------------------
  // update_work_activity
  // ---------------------------------------------------------------------

  /** The `work.yml` document. */
  function WorkDocument(commits: int, repos: int): Value {
    Dict([("commits", Int(commits)), ("repos", Int(repos))])
  }

  /** Python's `update_work_activity()` without the file reading and writing. */
  method UpdateWorkActivity(data: Option<Value>) returns (r: Outcome<Value>)
    ensures WorkEvents(data).None? ==> r == Skipped
    ensures WorkEvents(data).Some? && WorkEvents(data).value.Err? ==> r == Raised(TypeError)
    ensures WorkEvents(data).Some? && WorkEvents(data).value.Ok? ==>
      var adds := Adds(WorkEvents(data).value.value);
      (Tally(adds).Err? ==> r == Raised(Tally(adds).error)) &&
      (Tally(adds).Ok? ==> r == Written(WorkDocument(Total(adds), |Names(adds)|)))
  {
    var found := WorkEvents(data);
    if found.None? {
      return Skipped;
    }
    if found.value.Err? {
      return Raised(TypeError);
    }
    var events := found.value.value;
    var counted := TallyAdds(events);
    if counted.Err? {
      return Raised(counted.error);
    }
    TallySummary(Adds(events));
    return Written(WorkDocument(Sum(counted.value), |counted.value|));
  }

  /** Lines 362-370: the loop over the events, counting commits per repository until one raises. */
  method TallyAdds(events: seq<Value>) returns (r: Result<Counter, PyError>)
    ensures r == Tally(Adds(events))
  {
    ghost var adds := Adds(events);
    var counter: Counter := [];
    var i := 0;
    while i < |events|
      invariant 0 <= i <= |events|
      invariant Tally(adds[..i]) == Ok(counter)
    {
      PrefixStep(adds, i);
      var added := EventCommits(events[i]);
      if added.Err? {
        TallyErrorPersists(adds, i + 1, added.error);
        return Err(added.error);
      }
      if added.value.Some? {
        var (name, n) := added.value.value;
        counter := Increment(counter, name, n);
      }
      i := i + 1;
    }
    assert adds[..|events|] == adds;
    return Ok(counter);
  }

  /** Once an event raises, the whole tally raises the same exception. */
  lemma {:induction false} TallyErrorPersists(adds: seq<Added>, n: nat, e: PyError)
    requires n <= |adds| && Tally(adds[..n]) == Err(e)
    ensures Tally(adds) == Err(e)
    decreases |adds| - n
  {
    if n < |adds| {
      assert adds[..n + 1][..n] == adds[..n];
      TallyErrorPersists(adds, n + 1, e);
    } else {
      assert adds[..n] == adds;
    }
  }

  /** An event `{"repo": a, "commits": m}` with a trimmed name adds `m` to `a`. */
  lemma NamedEvent(a: string, m: int)
    requires a != [] && !IsSpace(a[0]) && !IsSpace(a[|a| - 1]) && m != 0
    ensures EventCommits(Dict([("repo", Str(a)), ("commits", Int(m))])) == Ok(Some((a, m)))
  {
    var es := [("repo", Str(a)), ("commits", Int(m))];
    StripOfTrimmed(a);
    assert Get(es, "repo") == Str(a);
    assert Get(es, "commits") == Int(m);
    assert OrIndex(GetFirst(es, RepoKeys)) == 0;
    assert OrIndex(GetFirst(es, ["commits", "count"]) + [Int(1)]) == 0;
  }

  /**
   * Lines 362-379 on `[{repo: a, commits: m}, {repo: a, commits: n}, {repo: b}]`:
   * m + n + 1 commits in 2 repositories (3 + 2 + 1 = 6 in the usual example).
   */
  lemma WorkExample(a: string, b: string, m: int, n: int)
    requires a != [] && !IsSpace(a[0]) && !IsSpace(a[|a| - 1])
    requires b != [] && !IsSpace(b[0]) && !IsSpace(b[|b| - 1])
    requires a != b && m != 0 && n != 0
    ensures var events := [
        Dict([("repo", Str(a)), ("commits", Int(m))]),
        Dict([("repo", Str(a)), ("commits", Int(n))]),
        Dict([("repo", Str(b))])];
      var adds := Adds(events);
      Tally(adds).Ok? && Total(adds) == m + n + 1 && |Names(adds)| == 2
  {
    var e0 := Dict([("repo", Str(a)), ("commits", Int(m))]);
    var e1 := Dict([("repo", Str(a)), ("commits", Int(n))]);
    var e2 := Dict([("repo", Str(b))]);
    var events := [e0, e1, e2];
    NamedEvent(a, m);
    NamedEvent(a, n);
    BareEvent(b);
    AddsOfEvents(e0, e1, e2, Ok(Some((a, m))), Ok(Some((a, n))), Ok(Some((b, 1))));
    ThreeAdds(a, b, m, n);
  }

  /** What three events add, given what each one adds. */
  lemma AddsOfEvents(e0: Value, e1: Value, e2: Value, r0: Added, r1: Added, r2: Added)
    requires EventCommits(e0) == r0 && EventCommits(e1) == r1 && EventCommits(e2) == r2
    ensures Adds([e0, e1, e2]) == [r0, r1, r2]
  {
    var events := [e0, e1, e2];
    var adds := [r0, r1, r2];
    forall i | 0 <= i < |events| ensures adds[i] == EventCommits(events[i]) {
      if i == 0 {
        assert adds[i] == r0 && events[i] == e0;
      } else if i == 1 {
        assert adds[i] == r1 && events[i] == e1;
      } else {
        assert adds[i] == r2 && events[i] == e2;
      }
    }
    AddsEq(events, adds);
  }

  /** A list of additions matching the events one by one is what they add. */
  lemma AddsEq(events: seq<Value>, adds: seq<Added>)
    requires |adds| == |events| && forall i :: 0 <= i < |events| ==> adds[i] == EventCommits(events[i])
    ensures Adds(events) == adds
  {
  }

  lemma ThreeAdds(a: string, b: string, m: int, n: int)
    requires a != b
    ensures var adds: seq<Added> := [Ok(Some((a, m))), Ok(Some((a, n))), Ok(Some((b, 1)))];
      Tally(adds).Ok? && Total(adds) == m + n + 1 && |Names(adds)| == 2
  {
    var adds: seq<Added> := [Ok(Some((a, m))), Ok(Some((a, n))), Ok(Some((b, 1)))];
    var a1 := adds[..1];
    var a2 := adds[..2];
    assert a1[..0] == [] && a2[..1] == a1 && adds[..2] == a2;
    assert a1[0] == Ok(Some((a, m))) && a2[1] == Ok(Some((a, n))) && adds[2] == Ok(Some((b, 1)));
    assert Names(a1) == {} + {a} && Total(a1) == m;
    assert Names(a2) == {} + {a} + {a} && Total(a2) == m + n;
    TallyOk(adds);
    assert Names(adds) == {} + {a} + {a} + {b};
    TwoNames(a, b);
  }

  lemma TwoNames(a: string, b: string)
    requires a != b
    ensures |{} + {a} + {a} + {b}| == 2
  {
    assert {} + {a} + {a} + {b} == {a, b};
  }

  /** An event `{"repo": b}` with a trimmed name adds one commit to `b`. */
  lemma BareEvent(b: string)
    requires b != [] && !IsSpace(b[0]) && !IsSpace(b[|b| - 1])
    ensures EventCommits(Dict([("repo", Str(b))])) == Ok(Some((b, 1)))
  {
    var es := [("repo", Str(b))];
    StripOfTrimmed(b);
    assert Get(es, "repo") == Str(b);
    assert Get(es, "commits") == Null && Get(es, "count") == Null;
    MissingCommitsCountOne(es, 0);
  }

}

