/**
 * Studies: `update_studies` turns the Coursera export into a list of
 * `{title, percent}` records and keeps, from the UPSO export, the subjects
 * whose state says they are in progress, as `{nombre, estado}` records.
 * Both lists go into one `studies.yml` document.
 */
module Studies {
  import opened Wrappers
  import opened Text
  import opened Values

  const CourseNameKeys: seq<string> := ["name", "title", "course_name"]
  const UnnamedCourse := "Curso sin nombre"
  const CoursePercentKeys: seq<string> := ["percent", "progress"]
  const SubjectStateKeys: seq<string> := ["estado", "status"]
  const SubjectNameKeys: seq<string> := ["nombre", "name", "subject"]
  const UnnamedSubject := "Materia sin nombre"
  const InProgressWords: seq<string> := ["en curso", "cursando", "ongoing", "progreso"]

  // ---------------------------------------------------------------------
  // where the records are
  // ---------------------------------------------------------------------

  /**
   * Lines 280-286 (and 309-315 for UPSO with `keys`): what the loop walks.
   * A missing or falsy export walks nothing, a list walks its items, a
   * dictionary walks `d.get(k1) or ... or list(d.values())`, which raises a
   * TypeError when that value cannot be iterated; other values walk nothing.
   */
  function RecordsOf(data: Option<Value>, keys: seq<string>): (r: Result<seq<Value>, PyError>)
    ensures data.Some? && data.value.List? ==> r == Ok(data.value.items)
    ensures data.None? || !Truthy(data.value) ==> r == Ok([])
    ensures r.Err? ==> r.error == TypeError && data.Some? && data.value.Dict?
  {
    if data.None? || !Truthy(data.value) then Ok([])
    else match data.value
      case List(items) => Ok(items)
      case Dict(es) =>
        (match Iterate(OrChain(GetFirst(es, keys) + [List(ValuesOf(es))]))
         case Some(xs) => Ok(xs)
         case None => Err(TypeError))
      case _ => Ok([])
  }

  /** Lines 284 and 313: a dictionary walks the value of the first of `keys` that is truthy. */
  lemma {:induction false} RecordsFromKey(es: Entries, keys: seq<string>, i: nat)
    requires es != []
    requires i < |keys| && Truthy(Get(es, keys[i]))
    requires forall j :: 0 <= j < i ==> !Truthy(Get(es, keys[j]))
    ensures Iterate(Get(es, keys[i])).Some? ==> RecordsOf(Some(Dict(es)), keys) == Ok(Iterate(Get(es, keys[i])).value)
    ensures Iterate(Get(es, keys[i])).None? ==> RecordsOf(Some(Dict(es)), keys) == Err(TypeError)
  {
    FirstTruthyKey(es, keys, [List(ValuesOf(es))], i);
  }

  /** Lines 284 and 313: with none of `keys` truthy, a dictionary walks its values. */
  lemma {:induction false} RecordsFromValues(es: Entries, keys: seq<string>)
    requires forall j :: 0 <= j < |keys| ==> !Truthy(Get(es, keys[j]))
    ensures RecordsOf(Some(Dict(es)), keys) == Ok(ValuesOf(es))
  {
    NoTruthyKey(es, keys, List(ValuesOf(es)));
  }

  // ---------------------------------------------------------------------
  // Coursera
  // ---------------------------------------------------------------------

  /** Line 301: `int(pct) if pct else 0`, where `int` may raise. */
  function CoursePercent(pct: Value): (r: Result<int, PyError>)
    ensures !Truthy(pct) ==> r == Ok(0)
    ensures Truthy(pct) && IsNumber(pct) ==> r == Ok(NumberValue(pct))
    ensures pct.Str? && pct.s != [] ==> (r.Ok? <==> ParseInt(pct.s).Some?)
    ensures pct.Str? && pct.s != [] && r.Ok? ==> Some(r.value) == ParseInt(pct.s)
  {
    if Truthy(pct) then PyInt(pct) else Ok(0)
  }

  /** Lines 295-302: the record of one course, or the exception `int` raises. */
  function CourseItem(course: Entries): (r: Result<Value, PyError>)
    ensures r.Ok? ==> (r.value.Dict? && |r.value.entries| == 2
      && r.value.entries[0].0 == "title" && r.value.entries[0].1.Str?
      && r.value.entries[1].0 == "percent" && r.value.entries[1].1.Int?)
  {
    var name := OrChain(GetFirst(course, CourseNameKeys) + [Str(UnnamedCourse)]);
    var pct := OrChain(GetFirst(course, CoursePercentKeys) + [Int(0)]);
    match CoursePercent(pct)
    case Ok(n) => Ok(Dict([("title", Str(Display(name))), ("percent", Int(n))]))
    case Err(e) => Err(e)
  }

  /**
   * The list lines 281-294 build: one record per course dictionary, in
   * order, other items skipped; the first failing conversion ends it.
   */
  function CourseItems(courses: seq<Value>): Result<seq<Value>, PyError> {
    if courses == [] then Ok([])
    else
      var last := courses[|courses| - 1];
      match CourseItems(courses[..|courses| - 1])
      case Err(e) => Err(e)
      case Ok(items) =>
        if !last.Dict? then Ok(items)
        else match CourseItem(last.entries)
          case Ok(item) => Ok(items + [item])
          case Err(e) => Err(e)
  }

  /** The course list of the export. */
  method CourseraList(data: Option<Value>) returns (r: Result<seq<Value>, PyError>)
    ensures RecordsOf(data, ["courses"]).Err? ==> r == Err(RecordsOf(data, ["courses"]).error)
    ensures RecordsOf(data, ["courses"]).Ok? ==> r == CourseItems(RecordsOf(data, ["courses"]).value)
  {
    var found := RecordsOf(data, ["courses"]);
    if found.Err? {
      return Err(found.error);
    }
    r := CourseList(found.value);
  }

  /** Lines 288-303: the loop over the courses; a non-dictionary item is skipped. */
  method CourseList(courses: seq<Value>) returns (r: Result<seq<Value>, PyError>)
    ensures r == CourseItems(courses)
  {
    var list: seq<Value> := [];
    var i := 0;
    while i < |courses|
      invariant 0 <= i <= |courses|
      invariant CourseItems(courses[..i]) == Ok(list)
    {
      PrefixStep(courses, i);
      var course := courses[i];
      if course.Dict? {
        var item := CourseItem(course.entries);
        if item.Err? {
          ErrorPersists(courses, i + 1, item.error);
          return Err(item.error);
        }
        list := list + [item.value];
      }
      i := i + 1;
    }
    assert courses[..|courses|] == courses;
    return Ok(list);
  }

  /** Once a course fails, every longer prefix fails with the same exception. */
  lemma {:induction false} ErrorPersists(courses: seq<Value>, n: nat, e: PyError)
    requires n <= |courses| && CourseItems(courses[..n]) == Err(e)
    ensures CourseItems(courses) == Err(e)
    decreases |courses| - n
  {
    if n < |courses| {
      assert courses[..n + 1][..n] == courses[..n];
      ErrorPersists(courses, n + 1, e);
    } else {
      assert courses[..n] == courses;
    }
  }

  /**
   * The course list is made exactly when every course dictionary's percent
   * converts; it then holds one `{title, percent}` record per course
   * dictionary, each percent being the converted value.
   */
  lemma CourseItemsShape(courses: seq<Value>)
    ensures CourseItems(courses).Ok? <==>
      forall i :: 0 <= i < |courses| && courses[i].Dict? ==> CourseItem(courses[i].entries).Ok?
    ensures CourseItems(courses).Ok? ==>
      |CourseItems(courses).value| == |DictsOf(courses)| &&
      forall k :: 0 <= k < |DictsOf(courses)| ==> Some(CourseItems(courses).value[k]) == CourseOk(DictsOf(courses)[k])
  {
    CourseItemsOk(courses);
    CourseItemsMap(courses);
  }

  /** Every course dictionary converts. */
  predicate AllCoursesConvert(courses: seq<Value>) {
    forall i :: 0 <= i < |courses| && courses[i].Dict? ==> CourseItem(courses[i].entries).Ok?
  }

  /** The list is made exactly when every course dictionary converts. */
  lemma {:induction false} CourseItemsOk(courses: seq<Value>)
    ensures CourseItems(courses).Ok? <==> AllCoursesConvert(courses)
  {
    if courses != [] {
      var init := courses[..|courses| - 1];
      CourseItemsOk(init);
      ConvertSnoc(courses);
    }
  }

  /** Every course converts exactly when all but the last do and the last does. */
  lemma ConvertSnoc(courses: seq<Value>)
    requires courses != []
    ensures var last := courses[|courses| - 1];
      AllCoursesConvert(courses) <==>
      AllCoursesConvert(courses[..|courses| - 1]) && (last.Dict? ==> CourseItem(last.entries).Ok?)
  {
    var init := courses[..|courses| - 1];
    forall i | 0 <= i < |init| ensures init[i] == courses[i] { }
  }

  /** A made list holds the converted record of each course dictionary, in order. */
  lemma {:induction false} CourseItemsMap(courses: seq<Value>)
    ensures CourseItems(courses).Ok? ==>
      |CourseItems(courses).value| == |DictsOf(courses)| &&
      forall k :: 0 <= k < |DictsOf(courses)| ==> Some(CourseItems(courses).value[k]) == CourseOk(DictsOf(courses)[k])
  {
    if courses != [] && CourseItems(courses).Ok? {
      var init := courses[..|courses| - 1];
      var last := courses[|courses| - 1];
      CourseItemsMap(init);
      var items := CourseItems(init).value;
      var extra := if last.Dict? then [CourseItem(last.entries).value] else [];
      assert CourseItems(courses).value == items + extra;
      ConvertedAppend(items, DictsOf(init), extra, if last.Dict? then [last.entries] else []);
    }
  }

  /** Record lists that match course lists element-wise still do once both are extended by matching lists. */
  lemma ConvertedAppend(vs: seq<Value>, ds: seq<Entries>, vs2: seq<Value>, ds2: seq<Entries>)
    requires |vs| == |ds| && forall k :: 0 <= k < |vs| ==> Some(vs[k]) == CourseOk(ds[k])
    requires |vs2| == |ds2| && forall k :: 0 <= k < |vs2| ==> Some(vs2[k]) == CourseOk(ds2[k])
    ensures |vs + vs2| == |ds + ds2|
    ensures forall k :: 0 <= k < |vs + vs2| ==> Some((vs + vs2)[k]) == CourseOk((ds + ds2)[k])
  {
    forall k | 0 <= k < |vs + vs2| ensures Some((vs + vs2)[k]) == CourseOk((ds + ds2)[k]) {
      if k >= |vs| {
        assert (vs + vs2)[k] == vs2[k - |vs|];
        assert (ds + ds2)[k] == ds2[k - |vs|];
      }
    }
  }

  /** Line 295: the title is `str` of the first truthy of `name`, `title` and `course_name`. */
  lemma {:induction false} CourseTitleFromKey(course: Entries, i: nat)
    requires i < |CourseNameKeys| && Truthy(Get(course, CourseNameKeys[i]))
    requires forall j :: 0 <= j < i ==> !Truthy(Get(course, CourseNameKeys[j]))
    ensures CourseItem(course).Ok? ==> CourseItem(course).value.entries[0] == ("title", Str(Display(Get(course, CourseNameKeys[i]))))
  {
    FirstTruthyKey(course, CourseNameKeys, [Str(UnnamedCourse)], i);
  }

  /** Line 295: with none of them truthy the course is unnamed. */
  lemma {:induction false} CourseTitleDefault(course: Entries)
    requires forall j :: 0 <= j < |CourseNameKeys| ==> !Truthy(Get(course, CourseNameKeys[j]))
    ensures CourseItem(course).Ok? ==> CourseItem(course).value.entries[0] == ("title", Str(UnnamedCourse))
  {
    NoTruthyKey(course, CourseNameKeys, Str(UnnamedCourse));
  }

  /**
   * Lines 296 and 301: the first truthy of `percent` and `progress` goes
   * through `int`; the record has its value, or the course raises what `int` raises.
   */
  lemma {:induction false} CoursePercentFromKey(course: Entries, i: nat)
    requires i < |CoursePercentKeys| && Truthy(Get(course, CoursePercentKeys[i]))
    requires forall j :: 0 <= j < i ==> !Truthy(Get(course, CoursePercentKeys[j]))
    ensures PyInt(Get(course, CoursePercentKeys[i])).Ok? ==>
      CourseItem(course).Ok? && CourseItem(course).value.entries[1] == ("percent", Int(PyInt(Get(course, CoursePercentKeys[i])).value))
    ensures PyInt(Get(course, CoursePercentKeys[i])).Err? ==>
      CourseItem(course) == Err(PyInt(Get(course, CoursePercentKeys[i])).error)
  {
    FirstTruthyKey(course, CoursePercentKeys, [Int(0)], i);
  }

  /** Lines 296 and 301: a course without a truthy percent converts, with percent 0. */
  lemma {:induction false} CoursePercentMissing(course: Entries)
    requires forall j :: 0 <= j < |CoursePercentKeys| ==> !Truthy(Get(course, CoursePercentKeys[j]))
    ensures CourseItem(course).Ok? && CourseItem(course).value.entries[1] == ("percent", Int(0))
  {
    NoTruthyKey(course, CoursePercentKeys, Int(0));
  }

  /** The record of a course when it converts. */
  function CourseOk(course: Entries): Option<Value> {
    match CourseItem(course)
    case Ok(v) => Some(v)
    case Err(_) => None
  }

  /** A course whose percent is a numeric string gets that number; a missing percent gives 0. */
  lemma {:induction false} CoursePercentFromText(course: Entries, s: string, n: int)
    requires !Truthy(Get(course, "percent")) && Get(course, "progress") == Str(s) && ParseInt(s) == Some(n)
    ensures CourseItem(course).Ok? && CourseItem(course).value.entries[1] == ("percent", Int(n))
  {
    var vs := GetFirst(course, CoursePercentKeys) + [Int(0)];
    assert vs[0] == Get(course, "percent") && vs[1] == Str(s);
    assert OrIndex(vs) == 1;
  }

  // ---------------------------------------------------------------------
  // UPSO
  // ---------------------------------------------------------------------

  /**
   * Line 323: the state mentions one of the in-progress words. Python's
   * `lower()` is modelled on ASCII letters, which decides the same for
   * these ASCII words.
   */
  predicate InProgress(estado: string) {
    ContainsAny(AsciiLower(estado), InProgressWords)
  }

  /** `any(w in s for w in words)`. */
  predicate ContainsAny(s: string, words: seq<string>) {
    words != [] && (Contains(s, words[0]) || ContainsAny(s, words[1..]))
  }

  /** Line 321: the stripped state of a subject. */
  function SubjectState(mat: Entries): (r: string)
    ensures r == [] || (!IsSpace(r[0]) && !IsSpace(r[|r| - 1]))
  {
    Strip(Display(OrChain(GetFirst(mat, SubjectStateKeys) + [Str("")])))
  }

  /** Lines 324 and 328: the stripped name of a subject. */
  function SubjectName(mat: Entries): (r: string)
    ensures r == [] || (!IsSpace(r[0]) && !IsSpace(r[|r| - 1]))
  {
    Strip(Display(OrChain(GetFirst(mat, SubjectNameKeys) + [Str(UnnamedSubject)])))
  }

  /** Line 321: the state is the first truthy of `estado` and `status`, written with `str` and stripped. */
  lemma {:induction false} SubjectStateFromKey(mat: Entries, i: nat)
    requires i < |SubjectStateKeys| && Truthy(Get(mat, SubjectStateKeys[i]))
    requires forall j :: 0 <= j < i ==> !Truthy(Get(mat, SubjectStateKeys[j]))
    ensures SubjectState(mat) == Strip(Display(Get(mat, SubjectStateKeys[i])))
  {
    FirstTruthyKey(mat, SubjectStateKeys, [Str("")], i);
  }

  /** Line 321: with neither key truthy the state is empty. */
  lemma {:induction false} SubjectStateMissing(mat: Entries)
    requires forall j :: 0 <= j < |SubjectStateKeys| ==> !Truthy(Get(mat, SubjectStateKeys[j]))
    ensures SubjectState(mat) == ""
  {
    NoTruthyKey(mat, SubjectStateKeys, Str(""));
  }

  /** Lines 324 and 328: the name is the first truthy of `nombre`, `name` and `subject`, stripped. */
  lemma {:induction false} SubjectNameFromKey(mat: Entries, i: nat)
    requires i < |SubjectNameKeys| && Truthy(Get(mat, SubjectNameKeys[i]))
    requires forall j :: 0 <= j < i ==> !Truthy(Get(mat, SubjectNameKeys[j]))
    ensures SubjectName(mat) == Strip(Display(Get(mat, SubjectNameKeys[i])))
  {
    FirstTruthyKey(mat, SubjectNameKeys, [Str(UnnamedSubject)], i);
  }

  /** Lines 324 and 328: with none of them truthy the subject is unnamed. */
  lemma {:induction false} SubjectNameDefault(mat: Entries)
    requires forall j :: 0 <= j < |SubjectNameKeys| ==> !Truthy(Get(mat, SubjectNameKeys[j]))
    ensures SubjectName(mat) == UnnamedSubject
  {
    NoTruthyKey(mat, SubjectNameKeys, Str(UnnamedSubject));
    StripOfTrimmed(UnnamedSubject);
  }

  /** Lines 323-330: the record of a subject whose state is in progress. */
  function SubjectItem(mat: Entries): (r: Option<Value>)
    ensures r.Some? <==> InProgress(SubjectState(mat))
    ensures r.Some? ==> r.value == Dict([("nombre", Str(SubjectName(mat))), ("estado", Str(SubjectState(mat)))])
  {
    var estado := SubjectState(mat);
    if InProgress(estado) then Some(Dict([("nombre", Str(SubjectName(mat))), ("estado", Str(estado))]))
    else None
  }

  /** What one item of the subject list contributes: its record when it is a dictionary in progress. */
  function SubjectKept(mat: Value): seq<Value> {
    if mat.Dict? && SubjectItem(mat.entries).Some? then [SubjectItem(mat.entries).value] else []
  }

  /** The in-progress subject records lines 313-327 collect, in order. */
  function SubjectItems(materias: seq<Value>): seq<Value> {
    if materias == [] then []
    else
      var last := materias[|materias| - 1];
      SubjectItems(materias[..|materias| - 1]) +
        SubjectKept(last)
  }

  /** The in-progress subject list of the export. */
  method UpsoList(data: Option<Value>) returns (r: Result<seq<Value>, PyError>)
    ensures RecordsOf(data, ["materias", "subjects"]).Err? ==> r == Err(RecordsOf(data, ["materias", "subjects"]).error)
    ensures RecordsOf(data, ["materias", "subjects"]).Ok? ==> r == Ok(SubjectItems(RecordsOf(data, ["materias", "subjects"]).value))
  {
    var found := RecordsOf(data, ["materias", "subjects"]);
    if found.Err? {
      return Err(found.error);
    }
    var list := SubjectList(found.value);
    return Ok(list);
  }

  /** Lines 317-331: the loop over the subjects, keeping the dictionaries in progress. */
  method SubjectList(materias: seq<Value>) returns (list: seq<Value>)
    ensures list == SubjectItems(materias)
  {
    list := [];
    var i := 0;
    while i < |materias|
      invariant 0 <= i <= |materias|
      invariant list == SubjectItems(materias[..i])
    {
      var extra := KeptOf(materias[i]);
      SubjectStep(materias, i, list, extra);
      list := list + extra;
      i := i + 1;
    }
    assert materias[..|materias|] == materias;
  }

  /** Lines 318-331 for one subject: skip what is not a dictionary, keep it when it is in progress. */
  method KeptOf(mat: Value) returns (extra: seq<Value>)
    ensures extra == SubjectKept(mat)
  {
    extra := [];
    if mat.Dict? {
      var item := SubjectItem(mat.entries);
      if item.Some? {
        extra := [item.value];
      }
    }
  }

  /** The kept records of one more subject: `extra` is what that subject adds. */
  lemma SubjectStep(materias: seq<Value>, i: nat, list: seq<Value>, extra: seq<Value>)
    requires i < |materias| && list == SubjectItems(materias[..i])
    requires extra == SubjectKept(materias[i])
    ensures list + extra == SubjectItems(materias[..i + 1])
  {
    var p := materias[..i + 1];
    assert p[..|p| - 1] == materias[..i];
    assert p[|p| - 1] == materias[i];
  }

  /** Every kept record is `{nombre, estado}` with an in-progress, stripped state. */
  lemma {:induction false} SubjectItemsInProgress(materias: seq<Value>)
    ensures |SubjectItems(materias)| <= |materias|
    ensures forall k :: 0 <= k < |SubjectItems(materias)| ==> KeptRecord(SubjectItems(materias)[k])
  {
    if materias != [] {
      var init := materias[..|materias| - 1];
      var last := materias[|materias| - 1];
      SubjectItemsInProgress(init);
      var extra := SubjectKept(last);
      if extra != [] {
        KeptItem(last.entries);
      }
      KeptAppend(SubjectItems(init), extra);
      assert SubjectItems(materias) == SubjectItems(init) + extra;
    }
  }

  /** Kept records followed by at most one more kept record. */
  lemma KeptAppend(xs: seq<Value>, ys: seq<Value>)
    requires forall k :: 0 <= k < |xs| ==> KeptRecord(xs[k])
    requires |ys| <= 1 && (ys != [] ==> KeptRecord(ys[0]))
    ensures forall k :: 0 <= k < |xs + ys| ==> KeptRecord((xs + ys)[k])
  {
    forall k | 0 <= k < |xs + ys| ensures KeptRecord((xs + ys)[k]) {
      if k >= |xs| {
        assert (xs + ys)[k] == ys[0];
      }
    }
  }

  lemma KeptItem(mat: Entries)
    requires SubjectItem(mat).Some?
    ensures KeptRecord(SubjectItem(mat).value)
  {
  }

  /** A record the UPSO filter keeps. */
  predicate KeptRecord(v: Value) {
    v.Dict? && |v.entries| == 2 && v.entries[0].0 == "nombre" && v.entries[1].0 == "estado"
    && v.entries[1].1.Str? && InProgress(v.entries[1].1.s)
  }

  /** Subjects none of which is an in-progress dictionary give an empty list. */
  lemma {:induction false} SubjectItemsNoneInProgress(materias: seq<Value>)
    requires forall i :: 0 <= i < |materias| ==> !materias[i].Dict? || !InProgress(SubjectState(materias[i].entries))
    ensures SubjectItems(materias) == []
  {
    if materias != [] {
      var init := materias[..|materias| - 1];
      forall i | 0 <= i < |init| ensures !init[i].Dict? || !InProgress(SubjectState(init[i].entries)) {
        assert init[i] == materias[i];
      }
      SubjectItemsNoneInProgress(init);
    }
  }

  // ---------------------------------------------------------------------
  // update_studies
  // ---------------------------------------------------------------------

  /** The `studies.yml` document. */
  function StudiesDocument(coursera: seq<Value>, upso: seq<Value>): Value {
    Dict([("coursera", List(coursera)), ("upso", Dict([("en_curso", List(upso))]))])
  }

  /**
   * Python's `update_studies()` without the file reading and writing: the
   * document written, or the exception that ends the run (Coursera is read
   * first).
   */
  method UpdateStudies(coursera: Option<Value>, upso: Option<Value>) returns (r: Outcome<Value>)
    ensures var c := RecordsOf(coursera, ["courses"]);
      var cl := if c.Err? then Err(c.error) else CourseItems(c.value);
      var u := RecordsOf(upso, ["materias", "subjects"]);
      if cl.Err? then r == Raised(cl.error)
      else if u.Err? then r == Raised(u.error)
      else r == Written(StudiesDocument(cl.value, SubjectItems(u.value)))
  {
    var cl := CourseraList(coursera);
    if cl.Err? {
      return Raised(cl.error);
    }
    var ul := UpsoList(upso);
    if ul.Err? {
      return Raised(ul.error);
    }
    return Written(StudiesDocument(cl.value, ul.value));
  }
}
