/**
 * Publishing Obsidian notes: `update_logs_from_obsidian` copies every note
 * whose header says `status: publicar` into the logs directory under
 * `{date}-{slug}.md`, with a normalised header, and then deletes every
 * `.md` file of that directory it did not write in this run.
 */
module Logs {
  import opened Wrappers
  import opened Text
  import opened Values
  import opened Slug
  import opened FrontMatter

  const PublishStatus := "publicar"
  const PostLayout := "post"
  const LogSuffix := ".md"

  /** A note found under the notes directory: its stem, its text (None when it cannot be read) and its modification date. */
  datatype NoteFile = NoteFile(stem: string, content: Option<string>, modified: Date)

  /**
   * The standard library's date parsers, which are not part of this model:
   * `datetime.fromisoformat(s).date()` and `strptime(s, "%Y-%m-%d").date()`,
   * None where they raise.
   */
  datatype Dates = Dates(fromIso: string -> Option<Date>, ymd: string -> Option<Date>)

  /** A file to write: its name inside the logs directory and its text. */
  datatype Post = Post(filename: string, content: string)

  // ---------------------------------------------------------------------
  // one note
  // ---------------------------------------------------------------------

  /** Lines 162-174: `ensure_date(value, fallback)`. */
  function EnsureDate(dates: Dates, v: Value, fallback: Date): Date {
    match v
    case Day(d) => d
    case Str(s) =>
      (match dates.fromIso(s)
       case Some(d) => d
       case None =>
         (match dates.ymd(s[..Min(|s|, 10)])
          case Some(d) => d
          case None => fallback))
    case _ => fallback
  }

  /**
   * Lines 162-175: a date is kept; a string is read as an ISO date and time,
   * else its first ten characters as `%Y-%m-%d`; anything else, or a
   * string neither parser accepts, gives the fallback.
   */
  lemma {:induction false} EnsureDateOutcomes(dates: Dates, v: Value, fallback: Date)
    ensures v.Day? ==> EnsureDate(dates, v, fallback) == v.date
    ensures v.Str? && dates.fromIso(v.s).Some? ==> EnsureDate(dates, v, fallback) == dates.fromIso(v.s).value
    ensures v.Str? && dates.fromIso(v.s).None? && |v.s| <= 10 && dates.ymd(v.s).Some? ==>
      EnsureDate(dates, v, fallback) == dates.ymd(v.s).value
    ensures v.Str? && dates.fromIso(v.s).None? && |v.s| > 10 && dates.ymd(v.s[..10]).Some? ==>
      EnsureDate(dates, v, fallback) == dates.ymd(v.s[..10]).value
    ensures v.Str? && dates.fromIso(v.s).None? && dates.ymd(v.s[..Min(|v.s|, 10)]).None? ==> EnsureDate(dates, v, fallback) == fallback
    ensures !v.Day? && !v.Str? ==> EnsureDate(dates, v, fallback) == fallback
  {
    if v.Str? && |v.s| <= 10 {
      assert v.s[..Min(|v.s|, 10)] == v.s;
    }
  }

  /** Line 477: `str(status or estado or "").strip().lower()`. */
  function Status(fm: Entries): string {
    AsciiLower(Strip(Display(OrChain(GetFirst(fm, ["status", "estado"]) + [Str("")]))))
  }

  /** Line 481: `title or nombre or titulo or note_path.stem`. */
  function NoteTitle(fm: Entries, stem: string): Value {
    OrChain(GetFirst(fm, ["title", "nombre", "titulo"]) + [Str(stem)])
  }

  /** Line 482: `fm.get("slug") or slugify(str(title))`. */
  function NoteSlug(fm: Entries, stem: string): Value {
    OrChain([Get(fm, "slug"), Str(Slugify(Display(NoteTitle(fm, stem)), MaxLength))])
  }

  /** Lines 483-487: the note's date, falling back on its modification date. */
  function NoteDate(dates: Dates, fm: Entries, modified: Date): Date {
    EnsureDate(dates, OrChain(GetFirst(fm, ["date", "fecha", "created", "created_at"])), modified)
  }

  /** Lines 489-493: the header without `status`, with `date`, `slug` and `layout` added when absent. */
  function PostHeader(fm: Entries, dateStr: string, slug: Value): Entries {
    SetDefault(SetDefault(SetDefault(RemoveKey(fm, "status"), "date", Str(dateStr)), "slug", slug), "layout", Str(PostLayout))
  }

  /** Line 496: `f"{date_str}-{slug}.md"`. */
  function PostFilename(dateStr: string, slug: Value): string {
    dateStr + "-" + Display(slug) + LogSuffix
  }

  /** Lines 481-496: the file a published note becomes. */
  function PublishNote(y: Yaml, dates: Dates, fm: Entries, body: string, note: NoteFile): Post {
    var slug := NoteSlug(fm, note.stem);
    var dateStr := DateString(NoteDate(dates, fm, note.modified));
    Post(PostFilename(dateStr, slug), BuildFrontMatter(y, PostHeader(fm, dateStr, slug)) + TrimStart(body, IsNewline))
  }

  /** Lines 466-496: what one note contributes, None when it is skipped. */
  function PlanNote(y: Yaml, dates: Dates, note: NoteFile): Option<Post> {
    match note.content
    case None => None
    case Some(c) =>
      var parsed := ParseFrontMatter(y, c);
      match parsed.header
      case None => None
      case Some(fm) => if Status(fm) == PublishStatus then Some(PublishNote(y, dates, fm, parsed.body, note)) else None
  }

  // ---------------------------------------------------------------------
  // the logs directory
  // ---------------------------------------------------------------------

  /** The logs directory: file name to text. */
  class LogsDir {
    var files: map<string, string>

    /** `safe_write_text(content, dir / name)`. */
    method Write(name: string, content: string)
      modifies this
      ensures files == old(files)[name := content]
    {
      files := files[name := content];
    }

    /** `(dir / name).unlink()`. */
    method Delete(name: string)
      modifies this
      ensures files == old(files) - {name}
    {
      files := files - {name};
    }
  }

  /** What `glob("*.md")` matches: a file of the directory itself whose name ends in `.md`. */
  predicate IsLogName(name: string) {
    EndsWith(name, LogSuffix) && '/' !in name
  }

  /** What every note contributes, in order. */
  function Plans(y: Yaml, dates: Dates, notes: seq<NoteFile>): (r: seq<Option<Post>>)
    ensures |r| == |notes| && forall i :: 0 <= i < |notes| ==> r[i] == PlanNote(y, dates, notes[i])
  {
    seq(|notes|, i requires 0 <= i < |notes| => PlanNote(y, dates, notes[i]))
  }

  /** The directory after writing the planned posts in order. */
  function WriteAll(files: map<string, string>, plans: seq<Option<Post>>): map<string, string> {
    if plans == [] then files
    else
      var w := WriteAll(files, plans[..|plans| - 1]);
      match plans[|plans| - 1]
      case None => w
      case Some(p) => w[p.filename := p.content]
  }

  /** `published_dest_files`: the names written. */
  function Published(plans: seq<Option<Post>>): set<string> {
    if plans == [] then {}
    else
      Published(plans[..|plans| - 1]) +
        (match plans[|plans| - 1] case Some(p) => {p.filename} case None => {})
  }

  /** Lines 502-503: the `.md` files of the directory not written in this run. */
  function Orphans(files: map<string, string>, written: set<string>): set<string> {
    (set k | k in files && IsLogName(k)) - written
  }

  /** The directory after the whole run. */
  function Synced(files: map<string, string>, plans: seq<Option<Post>>): map<string, string> {
    var w := WriteAll(files, plans);
    w - Orphans(w, Published(plans))
  }

  /** Python's `update_logs_from_obsidian()`; `notes` is None when the notes directory does not exist. */
  method UpdateLogsFromObsidian(dir: LogsDir, y: Yaml, dates: Dates, notes: Option<seq<NoteFile>>)
    modifies dir
    ensures notes.None? ==> dir.files == old(dir.files)
    ensures notes.Some? ==> dir.files == Synced(old(dir.files), Plans(y, dates, notes.value))
  {
    if notes.None? {
      return;
    }
    var plans := Plans(y, dates, notes.value);
    var published := WritePosts(dir, plans);
    var existing := set k | k in dir.files && IsLogName(k);
    var orphans := existing - published;
    assert orphans == Orphans(dir.files, published);
    RemoveOrphans(dir, orphans);
  }

  /** Lines 465-500: every planned post written in turn; returns the names written. */
  method WritePosts(dir: LogsDir, plans: seq<Option<Post>>) returns (published: set<string>)
    modifies dir
    ensures dir.files == WriteAll(old(dir.files), plans)
    ensures published == Published(plans)
  {
    published := {};
    var i := 0;
    while i < |plans|
      invariant 0 <= i <= |plans|
      invariant dir.files == WriteAll(old(dir.files), plans[..i])
      invariant published == Published(plans[..i])
    {
      var plan := plans[i];
      WriteStep(old(dir.files), plans, i);
      if plan.Some? {
        dir.Write(plan.value.filename, plan.value.content);
        published := published + {plan.value.filename};
      }
      i := i + 1;
    }
    assert plans[..|plans|] == plans;
  }

  lemma {:induction false} WriteStep(start: map<string, string>, plans: seq<Option<Post>>, i: nat)
    requires i < |plans|
    ensures WriteAll(start, plans[..i + 1]) ==
      match plans[i] case None => WriteAll(start, plans[..i]) case Some(p) => WriteAll(start, plans[..i])[p.filename := p.content]
    ensures Published(plans[..i + 1]) ==
      Published(plans[..i]) + match plans[i] case None => {} case Some(p) => {p.filename}
  {
    assert plans[..i + 1][..i] == plans[..i] && plans[..i + 1][i] == plans[i];
  }

  /** Lines 504-509: every orphan is unlinked, in whatever order. */
  method RemoveOrphans(dir: LogsDir, orphans: set<string>)
    modifies dir
    ensures dir.files == old(dir.files) - orphans
  {
    var left := orphans;
    ghost var removed: set<string> := {};
    while left != {}
      invariant removed !! left && removed + left == orphans
      invariant dir.files == old(dir.files) - removed
      decreases |left|
    {
      var o :| o in left;
      dir.Delete(o);
      removed := removed + {o};
      left := left - {o};
    }
  }

  // ---------------------------------------------------------------------
  // properties
  // ---------------------------------------------------------------------

  /**
   * Lines 474-479: a note is published exactly when it can be read, has a
   * header, and its status, stripped and lower-cased, is `publicar`.
   */
  lemma PublishedIff(y: Yaml, dates: Dates, note: NoteFile)
    ensures PlanNote(y, dates, note).Some? <==>
      note.content.Some? && ParseFrontMatter(y, note.content.value).header.Some? &&
      Status(ParseFrontMatter(y, note.content.value).header.value) == PublishStatus
  {
  }

  /**
   * Lines 489-493: the output header drops `status`, keeps every other key
   * of the note's header, and adds `date`, `slug` and `layout` only when the
   * note does not have them.
   */
  lemma {:induction false} PostHeaderKeys(fm: Entries, dateStr: string, slug: Value)
    ensures !HasKey(PostHeader(fm, dateStr, slug), "status")
    ensures forall k :: k != "status" && k != "date" && k != "slug" && k != "layout" ==>
      (HasKey(PostHeader(fm, dateStr, slug), k) <==> HasKey(fm, k)) && Get(PostHeader(fm, dateStr, slug), k) == Get(fm, k)
    ensures Get(PostHeader(fm, dateStr, slug), "date") == if HasKey(fm, "date") then Get(fm, "date") else Str(dateStr)
    ensures Get(PostHeader(fm, dateStr, slug), "slug") == if HasKey(fm, "slug") then Get(fm, "slug") else slug
    ensures Get(PostHeader(fm, dateStr, slug), "layout") == if HasKey(fm, "layout") then Get(fm, "layout") else Str(PostLayout)
  {
    PostHeaderKeeps(fm, dateStr, slug);
    PostHeaderDefaults(fm, dateStr, slug);
  }

  /** The keys other than the defaulted ones: `status` is gone, the rest is the note's. */
  lemma {:induction false} PostHeaderKeeps(fm: Entries, dateStr: string, slug: Value)
    ensures !HasKey(PostHeader(fm, dateStr, slug), "status")
    ensures forall k :: k != "status" && k != "date" && k != "slug" && k != "layout" ==>
      (HasKey(PostHeader(fm, dateStr, slug), k) <==> HasKey(fm, k)) && Get(PostHeader(fm, dateStr, slug), k) == Get(fm, k)
  {
    StatusDropped(fm, dateStr, slug);
    forall k | k != "status" && k != "date" && k != "slug" && k != "layout"
      ensures (HasKey(PostHeader(fm, dateStr, slug), k) <==> HasKey(fm, k)) && Get(PostHeader(fm, dateStr, slug), k) == Get(fm, k)
    {
      PostHeaderKeepsAt(fm, dateStr, slug, k);
    }
  }

  /** One key other than the defaulted ones. */
  lemma {:induction false} PostHeaderKeepsAt(fm: Entries, dateStr: string, slug: Value, k: string)
    requires k != "status" && k != "date" && k != "slug" && k != "layout"
    ensures (HasKey(PostHeader(fm, dateStr, slug), k) <==> HasKey(fm, k)) && Get(PostHeader(fm, dateStr, slug), k) == Get(fm, k)
  {
    var r0 := RemoveKey(fm, "status");
    var r1 := SetDefault(r0, "date", Str(dateStr));
    var r2 := SetDefault(r1, "slug", slug);
    var r3 := SetDefault(r2, "layout", Str(PostLayout));
    assert (HasKey(r0, k) <==> HasKey(fm, k)) && Get(r0, k) == Get(fm, k);
    assert (HasKey(r1, k) <==> HasKey(r0, k)) && Get(r1, k) == Get(r0, k);
    assert (HasKey(r2, k) <==> HasKey(r1, k)) && Get(r2, k) == Get(r1, k);
    assert (HasKey(r3, k) <==> HasKey(r2, k)) && Get(r3, k) == Get(r2, k);
  }

  /** The keys the header rewrite touches are four different keys. */
  lemma DistinctKeys()
    ensures "status" != "date" && "status" != "slug" && "status" != "layout"
    ensures "date" != "slug" && "date" != "layout" && "slug" != "layout"
  {
    assert "status"[0] != "layout"[0] && "date"[0] != "slug"[0];
    assert |"status"| != |"date"| && |"status"| != |"slug"| && |"date"| != |"layout"| && |"slug"| != |"layout"|;
  }

  /** `status` is gone. */
  lemma {:induction false} StatusDropped(fm: Entries, dateStr: string, slug: Value)
    ensures !HasKey(PostHeader(fm, dateStr, slug), "status")
  {
    var r0 := RemoveKey(fm, "status");
    var r1 := SetDefault(r0, "date", Str(dateStr));
    var r2 := SetDefault(r1, "slug", slug);
    var r3 := SetDefault(r2, "layout", Str(PostLayout));
    DistinctKeys();
    SetDefaultOther(r0, "date", Str(dateStr), "status");
    SetDefaultOther(r1, "slug", slug, "status");
    SetDefaultOther(r2, "layout", Str(PostLayout), "status");
  }

  /** The defaulted keys: the note's value when it has one, the default otherwise. */
  lemma {:induction false} PostHeaderDefaults(fm: Entries, dateStr: string, slug: Value)
    ensures Get(PostHeader(fm, dateStr, slug), "date") == if HasKey(fm, "date") then Get(fm, "date") else Str(dateStr)
    ensures Get(PostHeader(fm, dateStr, slug), "slug") == if HasKey(fm, "slug") then Get(fm, "slug") else slug
    ensures Get(PostHeader(fm, dateStr, slug), "layout") == if HasKey(fm, "layout") then Get(fm, "layout") else Str(PostLayout)
  {
    var r0 := RemoveKey(fm, "status");
    var r1 := SetDefault(r0, "date", Str(dateStr));
    var r2 := SetDefault(r1, "slug", slug);
    var r3 := SetDefault(r2, "layout", Str(PostLayout));
    DistinctKeys();
    assert (HasKey(r0, "date") <==> HasKey(fm, "date")) && Get(r0, "date") == Get(fm, "date");
    assert Get(r1, "date") == if HasKey(r0, "date") then Get(r0, "date") else Str(dateStr);
    assert Get(r2, "date") == Get(r1, "date") && Get(r3, "date") == Get(r2, "date");
    assert (HasKey(r0, "slug") <==> HasKey(fm, "slug")) && Get(r0, "slug") == Get(fm, "slug");
    assert (HasKey(r1, "slug") <==> HasKey(r0, "slug")) && Get(r1, "slug") == Get(r0, "slug");
    assert Get(r2, "slug") == if HasKey(r1, "slug") then Get(r1, "slug") else slug;
    assert Get(r3, "slug") == Get(r2, "slug");
    assert (HasKey(r0, "layout") <==> HasKey(fm, "layout")) && Get(r0, "layout") == Get(fm, "layout");
    assert (HasKey(r1, "layout") <==> HasKey(r0, "layout")) && Get(r1, "layout") == Get(r0, "layout");
    assert (HasKey(r2, "layout") <==> HasKey(r1, "layout")) && Get(r2, "layout") == Get(r1, "layout");
    assert Get(r3, "layout") == if HasKey(r2, "layout") then Get(r2, "layout") else Str(PostLayout);
  }

  /** Line 496: every post is named `{date}-{slug}.md`, inside the directory unless the slug has a `/`. */
  lemma PostFilenameShape(dateStr: string, slug: Value)
    ensures StartsWith(PostFilename(dateStr, slug), dateStr + "-") && EndsWith(PostFilename(dateStr, slug), LogSuffix)
    ensures '/' !in dateStr && '/' !in Display(slug) ==> IsLogName(PostFilename(dateStr, slug))
  {
    var f := PostFilename(dateStr, slug);
    assert f == (dateStr + "-") + (Display(slug) + LogSuffix);
    assert f[..|dateStr + "-"|] == dateStr + "-";
    assert f[|f| - |LogSuffix|..] == LogSuffix;
  }

  /**
   * A written post reads back with the header it was given, when the YAML
   * dump and load of that header round-trip, and with the body less its
   * leading newlines.
   */
  lemma {:induction false} PostParsesBack(y: Yaml, dates: Dates, fm: Entries, body: string, note: NoteFile)
    requires var h := PostHeader(fm, DateString(NoteDate(dates, fm, note.modified)), NoteSlug(fm, note.stem));
      Frameable(y.dump(h)) && y.load(Chomp(y.dump(h))) == Some(Dict(h))
    ensures var h := PostHeader(fm, DateString(NoteDate(dates, fm, note.modified)), NoteSlug(fm, note.stem));
      ParseFrontMatter(y, PublishNote(y, dates, fm, body, note).content) == Note(Some(h), TrimStart(body, IsNewline))
  {
    var h := PostHeader(fm, DateString(NoteDate(dates, fm, note.modified)), NoteSlug(fm, note.stem));
    BuildThenParse(y, h, TrimStart(body, IsNewline));
  }

  /** Writing leaves alone every file no plan names, and creates every file some plan names. */
  lemma {:induction false} WriteAllKeys(files: map<string, string>, plans: seq<Option<Post>>)
    ensures WriteAll(files, plans).Keys == files.Keys + Published(plans)
    ensures forall k :: k in files && k !in Published(plans) ==> WriteAll(files, plans)[k] == files[k]
  {
    if plans != [] {
      WriteAllKeys(files, plans[..|plans| - 1]);
    }
  }

  /** The text of a written file depends only on the plans, not on what was there before. */
  lemma {:induction false} WriteAllOverwrites(f: map<string, string>, g: map<string, string>, plans: seq<Option<Post>>, k: string)
    requires k in Published(plans)
    ensures k in WriteAll(f, plans) && k in WriteAll(g, plans)
    ensures WriteAll(f, plans)[k] == WriteAll(g, plans)[k]
  {
    var init := plans[..|plans| - 1];
    WriteAllKeys(f, plans);
    WriteAllKeys(g, plans);
    match plans[|plans| - 1]
    case Some(p) =>
      if k != p.filename {
        WriteAllOverwrites(f, g, init, k);
      }
    case None =>
      WriteAllOverwrites(f, g, init, k);
  }

  /**
   * Lines 463, 499 and 502-509: after the run the `.md` files of the
   * directory are exactly the files written in this run; each of those and
   * every other file keeps what the run wrote or what it held before.
   */
  lemma {:induction false} SyncedFiles(files: map<string, string>, plans: seq<Option<Post>>)
    ensures forall k :: IsLogName(k) ==> (k in Synced(files, plans) <==> k in Published(plans))
    ensures Published(plans) <= Synced(files, plans).Keys
    ensures forall k :: !IsLogName(k) && k !in Published(plans) ==>
      (k in Synced(files, plans) <==> k in files) && (k in files ==> Synced(files, plans)[k] == files[k])
  {
    WriteAllKeys(files, plans);
  }

  /** Running the sync a second time on the same notes changes nothing. */
  lemma SyncIdempotent(files: map<string, string>, plans: seq<Option<Post>>)
    ensures Synced(Synced(files, plans), plans) == Synced(files, plans)
  {
    var once := Synced(files, plans);
    var twice := Synced(once, plans);
    SyncedFiles(files, plans);
    SyncedFiles(once, plans);
    forall k | k in Published(plans)
      ensures twice[k] == once[k]
    {
      WriteAllOverwrites(once, files, plans, k);
    }
    assert twice.Keys == once.Keys;
  }

  /** A log whose note is no longer published, and that no other note writes, is deleted. */
  lemma {:induction false} UnpublishedLogRemoved(files: map<string, string>, plans: seq<Option<Post>>, name: string)
    requires IsLogName(name) && name !in Published(plans)
    ensures name !in Synced(files, plans)
  {
    SyncedFiles(files, plans);
  }
}
