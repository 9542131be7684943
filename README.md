# A model of the site build script

`scripts/build.py` prepares the data of a personal Jekyll site. It reads
the latest tracker exports (Goodreads, Coursera, UPSO, GitHub activity,
LinkedIn) and the user's Obsidian notes, and writes:

- `_data/reading.yml`, `_data/studies.yml` and `_data/work.yml`;
- the `about.md` page;
- one post per published note under `_logs/`.

This project models the deterministic part of that script in Dafny and
proves its properties. The parts are these:

- `slugify`: a note title becomes a URL slug.
- `parse_front_matter` and `build_front_matter`: a note is split into a YAML header and a body, and a header is wrapped again.
- `clean_markdown_text`: the chain of regular-expression rewrites applied to LinkedIn text.
- The key-fallback extractors for books: title, author and progress.
- The record normalisers. They read the list of books, the courses and the subjects in progress, add up commits per repository, and build the lines of the CV page.
- The publishing of Obsidian notes. A note is published when its header says `status: publicar`. Its header is rewritten, and it becomes `{date}-{slug}.md`. Then every `.md` file of the logs directory not written in the same run is deleted.

Modules, one per file:

| file | module | what it holds |
|---|---|---|
| wrappers.dfy | Wrappers | `Option`, `Result` |
| text.dfy | Text | `str.strip`/`lstrip`/`rstrip`, `split`/`join`, ASCII `lower`, `str(int)` and `int(str)`, with their laws |
| values.dfy | Values | the JSON/YAML value type and Python's truthiness, `dict.get`, `a or b or c`, `str()`, `repr()`, `int()`, iteration, `pop`, `setdefault` |
| slug.dfy | Slug | `slugify` |
| markdown.dfy | Markdown | `clean_markdown_text` |
| frontmatter.dfy | FrontMatter | `parse_front_matter`, `build_front_matter` |
| reading.dfy | Reading | `extract_book_*`, `update_reading` |
| studies.dfy | Studies | `update_studies` |
| work.dfy | Work | `update_work_activity` |
| cv.dfy | Cv | `update_cv_markdown` |
| logs.dfy | Logs | `ensure_date`, `update_logs_from_obsidian` |

The model keeps the script's form in two ways:

- The pure helpers are functions.
- The loops that append to a list are methods with loop invariants. Each method is proved equal to a recursive function, and the properties are proved about that function. These are the loops over books, courses, subjects, events, CV positions and notes.

The logs directory is a class with a `files` map. It has a `Write` method and a `Delete` method.

Several things are parameters rather than code:

- YAML loading and dumping: `FrontMatter.Yaml`.
- `datetime.fromisoformat` and `strptime`: `Logs.Dates`.
- The tracker files: each pass receives its parsed export, or None when there is none.
- The notes: a sequence of `Logs.NoteFile` values. Each holds its stem, its text (None when unreadable) and its modification date.

Each pass returns an `Outcome`:

- it returns early without writing;
- it writes a value;
- or an exception escapes, as when `int()` raises and the run stops.

## Model

| member | source | states |
|---|---|---|
| Slug.FoldChar | scripts/build.py:53-55 | lower-casing, NFKD decomposition and mark removal leave the slug characters `a-z`, `0-9` and `-` unchanged |
| Slug.HyphenateRuns | scripts/build.py:56 | after every run of characters outside `a-z0-9` becomes one `-`: only slug characters remain, there is no `--`, the letters and digits are exactly those of the input, and the result is empty only for an empty input |
| Slug.TrimHyphens | scripts/build.py:58 | the result neither starts nor ends with `-` |
| Slug.TruncateFacts | scripts/build.py:59-60 | cutting a slug at `max_length` and dropping trailing hyphens gives a slug of at most `max_length` characters, empty only for an empty input, whose letters and digits are a prefix of the original's; nothing is cut when it already fits or the cap is 0 |
| Slug.FallbackIsSlug | scripts/build.py:61 | `nota-sin-titulo` is itself a slug |
| Slug.SlugifyForm | scripts/build.py:52-61 | the result is a slug: only `a-z0-9-`, non-empty, no leading, trailing or doubled `-`. It has at most `max_length` characters unless it is the fallback. It is the fallback whenever no letter or digit survives folding. Its letters and digits are a prefix of the folded text's, and all of them when no cut was needed |
| Slug.SlugOfSlug | scripts/build.py:52-61 | a slug that fits the cap is returned unchanged |
| Slug.SlugifyFixpoints | scripts/build.py:52-61 | `slugify(s) == s` if and only if `s` is a slug that fits the cap (for a cap of 0 or at least the fallback's length) |
| Slug.SlugifyIdempotent | scripts/build.py:52-61 | applying `slugify` to its own result returns it unchanged |
| Markdown.RemoveCloseBrackets | scripts/build.py:116 | the pattern `\]*\]` deletes every `]`: none is left |
| Markdown.CitationMarkersNeverMatch | scripts/build.py:116-118 | once line 116 has run, the `[cite_start]` and `[cite_end]` rewrites change nothing: the three lines together only delete `]` |
| Markdown.MatchBullet | scripts/build.py:119 | a match of `^[ \t]*•[ \t]+` ends at a character that is not a space or tab |
| Markdown.LineNoBulletIffNoMatch | scripts/build.py:119 | a line has no bullet prefix (blanks, `•`, a blank) if and only if the pattern does not match it |
| Markdown.RewriteBulletsFacts | scripts/build.py:119 | after the rewrite no line starts with a bullet prefix, and no new characters appear except `-`, space and newline |
| Markdown.CollapseNoTriple | scripts/build.py:120 | after `\n{3,}` becomes `\n\n` there is no run of three newlines |
| Markdown.CollapseOfNoTriple | scripts/build.py:120 | text without a run of three newlines is left unchanged |
| Markdown.CollapseNoBullet | scripts/build.py:120 | collapsing newlines neither creates nor removes a bullet line |
| Markdown.CleanHasNoCloseBracket | scripts/build.py:115-121 | the cleaned text has no `]` |
| Markdown.CleanIsCollapsedAndTrimmed | scripts/build.py:115-121 | the cleaned text has no run of three newlines and no leading or trailing whitespace |
| Markdown.CleanHasNoBulletLine | scripts/build.py:115-121 | no line after the first starts with a bullet prefix; the first line does not either when the input's whitespace is only spaces, tabs and newlines |
| Markdown.VerticalTabExposesBullet | scripts/build.py:119-121 | `"\v• x"` cleans to `"• x"`, a first line the rewrite would have changed, and cleaning again gives `"- x"` |
| Markdown.CleanIdempotentPlain | scripts/build.py:115-121 | for input whose whitespace is only spaces, tabs and newlines, cleaning twice is cleaning once |
| FrontMatter.CloseIndex | scripts/build.py:129-131 | the index found is the first one at or after the start whose line strips to `---`; None when there is none |
| FrontMatter.NoHeaderWithoutClose | scripts/build.py:125-133 | a header is returned if and only if the text starts with `---` and a later line strips to `---`; otherwise the body is the whole text unchanged |
| FrontMatter.SplitLayout | scripts/build.py:127-141 | with a header, the text is line 0 (starting with `---`), then the header text whose lines are exactly those strictly between line 0 and the first closing line, then that line, then the body; the header is what loading the header text gives |
| FrontMatter.HeaderEntries | scripts/build.py:140-146 | the header is the loaded dictionary, or `{}` for anything else: nothing, YAML null, a list, a scalar or a load error |
| FrontMatter.EmptyHeaderIsEmptyDict | scripts/build.py:135-143 | `---\n---\n` followed by a body gives the header `{}`, not None, and that body |
| FrontMatter.BuildFrontMatter | scripts/build.py:151-159 | the result starts and ends with a `---` line |
| FrontMatter.FramedParse | scripts/build.py:124-159 | a dump that is empty or ends in a newline and has no line stripping to `---`, framed by delimiters and followed by a body, parses back to what loading the dump gives, and that body |
| FrontMatter.BuildThenParse | scripts/build.py:124-159 | when loading a dump gives back the dictionary, parsing `build_front_matter(fm) + body` gives `fm` and `body` |
| Reading.FirstNonBlank | scripts/build.py:184-187 | the key chosen is the first among the candidates whose value is a non-blank string |
| Reading.ExtractBookTitle | scripts/build.py:183-188 | the title is never empty and never has leading or trailing whitespace |
| Reading.TitleFromFirstKey | scripts/build.py:184-187 | the title is the stripped value of the first key whose value is a non-blank string |
| Reading.TitleDefault | scripts/build.py:188 | with no such key the title is `Título desconocido` |
| Reading.ExtractBookAuthor | scripts/build.py:191-205 | the author is the default or a stripped string; each branch is stated by the lemmas below |
| Reading.AuthorName | scripts/build.py:200 | an author record's name is its `name` when truthy, otherwise its `full_name` |
| Reading.AuthorKeyWins | scripts/build.py:192-193 | a string `author` wins over `authors`, even when blank |
| Reading.AuthorFromFirstString | scripts/build.py:194-198 | otherwise a list `authors` starting with a string gives that string, stripped |
| Reading.AuthorFromFirstName | scripts/build.py:199-202 | otherwise a list starting with a record whose `name` is a non-empty string gives that name, stripped |
| Reading.AuthorFromFirstFullName | scripts/build.py:199-202 | otherwise a list starting with a record without a truthy `name` and with a string `full_name` gives the `full_name`, stripped |
| Reading.AuthorFromString | scripts/build.py:203-204 | otherwise a string `authors` is the author, stripped |
| Reading.AuthorDefault | scripts/build.py:205 | in every other case, including a list whose first item is neither a string nor a record with a string name, the author is `Autor desconocido` |
| Reading.AuthorNumberIsUnknown | scripts/build.py:195-205 | a list of authors starting with a number gives `Autor desconocido`, even when a later item is a string |
| Reading.TruncDiv | scripts/build.py:219 | Python's `int()` of a quotient: truncation toward zero, with the bounds on its magnitude and its sign |
| Reading.ExtractBookProgress | scripts/build.py:208-220 | a progress never contains `%` |
| Reading.ProgressFromPercentKey | scripts/build.py:209-213 | when the first truthy percent key holds a number, the progress reads back as that number; when it holds a non-blank string, the progress is that string stripped and without `%` |
| Reading.ZeroPercentIsSkipped | scripts/build.py:209-211 | `percent: 0` is falsy, so a non-zero `progress` is used instead |
| Reading.ProgressFromPages | scripts/build.py:215-219 | without a usable percent, integer pages give `current * 100 / total` truncated, between 0 and 100 when `0 <= current <= total` |
| Reading.ProgressAbsent | scripts/build.py:208-220 | with none of the percent or page keys there is no progress |
| Reading.BooksOf | scripts/build.py:225-242 | a list is the book list as is; only a list or a dictionary gives books; anything else stops the pass |
| Reading.BooksFromKey | scripts/build.py:231-237 | a dictionary gives the items of the first of `books`, `reading` and `currently_reading` that holds a list |
| Reading.BooksFromValues | scripts/build.py:238-239 | a dictionary with no list under those keys gives its values, in order |
| Reading.BookEntry | scripts/build.py:249-259 | a book becomes `titulo` and `author`, plus `progress` exactly when the progress is a non-empty string |
| Reading.BookEntriesShape | scripts/build.py:244-261 | the output has one entry per dictionary in the list, in order, each built from that dictionary, with string title and author |
| Reading.NoDictsNoEntries | scripts/build.py:244-247 | a list without dictionaries gives no books |
| Reading.UpdateReading | scripts/build.py:223-264 | the pass writes exactly the normalised books of the chosen list, or nothing when the data is missing or of another shape |
| Studies.RecordsOf | scripts/build.py:280-286 | a missing or falsy export walks nothing and a list walks its items; only a dictionary whose chosen value cannot be iterated raises, and what it raises is a TypeError |
| Studies.RecordsFromKey | scripts/build.py:284 | a non-empty dictionary walks what iterating the first truthy of its candidate keys visits (`courses`; `materias` before `subjects` at line 313), and raises a TypeError when that value cannot be iterated |
| Studies.RecordsFromValues | scripts/build.py:313 | a dictionary with no truthy candidate key walks its values, in order |
| Studies.CoursePercent | scripts/build.py:301 | a falsy percent is 0, a number is itself, and a non-empty string converts exactly when it is an integer literal |
| Studies.CourseItem | scripts/build.py:295-302 | a course becomes a string `title` and an integer `percent`, in that order |
| Studies.CourseTitleFromKey | scripts/build.py:295-300 | the title is `str()` of the first truthy of `name`, `title` and `course_name` |
| Studies.CourseTitleDefault | scripts/build.py:295-300 | with none of them truthy the title is `Curso sin nombre` |
| Studies.CoursePercentFromKey | scripts/build.py:296-301 | the percent is `int()` of the first truthy of `percent` and `progress`, and the course raises exactly what that `int()` raises |
| Studies.CoursePercentMissing | scripts/build.py:296-301 | with neither truthy the course converts with percent 0 |
| Studies.CoursePercentFromText | scripts/build.py:296-301 | a falsy `percent` falls back to `progress`, and a numeric string there is converted |
| Studies.CourseList | scripts/build.py:288-303 | the loop computes the course records, or the first conversion error |
| Studies.ErrorPersists | scripts/build.py:288-303 | an error on a prefix of the courses is the error of the whole loop |
| Studies.CourseItemsShape | scripts/build.py:288-303 | the loop succeeds if and only if every dictionary converts, and then there is one record per dictionary, in order |
| Studies.CourseraList | scripts/build.py:277-303 | the Coursera list is the course records of the walked items, or the error |
| Studies.SubjectState | scripts/build.py:321 | the state has no leading or trailing whitespace |
| Studies.SubjectStateFromKey | scripts/build.py:321 | the state is `str()` of the first truthy of `estado` and `status`, stripped |
| Studies.SubjectStateMissing | scripts/build.py:321 | with neither truthy the state is empty |
| Studies.SubjectName | scripts/build.py:324-328 | the name has no leading or trailing whitespace |
| Studies.SubjectNameFromKey | scripts/build.py:324-328 | the name is `str()` of the first truthy of `nombre`, `name` and `subject`, stripped |
| Studies.SubjectNameDefault | scripts/build.py:324-328 | with none of them truthy the name is `Materia sin nombre` |
| Studies.SubjectItem | scripts/build.py:321-330 | a subject gives a record if and only if its state contains an in-progress word; the record is its stripped name and state |
| Studies.KeptOf | scripts/build.py:318-331 | one subject contributes its record when it is a dictionary in progress, and nothing otherwise |
| Studies.SubjectList | scripts/build.py:317-331 | the loop collects the records of the subjects in progress, in order |
| Studies.SubjectItemsInProgress | scripts/build.py:317-331 | there are at most as many records as subjects, and each is a `nombre`/`estado` pair whose state is in progress |
| Studies.SubjectItemsNoneInProgress | scripts/build.py:317-331 | with no dictionary in progress the list is empty |
| Studies.UpsoList | scripts/build.py:306-331 | the UPSO list is built from the `materias` or `subjects` records, or the error |
| Studies.UpdateStudies | scripts/build.py:273-339 | the file holds the Coursera list and the UPSO list in progress, unless a conversion raised first |
| Work.WorkEvents | scripts/build.py:350-360 | only a dictionary or a list gives events, and a list is the events as is |
| Work.EventsFromKey | scripts/build.py:355 | a dictionary gives what iterating the first truthy of `events` and `activity` visits, and a TypeError when that value cannot be iterated |
| Work.EventsFromValues | scripts/build.py:355 | with neither truthy a dictionary gives its values, in order |
| Work.EventCommits | scripts/build.py:365-370 | an event counts only if it is a dictionary whose first truthy name key is a string, and it counts under that name stripped |
| Work.EventCounts | scripts/build.py:365-368 | a non-dictionary adds nothing; a dictionary whose first truthy name value is a string always adds or raises |
| Work.EventNameFromKey | scripts/build.py:367 | the name is the value of the first truthy of `repo`, `repository`, `repo_name` and `name` |
| Work.EventCountFromKey | scripts/build.py:367-370 | an event named under any of those keys adds `int()` of the first truthy of `commits` and `count` under its stripped name, or raises exactly what that `int()` raises |
| Work.MissingCommitsCountOne | scripts/build.py:367-370 | an event named under any of those keys, without truthy `commits` or `count`, adds 1 |
| Work.EventNameNotString | scripts/build.py:367-368 | an event whose first truthy name value is not a string adds nothing |
| Work.EventUnnamed | scripts/build.py:367-368 | an event with no truthy name value adds nothing |
| Work.Increment | scripts/build.py:370 | adding to a counter keeps its keys unique and adds the key |
| Work.Tally | scripts/build.py:362-370 | a counter built without error has unique keys |
| Work.TallySummary | scripts/build.py:362-373 | the counter exists if and only if no conversion raises; its total is the sum of the contributions and its length the number of distinct names |
| Work.TallyErrorPersists | scripts/build.py:364-370 | an error on a prefix of the events is the error of the whole loop |
| Work.TallyAdds | scripts/build.py:362-370 | the loop builds the counter of the contributions, or stops at the first error |
| Work.WorkExample | scripts/build.py:362-379 | `[{repo: a, commits: m}, {repo: a, commits: n}, {repo: b}]` gives m + n + 1 commits in 2 repositories |
| Work.UpdateWorkActivity | scripts/build.py:348-381 | the file holds the total commits and the number of distinct repositories; missing or unrecognised data writes nothing, and a conversion error escapes |
| Cv.IntroLines | scripts/build.py:406-420 | the page's lines start with the front matter and the "Sobre mí" heading |
| Cv.RenderCv | scripts/build.py:406-446 | the appended lines, joined, give the page text |
| Cv.LinesOf | scripts/build.py:425-443 | a position that is not a dictionary writes nothing; a dictionary writes its entry line, then its description line only when the description is non-empty |
| Cv.AppendExperience | scripts/build.py:422-444 | the loop appends the experience section of the positions |
| Cv.UpdateCvMarkdown | scripts/build.py:390-447 | a dictionary export gives the page; anything else writes nothing |
| Cv.CvContentShape | scripts/build.py:446 | the page starts with the front matter and the "Sobre mí" heading, and ends in exactly one newline after a non-blank character |
| Cv.ExperienceEntries | scripts/build.py:422-444 | the experience section has one entry per dictionary among the first six positions, so never more than six |
| Cv.OneEntryPerPosition | scripts/build.py:441-443 | a position writes exactly one entry line; its description line is not an entry |
| Cv.ExperienceIffPositions | scripts/build.py:422-423 | the experience heading appears if and only if there are positions |
| Cv.HeadingNotInIntro | scripts/build.py:406-420 | the experience heading cannot come from the front matter, the headline or the summary |
| Cv.EmptyPosition | scripts/build.py:425-443 | an empty position dictionary writes `- **Rol sin título**` and nothing else |
| Cv.TitleOnlyHeader | scripts/build.py:434-439 | without a company and a start the header is the title alone |
| Cv.OpenEndedPosition | scripts/build.py:429-439 | a title with a start and no end reads `title (start - Actualidad)` |
| Logs.EnsureDateOutcomes | scripts/build.py:162-175 | a date is kept; a string gives the ISO parse when it succeeds, else the `%Y-%m-%d` parse of its first ten characters when that succeeds; anything else gives the fallback |
| Logs.PublishedIff | scripts/build.py:474-479 | a note is published if and only if it can be read, it has a header, and its status, stripped and lower-cased, is `publicar` |
| Logs.PostHeaderKeys | scripts/build.py:489-493 | the output header has no `status`, every other key of the note's header is unchanged, and `date`, `slug` and `layout` are added only when absent |
| Logs.PostFilenameShape | scripts/build.py:496-497 | the post is named `{date}-` … `.md`, inside the logs directory unless the date or the slug contains a `/` |
| Logs.PostParsesBack | scripts/build.py:489-495 | when loading a dump gives the dictionary back, the post parses back to its header and the note's body without leading newlines |
| Logs.LogsDir.Write | scripts/build.py:498 | writing a file sets that name's text |
| Logs.LogsDir.Delete | scripts/build.py:506 | unlinking removes that name |
| Logs.WritePosts | scripts/build.py:465-500 | the loop writes the planned posts in order and returns the names written |
| Logs.WriteAllKeys | scripts/build.py:497-499 | after the writes the directory holds the old files and the posts; unwritten files keep their text |
| Logs.WriteAllOverwrites | scripts/build.py:498 | a written post's text does not depend on what the directory held before |
| Logs.RemoveOrphans | scripts/build.py:504-509 | every orphan is removed and nothing else changes |
| Logs.UpdateLogsFromObsidian | scripts/build.py:456-509 | without a notes directory nothing changes; otherwise the directory becomes the synchronised one |
| Logs.SyncedFiles | scripts/build.py:502-509 | afterwards the `.md` files of the directory are exactly the files written in this run; every written file is kept; other files are untouched |
| Logs.UnpublishedLogRemoved | scripts/build.py:502-506 | an existing log not written in this run is deleted |
| Logs.SyncIdempotent | scripts/build.py:456-509 | running the synchronisation twice with the same notes gives the same directory as running it once |
| Values.SetDefault | scripts/build.py:491-493 | `setdefault` keeps an existing key's value, adds an absent key at the end, and changes no other key |
| Values.RemoveKey | scripts/build.py:490 | `pop` removes the key and changes no other key |
| Values.OrChainPicks | scripts/build.py:209 | `a or b or c` is the first truthy operand |
| Values.FirstTruthyKey | scripts/build.py:209 | a chain of `d.get(k)` is the value of the first key holding a truthy one |
| Values.NoTruthyKey | scripts/build.py:295 | a chain of `d.get(k)` ending in a default is that default when no key holds a truthy value |
| Values.OrChain | scripts/build.py:209 | `a or b or c` is one of its operands, truthy exactly when some operand is, and the last operand when none is truthy |
| Values.PyInt | scripts/build.py:370 | `int()` keeps numbers, converts integer literals, and raises ValueError on other strings and TypeError on everything else (integer literals in ASCII digits; see Left out) |
| Values.Iterate | scripts/build.py:288 | iterating a list visits its items; only lists, dictionaries and strings can be iterated |
| Text.ParseIntOfIntToString | scripts/build.py:301 | `int(str(n)) == n` for every integer: the `int()` of a string, here and at line 370, reads back what `str()` writes for any integer |
| Text.JoinSplit | scripts/build.py:127-138 | joining the lines of a text with `\n` gives the text back |
| Text.SplitJoin | scripts/build.py:127-138 | splitting lines without newlines once joined gives the lines back |
| Text.Strip | scripts/build.py:53 | `strip()` leaves no leading or trailing whitespace |
| Text.StripIsInfix | scripts/build.py:53 | `strip()` only removes whitespace at the two ends |
| Text.AsciiLower | scripts/build.py:477 | lower-casing maps each letter `A`-`Z` to its lower case and keeps every other character |

## Left out

- File-system I/O is not modelled: finding and loading the latest JSON export, `mkdir`, reading and writing files, `stat`. Each pass receives its parsed data, and the logs directory is a map from file name to text.
- `yaml.safe_load`, `yaml.safe_dump` and `json.load` are foreign code. They are parameters (`FrontMatter.Yaml`); a load error is a None result.
- The standard library date parsers `datetime.fromisoformat` and `strptime` are parameters (`Logs.Dates`). The mtime fallback date is an input of each note. `ensure_date` keeps the source's order of attempts.
- Logs.EnsureDate: a YAML timestamp (a `datetime.datetime`) has no `Value` variant. In the source such a value is a `datetime.date` too, so line 163 returns it unchanged and line 166 is never reached; its time of day is then dropped by `strftime`.
- YAML headers whose keys are not strings (`2024: x` loads with an integer key) are not modelled: a dictionary's keys are strings.
- Values.PyInt: accepts only ASCII decimal digits, with optional sign, surrounding whitespace and single underscores between digits. Python's `int()` also accepts other Unicode decimal digits and refuses literals longer than 4300 digits; neither is modelled.
- `date.strftime("%Y-%m-%d")` is modelled as Python 3.12.5 and later write it, with the year zero-padded to four digits (`0005-01-01`), the same text as `isoformat()`. Earlier Python versions on Linux pass `%Y` to the C library, which writes years before 1000 without padding (`5-01-01`); that output, and so those file names and `date` defaults, is not modelled.
- Floating-point values are not modelled: numbers are integers. So `int(pct)` of a float and the float rounding of `(current / total) * 100` are absent. For example, Python gives 28 for 29 of 100 pages, the model 29.
- Reading.ProgressFromPages: states the exact truncated quotient of integer pages, not Python's floating-point result, which can be one lower.
- Unicode NFKD normalisation and combining marks are a fixed table of Latin letters with accents. Any other character counts as a separator. Python's full `lower()` is ASCII lower-casing in the model; that decides the same for the ASCII words compared against (`publicar`, the in-progress words).
- `repr` of a string covers the usual escapes (backslash, quote, newline, carriage return, tab) but not the other control or non-printable characters.
- A slug or date containing `/` names a file outside the logs directory. The model keeps such a name in the directory map, and `Logs.PostFilenameShape` states the shape only when there is no `/`.
- FrontMatter.BuildThenParse: assumes `Frameable`, that no line of the YAML dump strips to `---`. A dump with such a line (a block scalar holding `---`) closes the header early when the post is parsed again, at line 129; the model states nothing about that case.
- A failed `unlink` is not modelled: it only prints a warning, and the model deletes every orphan.
- Markdown.CleanHasNoBulletLine: weaker than "no line of the result starts with a bullet". The first line is covered only when the input's whitespace is spaces, tabs and newlines. The strip at line 121 can expose a bullet that line 119 did not see: a vertical tab before `• x` gives `• x` (`Markdown.VerticalTabExposesBullet`).
- `main`, the order of the passes, exit codes and `print` logging are sequencing of I/O and are left out.
- `assets/category-filter.js` is browser UI code and is not part of this model.
