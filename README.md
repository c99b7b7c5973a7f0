# generate_readmes — a Dafny model

`generate_readmes.py` is a scaffolding generator for a sixty-day study plan.
It holds a table of day records (a title, a focus, study links, build steps,
assignments, a checklist, a commit message, outcome artifacts and review
questions). For each record it renders a Markdown README: a title line,
three shields.io badges and nine `###` sections. It then writes a fixed
directory tree:

- `days/day-NN/README.md` for every record, always overwritten;
- `notes/day-NN.md` for days 1 to 60, written only when nothing is at that path;
- a placeholder `README.md` in `templates/`, `resources/` and `assignments/`, always overwritten.

This project models both halves:

- **The document assembler** (`make_badge`, `make_section`, `build_readme`)
  is pure string code. It becomes functions (`Assembler.MakeBadge`,
  `Assembler.MakeSection`, `Assembler.Render`) and the method
  `Assembler.BuildReadme`, which follows the source's loops.
- **The tree materialiser** (`main` after the data table) changes the file
  system step by step. It is modelled twice:
  - as a value: `FileSystem.Tree`, the steps `main` takes (`Scaffold.Plan`)
    and `FileSystem.Exec`, which runs them and stops at the first
    exception;
  - as the class `Materialiser.FileTree`, whose `files` map and `dirs` set
    its methods update in place. `FileTree.Generate` is proved to leave
    exactly the tree and exception that `Exec(old tree, Plan(days))`
    describes.

The modules:

- `Base` holds the shared types: `Option`, `Result`, `Failure` and `Path`.
- `Text` holds Python's `str.strip`, `str.replace(" ", "%20")`,
  `"\n".join` and the `{:02d}` format.
- `Assembler`, `FileSystem` and `Scaffold` hold the values and lemmas above.
- `Materialiser` holds the class.

Day records are a parameter (`seq<DayRecord>`). `title` and `focus` are
`Option`s because `data["title"]` and `data["focus"]` raise `KeyError` when
the key is absent. Every other field reads as its default when absent.

Both operations `main` uses can fail, as the model states them:

- `Path.mkdir(parents=True, exist_ok=True)` raises `NotADirectoryError`
  when an ancestor is a file, and `FileExistsError` when the path itself is
  a file.
- Opening a file for writing raises, in this order:
  - `NotADirectoryError` when an ancestor is a file;
  - `FileNotFoundError` when the parent directory is missing;
  - `IsADirectoryError` when the path is a directory.

`open("w")` truncates the README before `build_readme` runs. A record
without a title or focus therefore leaves its README empty, and the
`KeyError` ends the run.

The note loop runs over `range(1, 61)` (generate_readmes.py:2181) whatever
`len(days_data)` is: the note loop always visits sixty note paths, however
many records there are (`Scaffold.NoteCount`, `Scaffold.NotesCount`). From
an empty directory with complete records all sixty notes are written
(`Scaffold.FromScratch`). A run stopped earlier by an exception never
reaches the note loop, and a note path that is a directory is skipped by
`exists()`.

## Model

| member | source | states |
|---|---|---|
| Text.EscapeSpaces | generate_readmes.py:26-27 | `str.replace(" ", "%20")`, one character at a time; specified by `EscapeIsJoinSplit`, `EscapeSpacesSpec` and `UnescapeEscape` |
| Text.EscapeIsJoinSplit | generate_readmes.py:26-27 | escaping is `str.replace(" ", "%20")` on every text: split at the spaces and join the pieces with `%20` |
| Text.EscapeSpacesSpec | generate_readmes.py:26-27 | after `replace(" ", "%20")` no space is left, a string without spaces is unchanged, and every character of the result comes from the input or from `%20` |
| Text.UnescapeEscape | generate_readmes.py:26-27 | replacing spaces by `%20` is undone by replacing `%20` by a space, for text without `%` |
| Assembler.MakeBadge | generate_readmes.py:25-29 | the shields.io badge `![label](https://img.shields.io/badge/label-message-color)` with spaces escaped in label and message; specified by `BadgeRoundTrip`, `BadgeDashLost` and `EscapeKeepsOut` |
| Assembler.BadgeRoundTrip | generate_readmes.py:25-29 | a badge can be read back into its label, message and colour: both are recovered when the label has no `%` or `]` and the message no `%` or `-` |
| Assembler.ParseBadgeMessage | generate_readmes.py:29 | a message read back from any badge has no `-`, since the first `-` after the label ends it |
| Assembler.BadgeDashLost | generate_readmes.py:25-29 | a badge whose message has a `-` (the area `system-design`, line 572) does not read back as its label, message and colour |
| Text.UnescapeKeepsOut | generate_readmes.py:26-27 | decoding `%20` brings in no character other than a space |
| Assembler.BadgeUrlRoundTrip | generate_readmes.py:29 | the URL part `label-message-color` splits back at its dashes into the unescaped label, the unescaped message and the colour, when the message has no `-` |
| Assembler.EscapeKeepsOut | generate_readmes.py:26-27 | escaping spaces never introduces a character other than `%`, `2` and `0` |
| Text.Strip | generate_readmes.py:34 | `str.strip()` on whitespace; specified by `StripTrimmed`, `StripShape`, `StripUnique` and `StripIdempotent` |
| Text.StripTrimmed | generate_readmes.py:34 | `content.strip()` has no whitespace at either end |
| Text.StripShape | generate_readmes.py:34 | `strip()` removes only whitespace runs at the two ends: the result is a slice of the input with whitespace on both sides |
| Text.StripUnique | generate_readmes.py:34 | any trimmed slice with only whitespace around it is what `strip()` returns |
| Text.StripIdempotent | generate_readmes.py:34 | stripping twice is stripping once |
| Text.TrimmedStrip | generate_readmes.py:34 | text without surrounding whitespace is left unchanged by `strip()` |
| Assembler.MakeSection | generate_readmes.py:32-34 | `### title`, a blank line, the stripped content and a newline; specified by `SectionRoundTrip`, `SectionIgnoresPadding` and `SectionOfTrimmed` |
| Assembler.SectionRoundTrip | generate_readmes.py:32-34 | a section reads back as its heading and its stripped content, when the heading is one line |
| Assembler.SectionIgnoresPadding | generate_readmes.py:32-34 | content and its stripped form give the same section |
| Assembler.SectionOfTrimmed | generate_readmes.py:32-34 | trimmed content appears verbatim between the blank line and the final newline; empty content gives `### h` followed by two blank lines |
| Text.Pad2 | generate_readmes.py:39 | `f"{n:02d}"`; specified by `ParsePad2`, `Pad2Injective` and `Pad2Length` |
| Text.ParsePad2 | generate_readmes.py:39 | `f"{n:02d}"` is all digits and reads back as `n` |
| Text.Pad2Injective | generate_readmes.py:39 | two day numbers with the same padded form are equal |
| Text.Pad2Length | generate_readmes.py:39 | the padded day has two digits exactly for days up to 99, three or more from 100 on |
| Text.Join | generate_readmes.py:57 | `sep.join(xs)`; specified by `SplitJoin` and `EscapeIsJoinSplit` |
| Text.SplitJoin | generate_readmes.py:57 | `"\n".join` of a non-empty list of lines without newlines splits back into the same lines |
| Assembler.FormatStudy | generate_readmes.py:54-57 | the study loop yields one `- [name](url)` line per link, in input order |
| Assembler.FormatItems | generate_readmes.py:60-92 | each list loop yields one `<marker><item>` line per item, in input order |
| Assembler.StudyBodyLines | generate_readmes.py:53-58 | a non-empty study section body splits back into exactly its link lines, in order |
| Assembler.MarkedBodyLines | generate_readmes.py:60-92 | a non-empty build, assignments, checklist, outcome or review section body splits back into its marker lines; only trailing whitespace of the last item is lost to `strip()` |
| Assembler.TitleLine | generate_readmes.py:40 | `# Day NN — title` and a newline; its place in the README is `Render`'s definition (assembler.dfy:461) |
| Assembler.Header | generate_readmes.py:42-47 | the three badges joined by spaces, a blank line and `---`; its place in the README is `Render`'s definition (assembler.dfy:461) |
| Assembler.Sections | generate_readmes.py:50-92 | the nine sections in order, one per heading |
| Assembler.Render | generate_readmes.py:37-107 | `build_readme` as a value: the README or the `KeyError`; specified by `RenderFailsOnlyOnMissingKey`, `SectionsUnderHeadings`, `HeadingsInOrder`, `ScalarDefaults` and `EmptyListSections` |
| Assembler.BuildReadme | generate_readmes.py:37-107 | the step-by-step assembly returns `Render(day, rec)`: the README, or the `KeyError` for the first missing mandatory key |
| Assembler.RenderFailsOnlyOnMissingKey | generate_readmes.py:40-50 | rendering fails exactly when the title or the focus is missing; `title` is looked up first |
| Assembler.SectionsUnderHeadings | generate_readmes.py:50-92 | each of the nine sections starts with its own `### heading` and a blank line, and ends with a newline |
| Assembler.HeadingsInOrder | generate_readmes.py:95-107 | the README contains the nine headings at strictly increasing offsets, the first right after the title line and the badges |
| Assembler.ScalarDefaults | generate_readmes.py:51-80 | an absent timebox reads `~3 hours` and an absent commit message renders as an empty pair of backticks |
| Assembler.EmptyListSections | generate_readmes.py:53-92 | each absent list (study, build, assignments, checklist, outcome, review) gives its heading followed by two blank lines |
| FileSystem.MakeDirsAt | generate_readmes.py:121 | `mkdir(parents=True, exist_ok=True)` on a tree; specified by `MakeDirsEffect` |
| FileSystem.WriteAt | generate_readmes.py:2177-2178 | opening for writing and writing, on a tree, as `write_text` (line 2185) also does; specified by `WriteEffect` and `OpenThenWrite` |
| FileSystem.Apply | generate_readmes.py:110-2196 | one step of `main`: a `mkdir`, an overwrite, or a write guarded by `exists()` |
| FileSystem.Exec | generate_readmes.py:110-2196 | the steps in order, stopping at the first exception; specified by `ExecAppend`, `ExecKeepsValid`, `ExecKeepsPath` and `ExecIdempotent` |
| FileSystem.MakeDirsEffect | generate_readmes.py:120-121 | `mkdir(parents=True, exist_ok=True)` leaves files alone; it succeeds exactly when no ancestor and not the path itself is a file, and then adds the path and all its ancestors; a failed call changes nothing |
| FileSystem.WriteEffect | generate_readmes.py:2177-2178 | a write changes only the file it names; it succeeds exactly when the path is not under a file, its parent exists, it is not a directory and the text was computed; the file then holds the text |
| FileSystem.OpenThenWrite | generate_readmes.py:2177-2178 | writing is opening, which truncates, then writing into the empty file; an exception while computing the text leaves the file empty |
| FileSystem.CreateIfAbsentKeeps | generate_readmes.py:2184-2185 | the note step changes nothing when something exists at the note's path |
| FileSystem.ApplyKeepsValid | generate_readmes.py:110-2196 | every step, failed or not, keeps the tree well formed: directories closed under ancestors, files inside existing directories, no path both a file and a directory |
| FileSystem.ExecKeepsValid | generate_readmes.py:110-2196 | any sequence of steps keeps the tree well formed |
| FileSystem.StepIdempotent | generate_readmes.py:110-2196 | each single step, repeated, does what it did once |
| FileSystem.ExecAppend | generate_readmes.py:110-2196 | running two parts one after another is running their concatenation, unless the first part raised |
| FileSystem.ExecKeepsPath | generate_readmes.py:110-2196 | whether the steps run through or stop at an exception, a file none of them overwrites, and none creates where nothing was, keeps its presence and content |
| FileSystem.ExecIdempotent | generate_readmes.py:110-2196 | running a step sequence twice from a well-formed tree equals running it once, when no file is overwritten by two different steps |
| Scaffold.RunSteps | generate_readmes.py:110-2196 | the steps of `main`: the five top-level `mkdir`s, the day loop, the note loop and the three placeholder writes |
| Scaffold.DayStepsFrom | generate_readmes.py:2171-2178 | the day loop: `mkdir` of `days/day-NN`, then the README write, per record |
| Scaffold.NoteStepsFrom | generate_readmes.py:2180-2185 | the note loop: `mkdir` of `notes`, then the note written only where nothing is, for days 1 to 60 |
| Scaffold.Plan | generate_readmes.py:110-2196 | the steps of `main` for the given records, each README rendered by `build_readme` |
| Scaffold.PlaceholderSteps | generate_readmes.py:2187-2196 | the three `write_text` calls, each an unconditional overwrite with its fixed text; their effect is stated by `PlaceholdersResult` and `RunPlaceholders` |
| Scaffold.DayPathsDistinct | generate_readmes.py:2172-2185 | different days never share a directory, a README or a note path |
| Scaffold.MakeAllResult | generate_readmes.py:119-121 | the top-level `mkdir` loop keeps all files; it succeeds exactly when none of the directories is a file, and then adds exactly those directories |
| Scaffold.DayLoopSucceeds | generate_readmes.py:2171-2178 | the day loop raises nothing when every README renders, no day directory is a file and no README path is a directory |
| Scaffold.DayLoopReadmes | generate_readmes.py:2171-2178 | after a day loop that raised nothing, each day's README holds its rendered text |
| Scaffold.DayLoopFrame | generate_readmes.py:2171-2178 | the day loop, whether it runs through or stops at an exception, changes no file other than the day READMEs |
| Scaffold.NoteLoopSucceeds | generate_readmes.py:2180-2185 | once `notes` is a directory the note loop never raises and adds no directory |
| Scaffold.NoteLoopCreates | generate_readmes.py:2180-2185 | the note loop writes the fresh note text where nothing was |
| Scaffold.NoteLoopFrame | generate_readmes.py:2180-2185 | the note loop changes no file other than notes whose path was free: an existing note keeps its content |
| Scaffold.PlaceholdersResult | generate_readmes.py:2187-2196 | the three `write_text` calls succeed exactly when none of the three READMEs is a directory; they then overwrite exactly those three files with their texts and change nothing else |
| Scaffold.RunReadmes | generate_readmes.py:2171-2178 | after a run that raised nothing, every day's README holds the text rendered for it |
| Scaffold.RunNotes | generate_readmes.py:2180-2185 | after every run, including one stopped by an exception, a note that existed as a file keeps its content; after a run that raised nothing, every free note path holds `<!-- Reflection notes for day NN -->` |
| Scaffold.RunNotesCreated | generate_readmes.py:2180-2185 | after a run that raised nothing, every free note path holds the fresh note text |
| Scaffold.RunPlaceholders | generate_readmes.py:2187-2196 | after a run that raised nothing, the three placeholder READMEs hold their fixed texts |
| Scaffold.RunDirs | generate_readmes.py:110-2196 | a run that raised nothing adds exactly the five top-level directories and one directory per day |
| Scaffold.RunFrame | generate_readmes.py:110-2196 | every run, including one stopped by an exception, changes no file other than the day READMEs, the placeholders and the notes whose path was free |
| Scaffold.RunCreated | generate_readmes.py:2180-2185 | the only writes guarded by `exists()` are the sixty notes |
| Scaffold.RunSucceeds | generate_readmes.py:110-2196 | the run raises nothing when nothing is in its way |
| Scaffold.RunNeedsClear | generate_readmes.py:110-2196 | on a well-formed tree, a run that raised nothing had nothing in its way |
| Scaffold.RunOverwrites | generate_readmes.py:2171-2196 | the run overwrites exactly the day READMEs and the three placeholders, each once |
| Scaffold.RunIdempotent | generate_readmes.py:110-2196 | running the steps twice from a well-formed tree leaves the same tree and exception as running them once |
| Scaffold.RenderAllOk | generate_readmes.py:2172-2178 | day `i`'s README renders exactly when record `i` has a title and a focus |
| Scaffold.PlanReadmes | generate_readmes.py:2171-2178 | after `main` raised nothing, every record had a title and a focus, and `days/day-ii/README.md` holds `build_readme(i, days_data[i - 1])` |
| Scaffold.PlanClearIff | generate_readmes.py:2171-2178 | the per-record part of "nothing in the way" is exactly "every record renders" |
| Scaffold.PlanSucceedsIff | generate_readmes.py:110-2196 | on a well-formed tree, `main` raises nothing exactly when every record has a title and a focus, no top-level or day directory path is a file, and no README path is a directory |
| Scaffold.PlanIdempotent | generate_readmes.py:110-2196 | re-running `main` on a well-formed tree changes nothing further: READMEs are the same, notes keep their content, and an exception recurs |
| Scaffold.EmptyRunFiles | generate_readmes.py:2171-2196 | from an empty directory, a successful run leaves exactly the day READMEs, the notes and the placeholders as files |
| Scaffold.FromScratch | generate_readmes.py:110-2196 | from an empty directory with complete records, `main` succeeds, makes exactly the top-level and day directories, writes exactly the READMEs, all sixty notes and the placeholders, and every note holds its fresh text |
| Scaffold.NotesCount | generate_readmes.py:2181 | the note loop covers sixty distinct note paths, however many records there are |
| Scaffold.DayCount | generate_readmes.py:2172-2176 | there is one distinct day directory and one distinct README per record |
| Materialiser.FileTree.constructor | generate_readmes.py:111 | the file tree starts as the given tree |
| Materialiser.FileTree.MakeDirs | generate_readmes.py:121 | the in-place `mkdir` leaves the tree and exception that `MakeDirsAt` describes |
| Materialiser.FileTree.PathExists | generate_readmes.py:2184 | `exists()` is true exactly for the working directory, a file or a directory |
| Materialiser.FileTree.Open | generate_readmes.py:2177 | `open("w")` fails as a write would, and otherwise leaves an empty file |
| Materialiser.FileTree.Write | generate_readmes.py:2178 | `f.write` appends the text to the open file and changes nothing else |
| Materialiser.FileTree.WriteText | generate_readmes.py:2185 | `write_text` has the effect of `WriteAt` with the text |
| Materialiser.FileTree.WriteReadme | generate_readmes.py:2177-2178 | the `with open(...)` block has the effect of `WriteAt` with `Render(day, rec)`, including the empty file left by a `KeyError` |
| Materialiser.FileTree.MakeTopDirs | generate_readmes.py:119-121 | the top-level loop leaves the outcome of running its `mkdir` steps |
| Materialiser.FileTree.WriteDays | generate_readmes.py:2171-2178 | the day loop leaves the outcome of running its steps for the rendered records |
| Materialiser.FileTree.WriteNotes | generate_readmes.py:2180-2185 | the note loop over days 1 to 60 leaves the outcome of its steps |
| Materialiser.FileTree.WritePlaceholders | generate_readmes.py:2187-2196 | the three placeholder writes leave the outcome of their steps |
| Materialiser.FileTree.Generate | generate_readmes.py:110-2196 | the whole of `main`, run in place, leaves exactly the tree and exception of `Exec(old tree, Plan(days))`, so every `Scaffold` lemma applies to it |

## Left out

- The day-record table itself (generate_readmes.py lines 124-2169) is a parameter of the model, not a constant. No lemma is about those particular sixty records.
- `Link` always has a name and a URL. The source raises `KeyError` when a study item lacks `name` or `url` (line 56); that error path is not modelled.
- Record fields are strings, or sequences of strings. Python would format any object through the f-strings, and a list field holding a non-iterable value would raise `TypeError`.
- File-system errors other than those named above are not modelled: permissions, a full disk, symbolic links, encoding errors. `exists()` is not modelled as failing either.
- UTF-8 encoding is not modelled: file contents are Unicode strings.
- Newline translation in text mode is not modelled: `open("w")` and `write_text` would write each `\n` as the platform's line separator, and the model keeps `\n` as written.
- The `if __name__ == "__main__"` guard and process exit status are not modelled; `Generate` returns the exception instead of raising it.
- Concurrency is not modelled; the program is sequential.
- Assembler.MakeBadge: its own contract is empty. What it promises is stated by `BadgeRoundTrip` and `EscapeKeepsOut`.
- Assembler.StudyBodyLines: proved only for names and URLs without newlines, because a newline inside an item would split it into several Markdown lines.
- Assembler.MarkedBodyLines: proved only for items without newlines, for the same reason.
- Assembler.BadgeUrlRoundTrip: proved only when the message has no `-`, because the first `-` after the label ends the message; `BadgeDashLost` shows the split fails otherwise.
- Text.SplitJoin: proved only for a non-empty list, because joining `[]` gives `""`, which splits back into `[""]`.
- Assembler.BadgeRoundTrip: proved only when the label has no `%` or `]` and the message no `%` or `-`, because otherwise the badge is ambiguous. The records' own data reaches the excluded case: the area `system-design` (generate_readmes.py:572 and six more records) gives the URL `Area-system-design-lightgrey`, whose message does not read back (`BadgeDashLost`).
