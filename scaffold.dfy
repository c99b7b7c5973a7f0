/** The file-system actions `main` performs, in order, as a list of steps:
    the five top-level directories, one directory and README per day record,
    the sixty reflection notes, and the three placeholder READMEs. */
module Scaffold {
  import opened Base
  import opened Text
  import opened Assembler
  import opened FileSystem

  /** `range(1, 61)`: notes are made for sixty days whatever the number of
      day records. */
  const NoteCount := 60

  const DaysDir: Path := ["days"]
  const TemplatesDir: Path := ["templates"]
  const ResourcesDir: Path := ["resources"]
  const AssignmentsDir: Path := ["assignments"]
  const NotesDir: Path := ["notes"]

  /** The directories made first, in the order `main` makes them. */
  const TopDirs: seq<Path> := [DaysDir, TemplatesDir, ResourcesDir, AssignmentsDir, NotesDir]

  const TemplatesReadme: Path := ["templates", "README.md"]
  const ResourcesReadme: Path := ["resources", "README.md"]
  const AssignmentsReadme: Path := ["assignments", "README.md"]

  const TemplatesText := "# Templates\n\nThis directory contains reusable templates for issues, pull requests, or documentation.\n\n"
  const ResourcesText := "# Resources\n\nA curated list of references and learning materials used throughout the 60\U{2011}day plan.\n\n"
  const AssignmentsText := "# Assignments\n\nDetailed project briefs and additional exercises will be placed here.\n\n"

  /** `days/day-ii`. */
  function DayDir(k: nat): Path {
    ["days", "day-" + Pad2(k)]
  }

  /** `days/day-ii/README.md`. */
  function DayReadme(k: nat): Path {
    ["days", "day-" + Pad2(k), "README.md"]
  }

  /** `notes/day-ii.md`. */
  function NotePath(k: nat): Path {
    ["notes", "day-" + Pad2(k) + ".md"]
  }

  /** The text of a fresh reflection note. */
  function NoteText(k: nat): string {
    "<!-- Reflection notes for day " + Pad2(k) + " -->\n"
  }

  // ---- The steps ---------------------------------------------------------------

  /** `d.mkdir(parents=True, exist_ok=True)` for each `d` in turn. */
  function MakeAll(ds: seq<Path>): (r: seq<Step>)
    ensures |r| == |ds|
    ensures forall i :: 0 <= i < |ds| ==> r[i] == MakeDirs(ds[i])
  {
    if ds == [] then [] else [MakeDirs(ds[0])] + MakeAll(ds[1..])
  }

  /** `build_readme(i, days_data[i - 1])` for every day `i`, each either the
      README text or the `KeyError` it raises. */
  function RenderAll(days: seq<DayRecord>): seq<Result<string>> {
    seq(|days|, i requires 0 <= i < |days| => Render(i + 1, days[i]))
  }

  /** The day loop from day `k + 1` on, given the README of every day: make
      the day's directory, then open its README for writing and write the
      rendered text into it. */
  function DayStepsFrom(docs: seq<Result<string>>, k: nat): seq<Step>
    decreases |docs| - k
  {
    if k >= |docs| then []
    else [MakeDirs(DayDir(k + 1)), Overwrite(DayReadme(k + 1), docs[k])] + DayStepsFrom(docs, k + 1)
  }

  /** The note loop from day `k + 1` on: make `notes` again, then write the
      note only if nothing is at its path. */
  function NoteStepsFrom(k: nat): seq<Step>
    decreases NoteCount - k
  {
    if k >= NoteCount then []
    else [MakeDirs(NotesDir), CreateIfAbsent(NotePath(k + 1), NoteText(k + 1))] + NoteStepsFrom(k + 1)
  }

  const PlaceholderSteps: seq<Step> := [
    Overwrite(TemplatesReadme, Ok(TemplatesText)),
    Overwrite(ResourcesReadme, Ok(ResourcesText)),
    Overwrite(AssignmentsReadme, Ok(AssignmentsText))
  ]

  /** Everything `main` does to the file system, given the README text (or
      exception) of every day. */
  function RunSteps(docs: seq<Result<string>>): seq<Step> {
    MakeAll(TopDirs) + (DayStepsFrom(docs, 0) + (NoteStepsFrom(0) + PlaceholderSteps))
  }

  /** Everything `main` does to the file system, for the given day records. */
  function Plan(days: seq<DayRecord>): seq<Step> {
    RunSteps(RenderAll(days))
  }

  // ---- Distinct paths -------------------------------------------------------------

  /** The directory name of a day determines the day. */
  lemma DayNameInjective(j: nat, k: nat)
    requires "day-" + Pad2(j) == "day-" + Pad2(k)
    ensures j == k
  {
    assert Pad2(j) == ("day-" + Pad2(j))[4..];
    assert Pad2(k) == ("day-" + Pad2(k))[4..];
    Pad2Injective(j, k);
  }

  /** The file name of a note determines the day. */
  lemma NoteNameInjective(j: nat, k: nat)
    requires "day-" + Pad2(j) + ".md" == "day-" + Pad2(k) + ".md"
    ensures j == k
  {
    var a, b := "day-" + Pad2(j) + ".md", "day-" + Pad2(k) + ".md";
    assert Pad2(j) == a[4..|a| - 3];
    assert Pad2(k) == b[4..|b| - 3];
    Pad2Injective(j, k);
  }

  /** Two days never share a directory, a README or a note. */
  lemma DayPathsDistinct(j: nat, k: nat)
    requires j != k
    ensures DayDir(j) != DayDir(k) && DayReadme(j) != DayReadme(k) && NotePath(j) != NotePath(k)
  {
    if "day-" + Pad2(j) == "day-" + Pad2(k) {
      DayNameInjective(j, k);
    }
    if "day-" + Pad2(j) + ".md" == "day-" + Pad2(k) + ".md" {
      NoteNameInjective(j, k);
    }
    assert DayDir(j)[1] != DayDir(k)[1];
    assert NotePath(j)[1] != NotePath(k)[1];
  }

  // ---- The day loop -------------------------------------------------------------

  /** The READMEs the day loop writes from day `k + 1` on. */
  function DayReadmesFrom(docs: seq<Result<string>>, k: nat): set<Path> {
    set j | k < j <= |docs| :: DayReadme(j)
  }

  /** The day directories the day loop makes from day `k + 1` on. */
  function DayDirsFrom(docs: seq<Result<string>>, k: nat): set<Path> {
    set j | k < j <= |docs| :: DayDir(j)
  }

  /** The tree after the first day of the loop from day `k + 1`, when both
      of its steps succeed. */
  function AfterDay(u: Tree, docs: seq<Result<string>>, k: nat): Tree
    requires k < |docs| && docs[k].Ok?
  {
    Tree(u.files[DayReadme(k + 1) := docs[k].value], u.dirs + {DaysDir, DayDir(k + 1)})
  }

  /** One day of the loop unrolled: `mkdir`, then the README, then the
      days after it. */
  lemma DayRound(u: Tree, docs: seq<Result<string>>, k: nat)
    requires k < |docs|
    ensures Exec(u, DayStepsFrom(docs, k)) ==
      (var o1 := MakeDirsAt(u, DayDir(k + 1));
       if o1.failure.Some? then o1
       else var o2 := WriteAt(o1.tree, DayReadme(k + 1), docs[k]);
         if o2.failure.Some? then o2 else Exec(o2.tree, DayStepsFrom(docs, k + 1)))
  {
    ExecPair(u, MakeDirs(DayDir(k + 1)), Overwrite(DayReadme(k + 1), docs[k]), DayStepsFrom(docs, k + 1));
  }

  /** One day of the loop: when neither step raised, the README was rendered
      and the loop goes on from `AfterDay`. */
  lemma DayStep(u: Tree, docs: seq<Result<string>>, k: nat)
    requires DaysDir in u.dirs && k < |docs|
    ensures var o := Exec(u, DayStepsFrom(docs, k));
      o.failure.None? ==> docs[k].Ok? && o == Exec(AfterDay(u, docs, k), DayStepsFrom(docs, k + 1))
  {
    var d, r, text := DayDir(k + 1), DayReadme(k + 1), docs[k];
    var rest := DayStepsFrom(docs, k + 1);
    ExecPair(u, MakeDirs(d), Overwrite(r, text), rest);
    MakeDirsEffect(u, d);
    var o1 := MakeDirsAt(u, d);
    if o1.failure.None? {
      WriteEffect(o1.tree, r, text);
      DayDirPrefixes(k + 1);
    }
  }

  /** When the day loop runs through from day `k + 1` on, it made exactly the
      day directories. */
  lemma {:induction false} DayLoopDirs(u: Tree, docs: seq<Result<string>>, k: nat)
    requires DaysDir in u.dirs
    ensures var o := Exec(u, DayStepsFrom(docs, k));
      o.failure.None? ==> o.tree.dirs == u.dirs + DayDirsFrom(docs, k)
    decreases |docs| - k
  {
    if k < |docs| {
      DayStep(u, docs, k);
      if Exec(u, DayStepsFrom(docs, k)).failure.None? {
        DayLoopDirs(AfterDay(u, docs, k), docs, k + 1);
        assert DayDirsFrom(docs, k) == {DayDir(k + 1)} + DayDirsFrom(docs, k + 1);
      }
    }
  }

  /** From day `k + 1` on, every README was rendered and `files` holds its
      text. */
  predicate ReadmesWritten(files: map<Path, string>, docs: seq<Result<string>>, k: nat) {
    forall i :: k <= i < |docs| ==>
      && docs[i].Ok?
      && DayReadme(i + 1) in files
      && files[DayReadme(i + 1)] == docs[i].value
  }

  /** When the day loop runs through from day `k + 1` on, every README holds
      its rendered text, so no rendering raised. */
  lemma {:induction false} DayLoopReadmes(u: Tree, docs: seq<Result<string>>, k: nat)
    requires DaysDir in u.dirs
    ensures var o := Exec(u, DayStepsFrom(docs, k));
      o.failure.None? ==> ReadmesWritten(o.tree.files, docs, k)
    decreases |docs| - k
  {
    if k < |docs| {
      DayStep(u, docs, k);
      var o := Exec(u, DayStepsFrom(docs, k));
      if o.failure.None? {
        var u2 := AfterDay(u, docs, k);
        DayLoopReadmes(u2, docs, k + 1);
        DayLoopFrame(u2, docs, k + 1);
        forall j | k + 1 < j <= |docs|
          ensures DayReadme(j) != DayReadme(k + 1)
        {
          DayPathsDistinct(j, k + 1);
        }
        assert DayReadme(k + 1) !in DayReadmesFrom(docs, k + 1);
      }
    }
  }

  /** The day loop from day `k + 1` on, whether it runs through or stops at
      an exception, changes no file but those READMEs. */
  lemma DayLoopFrame(u: Tree, docs: seq<Result<string>>, k: nat)
    ensures var o := Exec(u, DayStepsFrom(docs, k));
      forall p :: p !in DayReadmesFrom(docs, k) ==>
        && (p in o.tree.files <==> p in u.files)
        && (p in u.files ==> o.tree.files[p] == u.files[p])
  {
    DayLoopOverwrites(docs, k);
    DayLoopCreatesNothing(docs, k);
    forall p | p !in DayReadmesFrom(docs, k)
      ensures var o := Exec(u, DayStepsFrom(docs, k));
        && (p in o.tree.files <==> p in u.files)
        && (p in u.files ==> o.tree.files[p] == u.files[p])
    {
      ExecKeepsPath(u, DayStepsFrom(docs, k), p);
    }
  }

  /** What the day loop needs from the tree it starts in, from day `k + 1`
      on: every README rendered, `days` is not a file, no day directory is a
      file and no README path is a directory. */
  predicate DayLoopClear(u: Tree, docs: seq<Result<string>>, k: nat) {
    && DaysDir !in u.files
    && forall i :: k <= i < |docs| ==>
         && docs[i].Ok?
         && DayDir(i + 1) !in u.files && DayReadme(i + 1) !in u.dirs
  }

  /** A clear tree lets the day loop run through. */
  lemma {:induction false} DayLoopSucceeds(u: Tree, docs: seq<Result<string>>, k: nat)
    requires DaysDir in u.dirs && DayLoopClear(u, docs, k)
    ensures Exec(u, DayStepsFrom(docs, k)).failure.None?
    decreases |docs| - k
  {
    if k < |docs| {
      var d, r := DayDir(k + 1), DayReadme(k + 1);
      DayRound(u, docs, k);
      DayDirPrefixes(k + 1);
      assert !UnderFile(u, d) by {
        forall i | 0 < i < |d| ensures d[..i] !in u.files {
          assert d[..i] == DaysDir;
        }
      }
      MakeDirsEffect(u, d);
      var u1 := MakeDirsAt(u, d).tree;
      assert !UnderFile(u1, r) by {
        forall i | 0 < i < |r| ensures r[..i] !in u1.files {
          assert r[..i] == DaysDir || r[..i] == d;
        }
      }
      assert r[..2] == d && |r| == 3;
      WriteEffect(u1, r, docs[k]);
      var u2 := WriteAt(u1, r, docs[k]).tree;
      DayLoopClearNext(u, u2, docs, k);
      DayLoopSucceeds(u2, docs, k + 1);
    }
  }

  /** The directories `mkdir(parents=True)` makes for a day directory. */
  lemma DayDirPrefixes(k: nat)
    ensures Prefixes(DayDir(k)) == {DaysDir, DayDir(k)}
  {
    var d := DayDir(k);
    assert d[..1] == DaysDir && d[..2] == d;
  }

  /** Making day `k + 1`'s directory and writing its README keeps the tree
      clear for the days after it. */
  lemma DayLoopClearNext(u: Tree, u2: Tree, docs: seq<Result<string>>, k: nat)
    requires k < |docs| && DayLoopClear(u, docs, k)
    requires forall q :: q != DayReadme(k + 1) ==> (q in u2.files <==> q in u.files)
    requires u2.dirs == u.dirs + {DaysDir, DayDir(k + 1)}
    ensures DayLoopClear(u2, docs, k + 1)
  {
    assert |DayReadme(k + 1)| == 3;
    forall i | k + 1 <= i < |docs|
      ensures docs[i].Ok? && DayDir(i + 1) !in u2.files && DayReadme(i + 1) !in u2.dirs
    {
      assert docs[i].Ok? && DayDir(i + 1) !in u.files && DayReadme(i + 1) !in u.dirs;
      assert |DayDir(i + 1)| == 2 && |DayReadme(i + 1)| == 3;
    }
  }

  // ---- The note loop ------------------------------------------------------------

  /** The notes the note loop may write from day `k + 1` on. */
  function NotesFrom(k: nat): set<Path> {
    set j | k < j <= NoteCount :: NotePath(j)
  }

  /** The tree after one round of the note loop. */
  function AfterNote(u: Tree, k: nat): Tree {
    if Exists(u, NotePath(k + 1)) then u else Tree(u.files[NotePath(k + 1) := NoteText(k + 1)], u.dirs)
  }

  /** One round of the note loop never raises once `notes` is a directory:
      it writes the note exactly when nothing is at its path. */
  lemma NoteStep(u: Tree, k: nat)
    requires NotesDir in u.dirs && NotesDir !in u.files && k < NoteCount
    ensures Exec(u, NoteStepsFrom(k)) == Exec(AfterNote(u, k), NoteStepsFrom(k + 1))
  {
    var p := NotePath(k + 1);
    ExecPair(u, MakeDirs(NotesDir), CreateIfAbsent(p, NoteText(k + 1)), NoteStepsFrom(k + 1));
    assert Prefixes(NotesDir) == {NotesDir} by {
      assert NotesDir[..1] == NotesDir;
    }
    assert MakeDirsAt(u, NotesDir) == Outcome(u, None);
    assert !UnderFile(u, p) by {
      forall i | 0 < i < |p| ensures p[..i] !in u.files {
        assert p[..i] == NotesDir;
      }
    }
    assert p[..1] == NotesDir;
  }

  /** The note loop from day `k + 1` on always runs through and makes no new
      directory. */
  lemma {:induction false} NoteLoopSucceeds(u: Tree, k: nat)
    requires NotesDir in u.dirs && NotesDir !in u.files
    ensures var o := Exec(u, NoteStepsFrom(k));
      o.failure.None? && o.tree.dirs == u.dirs
    decreases NoteCount - k
  {
    if k < NoteCount {
      NoteStep(u, k);
      NoteLoopSucceeds(AfterNote(u, k), k + 1);
    }
  }

  /** After the note loop from day `k + 1` on, every note whose path was free
      holds the fresh note text. */
  lemma {:induction false} NoteLoopCreates(u: Tree, k: nat)
    requires NotesDir in u.dirs && NotesDir !in u.files
    ensures var o := Exec(u, NoteStepsFrom(k));
      forall j :: k < j <= NoteCount && !Exists(u, NotePath(j)) ==>
        NotePath(j) in o.tree.files && o.tree.files[NotePath(j)] == NoteText(j)
    decreases NoteCount - k
  {
    if k < NoteCount {
      var u2 := AfterNote(u, k);
      NoteStep(u, k);
      NoteLoopCreates(u2, k + 1);
      NoteLoopFrame(u2, k + 1);
      forall j | k + 1 < j <= NoteCount
        ensures NotePath(j) != NotePath(k + 1)
      {
        DayPathsDistinct(j, k + 1);
      }
      assert NotePath(k + 1) !in NotesFrom(k + 1);
    }
  }

  /** The note loop from day `k + 1` on changes no file but notes whose path
      was free: an existing note keeps its content. */
  lemma {:induction false} NoteLoopFrame(u: Tree, k: nat)
    requires NotesDir in u.dirs && NotesDir !in u.files
    ensures var o := Exec(u, NoteStepsFrom(k));
      forall p :: p !in NotesFrom(k) || Exists(u, p) ==>
        && (p in o.tree.files <==> p in u.files)
        && (p in u.files ==> o.tree.files[p] == u.files[p])
    decreases NoteCount - k
  {
    if k < NoteCount {
      var u2 := AfterNote(u, k);
      NoteStep(u, k);
      NoteLoopFrame(u2, k + 1);
      assert NotesFrom(k) == {NotePath(k + 1)} + NotesFrom(k + 1);
    }
  }

  // ---- The top-level directories and the placeholders ----------------------------

  /** Making top-level directories one after another leaves the files alone;
      it runs through exactly when none of them is a file, and then adds
      exactly those directories. */
  lemma {:induction false} MakeAllResult(t: Tree, ds: seq<Path>)
    requires forall i :: 0 <= i < |ds| ==> |ds[i]| == 1
    ensures var o := Exec(t, MakeAll(ds));
      && o.tree.files == t.files
      && t.dirs <= o.tree.dirs
      && (o.failure.None? <==> forall i :: 0 <= i < |ds| ==> ds[i] !in t.files)
      && (o.failure.None? ==> o.tree.dirs == t.dirs + set i | 0 <= i < |ds| :: ds[i])
    decreases |ds|
  {
    if ds != [] {
      var d := ds[0];
      assert MakeAll(ds)[0] == MakeDirs(d) && MakeAll(ds)[1..] == MakeAll(ds[1..]);
      assert Prefixes(d) == {d} by {
        assert d[..1] == d;
      }
      MakeDirsEffect(t, d);
      var o1 := MakeDirsAt(t, d);
      MakeAllResult(o1.tree, ds[1..]);
      if o1.failure.None? {
        assert (set i | 0 <= i < |ds| :: ds[i]) == {d} + set i | 0 <= i < |ds[1..]| :: ds[1..][i];
        forall i | 0 <= i < |ds| && ds[i] in t.files
          ensures Exec(t, MakeAll(ds)).failure.Some?
        {
          assert ds[i] == ds[1..][i - 1];
        }
      }
    }
  }

  /** The top-level directories as a set. */
  const TopDirSet: set<Path> := {DaysDir, TemplatesDir, ResourcesDir, AssignmentsDir, NotesDir}

  /** The placeholder READMEs as a set. */
  const PlaceholderSet: set<Path> := {TemplatesReadme, ResourcesReadme, AssignmentsReadme}

  /** The three placeholder READMEs are overwritten whatever they held; the
      writes go through exactly when none of the three paths is a
      directory. */
  lemma PlaceholdersResult(v: Tree)
    requires TemplatesDir in v.dirs && ResourcesDir in v.dirs && AssignmentsDir in v.dirs
    requires TemplatesDir !in v.files && ResourcesDir !in v.files && AssignmentsDir !in v.files
    ensures var o := Exec(v, PlaceholderSteps);
      && o.tree.dirs == v.dirs
      && (o.failure.None? <==> PlaceholderSet !! v.dirs)
      && (o.failure.None? ==>
            o.tree.files == v.files[TemplatesReadme := TemplatesText][ResourcesReadme := ResourcesText][AssignmentsReadme := AssignmentsText])
      && (forall p :: p !in PlaceholderSet ==> (p in o.tree.files <==> p in v.files) && (p in v.files ==> o.tree.files[p] == v.files[p]))
  {
    var steps := PlaceholderSteps;
    ExecPair(v, steps[0], steps[1], [steps[2]]);
    assert steps == [steps[0], steps[1]] + [steps[2]];
    WriteInTopDir(v, TemplatesReadme, TemplatesText);
    var o1 := WriteAt(v, TemplatesReadme, Ok(TemplatesText));
    WriteInTopDir(o1.tree, ResourcesReadme, ResourcesText);
    var o2 := WriteAt(o1.tree, ResourcesReadme, Ok(ResourcesText));
    WriteInTopDir(o2.tree, AssignmentsReadme, AssignmentsText);
  }

  /** Writing a file into an existing top-level directory fails only when a
      directory is in its place. */
  lemma WriteInTopDir(t: Tree, p: Path, text: string)
    requires |p| == 2 && [p[0]] in t.dirs && [p[0]] !in t.files
    ensures WriteAt(t, p, Ok(text)) ==
      if p in t.dirs then Outcome(t, Some(IsADirectoryError(p))) else Outcome(Tree(t.files[p := text], t.dirs), None)
  {
    assert p[..1] == [p[0]];
  }

  // ---- The whole run ------------------------------------------------------------

  /** The tree after the top-level directories. */
  function AfterTop(t: Tree): Tree {
    Exec(t, MakeAll(TopDirs)).tree
  }

  /** The tree after the day loop. */
  function AfterDays(t: Tree, docs: seq<Result<string>>): Tree {
    Exec(AfterTop(t), DayStepsFrom(docs, 0)).tree
  }

  /** The tree after the note loop. */
  function AfterNotes(t: Tree, docs: seq<Result<string>>): Tree {
    Exec(AfterDays(t, docs), NoteStepsFrom(0)).tree
  }

  /** A run is its four phases one after another; it runs through exactly
      when the top-level directories, the day loop and the placeholders do
      (the note loop cannot raise). */
  lemma RunPhases(t: Tree, docs: seq<Result<string>>)
    ensures var o := Exec(t, RunSteps(docs));
      && (o.failure.None? <==>
            && Exec(t, MakeAll(TopDirs)).failure.None?
            && Exec(AfterTop(t), DayStepsFrom(docs, 0)).failure.None?
            && Exec(AfterNotes(t, docs), PlaceholderSteps).failure.None?)
      && (o.failure.None? ==> o.tree == Exec(AfterNotes(t, docs), PlaceholderSteps).tree)
  {
    var top, dayLoop, noteLoop := MakeAll(TopDirs), DayStepsFrom(docs, 0), NoteStepsFrom(0);
    ExecAppend(t, top, dayLoop + (noteLoop + PlaceholderSteps));
    ExecAppend(AfterTop(t), dayLoop, noteLoop + PlaceholderSteps);
    ExecAppend(AfterDays(t, docs), noteLoop, PlaceholderSteps);
    var o1 := Exec(t, top);
    MakeAllResult(t, TopDirs);
    if o1.failure.None? {
      assert TopDirs[0] == DaysDir && TopDirs[4] == NotesDir;
      var o2 := Exec(AfterTop(t), dayLoop);
      if o2.failure.None? {
        DayLoopDirs(AfterTop(t), docs, 0);
        DayLoopFrame(AfterTop(t), docs, 0);
        assert NotesDir !in DayReadmesFrom(docs, 0);
        NoteLoopSucceeds(AfterDays(t, docs), 0);
      }
    }
  }

  /** What a whole run needs from the tree it starts in: every README
      renders, no top-level directory and no day directory is a file, and no
      README path is a directory. */
  predicate RunClear(t: Tree, docs: seq<Result<string>>) {
    && (forall d :: d in TopDirSet ==> d !in t.files)
    && (forall i :: 0 <= i < |docs| ==> docs[i].Ok?)
    && (forall j :: 0 < j <= |docs| ==> DayDir(j) !in t.files && DayReadme(j) !in t.dirs)
    && PlaceholderSet !! t.dirs
  }

  /** What the phases of a run that went through leave behind. */
  lemma PhasesRunThrough(t: Tree, docs: seq<Result<string>>)
    requires Exec(t, RunSteps(docs)).failure.None?
    ensures AfterTop(t).files == t.files && AfterTop(t).dirs == t.dirs + TopDirSet
    ensures Exec(AfterTop(t), DayStepsFrom(docs, 0)).failure.None?
    ensures AfterDays(t, docs).dirs == t.dirs + TopDirSet + DayDirsFrom(docs, 0)
    ensures AfterNotes(t, docs).dirs == AfterDays(t, docs).dirs
    ensures forall d :: d in TopDirSet ==> d !in t.files && d !in AfterNotes(t, docs).files
    ensures Exec(AfterNotes(t, docs), PlaceholderSteps).failure.None?
    ensures Exec(t, RunSteps(docs)).tree == Exec(AfterNotes(t, docs), PlaceholderSteps).tree
  {
    RunPhases(t, docs);
    TopPhase(t);
    DayLoopDirs(AfterTop(t), docs, 0);
    DayLoopFrame(AfterTop(t), docs, 0);
    NoteLoopSucceeds(AfterDays(t, docs), 0);
    NoteLoopFrame(AfterDays(t, docs), 0);
    TopDirsStayFree(t.files, AfterDays(t, docs).files, AfterNotes(t, docs).files, docs);
  }

  /** No top-level directory becomes a file in the day loop or the note
      loop, which write only READMEs and notes. */
  lemma TopDirsStayFree(t: map<Path, string>, u: map<Path, string>, v: map<Path, string>, docs: seq<Result<string>>)
    requires forall d :: d in TopDirSet ==> d !in t
    requires forall p :: p !in DayReadmesFrom(docs, 0) ==> (p in u <==> p in t)
    requires forall p :: p !in NotesFrom(0) ==> (p in v <==> p in u)
    ensures forall d :: d in TopDirSet ==> d !in v
  {
    TopDirsApart(docs);
  }

  /** After a run that went through, every day README holds its rendered
      text: no rendering raised. */
  lemma RunReadmes(t: Tree, docs: seq<Result<string>>)
    requires Exec(t, RunSteps(docs)).failure.None?
    ensures ReadmesWritten(Exec(t, RunSteps(docs)).tree.files, docs, 0)
  {
    PhasesRunThrough(t, docs);
    var u, v := AfterDays(t, docs), AfterNotes(t, docs);
    DayLoopReadmes(AfterTop(t), docs, 0);
    NoteLoopFrame(u, 0);
    PlaceholdersResult(v);
    ReadmesSurvive(u.files, v.files, Exec(t, RunSteps(docs)).tree.files, docs);
  }

  /** The READMEs the day loop wrote are still there after the note loop
      and the placeholders, which write only two-component paths. */
  lemma ReadmesSurvive(u: map<Path, string>, v: map<Path, string>, w: map<Path, string>, docs: seq<Result<string>>)
    requires ReadmesWritten(u, docs, 0)
    requires forall p :: p !in NotesFrom(0) ==> (p in v <==> p in u) && (p in u ==> v[p] == u[p])
    requires forall p :: p !in PlaceholderSet ==> (p in w <==> p in v) && (p in v ==> w[p] == v[p])
    ensures ReadmesWritten(w, docs, 0)
  {
    forall q | q in NotesFrom(0) ensures |q| == 2 { }
    ReadmesKept(u, v, NotesFrom(0), docs);
    ReadmesKept(v, w, PlaceholderSet, docs);
  }

  /** Writes confined to two-component paths keep every README. */
  lemma ReadmesKept(u: map<Path, string>, v: map<Path, string>, written: set<Path>, docs: seq<Result<string>>)
    requires ReadmesWritten(u, docs, 0)
    requires forall q :: q in written ==> |q| == 2
    requires forall p :: p !in written ==> (p in v <==> p in u) && (p in u ==> v[p] == u[p])
    ensures ReadmesWritten(v, docs, 0)
  {
    forall i | 0 <= i < |docs|
      ensures docs[i].Ok? && DayReadme(i + 1) in v && v[DayReadme(i + 1)] == docs[i].value
    {
      var p := DayReadme(i + 1);
      ReadmeAt(u, docs, i);
      assert |p| == 3;
      assert p !in written;
      assert (p in v <==> p in u) && (p in u ==> v[p] == u[p]);
    }
    assert ReadmesWritten(v, docs, 0);
  }

  /** One README of a map that holds them all. */
  lemma ReadmeAt(files: map<Path, string>, docs: seq<Result<string>>, i: nat)
    requires ReadmesWritten(files, docs, 0) && i < |docs|
    ensures docs[i].Ok? && DayReadme(i + 1) in files && files[DayReadme(i + 1)] == docs[i].value
  {
  }

  /** A note path is none of the other paths a run makes or writes. */
  lemma NotePathApart(j: nat, docs: seq<Result<string>>)
    ensures var p := NotePath(j);
      p !in DayReadmesFrom(docs, 0) && p !in DayDirsFrom(docs, 0) && p !in PlaceholderSet && p !in TopDirSet
  {
    forall i | 0 < i <= |docs|
      ensures DayDir(i) != NotePath(j) && DayReadme(i) != NotePath(j)
    {
      assert DayDir(i)[0] != NotePath(j)[0];
    }
  }

  /** In every run a note that was already a file keeps its content, even
      when the run stops at an exception; after a run that went through, a
      note whose path was free holds the fresh note text. */
  lemma RunNotes(t: Tree, docs: seq<Result<string>>)
    ensures var o := Exec(t, RunSteps(docs));
      forall j :: 1 <= j <= NoteCount ==>
        && (NotePath(j) in t.files ==> NotePath(j) in o.tree.files && o.tree.files[NotePath(j)] == t.files[NotePath(j)])
        && (o.failure.None? && !Exists(t, NotePath(j)) ==> NotePath(j) in o.tree.files && o.tree.files[NotePath(j)] == NoteText(j))
  {
    RunFrame(t, docs);
    forall j | 1 <= j <= NoteCount
      ensures NotePath(j) !in DayReadmesFrom(docs, 0) && NotePath(j) !in PlaceholderSet
    {
      NotePathApart(j, docs);
    }
    if Exec(t, RunSteps(docs)).failure.None? {
      RunNotesCreated(t, docs);
    }
  }

  /** The creating half of `RunNotes`, for a run that went through. */
  lemma RunNotesCreated(t: Tree, docs: seq<Result<string>>)
    requires Exec(t, RunSteps(docs)).failure.None?
    ensures var files := Exec(t, RunSteps(docs)).tree.files;
      forall j :: 1 <= j <= NoteCount && !Exists(t, NotePath(j)) ==>
        NotePath(j) in files && files[NotePath(j)] == NoteText(j)
  {
    PhasesRunThrough(t, docs);
    var u := AfterDays(t, docs);
    DayLoopFrame(AfterTop(t), docs, 0);
    NoteLoopCreates(u, 0);
    PlaceholdersResult(AfterNotes(t, docs));
    forall j | 1 <= j <= NoteCount
      ensures NotePath(j) !in DayReadmesFrom(docs, 0) && NotePath(j) !in PlaceholderSet
      ensures Exists(u, NotePath(j)) == Exists(t, NotePath(j))
    {
      NotePathApart(j, docs);
    }
  }

  /** After a run that went through, the three placeholders hold their fixed
      texts, whatever they held before. */
  lemma RunPlaceholders(t: Tree, docs: seq<Result<string>>)
    requires Exec(t, RunSteps(docs)).failure.None?
    ensures var files := Exec(t, RunSteps(docs)).tree.files;
      && TemplatesReadme in files && files[TemplatesReadme] == TemplatesText
      && ResourcesReadme in files && files[ResourcesReadme] == ResourcesText
      && AssignmentsReadme in files && files[AssignmentsReadme] == AssignmentsText
  {
    PhasesRunThrough(t, docs);
    PlaceholdersResult(AfterNotes(t, docs));
  }

  /** After a run that went through, the directories are those from before,
      the five top-level ones and one per day record, and no other. */
  lemma RunDirs(t: Tree, docs: seq<Result<string>>)
    requires Exec(t, RunSteps(docs)).failure.None?
    ensures Exec(t, RunSteps(docs)).tree.dirs == t.dirs + TopDirSet + DayDirsFrom(docs, 0)
  {
    PhasesRunThrough(t, docs);
    PlaceholdersResult(AfterNotes(t, docs));
  }

  /** Nothing else changes: in every run, one that goes through or one that
      stops at an exception, a file other than a day README, a placeholder or
      a note whose path was free is there afterwards exactly when it was
      there before, with the same content. */
  lemma RunFrame(t: Tree, docs: seq<Result<string>>)
    ensures var files := Exec(t, RunSteps(docs)).tree.files;
      forall p :: p !in DayReadmesFrom(docs, 0) && p !in PlaceholderSet && (p !in NotesFrom(0) || Exists(t, p)) ==>
        && (p in files <==> p in t.files)
        && (p in t.files ==> files[p] == t.files[p])
  {
    RunOverwrites(docs);
    RunCreated(docs);
    forall p | p !in DayReadmesFrom(docs, 0) && p !in PlaceholderSet && (p !in NotesFrom(0) || Exists(t, p))
      ensures var files := Exec(t, RunSteps(docs)).tree.files;
        && (p in files <==> p in t.files)
        && (p in t.files ==> files[p] == t.files[p])
    {
      ExecKeepsPath(t, RunSteps(docs), p);
    }
  }

  /** The top-level directories: the files stay, the five directories are
      added when none of them is a file. */
  lemma TopPhase(t: Tree)
    ensures AfterTop(t).files == t.files
    ensures Exec(t, MakeAll(TopDirs)).failure.None? <==> forall d :: d in TopDirSet ==> d !in t.files
    ensures Exec(t, MakeAll(TopDirs)).failure.None? ==> AfterTop(t).dirs == t.dirs + TopDirSet
  {
    MakeAllResult(t, TopDirs);
    TopDirsListed();
  }

  /** The top-level directories, listed in the order `main` makes them. */
  lemma TopDirsListed()
    ensures TopDirSet == set i | 0 <= i < |TopDirs| :: TopDirs[i]
  {
    assert TopDirs[0] == DaysDir && TopDirs[1] == TemplatesDir && TopDirs[2] == ResourcesDir;
    assert TopDirs[3] == AssignmentsDir && TopDirs[4] == NotesDir;
  }

  /** On a clear tree the day loop goes through. */
  lemma DayPhaseFromClear(t: Tree, docs: seq<Result<string>>)
    requires RunClear(t, docs)
    ensures Exec(AfterTop(t), DayStepsFrom(docs, 0)).failure.None?
  {
    TopPhase(t);
    var u := AfterTop(t);
    forall i | 0 <= i < |docs|
      ensures docs[i].Ok? && DayDir(i + 1) !in u.files && DayReadme(i + 1) !in u.dirs
    {
      assert docs[i].Ok?;
      assert DayDir(i + 1) !in t.files && DayReadme(i + 1) !in t.dirs;
      assert |DayReadme(i + 1)| == 3;
    }
    assert DayLoopClear(u, docs, 0);
    DayLoopSucceeds(u, docs, 0);
  }

  /** On a clear tree the placeholders are written. */
  lemma PlaceholderPhaseFromClear(t: Tree, docs: seq<Result<string>>)
    requires RunClear(t, docs)
    ensures Exec(AfterNotes(t, docs), PlaceholderSteps).failure.None?
  {
    TopPhase(t);
    DayPhaseFromClear(t, docs);
    var u := AfterTop(t);
    DayLoopDirs(u, docs, 0);
    DayLoopFrame(u, docs, 0);
    NoteLoopSucceeds(AfterDays(t, docs), 0);
    NoteLoopFrame(AfterDays(t, docs), 0);
    TopDirsApart(docs);
    PlaceholdersApart(docs);
    PlaceholdersResult(AfterNotes(t, docs));
  }

  /** A placeholder path is no day directory. */
  lemma PlaceholdersApart(docs: seq<Result<string>>)
    ensures forall p :: p in PlaceholderSet ==> p !in DayDirsFrom(docs, 0)
  {
    forall p, i | p in PlaceholderSet && 0 < i <= |docs|
      ensures DayDir(i) != p
    {
      assert DayDir(i)[0] != p[0];
    }
  }

  /** A tree with nothing in the way lets a run go through. */
  lemma RunSucceeds(t: Tree, docs: seq<Result<string>>)
    requires RunClear(t, docs)
    ensures Exec(t, RunSteps(docs)).failure.None?
  {
    RunPhases(t, docs);
    TopPhase(t);
    DayPhaseFromClear(t, docs);
    PlaceholderPhaseFromClear(t, docs);
  }

  /** On a well-formed tree the converse holds too: a run that went through
      found nothing in the way, so it goes through exactly when the tree is
      clear. */
  lemma RunNeedsClear(t: Tree, docs: seq<Result<string>>)
    requires Valid(t) && Exec(t, RunSteps(docs)).failure.None?
    ensures RunClear(t, docs)
  {
    ExecKeepsValid(t, RunSteps(docs));
    RunDirs(t, docs);
    RunFrame(t, docs);
    RunReadmes(t, docs);
    RunPlaceholders(t, docs);
    ClearFromResult(t, Exec(t, RunSteps(docs)).tree, docs);
  }

  /** The reasoning of `RunNeedsClear` on the tree a run left behind: a
      directory the run made cannot have been a file, and a file it wrote
      cannot have been a directory. */
  lemma ClearFromResult(t: Tree, u: Tree, docs: seq<Result<string>>)
    requires Valid(u)
    requires u.dirs == t.dirs + TopDirSet + DayDirsFrom(docs, 0)
    requires forall p :: p !in DayReadmesFrom(docs, 0) && p !in PlaceholderSet && (p !in NotesFrom(0) || Exists(t, p)) ==>
      && (p in u.files <==> p in t.files)
      && (p in t.files ==> u.files[p] == t.files[p])
    requires ReadmesWritten(u.files, docs, 0)
    requires TemplatesReadme in u.files && ResourcesReadme in u.files && AssignmentsReadme in u.files
    ensures RunClear(t, docs)
  {
    TopDirsApart(docs);
    forall j | 0 < j <= |docs|
      ensures DayDir(j) !in t.files && DayReadme(j) !in t.dirs
    {
      DayDirApart(j, docs);
      assert docs[j - 1].Ok?;
      assert DayReadme(j) in u.files;
    }
  }

  /** A top-level directory is none of the files a run writes. */
  lemma TopDirsApart(docs: seq<Result<string>>)
    ensures forall d :: d in TopDirSet ==> d !in DayReadmesFrom(docs, 0) && d !in NotesFrom(0) && d !in PlaceholderSet
  {
  }

  /** A day directory is one the run makes and none of the files it
      writes. */
  lemma DayDirApart(j: nat, docs: seq<Result<string>>)
    requires 0 < j <= |docs|
    ensures var d := DayDir(j);
      d in DayDirsFrom(docs, 0) && d !in DayReadmesFrom(docs, 0) && d !in NotesFrom(0) && d !in PlaceholderSet
  {
    forall k | 0 < k ensures NotePath(k) != DayDir(j) {
      assert NotePath(k)[0] != DayDir(j)[0];
    }
  }

  /** The READMEs, the placeholders and nothing else are overwritten, each
      once. */
  lemma RunOverwrites(docs: seq<Result<string>>)
    ensures Overwritten(RunSteps(docs)) == DayReadmesFrom(docs, 0) + PlaceholderSet
    ensures DistinctOverwrites(RunSteps(docs))
  {
    MakeAllOverwrites(TopDirs);
    DayLoopOverwrites(docs, 0);
    NoteLoopOverwrites(0);
    PlaceholderOverwrites();
    forall p | p in PlaceholderSet ensures p !in DayReadmesFrom(docs, 0) {
      assert |p| == 2;
    }
    OverwritesOfPhases(MakeAll(TopDirs), DayStepsFrom(docs, 0), NoteStepsFrom(0), PlaceholderSteps);
  }

  /** Four phases where only the second and the fourth overwrite, each file
      once and different files. */
  lemma OverwritesOfPhases(top: seq<Step>, dayLoop: seq<Step>, noteLoop: seq<Step>, placeholders: seq<Step>)
    requires Overwritten(top) == {} && Overwritten(noteLoop) == {}
    requires DistinctOverwrites(top) && DistinctOverwrites(dayLoop) && DistinctOverwrites(noteLoop) && DistinctOverwrites(placeholders)
    requires Overwritten(dayLoop) !! Overwritten(placeholders)
    ensures Overwritten(top + (dayLoop + (noteLoop + placeholders))) == Overwritten(dayLoop) + Overwritten(placeholders)
    ensures DistinctOverwrites(top + (dayLoop + (noteLoop + placeholders)))
  {
    OverwrittenAppend(noteLoop, placeholders);
    DistinctAppend(noteLoop, placeholders);
    OverwrittenAppend(dayLoop, noteLoop + placeholders);
    DistinctAppend(dayLoop, noteLoop + placeholders);
    OverwrittenAppend(top, dayLoop + (noteLoop + placeholders));
    DistinctAppend(top, dayLoop + (noteLoop + placeholders));
  }

  lemma PlaceholderOverwrites()
    ensures Overwritten(PlaceholderSteps) == PlaceholderSet && DistinctOverwrites(PlaceholderSteps)
  {
    var ph := PlaceholderSteps;
    assert Overwritten(ph[2..]) == {AssignmentsReadme} && DistinctOverwrites(ph[2..]) by {
      assert ph[2..][1..] == [];
    }
    assert ph[1..][1..] == ph[2..];
    assert Overwritten(ph[1..]) == {ResourcesReadme, AssignmentsReadme} && DistinctOverwrites(ph[1..]);
  }

  lemma {:induction false} MakeAllOverwrites(ds: seq<Path>)
    ensures Overwritten(MakeAll(ds)) == {} && DistinctOverwrites(MakeAll(ds))
    decreases |ds|
  {
    if ds != [] {
      assert MakeAll(ds)[1..] == MakeAll(ds[1..]);
      MakeAllOverwrites(ds[1..]);
    }
  }

  lemma {:induction false} DayLoopOverwrites(docs: seq<Result<string>>, k: nat)
    ensures Overwritten(DayStepsFrom(docs, k)) == DayReadmesFrom(docs, k)
    ensures DistinctOverwrites(DayStepsFrom(docs, k))
    decreases |docs| - k
  {
    if k < |docs| {
      var steps := DayStepsFrom(docs, k);
      DayLoopOverwrites(docs, k + 1);
      assert steps[1..][1..] == DayStepsFrom(docs, k + 1);
      assert DayReadmesFrom(docs, k) == {DayReadme(k + 1)} + DayReadmesFrom(docs, k + 1);
      forall j | k + 1 < j <= |docs|
        ensures DayReadme(j) != DayReadme(k + 1)
      {
        DayPathsDistinct(j, k + 1);
      }
    }
  }

  lemma {:induction false} NoteLoopOverwrites(k: nat)
    ensures Overwritten(NoteStepsFrom(k)) == {} && DistinctOverwrites(NoteStepsFrom(k))
    decreases NoteCount - k
  {
    if k < NoteCount {
      assert NoteStepsFrom(k)[1..][1..] == NoteStepsFrom(k + 1);
      NoteLoopOverwrites(k + 1);
    }
  }

  /** The notes and nothing else are written only where nothing is. */
  lemma RunCreated(docs: seq<Result<string>>)
    ensures Created(RunSteps(docs)) == NotesFrom(0)
  {
    MakeAllCreates(TopDirs);
    DayLoopCreatesNothing(docs, 0);
    NoteLoopCreated(0);
    var ph := PlaceholderSteps;
    assert Created(ph[2..]) == {} by {
      assert ph[2..][1..] == [];
    }
    assert ph[1..][1..] == ph[2..];
    assert Created(ph[1..]) == {};
    CreatedAppend(NoteStepsFrom(0), ph);
    CreatedAppend(DayStepsFrom(docs, 0), NoteStepsFrom(0) + ph);
    CreatedAppend(MakeAll(TopDirs), DayStepsFrom(docs, 0) + (NoteStepsFrom(0) + ph));
  }

  lemma {:induction false} MakeAllCreates(ds: seq<Path>)
    ensures Created(MakeAll(ds)) == {}
    decreases |ds|
  {
    if ds != [] {
      assert MakeAll(ds)[1..] == MakeAll(ds[1..]);
      MakeAllCreates(ds[1..]);
    }
  }

  lemma {:induction false} DayLoopCreatesNothing(docs: seq<Result<string>>, k: nat)
    ensures Created(DayStepsFrom(docs, k)) == {}
    decreases |docs| - k
  {
    if k < |docs| {
      assert DayStepsFrom(docs, k)[1..][1..] == DayStepsFrom(docs, k + 1);
      DayLoopCreatesNothing(docs, k + 1);
    }
  }

  lemma {:induction false} NoteLoopCreated(k: nat)
    ensures Created(NoteStepsFrom(k)) == NotesFrom(k)
    decreases NoteCount - k
  {
    if k < NoteCount {
      assert NoteStepsFrom(k)[1..][1..] == NoteStepsFrom(k + 1);
      NoteLoopCreated(k + 1);
      assert NotesFrom(k) == {NotePath(k + 1)} + NotesFrom(k + 1);
    }
  }

  /** Running `main` a second time, on whatever the first run left behind,
      gives the same tree and the same exception: directories are made only
      when missing, READMEs and placeholders are written with the same text
      again, and notes are left alone once they are there. */
  lemma RunIdempotent(t: Tree, docs: seq<Result<string>>)
    requires Valid(t)
    ensures Exec(Exec(t, RunSteps(docs)).tree, RunSteps(docs)) == Exec(t, RunSteps(docs))
  {
    RunOverwrites(docs);
    ExecIdempotent(t, RunSteps(docs));
  }

  // ---- The run for the day records ------------------------------------------------

  /** A record `build_readme` renders without a `KeyError`. */
  predicate Complete(rec: DayRecord) {
    rec.title.Some? && rec.focus.Some?
  }

  lemma RenderAllOk(days: seq<DayRecord>)
    ensures |RenderAll(days)| == |days|
    ensures forall i :: 0 <= i < |days| ==> (RenderAll(days)[i].Ok? <==> Complete(days[i]))
  {
    forall i | 0 <= i < |days|
      ensures RenderAll(days)[i].Ok? <==> Complete(days[i])
    {
      RenderFailsOnlyOnMissingKey(i + 1, days[i]);
    }
  }

  /** After `main` went through, every record had a title and a focus and the
      README of day `i` holds `build_readme(i, days_data[i - 1])`. */
  lemma PlanReadmes(t: Tree, days: seq<DayRecord>)
    requires Exec(t, Plan(days)).failure.None?
    ensures var files := Exec(t, Plan(days)).tree.files;
      forall i :: 0 <= i < |days| ==>
        && Complete(days[i])
        && DayReadme(i + 1) in files
        && Render(i + 1, days[i]) == Ok(files[DayReadme(i + 1)])
  {
    RunReadmes(t, RenderAll(days));
    ReadmesRendered(Exec(t, Plan(days)).tree.files, days);
  }

  /** `PlanReadmes` for any file map holding the READMEs. */
  lemma ReadmesRendered(files: map<Path, string>, days: seq<DayRecord>)
    requires ReadmesWritten(files, RenderAll(days), 0)
    ensures forall i :: 0 <= i < |days| ==>
      && Complete(days[i])
      && DayReadme(i + 1) in files
      && Render(i + 1, days[i]) == Ok(files[DayReadme(i + 1)])
  {
    var docs := RenderAll(days);
    RenderAllOk(days);
    forall i | 0 <= i < |days|
      ensures Complete(days[i]) && DayReadme(i + 1) in files && Render(i + 1, days[i]) == Ok(files[DayReadme(i + 1)])
    {
      ReadmeAt(files, docs, i);
      var d := docs[i];
      assert d == Render(i + 1, days[i]) && d.Ok? && files[DayReadme(i + 1)] == d.value;
    }
  }

  /** What `main` needs from the tree it starts in: every record has a title
      and a focus, no top-level directory and no day directory is a file,
      and no README path is a directory. */
  predicate PlanClear(t: Tree, days: seq<DayRecord>) {
    && (forall d :: d in TopDirSet ==> d !in t.files)
    && (forall i :: 0 <= i < |days| ==> Complete(days[i]))
    && (forall j :: 0 < j <= |days| ==> DayDir(j) !in t.files && DayReadme(j) !in t.dirs)
    && PlaceholderSet !! t.dirs
  }

  /** The records' part of `PlanClear` is the READMEs' part of `RunClear`. */
  lemma PlanClearIff(t: Tree, days: seq<DayRecord>)
    ensures PlanClear(t, days) <==> RunClear(t, RenderAll(days))
  {
    RenderAllOk(days);
    ClearIffRenders(t, days, RenderAll(days));
  }

  /** `PlanClearIff` for any READMEs that render exactly for the complete
      records. */
  lemma ClearIffRenders(t: Tree, days: seq<DayRecord>, docs: seq<Result<string>>)
    requires |docs| == |days|
    requires forall i :: 0 <= i < |days| ==> (docs[i].Ok? <==> Complete(days[i]))
    ensures PlanClear(t, days) <==> RunClear(t, docs)
  {
    assert (forall i :: 0 <= i < |docs| ==> docs[i].Ok?) <==> (forall i :: 0 <= i < |days| ==> Complete(days[i]));
  }

  /** On a well-formed tree, `main` runs without an exception exactly when
      nothing is in its way; in particular a record without a title or a
      focus always ends the run with an exception. */
  lemma PlanSucceedsIff(t: Tree, days: seq<DayRecord>)
    requires Valid(t)
    ensures Exec(t, Plan(days)).failure.None? <==> PlanClear(t, days)
  {
    var docs := RenderAll(days);
    PlanClearIff(t, days);
    if RunClear(t, docs) {
      RunSucceeds(t, docs);
    }
    if Exec(t, RunSteps(docs)).failure.None? {
      RunNeedsClear(t, docs);
    }
  }

  /** Running `main` twice leaves what running it once left, from any
      well-formed tree, and raises the same exception if it raised one. */
  lemma PlanIdempotent(t: Tree, days: seq<DayRecord>)
    requires Valid(t)
    ensures Exec(Exec(t, Plan(days)).tree, Plan(days)) == Exec(t, Plan(days))
  {
    RunIdempotent(t, RenderAll(days));
  }

  /** From an empty directory, a run that went through leaves exactly the
      day READMEs, the notes and the placeholders as files. */
  lemma EmptyRunFiles(docs: seq<Result<string>>)
    requires Exec(Tree(map[], {}), RunSteps(docs)).failure.None?
    ensures Exec(Tree(map[], {}), RunSteps(docs)).tree.files.Keys
      == DayReadmesFrom(docs, 0) + NotesFrom(0) + PlaceholderSet
  {
    var t := Tree(map[], {});
    var files := Exec(t, RunSteps(docs)).tree.files;
    RunFrame(t, docs);
    RunReadmes(t, docs);
    RunNotes(t, docs);
    RunPlaceholders(t, docs);
    forall j | 1 <= j <= NoteCount ensures NotePath(j) in files {
      assert !Exists(t, NotePath(j));
    }
    KeysFromParts(files, docs);
  }

  /** A map that holds every README, every note and the placeholders and
      nothing else has exactly those keys. */
  lemma KeysFromParts(files: map<Path, string>, docs: seq<Result<string>>)
    requires forall p :: p !in DayReadmesFrom(docs, 0) && p !in PlaceholderSet && p !in NotesFrom(0) ==> p !in files
    requires ReadmesWritten(files, docs, 0)
    requires forall j :: 1 <= j <= NoteCount ==> NotePath(j) in files
    requires TemplatesReadme in files && ResourcesReadme in files && AssignmentsReadme in files
    ensures files.Keys == DayReadmesFrom(docs, 0) + NotesFrom(0) + PlaceholderSet
  {
    forall p | p in DayReadmesFrom(docs, 0) ensures p in files {
      var j :| 0 < j <= |docs| && p == DayReadme(j);
      ReadmeAt(files, docs, j - 1);
    }
    forall p | p in NotesFrom(0) ensures p in files {
      var j :| 0 < j <= NoteCount && p == NotePath(j);
    }
  }

  /** From an empty directory, every note of a run that went through holds
      the fresh note text. */
  lemma EmptyRunNotes(docs: seq<Result<string>>)
    requires Exec(Tree(map[], {}), RunSteps(docs)).failure.None?
    ensures var files := Exec(Tree(map[], {}), RunSteps(docs)).tree.files;
      forall j :: 1 <= j <= NoteCount ==> NotePath(j) in files && files[NotePath(j)] == NoteText(j)
  {
    RunNotes(Tree(map[], {}), docs);
  }

  /** From an empty directory with complete records, `main` produces exactly
      the top-level and day directories, and exactly the day READMEs, the
      sixty notes and the three placeholders as files: sixty notes however
      many records there are. */
  lemma FromScratch(days: seq<DayRecord>)
    requires forall i :: 0 <= i < |days| ==> Complete(days[i])
    ensures var o := Exec(Tree(map[], {}), Plan(days));
      && o.failure.None?
      && o.tree.dirs == TopDirSet + DayDirsFrom(RenderAll(days), 0)
      && o.tree.files.Keys == DayReadmesFrom(RenderAll(days), 0) + NotesFrom(0) + PlaceholderSet
      && (forall j :: 1 <= j <= NoteCount ==> NotePath(j) in o.tree.files && o.tree.files[NotePath(j)] == NoteText(j))
  {
    var t, docs := Tree(map[], {}), RenderAll(days);
    assert PlanClear(t, days);
    PlanClearIff(t, days);
    RunSucceeds(t, docs);
    RunDirs(t, docs);
    EmptyRunFiles(docs);
    EmptyRunNotes(docs);
  }

  // ---- How many --------------------------------------------------------------------

  /** The note loop has sixty distinct note paths from day 1 on. */
  lemma {:induction false} NotesCount(k: nat)
    requires k <= NoteCount
    ensures |NotesFrom(k)| == NoteCount - k
    decreases NoteCount - k
  {
    if k < NoteCount {
      NotesCount(k + 1);
      forall j | k + 1 < j <= NoteCount
        ensures NotePath(j) != NotePath(k + 1)
      {
        DayPathsDistinct(j, k + 1);
      }
      assert NotesFrom(k) == {NotePath(k + 1)} + NotesFrom(k + 1);
    } else {
      assert NotesFrom(k) == {};
    }
  }

  /** One distinct day directory and one distinct README per record. */
  lemma {:induction false} DayCount(docs: seq<Result<string>>, k: nat)
    requires k <= |docs|
    ensures |DayDirsFrom(docs, k)| == |docs| - k
    ensures |DayReadmesFrom(docs, k)| == |docs| - k
    decreases |docs| - k
  {
    if k < |docs| {
      DayCount(docs, k + 1);
      forall j | k + 1 < j <= |docs|
        ensures DayDir(j) != DayDir(k + 1) && DayReadme(j) != DayReadme(k + 1)
      {
        DayPathsDistinct(j, k + 1);
      }
      assert DayDirsFrom(docs, k) == {DayDir(k + 1)} + DayDirsFrom(docs, k + 1);
      assert DayReadmesFrom(docs, k) == {DayReadme(k + 1)} + DayReadmesFrom(docs, k + 1);
    } else {
      assert DayDirsFrom(docs, k) == {};
      assert DayReadmesFrom(docs, k) == {};
    }
  }
}
