/** The generator's `main` as it runs: a file tree whose directories and
    files change in place, one operating-system call after another. */
module Materialiser {
  import opened Base
  import opened Text
  import opened Assembler
  import opened FileSystem
  import opened Scaffold

  /** The part of the file system below the working directory. */
  class FileTree {
    var files: map<Path, string>
    var dirs: set<Path>

    /** The tree as a value. */
    function Snapshot(): Tree
      reads this
    {
      Tree(files, dirs)
    }

    constructor (t: Tree)
      ensures Snapshot() == t
    {
      files := t.files;
      dirs := t.dirs;
    }

    /** `Path(p).mkdir(parents=True, exist_ok=True)`. */
    method MakeDirs(p: Path) returns (err: Option<Failure>)
      modifies this
      ensures Outcome(Snapshot(), err) == MakeDirsAt(old(Snapshot()), p)
    {
      if exists i :: 0 < i < |p| && p[..i] in files {
        return Some(NotADirectoryError(p));
      }
      if p in files {
        return Some(FileExistsError(p));
      }
      dirs := dirs + set i | 0 < i <= |p| :: p[..i];
      return None;
    }

    /** `Path(p).exists()`. */
    method PathExists(p: Path) returns (b: bool)
      ensures b <==> p == [] || p in files || p in dirs
      ensures b <==> Exists(Snapshot(), p)
    {
      b := p == [] || p in files || p in dirs;
    }

    /** `Path(p).open("w")`: the file is created, or truncated if it is
        there. */
    method Open(p: Path) returns (err: Option<Failure>)
      modifies this
      ensures Outcome(Snapshot(), err) == WriteAt(old(Snapshot()), p, Ok(""))
      ensures err.None? ==> p in files && files[p] == ""
    {
      if exists i :: 0 < i < |p| && p[..i] in files {
        return Some(NotADirectoryError(p));
      }
      if |p| > 1 && p[..|p| - 1] !in dirs {
        return Some(FileNotFoundError(p));
      }
      if p == [] || p in dirs {
        return Some(IsADirectoryError(p));
      }
      files := files[p := ""];
      return None;
    }

    /** `f.write(text)` on the file opened at `p`: the text goes after what
        is already there. */
    method Write(p: Path, text: string)
      requires p in files
      modifies this
      ensures files == old(files)[p := old(files)[p] + text]
      ensures dirs == old(dirs)
    {
      files := files[p := files[p] + text];
    }

    /** `Path(p).write_text(text)`: open for writing, then write. */
    method WriteText(p: Path, text: string) returns (err: Option<Failure>)
      modifies this
      ensures Outcome(Snapshot(), err) == WriteAt(old(Snapshot()), p, Ok(text))
    {
      OpenThenWrite(Snapshot(), p, Ok(text));
      err := Open(p);
      if err.None? {
        Write(p, text);
      }
    }

    /** `with p.open("w") as f: f.write(build_readme(day, rec))`: the file
        is truncated before the text is computed, so a `KeyError` leaves it
        empty. */
    method WriteReadme(day: nat, rec: DayRecord, p: Path) returns (err: Option<Failure>)
      modifies this
      ensures Outcome(Snapshot(), err) == WriteAt(old(Snapshot()), p, Render(day, rec))
    {
      ghost var before := Snapshot();
      err := Open(p);
      if err.Some? {
        OpenThenWrite(before, p, Render(day, rec));
        return;
      }
      var doc := BuildReadme(day, rec);
      OpenThenWrite(before, p, doc);
      match doc
      case Ok(text) =>
        Write(p, text);
      case Err(e) =>
        err := Some(e);
    }

    /** The first loop of `main`: make the five top-level directories. */
    method MakeTopDirs() returns (failure: Option<Failure>)
      modifies this
      ensures Outcome(Snapshot(), failure) == Exec(old(Snapshot()), MakeAll(TopDirs))
    {
      ghost var goal := Exec(Snapshot(), MakeAll(TopDirs));
      failure := None;
      assert TopDirs[0..] == TopDirs;
      for i := 0 to |TopDirs|
        invariant failure.None?
        invariant Exec(Snapshot(), MakeAll(TopDirs[i..])) == goal
      {
        ExecCons(Snapshot(), Step.MakeDirs(TopDirs[i]), MakeAll(TopDirs[i + 1..]));
        assert MakeAll(TopDirs[i..]) == [Step.MakeDirs(TopDirs[i])] + MakeAll(TopDirs[i + 1..]);
        failure := MakeDirs(TopDirs[i]);
        if failure.Some? {
          return;
        }
      }
    }

    /** The day loop of `main`: for day `i`, make `days/day-ii` and write
        `build_readme(i, days_data[i - 1])` into its README. */
    method WriteDays(days: seq<DayRecord>) returns (failure: Option<Failure>)
      modifies this
      ensures Outcome(Snapshot(), failure) == Exec(old(Snapshot()), DayStepsFrom(RenderAll(days), 0))
    {
      ghost var docs := RenderAll(days);
      ghost var goal := Exec(Snapshot(), DayStepsFrom(docs, 0));
      assert |docs| == |days|;
      failure := None;
      for i := 0 to |days|
        invariant failure.None?
        invariant Exec(Snapshot(), DayStepsFrom(docs, i)) == goal
      {
        var dayDir, readme := DayDir(i + 1), DayReadme(i + 1);
        ghost var before := Snapshot();
        DayRound(before, docs, i);
        failure := MakeDirs(dayDir);
        if failure.Some? {
          return;
        }
        ghost var made := Snapshot();
        assert made == MakeDirsAt(before, dayDir).tree;
        failure := WriteReadme(i + 1, days[i], readme);
        assert docs[i] == Render(i + 1, days[i]);
        assert Outcome(Snapshot(), failure) == WriteAt(made, readme, docs[i]);
        if failure.Some? {
          return;
        }
      }
      assert DayStepsFrom(docs, |days|) == [];
    }

    /** The note loop of `main`, for days 1 to 60: make `notes` again and
        write the note only when nothing is at its path. */
    method WriteNotes() returns (failure: Option<Failure>)
      modifies this
      ensures Outcome(Snapshot(), failure) == Exec(old(Snapshot()), NoteStepsFrom(0))
    {
      ghost var goal := Exec(Snapshot(), NoteStepsFrom(0));
      failure := None;
      for i := 1 to NoteCount + 1
        invariant failure.None?
        invariant Exec(Snapshot(), NoteStepsFrom(i - 1)) == goal
      {
        var note, text := NotePath(i), NoteText(i);
        assert note[..|note| - 1] == NotesDir;
        ExecPair(Snapshot(), Step.MakeDirs(NotesDir), CreateIfAbsent(note, text), NoteStepsFrom(i));
        failure := MakeDirs(note[..|note| - 1]);
        if failure.Some? {
          return;
        }
        var present := PathExists(note);
        if !present {
          failure := WriteText(note, text);
          if failure.Some? {
            return;
          }
        }
      }
    }

    /** The three `write_text` calls at the end of `main`. */
    method WritePlaceholders() returns (failure: Option<Failure>)
      modifies this
      ensures Outcome(Snapshot(), failure) == Exec(old(Snapshot()), PlaceholderSteps)
    {
      ExecCons(Snapshot(), PlaceholderSteps[0], PlaceholderSteps[1..]);
      assert PlaceholderSteps == [PlaceholderSteps[0]] + PlaceholderSteps[1..];
      failure := WriteText(TemplatesReadme, TemplatesText);
      if failure.Some? {
        return;
      }
      ExecCons(Snapshot(), PlaceholderSteps[1], PlaceholderSteps[2..]);
      assert PlaceholderSteps[1..] == [PlaceholderSteps[1]] + PlaceholderSteps[2..];
      failure := WriteText(ResourcesReadme, ResourcesText);
      if failure.Some? {
        return;
      }
      ExecCons(Snapshot(), PlaceholderSteps[2], []);
      assert PlaceholderSteps[2..] == [PlaceholderSteps[2]] + [];
      failure := WriteText(AssignmentsReadme, AssignmentsText);
    }

    /** `main` after the day records are defined: the five top-level
        directories, a directory and a README per record, the sixty notes
        that are missing, and the three placeholder READMEs. Whatever
        happens, the tree and the exception are those of running the steps
        of `Plan(days)` one after another. */
    method Generate(days: seq<DayRecord>) returns (failure: Option<Failure>)
      modifies this
      ensures Outcome(Snapshot(), failure) == Exec(old(Snapshot()), Plan(days))
    {
      ghost var t0 := Snapshot();
      ghost var docs := RenderAll(days);
      ExecAppend(t0, MakeAll(TopDirs), DayStepsFrom(docs, 0) + (NoteStepsFrom(0) + PlaceholderSteps));
      failure := MakeTopDirs();
      if failure.Some? {
        return;
      }
      ghost var t1 := Snapshot();
      ExecAppend(t1, DayStepsFrom(docs, 0), NoteStepsFrom(0) + PlaceholderSteps);
      failure := WriteDays(days);
      if failure.Some? {
        return;
      }
      ghost var t2 := Snapshot();
      ExecAppend(t2, NoteStepsFrom(0), PlaceholderSteps);
      failure := WriteNotes();
      if failure.Some? {
        return;
      }
      failure := WritePlaceholders();
    }
  }
}
