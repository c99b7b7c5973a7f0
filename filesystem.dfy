/** An abstract file tree and the three file-system operations the
    generator's `main` performs on it: `Path.mkdir(parents=True,
    exist_ok=True)`, opening a file for writing (`open("w")`,
    `write_text`), and writing a file only when `Path.exists()` is false. */
module FileSystem {
  import opened Base

  /** Regular files with their text, and the directories that exist. The
      working directory itself is the empty path and always exists. */
  datatype Tree = Tree(files: map<Path, string>, dirs: set<Path>)

  /** The outcome of running steps: the tree they leave behind and the
      exception that stopped them, if any. */
  datatype Outcome = Outcome(tree: Tree, failure: Option<Failure>)

  /** One file-system action of the generator.
      `Overwrite` carries the text to write, or the exception raised while
      computing it after the file was already opened (and so truncated). */
  datatype Step =
    | MakeDirs(dir: Path)
    | Overwrite(file: Path, text: Result<string>)
    | CreateIfAbsent(file: Path, content: string)

  /** The non-empty prefixes of `p`: `p` and all of its ancestors. */
  function Prefixes(p: Path): set<Path> {
    set i | 0 < i <= |p| :: p[..i]
  }

  /** Some proper ancestor of `p` is a regular file, so the operating system
      cannot resolve `p` (ENOTDIR). */
  predicate UnderFile(t: Tree, p: Path) {
    exists i :: 0 < i < |p| && p[..i] in t.files
  }

  /** The directory that holds `p`: present for top-level entries. */
  predicate ParentExists(t: Tree, p: Path) {
    |p| <= 1 || p[..|p| - 1] in t.dirs
  }

  /** A tree an operating system could show: directories are closed under
      ancestors, every file sits in an existing directory, and nothing is
      both a file and a directory. */
  predicate Valid(t: Tree) {
    && (forall p, i :: p in t.dirs && 0 < i < |p| ==> p[..i] in t.dirs)
    && (forall p :: p in t.dirs ==> p != [] && p !in t.files)
    && (forall p :: p in t.files ==> p != [] && ParentExists(t, p))
  }

  /** `Path(p).mkdir(parents=True, exist_ok=True)`. */
  function MakeDirsAt(t: Tree, p: Path): Outcome {
    if UnderFile(t, p) then Outcome(t, Some(NotADirectoryError(p)))
    else if p in t.files then Outcome(t, Some(FileExistsError(p)))
    else Outcome(Tree(t.files, t.dirs + Prefixes(p)), None)
  }

  /** Opening `p` for writing and writing `text` into it. The file is
      created or truncated as soon as it is opened; when computing the text
      raised, the file is left empty and the exception propagates. */
  function WriteAt(t: Tree, p: Path, text: Result<string>): Outcome {
    if UnderFile(t, p) then Outcome(t, Some(NotADirectoryError(p)))
    else if !ParentExists(t, p) then Outcome(t, Some(FileNotFoundError(p)))
    else if p == [] || p in t.dirs then Outcome(t, Some(IsADirectoryError(p)))
    else match text
      case Ok(v) => Outcome(Tree(t.files[p := v], t.dirs), None)
      case Err(e) => Outcome(Tree(t.files[p := ""], t.dirs), Some(e))
  }

  /** `Path.exists()`: a file or a directory is there. */
  predicate Exists(t: Tree, p: Path) {
    p == [] || p in t.files || p in t.dirs
  }

  function Apply(t: Tree, s: Step): Outcome {
    match s
    case MakeDirs(p) => MakeDirsAt(t, p)
    case Overwrite(p, text) => WriteAt(t, p, text)
    case CreateIfAbsent(p, c) => if Exists(t, p) then Outcome(t, None) else WriteAt(t, p, Ok(c))
  }

  /** Runs the steps in order; the first exception ends the run. */
  function Exec(t: Tree, steps: seq<Step>): Outcome
    decreases |steps|
  {
    if steps == [] then Outcome(t, None)
    else
      var o := Apply(t, steps[0]);
      if o.failure.Some? then o else Exec(o.tree, steps[1..])
  }

  // ---- What a single step does ----------------------------------------------

  /** A successful `mkdir` leaves the files alone and adds exactly `p` and its
      ancestors as directories; a failed one changes nothing. */
  lemma MakeDirsEffect(t: Tree, p: Path)
    ensures var o := MakeDirsAt(t, p);
      && o.tree.files == t.files
      && (o.failure.None? <==> !UnderFile(t, p) && p !in t.files)
      && (o.failure.None? ==> o.tree.dirs == t.dirs + Prefixes(p) && p in o.tree.dirs + {[]})
      && (o.failure.Some? ==> o.tree == t)
  {
    if p != [] {
      assert p[..|p|] == p;
    }
  }

  /** A write touches the one file it names, and nothing else; it is refused
      (leaving the tree alone) when the path is under a file, has no parent
      directory, or is a directory. */
  lemma WriteEffect(t: Tree, p: Path, text: Result<string>)
    ensures var o := WriteAt(t, p, text);
      && o.tree.dirs == t.dirs
      && (forall q :: q != p ==> (q in o.tree.files <==> q in t.files))
      && (forall q :: q != p && q in t.files ==> o.tree.files[q] == t.files[q])
      && (o.tree != t ==> p in o.tree.files)
      && (o.failure.None? <==> !UnderFile(t, p) && ParentExists(t, p) && p != [] && p !in t.dirs && text.Ok?)
      && (o.failure.None? ==> o.tree.files[p] == text.value)
  {
  }

  /** Writing is opening (which truncates) and then writing the text into
      the empty file; an exception while computing the text leaves the
      truncated file. */
  lemma OpenThenWrite(t: Tree, p: Path, text: Result<string>)
    ensures var o := WriteAt(t, p, Ok(""));
      && (o.failure.Some? ==> WriteAt(t, p, text) == o)
      && (o.failure.None? && text.Ok? ==>
            WriteAt(t, p, text) == Outcome(Tree(o.tree.files[p := o.tree.files[p] + text.value], o.tree.dirs), None))
      && (o.failure.None? && text.Err? ==> WriteAt(t, p, text) == Outcome(o.tree, Some(text.error)))
  {
    var o := WriteAt(t, p, Ok(""));
    if o.failure.None? && text.Ok? {
      assert o.tree.files[p] + text.value == text.value;
      assert o.tree.files[p := text.value] == t.files[p := text.value];
    }
  }

  /** Creation only when absent never changes an entry that was there. */
  lemma CreateIfAbsentKeeps(t: Tree, p: Path, c: string)
    requires Exists(t, p)
    ensures Apply(t, CreateIfAbsent(p, c)) == Outcome(t, None)
  {
  }

  // ---- Well-formed trees stay well-formed ---------------------------------------

  lemma PrefixesClosed(p: Path, q: Path, i: nat)
    requires q in Prefixes(p) && 0 < i < |q|
    ensures q[..i] in Prefixes(p) && q[..i] != []
  {
    var j :| 0 < j <= |p| && q == p[..j];
    assert q[..i] == p[..i];
  }

  /** Every operation maps a well-formed tree to a well-formed tree, whether
      it succeeds or fails. */
  lemma ApplyKeepsValid(t: Tree, s: Step)
    requires Valid(t)
    ensures Valid(Apply(t, s).tree)
  {
    match s
    case MakeDirs(p) =>
      var o := MakeDirsAt(t, p);
      if o.failure.None? {
        var u := o.tree;
        forall q, i | q in u.dirs && 0 < i < |q| ensures q[..i] in u.dirs {
          if q in Prefixes(p) { PrefixesClosed(p, q, i); }
        }
        forall q | q in u.dirs ensures q != [] && q !in u.files {
          if q in Prefixes(p) {
            var j :| 0 < j <= |p| && q == p[..j];
            if j < |p| { assert !(p[..j] in t.files); } else { assert p[..j] == p; }
          }
        }
        forall q | q in u.files ensures q != [] && ParentExists(u, q) {
          assert ParentExists(t, q);
        }
      }
    case Overwrite(p, text) =>
    case CreateIfAbsent(p, c) =>
  }

  /** Running any steps from a well-formed tree leaves a well-formed tree. */
  lemma {:induction false} ExecKeepsValid(t: Tree, steps: seq<Step>)
    requires Valid(t)
    ensures Valid(Exec(t, steps).tree)
    decreases |steps|
  {
    if steps != [] {
      ApplyKeepsValid(t, steps[0]);
      if Apply(t, steps[0]).failure.None? {
        ExecKeepsValid(Apply(t, steps[0]).tree, steps[1..]);
      }
    }
  }

  // ---- Running steps one after another ------------------------------------------

  /** Running `a` and then `b` is running `a + b`, unless `a` already raised. */
  lemma {:induction false} ExecAppend(t: Tree, a: seq<Step>, b: seq<Step>)
    ensures Exec(t, a + b) == (var o := Exec(t, a); if o.failure.Some? then o else Exec(o.tree, b))
    decreases |a|
  {
    if a == [] {
      assert a + b == b;
    } else {
      assert (a + b)[0] == a[0];
      assert (a + b)[1..] == a[1..] + b;
      var o := Apply(t, a[0]);
      if o.failure.None? {
        ExecAppend(o.tree, a[1..], b);
      }
    }
  }

  /** One step in front of the rest of a run. */
  lemma ExecCons(t: Tree, s: Step, rest: seq<Step>)
    ensures Exec(t, [s] + rest) ==
      (var o := Apply(t, s); if o.failure.Some? then o else Exec(o.tree, rest))
  {
    assert ([s] + rest)[1..] == rest;
  }

  /** Two steps in front of the rest of a run. */
  lemma ExecPair(t: Tree, a: Step, b: Step, rest: seq<Step>)
    ensures Exec(t, [a, b] + rest) ==
      (var o1 := Apply(t, a);
       if o1.failure.Some? then o1
       else var o2 := Apply(o1.tree, b);
         if o2.failure.Some? then o2 else Exec(o2.tree, rest))
  {
    assert ([a, b] + rest)[1..] == [b] + rest;
    assert ([b] + rest)[1..] == rest;
  }

  // ---- Idempotence ----------------------------------------------------------------

  /** A step that, in tree `t`, succeeds and changes nothing. */
  predicate Fixed(t: Tree, s: Step) {
    Apply(t, s) == Outcome(t, None)
  }

  /** Applying a step to the tree it produced gives the same outcome again,
      failure included. */
  lemma StepIdempotent(t: Tree, s: Step)
    ensures Apply(Apply(t, s).tree, s) == Apply(t, s)
  {
    match s
    case MakeDirs(p) =>
      var u := Apply(t, s).tree;
      if Apply(t, s).failure.None? {
        assert u.dirs + Prefixes(p) == u.dirs;
        assert UnderFile(u, p) == UnderFile(t, p);
      }
    case Overwrite(p, text) =>
      var u := Apply(t, s).tree;
      if u != t {
        assert u.files[p := (if text.Ok? then text.value else "")] == u.files;
      }
    case CreateIfAbsent(p, c) =>
      var u := Apply(t, s).tree;
      if u != t {
        assert p in u.files;
      }
  }

  /** A step that is already a no-op stays one after any other step, as long
      as that step is not a second overwrite of the same file. */
  lemma KeepsFixed(t: Tree, s: Step, s2: Step)
    requires Valid(t) && Fixed(t, s)
    requires s.Overwrite? && s2.Overwrite? ==> s.file != s2.file
    ensures Fixed(Apply(t, s2).tree, s)
  {
    match s2 {
      case MakeDirs(q) => FixedMakeDirsKeeps(t, s, q);
      case Overwrite(q, text2) => FixedWriteKeeps(t, s, q, text2);
      case CreateIfAbsent(q, c2) =>
        if !Exists(t, q) {
          FixedWriteKeeps(t, s, q, Ok(c2));
        }
    }
  }

  /** The `mkdir` half of `KeepsFixed`. */
  lemma FixedMakeDirsKeeps(t: Tree, s: Step, q: Path)
    requires Fixed(t, s)
    ensures Fixed(MakeDirsAt(t, q).tree, s)
  {
    var u := MakeDirsAt(t, q).tree;
    MakeDirsEffect(t, q);
    if u != t {
      match s {
        case MakeDirs(p) =>
          MakeDirsEffect(t, p);
          assert u.dirs + Prefixes(p) == u.dirs;
        case Overwrite(p, text) =>
          forall j | 0 < j <= |q|
            ensures q[..j] != p
          {
            if j == |q| { assert q[..j] == q; }
          }
        case CreateIfAbsent(p, c) =>
      }
    }
  }

  /** The write half of `KeepsFixed`. */
  lemma FixedWriteKeeps(t: Tree, s: Step, q: Path, text: Result<string>)
    requires Valid(t) && Fixed(t, s)
    requires s.Overwrite? ==> s.file != q
    ensures Fixed(WriteAt(t, q, text).tree, s)
  {
    var u := WriteAt(t, q, text).tree;
    WriteEffect(t, q, text);
    if u != t {
      assert q !in t.dirs && !UnderFile(t, q);
      match s {
        case MakeDirs(p) =>
          MakeDirsEffect(t, p);
          assert q !in Prefixes(p);
        case Overwrite(p, text1) =>
          forall i | 0 < i < |p|
            ensures p[..i] !in u.files
          {
            var parent := p[..|p| - 1];
            if i < |p| - 1 {
              assert p[..i] == parent[..i];
            }
            assert p[..i] in t.dirs;
          }
          assert u.files[p := text1.value] == u.files;
        case CreateIfAbsent(p, c) =>
          assert Exists(t, p);
      }
    }
  }

  /** The files the steps overwrite unconditionally. */
  function Overwritten(steps: seq<Step>): set<Path>
    decreases |steps|
  {
    if steps == [] then {}
    else (if steps[0].Overwrite? then {steps[0].file} else {}) + Overwritten(steps[1..])
  }

  /** Steps that overwrite no file twice. */
  predicate DistinctOverwrites(steps: seq<Step>)
    decreases |steps|
  {
    steps == [] ||
    ((steps[0].Overwrite? ==> steps[0].file !in Overwritten(steps[1..])) && DistinctOverwrites(steps[1..]))
  }

  lemma {:induction false} OverwrittenAppend(a: seq<Step>, b: seq<Step>)
    ensures Overwritten(a + b) == Overwritten(a) + Overwritten(b)
    decreases |a|
  {
    if a == [] {
      assert a + b == b;
    } else {
      assert (a + b)[0] == a[0] && (a + b)[1..] == a[1..] + b;
      OverwrittenAppend(a[1..], b);
    }
  }

  /** Two runs without repeated overwrites that overwrite different files
      make one run without repeated overwrites. */
  lemma {:induction false} DistinctAppend(a: seq<Step>, b: seq<Step>)
    requires DistinctOverwrites(a) && DistinctOverwrites(b) && Overwritten(a) !! Overwritten(b)
    ensures DistinctOverwrites(a + b)
    decreases |a|
  {
    if a == [] {
      assert a + b == b;
    } else {
      assert (a + b)[0] == a[0] && (a + b)[1..] == a[1..] + b;
      OverwrittenAppend(a[1..], b);
      DistinctAppend(a[1..], b);
    }
  }

  /** The files the steps write only when nothing is at their path. */
  function Created(steps: seq<Step>): set<Path>
    decreases |steps|
  {
    if steps == [] then {}
    else (if steps[0].CreateIfAbsent? then {steps[0].file} else {}) + Created(steps[1..])
  }

  lemma {:induction false} CreatedAppend(a: seq<Step>, b: seq<Step>)
    ensures Created(a + b) == Created(a) + Created(b)
    decreases |a|
  {
    if a == [] {
      assert a + b == b;
    } else {
      assert (a + b)[0] == a[0] && (a + b)[1..] == a[1..] + b;
      CreatedAppend(a[1..], b);
    }
  }

  /** A step that does not target `p` (or only creates it when it is already
      there) leaves the file at `p` as it was, and never removes an entry. */
  lemma ApplyKeepsPath(t: Tree, s: Step, p: Path)
    requires !(s.Overwrite? && s.file == p)
    requires s.CreateIfAbsent? && s.file == p ==> Exists(t, p)
    ensures var u := Apply(t, s).tree;
      && (p in u.files <==> p in t.files)
      && (p in t.files ==> u.files[p] == t.files[p])
      && (Exists(t, p) ==> Exists(u, p))
  {
    match s
    case MakeDirs(q) =>
      MakeDirsEffect(t, q);
    case Overwrite(q, text) =>
      WriteEffect(t, q, text);
    case CreateIfAbsent(q, c) =>
      if !Exists(t, q) {
        WriteEffect(t, q, Ok(c));
      }
  }

  /** Whether the steps run through or stop at an exception, a file they do
      not overwrite keeps its content, and a path they create only when it
      is free either was free or is left as it was. */
  lemma {:induction false} ExecKeepsPath(t: Tree, steps: seq<Step>, p: Path)
    requires p !in Overwritten(steps)
    requires p !in Created(steps) || Exists(t, p)
    ensures var u := Exec(t, steps).tree;
      && (p in u.files <==> p in t.files)
      && (p in t.files ==> u.files[p] == t.files[p])
    decreases |steps|
  {
    if steps != [] {
      var o := Apply(t, steps[0]);
      ApplyKeepsPath(t, steps[0], p);
      if o.failure.None? {
        ExecKeepsPath(o.tree, steps[1..], p);
      }
    }
  }

  /** A no-op step stays a no-op through any run that does not overwrite its
      file. */
  lemma {:induction false} ExecKeepsFixed(t: Tree, s: Step, steps: seq<Step>)
    requires Valid(t) && Fixed(t, s)
    requires s.Overwrite? ==> s.file !in Overwritten(steps)
    ensures Fixed(Exec(t, steps).tree, s)
    decreases |steps|
  {
    if steps != [] {
      KeepsFixed(t, s, steps[0]);
      ApplyKeepsValid(t, steps[0]);
      var o := Apply(t, steps[0]);
      if o.failure.None? {
        ExecKeepsFixed(o.tree, s, steps[1..]);
      }
    }
  }

  /** Running the same steps a second time, on whatever the first run left
      behind, gives the same outcome: the same tree and the same exception.
      The only demands are a well-formed starting tree and that no file is
      overwritten twice. */
  lemma {:induction false} ExecIdempotent(t: Tree, steps: seq<Step>)
    requires Valid(t) && DistinctOverwrites(steps)
    ensures Exec(Exec(t, steps).tree, steps) == Exec(t, steps)
    decreases |steps|
  {
    if steps != [] {
      var s := steps[0];
      var o := Apply(t, s);
      StepIdempotent(t, s);
      ApplyKeepsValid(t, s);
      if o.failure.None? {
        ExecKeepsFixed(o.tree, s, steps[1..]);
        ExecIdempotent(o.tree, steps[1..]);
      }
    }
  }
}
