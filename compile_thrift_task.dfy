/**
 * The compile task: which schema files to hand to the Thrift compiler after
 * an incremental change, the command line for one file, and the run that
 * compiles the selected files one after another, stopping at the first
 * failure.
 */
module CompileThriftTask {
  import opened Seqs
  import opened Strings
  import opened Paths

  // ---------------------------------------------------------------------
  // Change records, as the build system reports them

  /** Only changed entries are reported, so there is no "unchanged" value. */
  datatype ChangeType = Added | Modified | Removed

  datatype FileType = File | Directory | Missing

  datatype FileChange = FileChange(file: Path, changeType: ChangeType, fileType: FileType)

  /** What the build system knows about this run. */
  datatype InputChanges = InputChanges(
    isIncremental: bool,
    inputFileChanges: seq<FileChange>,    // changes under `inputFiles`
    includeDirChanges: seq<FileChange>)   // changes under `includeDirs`

  /** A generator name with its options, in declaration order. */
  type GeneratorSpec = (string, seq<string>)

  /** The configuration of one compile task; the task itself never changes it. */
  datatype Task = Task(
    inputFiles: seq<Path>,        // every file of the input collection's file tree
    includeDirs: seq<Path>,
    executable: string,
    executableOptions: seq<string>,
    generators: seq<GeneratorSpec>,
    createGenFolder: bool,
    outputDirectory: Path)

  /** A task as first created: `thrift`, no options, the java generator, one folder per generator. */
  function DefaultTask(inputFiles: seq<Path>, includeDirs: seq<Path>, outputDirectory: Path): (t: Task)
    ensures t.executable == "thrift" && t.executableOptions == []
    ensures t.generators == [("java", [])] && t.createGenFolder
  {
    Task(inputFiles, includeDirs, "thrift", [], [("java", [])], true, outputDirectory)
  }

  // ---------------------------------------------------------------------
  // Selection of the files to compile

  /** The full schema pool: the files of the input tree that match the schema include pattern. */
  function InputSchemas(task: Task): (pool: seq<Path>)
    ensures forall p :: p in pool <==> p in task.inputFiles && MatchesThriftPattern(p)
  {
    Filter(task.inputFiles, MatchesThriftPattern)
  }

  predicate IsFileEntry(c: FileChange) {
    c.fileType == File
  }

  /**
   * When the pool has to be compiled as a whole: no incremental state; a
   * file change in an include directory, not itself an input change, that
   * is not an addition; or a removed input file.
   */
  predicate ForcesFullRebuild(ch: InputChanges): (r: bool)
    ensures r && ch.isIncremental ==>
      exists c :: (c in ch.includeDirChanges || c in ch.inputFileChanges) && IsFileEntry(c) && c.changeType != Added
  {
    || !ch.isIncremental
    || (exists c :: c in ch.includeDirChanges && IsFileEntry(c) && c !in ch.inputFileChanges && c.changeType != Added)
    || (exists c :: c in ch.inputFileChanges && IsFileEntry(c) && c.changeType == Removed)
  }

  /** An include-directory change that is a FILE change and not also one of the `inputs`. */
  function IncludeOnlyFile(inputs: seq<FileChange>): FileChange -> bool {
    c => IsFileEntry(c) && c !in inputs
  }

  /** The file of each change, in order. */
  function FilesOf(changes: seq<FileChange>): (r: seq<Path>)
    ensures |r| == |changes|
    ensures forall i :: 0 <= i < |r| ==> r[i] == changes[i].file
    ensures forall p :: p in r <==> exists c :: c in changes && c.file == p
  {
    var r := seq(|changes|, i requires 0 <= i < |changes| => changes[i].file);
    assert forall c :: c in changes ==> c.file in r by {
      forall c | c in changes ensures c.file in r {
        var i :| 0 <= i < |changes| && changes[i] == c;
        assert r[i] == c.file;
      }
    }
    r
  }

  /**
   * In an incremental run, the two tests the selection makes decide
   * exactly whether a full rebuild is forced.
   */
  lemma RebuildTests(ch: InputChanges)
    requires ch.isIncremental
    ensures var inputs := Filter(ch.inputFileChanges, IsFileEntry);
      var includes := Filter(ch.includeDirChanges, IncludeOnlyFile(inputs));
      ForcesFullRebuild(ch) <==>
        (exists c :: c in includes && c.changeType != Added) || (exists c :: c in inputs && c.changeType == Removed)
  {
    var inputs := Filter(ch.inputFileChanges, IsFileEntry);
    var includes := Filter(ch.includeDirChanges, IncludeOnlyFile(inputs));
    forall c | c in ch.includeDirChanges && IsFileEntry(c) && c !in ch.inputFileChanges
      ensures c in includes
    {
      assert c !in inputs;
    }
    forall c | c in ch.inputFileChanges && IsFileEntry(c)
      ensures c in inputs
    {
    }
  }

  /**
   * The files to compile this run. Either the whole pool, or exactly the
   * files of the input FILE changes, all of which are then additions or
   * edits.
   */
  function FilesToCompile(ch: InputChanges, pool: seq<Path>): (r: seq<Path>)
    ensures ForcesFullRebuild(ch) ==> r == pool
    ensures !ForcesFullRebuild(ch) ==>
      forall p :: p in r <==> exists c :: c in ch.inputFileChanges && IsFileEntry(c) && c.file == p
    ensures !ForcesFullRebuild(ch) ==>
      forall c :: c in ch.inputFileChanges && IsFileEntry(c) ==> c.changeType == Added || c.changeType == Modified
  {
    if !ch.isIncremental then pool
    else
      var inputs := Filter(ch.inputFileChanges, IsFileEntry);
      var includes := Filter(ch.includeDirChanges, IncludeOnlyFile(inputs));
      RebuildTests(ch);
      if !(forall c :: c in includes ==> c.changeType == Added) then pool
      else if exists c :: c in inputs && c.changeType == Removed then pool
      else
        assert forall c :: c in ch.inputFileChanges && IsFileEntry(c) ==> c in inputs;
        FilesOf(inputs)
  }

  /** The files of the FILE entries of a change list, in report order. */
  function ChangedFiles(changes: seq<FileChange>): seq<Path>
  {
    if |changes| == 0 then []
    else
      var init := ChangedFiles(changes[..|changes| - 1]);
      var last := changes[|changes| - 1];
      if IsFileEntry(last) then init + [last.file] else init
  }

  lemma {:induction false} ChangedFilesAt(changes: seq<FileChange>)
    ensures var inputs := Filter(changes, IsFileEntry);
      |ChangedFiles(changes)| == |inputs| &&
      forall i :: 0 <= i < |inputs| ==> ChangedFiles(changes)[i] == inputs[i].file
  {
    if |changes| > 0 {
      var n := |changes| - 1;
      ChangedFilesAt(changes[..n]);
      FilterSnoc(changes, n, IsFileEntry);
      assert changes[..n + 1] == changes;
    }
  }

  /**
   * When no full rebuild is forced, the selection is the changed input
   * files in the order the changes were reported, one per change.
   */
  lemma IncrementalSelectionInReportOrder(ch: InputChanges, pool: seq<Path>)
    requires !ForcesFullRebuild(ch)
    ensures FilesToCompile(ch, pool) == ChangedFiles(ch.inputFileChanges)
  {
    ChangedFilesAt(ch.inputFileChanges);
  }

  /** Without incremental state every `.thrift` file of the input tree, and nothing else, is compiled. */
  lemma FirstRunCompilesWholePool(task: Task, ch: InputChanges)
    requires !ch.isIncremental
    ensures forall p :: p in FilesToCompile(ch, InputSchemas(task)) <==> p in task.inputFiles && MatchesThriftPattern(p)
  {
  }

  /** A new file in an include directory, with no input change, compiles nothing. */
  lemma AddedIncludeFileCompilesNothing(includeFile: Path, pool: seq<Path>)
    ensures FilesToCompile(InputChanges(true, [], [FileChange(includeFile, Added, File)]), pool) == []
  {
  }

  /** An edited file in an include directory recompiles the whole pool. */
  lemma EditedIncludeFileRecompilesAll(includeFile: Path, pool: seq<Path>)
    ensures FilesToCompile(InputChanges(true, [], [FileChange(includeFile, Modified, File)]), pool) == pool
  {
  }

  /** A change reported both as an input and as an include change is judged as an input change only. */
  lemma SharedChangeIsAnInputChange(f: Path, pool: seq<Path>)
    ensures var c := FileChange(f, Modified, File);
      FilesToCompile(InputChanges(true, [c], [c]), pool) == [f]
  {
  }

  /** Adding or editing one input file compiles that file alone. */
  lemma ChangedInputCompiledAlone(f: Path, t: ChangeType, pool: seq<Path>)
    requires t != Removed
    ensures FilesToCompile(InputChanges(true, [FileChange(f, t, File)], []), pool) == [f]
  {
  }

  /**
   * The full pool is filtered by the schema pattern, the incremental
   * selection is not: a changed input file of any name is selected.
   */
  lemma IncrementalSelectionIgnoresSchemaPattern(task: Task)
    ensures var ch := InputChanges(true, [FileChange("notes.txt", Added, File)], []);
      && FilesToCompile(ch, InputSchemas(task)) == ["notes.txt"]
      && "notes.txt" !in InputSchemas(task)
  {
  }

  /** Removing one input file recompiles what is left of the pool. */
  lemma RemovedInputRecompilesAll(f: Path, pool: seq<Path>)
    ensures FilesToCompile(InputChanges(true, [FileChange(f, Removed, File)], []), pool) == pool
  {
  }

  // ---------------------------------------------------------------------
  // The compiler command line

  /** The value after `--gen`: the name, then `:` and the comma-joined options when there are any. */
  function GenArgument(g: GeneratorSpec): string
  {
    if |g.1| == 0 then g.0 else g.0 + ":" + Join(g.1, ',')
  }

  /** How the compiler reads a `--gen` value back: the name up to the first `:`, options split at `,`. */
  function ParseGenArgument(s: string): GeneratorSpec
  {
    var i := IndexOf(s, ':');
    if i == |s| then (s, []) else (s[..i], Split(s[i + 1..], ','))
  }

  /** The `--gen` value starts with the generator's name, and goes on with a `:` exactly when there are options. */
  lemma GenArgumentShape(g: GeneratorSpec)
    ensures var r := GenArgument(g);
      |g.0| <= |r| && r[..|g.0|] == g.0 && (|r| == |g.0| <==> |g.1| == 0)
    ensures |g.1| != 0 ==> GenArgument(g)[|g.0|] == ':'
  {
  }

  /** The `--gen` value is unambiguous when names hold no `:` and options no `,`. */
  lemma GenArgumentRoundTrip(g: GeneratorSpec)
    requires ':' !in g.0
    requires forall o :: o in g.1 ==> ',' !in o
    ensures ParseGenArgument(GenArgument(g)) == g
  {
    if |g.1| > 0 {
      var s := GenArgument(g);
      assert s == g.0 + [':'] + Join(g.1, ',');
      assert s[|g.0|] == ':';
      assert s[..|g.0|] == g.0;
      assert s[|g.0| + 1..] == Join(g.1, ',');
      SplitJoin(g.1, ',');
    }
  }

  /** `--gen <value>` for each generator, in declaration order. */
  function GeneratorArgs(gens: seq<GeneratorSpec>): seq<string>
  {
    if |gens| == 0 then []
    else GeneratorArgs(gens[..|gens| - 1]) + ["--gen", GenArgument(gens[|gens| - 1])]
  }

  /** `-I <dir>` for each include directory, in order. */
  function IncludeArgs(dirs: seq<Path>): seq<string>
  {
    if |dirs| == 0 then []
    else IncludeArgs(dirs[..|dirs| - 1]) + ["-I", dirs[|dirs| - 1]]
  }

  lemma GeneratorArgsSnoc(gens: seq<GeneratorSpec>, i: nat)
    requires i < |gens|
    ensures GeneratorArgs(gens[..i + 1]) == GeneratorArgs(gens[..i]) + ["--gen", GenArgument(gens[i])]
  {
    assert gens[..i + 1][..i] == gens[..i];
  }

  lemma IncludeArgsSnoc(dirs: seq<Path>, i: nat)
    requires i < |dirs|
    ensures IncludeArgs(dirs[..i + 1]) == IncludeArgs(dirs[..i]) + ["-I", dirs[i]]
  {
    assert dirs[..i + 1][..i] == dirs[..i];
  }

  lemma {:induction false} GeneratorArgsAt(gens: seq<GeneratorSpec>)
    ensures |GeneratorArgs(gens)| == 2 * |gens|
    ensures forall j :: 0 <= j < |gens| ==>
      GeneratorArgs(gens)[2 * j] == "--gen" && GeneratorArgs(gens)[2 * j + 1] == GenArgument(gens[j])
  {
    if |gens| > 0 {
      GeneratorArgsAt(gens[..|gens| - 1]);
    }
  }

  lemma {:induction false} IncludeArgsAt(dirs: seq<Path>)
    ensures |IncludeArgs(dirs)| == 2 * |dirs|
    ensures forall j :: 0 <= j < |dirs| ==>
      IncludeArgs(dirs)[2 * j] == "-I" && IncludeArgs(dirs)[2 * j + 1] == dirs[j]
  {
    if |dirs| > 0 {
      IncludeArgsAt(dirs[..|dirs| - 1]);
    }
  }

  function OutputFlag(task: Task): string {
    if task.createGenFolder then "-o" else "-out"
  }

  /** The command line shared by every file of a run. */
  function BaseCommand(task: Task): seq<string>
  {
    [task.executable] + task.executableOptions + GeneratorArgs(task.generators)
      + [OutputFlag(task), task.outputDirectory] + IncludeArgs(task.includeDirs)
  }

  /** The command line that compiles `file`. */
  function CommandLine(task: Task, file: Path): seq<string>
  {
    BaseCommand(task) + [file]
  }

  /** Builds the shared command line by appending to a growing list. */
  method MakeBaseCommand(task: Task) returns (command: seq<string>)
    ensures command == BaseCommand(task)
  {
    command := [task.executable] + task.executableOptions;
    ghost var head := command;
    for i := 0 to |task.generators|
      invariant command == head + GeneratorArgs(task.generators[..i])
    {
      GeneratorArgsSnoc(task.generators, i);
      var (generator, options) := task.generators[i];
      var genString := generator;
      if |options| != 0 {
        genString := genString + ":" + Join(options, ',');
      }
      command := command + ["--gen"];
      command := command + [genString];
    }
    assert task.generators[..|task.generators|] == task.generators;
    command := command + [OutputFlag(task)];
    command := command + [task.outputDirectory];
    ghost var prefix := command;
    for i := 0 to |task.includeDirs|
      invariant command == prefix + IncludeArgs(task.includeDirs[..i])
    {
      IncludeArgsSnoc(task.includeDirs, i);
      command := command + ["-I"];
      command := command + [task.includeDirs[i]];
    }
    assert task.includeDirs[..|task.includeDirs|] == task.includeDirs;
  }

  /** The length of a command line: four fixed words, the options and two words per generator and include directory. */
  lemma CommandLineLength(task: Task, file: Path)
    ensures |CommandLine(task, file)| ==
      4 + |task.executableOptions| + 2 * |task.generators| + 2 * |task.includeDirs|
  {
    GeneratorArgsAt(task.generators);
    IncludeArgsAt(task.includeDirs);
  }

  /** The executable first, then its options verbatim. */
  lemma CommandLineHead(task: Task, file: Path)
    ensures |CommandLine(task, file)| ==
      4 + |task.executableOptions| + 2 * |task.generators| + 2 * |task.includeDirs|
    ensures CommandLine(task, file)[0] == task.executable
    ensures forall i :: 0 <= i < |task.executableOptions| ==>
      CommandLine(task, file)[1 + i] == task.executableOptions[i]
  {
    CommandLineLength(task, file);
    var h := [task.executable] + task.executableOptions;
    var hg := h + GeneratorArgs(task.generators);
    var hgo := hg + [OutputFlag(task), task.outputDirectory];
    var b := hgo + IncludeArgs(task.includeDirs);
    var c := CommandLine(task, file);
    assert c == b + [file];
    assert c[0] == b[0] == hgo[0] == hg[0] == h[0];
    forall i | 0 <= i < |task.executableOptions|
      ensures c[1 + i] == task.executableOptions[i]
    {
      assert c[1 + i] == b[1 + i] == hgo[1 + i] == hg[1 + i] == h[1 + i];
    }
  }

  /** The generator arguments sit right after the executable's options. */
  lemma CommandLineGeneratorArgs(task: Task, file: Path)
    ensures var c, n, g := CommandLine(task, file), |task.executableOptions|, GeneratorArgs(task.generators);
      1 + n + |g| <= |c| && forall k :: 0 <= k < |g| ==> c[1 + n + k] == g[k]
  {
    var h := [task.executable] + task.executableOptions;
    var g := GeneratorArgs(task.generators);
    var t := [OutputFlag(task), task.outputDirectory] + IncludeArgs(task.includeDirs) + [file];
    var c := CommandLine(task, file);
    assert c == h + g + t;
    forall k | 0 <= k < |g|
      ensures c[|h| + k] == g[k]
    {
      PartAt(h, g, t, k);
    }
  }

  /** Each generator contributes a `--gen` pair right after the executable's options. */
  lemma CommandLineGeneratorPairs(task: Task, file: Path)
    ensures |CommandLine(task, file)| ==
      4 + |task.executableOptions| + 2 * |task.generators| + 2 * |task.includeDirs|
    ensures var c, n := CommandLine(task, file), |task.executableOptions|;
      forall j :: 0 <= j < |task.generators| ==>
        c[1 + n + 2 * j] == "--gen" && c[2 + n + 2 * j] == GenArgument(task.generators[j])
  {
    CommandLineLength(task, file);
    CommandLineGeneratorArgs(task, file);
    GeneratorArgsAt(task.generators);
  }

  /** The output flag and directory follow the generators; the file comes last. */
  lemma CommandLineOutput(task: Task, file: Path)
    ensures |CommandLine(task, file)| ==
      4 + |task.executableOptions| + 2 * |task.generators| + 2 * |task.includeDirs|
    ensures var c, m := CommandLine(task, file), |task.executableOptions| + 2 * |task.generators|;
      c[1 + m] == OutputFlag(task) && c[2 + m] == task.outputDirectory
    ensures CommandLine(task, file)[|CommandLine(task, file)| - 1] == file
  {
    CommandLineLength(task, file);
    GeneratorArgsAt(task.generators);
    var m := |task.executableOptions| + 2 * |task.generators|;
    var hg := [task.executable] + task.executableOptions + GeneratorArgs(task.generators);
    var hgo := hg + [OutputFlag(task), task.outputDirectory];
    var b := hgo + IncludeArgs(task.includeDirs);
    var c := CommandLine(task, file);
    assert c == b + [file];
    assert |hg| == 1 + m;
    assert c[1 + m] == b[1 + m] == hgo[1 + m];
    assert c[2 + m] == b[2 + m] == hgo[2 + m];
  }

  /** Each include directory contributes an `-I` pair right after the output directory. */
  lemma CommandLineIncludePairs(task: Task, file: Path)
    ensures |CommandLine(task, file)| ==
      4 + |task.executableOptions| + 2 * |task.generators| + 2 * |task.includeDirs|
    ensures var c, m := CommandLine(task, file), |task.executableOptions| + 2 * |task.generators|;
      forall j :: 0 <= j < |task.includeDirs| ==>
        c[3 + m + 2 * j] == "-I" && c[4 + m + 2 * j] == task.includeDirs[j]
  {
    CommandLineLength(task, file);
    IncludeArgsAt(task.includeDirs);
    var m := |task.executableOptions| + 2 * |task.generators|;
    var hgo := [task.executable] + task.executableOptions + GeneratorArgs(task.generators)
      + [OutputFlag(task), task.outputDirectory];
    var incs := IncludeArgs(task.includeDirs);
    var b := hgo + incs;
    var c := CommandLine(task, file);
    assert c == b + [file];
    assert |hgo| == 3 + m;
    forall j | 0 <= j < |task.includeDirs|
      ensures c[3 + m + 2 * j] == "-I" && c[4 + m + 2 * j] == task.includeDirs[j]
    {
      assert c[3 + m + 2 * j] == b[3 + m + 2 * j] == incs[2 * j];
      assert c[4 + m + 2 * j] == b[4 + m + 2 * j] == incs[2 * j + 1];
    }
  }

  /**
   * The fixed layout of a command line: the executable, its options
   * verbatim, a `--gen` pair per generator, the output flag and directory,
   * an `-I` pair per include directory, and the file last.
   */
  lemma CommandLineLayout(task: Task, file: Path)
    ensures |CommandLine(task, file)| ==
      4 + |task.executableOptions| + 2 * |task.generators| + 2 * |task.includeDirs|
    ensures CommandLine(task, file)[0] == task.executable
    ensures forall i :: 0 <= i < |task.executableOptions| ==>
      CommandLine(task, file)[1 + i] == task.executableOptions[i]
    ensures var c, n := CommandLine(task, file), |task.executableOptions|;
      forall j :: 0 <= j < |task.generators| ==>
        c[1 + n + 2 * j] == "--gen" && c[2 + n + 2 * j] == GenArgument(task.generators[j])
    ensures var c, m := CommandLine(task, file), |task.executableOptions| + 2 * |task.generators|;
      c[1 + m] == OutputFlag(task) && c[2 + m] == task.outputDirectory
    ensures var c, m := CommandLine(task, file), |task.executableOptions| + 2 * |task.generators|;
      forall j :: 0 <= j < |task.includeDirs| ==>
        c[3 + m + 2 * j] == "-I" && c[4 + m + 2 * j] == task.includeDirs[j]
    ensures CommandLine(task, file)[|CommandLine(task, file)| - 1] == file
  {
    CommandLineHead(task, file);
    CommandLineGeneratorPairs(task, file);
    CommandLineOutput(task, file);
    CommandLineIncludePairs(task, file);
  }

  /** The options and generators of the plugin's own "all custom" build, as a command prefix. */
  lemma CustomOptionsCommandPrefix(task: Task, file: Path)
    requires task.executable == "thrift" && task.executableOptions == ["-v"]
    requires task.generators == [("java", ["fullcamel", "beans"])]
    ensures CommandLine(task, file)[..4] == ["thrift", "-v", "--gen", "java:fullcamel,beans"]
  {
    CommandLineHead(task, file);
    CommandLineGeneratorPairs(task, file);
    JavaBeansArgument();
    var c := CommandLine(task, file);
    assert c[3] == GenArgument(task.generators[0]);
    assert c[..4] == [c[0], c[1], c[2], c[3]];
  }

  lemma JavaBeansArgument()
    ensures GenArgument(("java", ["fullcamel", "beans"])) == "java:fullcamel,beans"
  {
    assert Join(["fullcamel", "beans"], ',') == "fullcamel,beans";
  }

  /** Where one generator's output goes: its own `gen-<name>` folder, or the shared directory. */
  function OutputDirectoryForGenerator(task: Task, generator: string): (d: Path)
    ensures task.createGenFolder ==> d == Resolve(task.outputDirectory, "gen-" + generator)
    ensures !task.createGenFolder ==> d == task.outputDirectory
  {
    if task.createGenFolder then Resolve(task.outputDirectory, "gen-" + generator)
    else task.outputDirectory
  }

  /** With per-generator folders, distinct generators never share an output directory. */
  lemma GeneratorOutputsDisjoint(task: Task, g1: string, g2: string)
    requires task.createGenFolder && g1 != g2
    ensures OutputDirectoryForGenerator(task, g1) != OutputDirectoryForGenerator(task, g2)
  {
    assert ("gen-" + g1)[4..] == g1 && ("gen-" + g2)[4..] == g2;
    ResolveInjective(task.outputDirectory, "gen-" + g1, "gen-" + g2);
  }

  // ---------------------------------------------------------------------
  // The compile run

  datatype Outcome = Success | Failure(file: Path, exitCode: int)

  const MissingSuffix := " does not exist and will be ignored for compilation."

  function MissingWarning(file: Path): string {
    file + MissingSuffix
  }

  /** The files the run hands to the compiler, in order: those that still exist. */
  function Existing(files: seq<Path>, fileExists: Path -> bool): seq<Path>
  {
    if |files| == 0 then []
    else
      var n := |files| - 1;
      Existing(files[..n], fileExists) + (if fileExists(files[n]) then [files[n]] else [])
  }

  /** The files the run skips with a warning, in order: those that are gone. */
  function MissingFiles(files: seq<Path>, fileExists: Path -> bool): seq<Path>
  {
    if |files| == 0 then []
    else
      var n := |files| - 1;
      MissingFiles(files[..n], fileExists) + (if fileExists(files[n]) then [] else [files[n]])
  }

  /** The command line of each file, in order. */
  function CommandsFor(task: Task, fs: seq<Path>): seq<seq<string>>
  {
    if |fs| == 0 then []
    else CommandsFor(task, fs[..|fs| - 1]) + [CommandLine(task, fs[|fs| - 1])]
  }

  lemma {:induction false} CommandsForAt(task: Task, fs: seq<Path>)
    ensures |CommandsFor(task, fs)| == |fs|
    ensures forall j :: 0 <= j < |fs| ==> CommandsFor(task, fs)[j] == CommandLine(task, fs[j])
  {
    if |fs| > 0 {
      CommandsForAt(task, fs[..|fs| - 1]);
    }
  }

  /** The warning for each skipped file, in order. */
  function WarningsFor(fs: seq<Path>): seq<string>
  {
    if |fs| == 0 then []
    else WarningsFor(fs[..|fs| - 1]) + [MissingWarning(fs[|fs| - 1])]
  }

  lemma {:induction false} WarningsForAt(fs: seq<Path>)
    ensures |WarningsFor(fs)| == |fs|
    ensures forall j :: 0 <= j < |fs| ==> WarningsFor(fs)[j] == MissingWarning(fs[j])
  {
    if |fs| > 0 {
      WarningsForAt(fs[..|fs| - 1]);
    }
  }

  /** One more file of the run: either one more command line or one more warning. */
  lemma RunSnoc(task: Task, files: seq<Path>, i: nat, fileExists: Path -> bool)
    requires i < |files|
    ensures var e, m := Existing(files[..i], fileExists), MissingFiles(files[..i], fileExists);
      fileExists(files[i]) ==>
        && CommandsFor(task, Existing(files[..i + 1], fileExists)) == CommandsFor(task, e) + [CommandLine(task, files[i])]
        && WarningsFor(MissingFiles(files[..i + 1], fileExists)) == WarningsFor(m)
    ensures var e, m := Existing(files[..i], fileExists), MissingFiles(files[..i], fileExists);
      !fileExists(files[i]) ==>
        && CommandsFor(task, Existing(files[..i + 1], fileExists)) == CommandsFor(task, e)
        && WarningsFor(MissingFiles(files[..i + 1], fileExists)) == WarningsFor(m) + [MissingWarning(files[i])]
  {
    assert files[..i + 1][..i] == files[..i];
    var e := Existing(files[..i], fileExists);
    var m := MissingFiles(files[..i], fileExists);
    if fileExists(files[i]) {
      assert m + [] == m;
      assert (e + [files[i]])[..|e|] == e;
    } else {
      assert e + [] == e;
      assert (m + [files[i]])[..|m|] == m;
    }
  }

  /** Runs the compiler on one file; a non-zero exit code is a failure naming the file and the code. */
  method Compile(task: Task, file: Path, exitCode: Path -> int) returns (command: seq<string>, outcome: Outcome)
    ensures command == CommandLine(task, file)
    ensures outcome.Success? <==> exitCode(file) == 0
    ensures outcome.Failure? ==> outcome == Failure(file, exitCode(file))
  {
    command := MakeBaseCommand(task);
    command := command + [file];
    var code := exitCode(file);
    outcome := if code != 0 then Failure(file, code) else Success;
  }

  /**
   * Compiles `files` in order. A file that no longer exists is skipped
   * with a warning; every other file is compiled with its own command
   * line, and the first non-zero exit code ends the run. `fileExists` and
   * `exitCode` stand for the file system and the compiler process;
   * `processed` counts the files the run got to.
   */
  method CompileInOrder(task: Task, files: seq<Path>, fileExists: Path -> bool, exitCode: Path -> int)
    returns (commands: seq<seq<string>>, warnings: seq<string>, outcome: Outcome, ghost processed: nat)
    ensures processed <= |files|
    ensures commands == CommandsFor(task, Existing(files[..processed], fileExists))
    ensures warnings == WarningsFor(MissingFiles(files[..processed], fileExists))
    ensures outcome.Success? <==> forall f :: f in files && fileExists(f) ==> exitCode(f) == 0
    ensures outcome.Success? ==> processed == |files|
    ensures outcome.Failure? ==>
      && 0 < processed
      && outcome.file == files[processed - 1]
      && fileExists(outcome.file)
      && outcome.exitCode == exitCode(outcome.file) != 0
    ensures outcome.Failure? ==>
      forall j :: 0 <= j < processed - 1 && fileExists(files[j]) ==> exitCode(files[j]) == 0
  {
    commands, warnings, outcome := [], [], Success;
    var i := 0;
    ghost var passed := 0;  // files before this index that exist all exited with 0
    while i < |files| && outcome.Success?
      invariant i <= |files|
      invariant commands == CommandsFor(task, Existing(files[..i], fileExists))
      invariant warnings == WarningsFor(MissingFiles(files[..i], fileExists))
      invariant passed == if outcome.Success? then i else i - 1
      invariant forall j :: 0 <= j < passed && fileExists(files[j]) ==> exitCode(files[j]) == 0
      invariant outcome.Failure? ==>
        && 0 < i
        && outcome.file == files[i - 1]
        && fileExists(outcome.file)
        && outcome.exitCode == exitCode(outcome.file) != 0
    {
      var file := files[i];
      RunSnoc(task, files, i, fileExists);
      if fileExists(file) {
        var command;
        command, outcome := Compile(task, file, exitCode);
        commands := commands + [command];
      } else {
        warnings := warnings + [MissingWarning(file)];
      }
      i := i + 1;
      passed := if outcome.Success? then i else i - 1;
    }
    if outcome.Success? {
      forall f | f in files && fileExists(f) ensures exitCode(f) == 0 {
        var j :| 0 <= j < |files| && files[j] == f;
      }
    } else {
      assert outcome.file in files;
    }
    processed := i;
  }

  /** The task action: select the files for this run, then compile them in order. */
  method CompileThrift(task: Task, ch: InputChanges, fileExists: Path -> bool, exitCode: Path -> int)
    returns (commands: seq<seq<string>>, warnings: seq<string>, outcome: Outcome, ghost processed: nat)
    ensures processed <= |FilesToCompile(ch, InputSchemas(task))|
    ensures outcome.Success? ==> processed == |FilesToCompile(ch, InputSchemas(task))|
    ensures commands == CommandsFor(task, Existing(FilesToCompile(ch, InputSchemas(task))[..processed], fileExists))
    ensures warnings == WarningsFor(MissingFiles(FilesToCompile(ch, InputSchemas(task))[..processed], fileExists))
    ensures outcome.Success? <==>
      forall f :: f in FilesToCompile(ch, InputSchemas(task)) && fileExists(f) ==> exitCode(f) == 0
    ensures outcome.Failure? ==>
      && 0 < processed
      && outcome.file == FilesToCompile(ch, InputSchemas(task))[processed - 1]
      && fileExists(outcome.file)
      && outcome.exitCode == exitCode(outcome.file) != 0
    ensures outcome.Failure? ==>
      var selected := FilesToCompile(ch, InputSchemas(task));
      forall j :: 0 <= j < processed - 1 && fileExists(selected[j]) ==> exitCode(selected[j]) == 0
  {
    var selected := FilesToCompile(ch, InputSchemas(task));
    commands, warnings, outcome, processed := CompileInOrder(task, selected, fileExists, exitCode);
  }
}
