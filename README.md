# Thrift Gradle plugin: compile and extract tasks in Dafny

This project models the logic of a Gradle plugin that drives the Apache Thrift
compiler, and proves properties of that model. Three parts of the plugin are covered.

- **The compile task** (`CompileThriftTask`).
  - It decides which schema files to hand to the compiler after an incremental change. The choice is either the whole schema pool or exactly the changed input files.
  - It assembles the compiler's command line (`thrift [options] --gen … -o|-out <dir> -I … <file>`).
  - It compiles the selected files one after another. A file that no longer exists is skipped with a warning. The first non-zero exit code ends the run.
- **The extract task** (`ExtractThriftTask`). It classifies each dependency artifact as a directory, a `.thrift` file, a zip/jar archive, a tar-family archive or unsupported. It then copies the `.thrift` files it holds into a single output directory.
- **The compile extension** (`CompileExtension`). It holds the default settings and maps a language name to the generator name passed after `--gen`.

Files:

- `seqs.dfy`: an order-preserving `Filter` and a left fold.
- `strings.dfy`: suffixes, `Join`/`Split` and `IndexOf`.
- `paths.dfy`: paths, resolving a name inside a directory, file names, and the `**/*.thrift` pattern.
- `compile_extension.dfy`, `compile_thrift_task.dfy`, `extract_thrift_task.dfy`: one module per source file.

Conventions:

- The build system's change report is an `InputChanges` value.
- The file system and the compiler process are the functions `fileExists: Path -> bool` and `exitCode: Path -> int`.
- The contents of a directory or an archive are the artifact's `tree` of `(relative path, content)` entries.
- The output directory is a `map<Path, Content>` and the warning log is a `seq<string>`.

The model follows the code in these choices:

- Include changes are excluded when they equal a whole input change record. This matches `contains(it)` on the change set. They are not excluded by path alone.
- There is no UNCHANGED change type, because the build system reports changed entries only.
- In incremental mode the selection is the files of every FILE change. These are not filtered by the `**/*.thrift` pattern the full pool uses (`IncrementalSelectionIgnoresSchemaPattern`). The plugin's own wiring pre-filters the inputs with that pattern.
- Directory and archive extraction keep relative paths; the output is not flattened.

## Model

| member | source | states |
|---|---|---|
| CompileExtension.Default | src/main/kotlin/com/pjcampi/gradle/thrift/extension/CompileExtension.kt:13-17 | defaults: language `java` (so generator `java`), files `["**/*.thrift"]`, no options |
| CompileExtension.Generator | src/main/kotlin/com/pjcampi/gradle/thrift/extension/CompileExtension.kt:26-31 | `python` maps to `py`, `javascript` to `js`, any other language to itself; the result is never `python` or `javascript` |
| CompileExtension.GeneratorIdempotent | src/main/kotlin/com/pjcampi/gradle/thrift/extension/CompileExtension.kt:27-31 | mapping a generator name again changes nothing |
| CompileExtension.GeneratorCollisions | src/main/kotlin/com/pjcampi/gradle/thrift/extension/CompileExtension.kt:27-31 | two different languages share a generator only as `python`/`py` or `javascript`/`js` |
| CompileThriftTask.DefaultTask | src/main/kotlin/com/pjcampi/gradle/thrift/tasks/CompileThriftTask.kt:32-42 | a new task runs `thrift` with no options, the java generator without options, and per-generator folders |
| CompileThriftTask.InputSchemas | src/main/kotlin/com/pjcampi/gradle/thrift/tasks/CompileThriftTask.kt:25-26 | the pool holds exactly the files of the input tree that match `**/*.thrift` |
| CompileThriftTask.ForcesFullRebuild | src/main/kotlin/com/pjcampi/gradle/thrift/tasks/CompileThriftTask.kt:70-96 | the three rebuild rules (no incremental state; an include FILE change, not also an input change, that is not an addition; a removed input FILE); in an incremental run a forced rebuild always has a FILE change that is not an addition behind it |
| CompileThriftTask.FilesToCompile | src/main/kotlin/com/pjcampi/gradle/thrift/tasks/CompileThriftTask.kt:68-99 | the whole pool when the run is not incremental, when a FILE include change that is not also an input change is not an addition, or when an input FILE is removed; otherwise exactly the files of the input FILE changes, all of which are additions or edits |
| CompileThriftTask.RebuildTests | src/main/kotlin/com/pjcampi/gradle/thrift/tasks/CompileThriftTask.kt:75-96 | in an incremental run, the code's two tests (an include FILE change outside the input changes that is not an addition; a removed input FILE) fire exactly when a full rebuild is forced |
| CompileThriftTask.IncrementalSelectionInReportOrder | src/main/kotlin/com/pjcampi/gradle/thrift/tasks/CompileThriftTask.kt:75-98 | without a forced full rebuild, the selection is one file per input FILE change, in report order |
| CompileThriftTask.FirstRunCompilesWholePool | src/main/kotlin/com/pjcampi/gradle/thrift/tasks/CompileThriftTask.kt:70-73 | a non-incremental run selects every `.thrift` file of the input tree and nothing else |
| CompileThriftTask.AddedIncludeFileCompilesNothing | src/test/kotlin/com/pjcampi/gradle/thrift/tasks/CompileThriftTaskTest.kt:94-99 | a new file in an include directory, with no input change, compiles nothing |
| CompileThriftTask.EditedIncludeFileRecompilesAll | src/main/kotlin/com/pjcampi/gradle/thrift/tasks/CompileThriftTask.kt:88-90 | an edited include file recompiles the whole pool |
| CompileThriftTask.SharedChangeIsAnInputChange | src/main/kotlin/com/pjcampi/gradle/thrift/tasks/CompileThriftTask.kt:78-82 | a change record reported both as an input and as an include change is judged as an input change only |
| CompileThriftTask.ChangedInputCompiledAlone | src/test/kotlin/com/pjcampi/gradle/thrift/tasks/CompileThriftTaskTest.kt:43-61 | adding or editing one input file compiles that file alone |
| CompileThriftTask.RemovedInputRecompilesAll | src/main/kotlin/com/pjcampi/gradle/thrift/tasks/CompileThriftTask.kt:94-96 | removing an input file recompiles the whole pool |
| CompileThriftTask.IncrementalSelectionIgnoresSchemaPattern | src/main/kotlin/com/pjcampi/gradle/thrift/tasks/CompileThriftTask.kt:72-98 | an added input file outside the `**/*.thrift` pattern is selected in incremental mode although it is not in the pool |
| CompileThriftTask.GenArgument | src/main/kotlin/com/pjcampi/gradle/thrift/tasks/CompileThriftTask.kt:125-128 | the `--gen` value of one generator; `GenArgumentShape` states its shape and `GenArgumentRoundTrip` that it reads back |
| CompileThriftTask.GenArgumentShape | src/main/kotlin/com/pjcampi/gradle/thrift/tasks/CompileThriftTask.kt:125-128 | the value starts with the generator's name and goes on with `:` exactly when the generator has options |
| Strings.SplitJoin | src/main/kotlin/com/pjcampi/gradle/thrift/tasks/CompileThriftTask.kt:127 | splitting at `,` undoes the comma join when no option contains a comma |
| CompileThriftTask.GenArgumentRoundTrip | src/main/kotlin/com/pjcampi/gradle/thrift/tasks/CompileThriftTask.kt:124-131 | the `--gen` value reads back as the generator's name and options when names hold no `:` and options no `,` |
| CompileThriftTask.GeneratorArgsAt | src/main/kotlin/com/pjcampi/gradle/thrift/tasks/CompileThriftTask.kt:124-131 | one `--gen`, value pair per generator, in declaration order |
| CompileThriftTask.IncludeArgsAt | src/main/kotlin/com/pjcampi/gradle/thrift/tasks/CompileThriftTask.kt:137-141 | one `-I`, directory pair per include directory, in order |
| CompileThriftTask.MakeBaseCommand | src/main/kotlin/com/pjcampi/gradle/thrift/tasks/CompileThriftTask.kt:115-144 | the list built by appending step by step is the shared command line |
| CompileThriftTask.CommandLine | src/main/kotlin/com/pjcampi/gradle/thrift/tasks/CompileThriftTask.kt:103-104 | the command line of one file: the shared command line with the file's path appended; `CommandLineLayout` fixes each of its positions |
| CompileThriftTask.CommandLineLayout | src/main/kotlin/com/pjcampi/gradle/thrift/tasks/CompileThriftTask.kt:101-144 | the executable first, its options verbatim, a `--gen` pair per generator, then `-o` exactly when per-generator folders are on (else `-out`) and the output directory, an `-I` pair per include directory, and the file last; length `4 + options + 2·generators + 2·include dirs` |
| CompileThriftTask.CustomOptionsCommandPrefix | src/test/kotlin/com/pjcampi/gradle/thrift/ThriftBuildPluginTest.kt:43-46 | options `-v` and generator `java` with `fullcamel`, `beans` give the prefix `thrift -v --gen java:fullcamel,beans` |
| CompileThriftTask.OutputDirectoryForGenerator | src/main/kotlin/com/pjcampi/gradle/thrift/tasks/CompileThriftTask.kt:47-53 | `<outputDirectory>/gen-<generator>` exactly when per-generator folders are on, else the output directory itself |
| CompileThriftTask.GeneratorOutputsDisjoint | src/main/kotlin/com/pjcampi/gradle/thrift/tasks/CompileThriftTask.kt:47-53 | with per-generator folders, different generators never share an output directory |
| CompileThriftTask.Compile | src/main/kotlin/com/pjcampi/gradle/thrift/tasks/CompileThriftTask.kt:101-113 | runs the file's command line; fails with that file and its exit code exactly when the code is non-zero |
| CompileThriftTask.CompileInOrder | src/main/kotlin/com/pjcampi/gradle/thrift/tasks/CompileThriftTask.kt:58-64 | over a processed prefix of the files: the commands are the command lines of the existing files, in order; the warnings name the missing files, in order; success exactly when no existing file exits non-zero, and then every file was processed; on failure the last processed file is the first existing file that failed, with its exit code |
| CompileThriftTask.CommandsForAt | src/main/kotlin/com/pjcampi/gradle/thrift/tasks/CompileThriftTask.kt:58-60 | the i-th command run is the command line of the i-th existing file |
| CompileThriftTask.WarningsForAt | src/main/kotlin/com/pjcampi/gradle/thrift/tasks/CompileThriftTask.kt:61-62 | the i-th warning is the fixed message about the i-th missing file |
| CompileThriftTask.CompileThrift | src/main/kotlin/com/pjcampi/gradle/thrift/tasks/CompileThriftTask.kt:55-65 | the same run applied to the selection of `FilesToCompile` over the schema pool: success means every selected file was processed, and a failure names the first existing selected file that exits non-zero |
| ExtractThriftTask.HandlerEndingsExclusive | src/main/kotlin/com/pjcampi/gradle/thrift/tasks/ExtractThriftTask.kt:33-51 | no path ends both in `.thrift` and in a zip or tar ending, nor in both a zip and a tar ending |
| ExtractThriftTask.Classify | src/main/kotlin/com/pjcampi/gradle/thrift/tasks/ExtractThriftTask.kt:25-61 | a directory is a directory whatever its name; otherwise `.thrift`, zip (`.jar`/`.zip`) and tar (`.tar`, `.tar.gz`, `.tar.bz2`, `.tgz`) are each decided by their own endings, and unsupported means none of them |
| ExtractThriftTask.ExtractOne | src/main/kotlin/com/pjcampi/gradle/thrift/tasks/ExtractThriftTask.kt:25-61 | one artifact removes no file and takes back no warning, and logs at most one warning |
| ExtractThriftTask.CopyEntries | src/main/kotlin/com/pjcampi/gradle/thrift/tasks/ExtractThriftTask.kt:27-31 | the copy adds exactly the entries' relative paths under the output directory and leaves every other file as it was |
| ExtractThriftTask.CopyEntriesKeepsContents | src/main/kotlin/com/pjcampi/gradle/thrift/tasks/ExtractThriftTask.kt:27-31 | with distinct relative paths, each copied file holds its entry's content |
| ExtractThriftTask.TreeArtifactAddsItsThriftEntries | src/main/kotlin/com/pjcampi/gradle/thrift/tasks/ExtractThriftTask.kt:26-56 | a directory, zip or tar artifact adds exactly the paths of its `.thrift` entries, and no warning |
| ExtractThriftTask.ThriftFileCopiedAsIs | src/main/kotlin/com/pjcampi/gradle/thrift/tasks/ExtractThriftTask.kt:33-38 | a `.thrift` file is copied with its content under its own name in the output directory |
| ExtractThriftTask.UnsupportedArtifactOnlyWarns | src/main/kotlin/com/pjcampi/gradle/thrift/tasks/ExtractThriftTask.kt:58-60 | anything else writes nothing and logs one warning naming its path |
| ExtractThriftTask.WarningsNameUnsupportedArtifacts | src/main/kotlin/com/pjcampi/gradle/thrift/tasks/ExtractThriftTask.kt:23-60 | the run logs exactly one warning per unsupported artifact, in input order, and processing continues past it |
| ExtractThriftTask.ExtractOneWritesThriftFiles | src/main/kotlin/com/pjcampi/gradle/thrift/tasks/ExtractThriftTask.kt:25-61 | one artifact deletes nothing, and every file it adds is a `.thrift` file inside the output directory |
| ExtractThriftTask.ExtractWritesThriftFilesIntoOutput | src/main/kotlin/com/pjcampi/gradle/thrift/tasks/ExtractThriftTask.kt:22-62 | the same for a whole run |
| ExtractThriftTask.ExtractAll | src/main/kotlin/com/pjcampi/gradle/thrift/tasks/ExtractThriftTask.kt:23 | the artifacts processed one after another in input order; a whole run removes no file and takes back no warning |
| ExtractThriftTask.ExtractAllConcat | src/main/kotlin/com/pjcampi/gradle/thrift/tasks/ExtractThriftTask.kt:23 | later artifacts are processed after earlier ones, into the same directory |
| ExtractThriftTask.CopyEntriesOver | src/main/kotlin/com/pjcampi/gradle/thrift/tasks/ExtractThriftTask.kt:27-31 | a copy into a fuller directory writes the same files and keeps the extra ones |
| ExtractThriftTask.ExtractAllOver | src/main/kotlin/com/pjcampi/gradle/thrift/tasks/ExtractThriftTask.kt:22-62 | what a run writes, and the warnings it logs, do not depend on what the output directory held before |
| ExtractThriftTask.ExtractionIdempotent | src/main/kotlin/com/pjcampi/gradle/thrift/tasks/ExtractThriftTask.kt:22-62 | running the extraction again over its own output changes nothing |
| ExtractThriftTask.Extract | src/main/kotlin/com/pjcampi/gradle/thrift/tasks/ExtractThriftTask.kt:20-63 | the loop over the artifacts gives the ordered fold of the per-artifact step; files already there are kept; every new file is a `.thrift` file inside the output directory |

## Left out

- Gradle wiring is not part of this model: task registration, source sets, `afterEvaluate` hooks, dependency configurations, the `Property`/`Provider` API, and the extension containers (`ThriftBuildPlugin.kt`, `ThriftExtension.kt`, `utils/`).
- The build system's computation of change records (snapshots, fingerprints) is left out. The model takes the change report as an input.
- Spawning the compiler, checking file existence, and decoding zip/tar/gzip/bzip2 archives are left out. They stand behind `fileExists`, `exitCode` and the artifact's `tree`.
- A corrupt archive aborts the real run. That failure path is not modelled, because the tree is given.
- Paths are strings taken as they come. `File.absolutePath` and the difference between `path` and `absolutePath` are not modelled, and neither is path normalisation.
- Debug logging (`logger.debug`) is left out. The compile failure keeps the file and the exit code but not the exception's message text.
- `Failure(file, code)` models the throw that names the schema file (CompileThriftTask.kt:111-112). With Gradle's default `ignoreExitValue = false`, `project.exec` already throws its own exception on a non-zero exit, naming the command's exit value rather than the file; the run stops at the same file either way, and Gradle's own exception is not modelled.
- Generators are an ordered sequence. Kotlin's `mapOf` also guarantees unique generator names; the model does not require that.
- `CompileExtension.outputDirectory` is a Gradle directory property with no logic, so it is not modelled.
- When two entries of one copy share a relative path, the later one wins. This is Gradle's default duplicate handling. No other duplicate strategy is modelled.
