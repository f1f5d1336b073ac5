# blerf core, modelled in Dafny

blerf builds and packs the packages of a JavaScript monorepo. Every package
lives in its own directory under a workspace root. Packages refer to each
other through project references: `file:` dependencies on the archives of
sibling packages.

This project models four pieces of the tool:

- **Workspace discovery** (`PackageEnumerator`, in `package_enumerator.dfy`):
  - which directories are packages;
  - what each declares, and how each dependency resolves against the
    installed copy;
  - which project references become dependency-to-dependent edges, after
    checking that they have the canonical form
    `file:../../artifacts/build/<sanitised name>.tgz`;
  - the in-place rewriting of project references;
  - trimming a manifest for packaging;
  - the loop that processes packages in dependency order.
- **The `build` command** (`Build`, in `build.dfy`):
  - the decision whether `npm install` is needed (missing or unsatisfied
    dependencies, lock file entries the manifest no longer declares);
  - the recursive walk of the lock file;
  - dispatch between `blerf.steps` and `npm run build`;
  - step path normalisation;
  - the newest-modification-time staleness test;
  - how the PATH variable is extended for a step script.
- **The command-line front end** (`CommandLine`, in `command_line.dfy`):
  - command registration;
  - subcommand lookup;
  - parsing of `--name value`, `-x value` and `--`;
  - exit codes;
  - the usage text.
- **The `pack:publish` / `pack:deploy` commands** (`Pack`, in `pack.dfy`):
  - rewriting the project references in the packed manifest to plain
    versions (publish) or to archive names (deploy);
  - the tarball path the command works on.

Shared vocabulary:

- `Wrappers`: Option, Result and Outcome.
- `Strings`: `startsWith`, `indexOf`, `replace`, `join` and `path.join`
  without normalisation.
- `Dicts`: JavaScript objects as key/value sequences in `Object.keys` order.
  Assigning a key that exists keeps its position; assigning a new key
  appends it.
- `Manifests`: manifests, installed copies, the lock file and the errors the
  code throws. A parsed manifest is a value (`Manifest`). The object that
  packaging edits in place is a class (`PackageJson`, with its dictionaries
  as `DependencyMap` objects), tied to the value by `View()`.

Some inputs are parameters rather than I/O:

- the directory listing, with what each directory's `package.json` and
  `node_modules` contain;
- the lock file;
- glob results and file modification times (per build step, since earlier
  step scripts may change files);
- `semver.satisfies`;
- the process environment and platform;
- the tarballs on disk;
- the temporary directory.

Subprocesses (`npm install`, `npm run build`, step scripts, `npm pack`) are
reported in the results instead of being run, and are taken to succeed.

## Model

| member | source | states |
|---|---|---|
| PackageEnumerator.PackageNameToFileName | packages/blerf/src/packageEnumerator.ts:173-178 | a name starting with `@` loses exactly one character, and one without a `/` just loses the `@`; any other name is returned unchanged |
| PackageEnumerator.ScopedFileName | packages/blerf/src/packageEnumerator.ts:173-178 | `@scope/rest` becomes `scope-rest`: the `@` is dropped and only the first `/` becomes `-` |
| PackageEnumerator.ValidateFileReference | packages/blerf/src/packageEnumerator.ts:180-185 | passes exactly when the version equals `file:../../artifacts/build/` + sanitised name + `.tgz`; otherwise it throws, naming the package and the expected reference |
| PackageEnumerator.ValidReferenceNamesArchive | packages/blerf/src/packageEnumerator.ts:180-185 | an accepted reference is a `file:` reference, and the sanitised archive name can be read back from it |
| PackageEnumerator.ExpectedReferenceIffFileName | packages/blerf/src/packageEnumerator.ts:180-185 | two packages have the same canonical reference exactly when they have the same archive name |
| PackageEnumerator.EnumerateDependencies | packages/blerf/src/packageEnumerator.ts:117-129 | the callback runs for every `dependencies` entry with dev false, then for every `devDependencies` entry with dev true; an absent dictionary adds no calls |
| PackageEnumerator.ProjectReferenceDependencies | packages/blerf/src/packageEnumerator.ts:61-69 | non-empty only for a `file:` version whose installed manifest could be read. Then its keys are exactly the installed copy's non-dev dependency names, each with its declared version |
| PackageEnumerator.DependenciesOfLastCall | packages/blerf/src/packageEnumerator.ts:58-78 | every declared name is recorded, with the information of the last call that names it |
| PackageEnumerator.DependenciesOfKeys | packages/blerf/src/packageEnumerator.ts:58-78 | nothing but declared names is recorded |
| PackageEnumerator.ResolveDependencies | packages/blerf/src/packageEnumerator.ts:56-78 | the dependency record built for a package is the last-call-wins record of its declared dependencies |
| PackageEnumerator.RecordDependencies | packages/blerf/src/packageEnumerator.ts:58-78 | running the callback over any sequence of calls builds the last-call-wins record |
| PackageEnumerator.NodesOfIff | packages/blerf/src/packageEnumerator.ts:39-54 | a name is a node exactly when some directory has a readable manifest with that non-empty name |
| PackageEnumerator.PackagesOfNodes | packages/blerf/src/packageEnumerator.ts:39-85 | `packages` has exactly the nodes as keys, and each package is filed under its own name |
| PackageEnumerator.PackagesLastWins | packages/blerf/src/packageEnumerator.ts:80-84 | of several directories declaring one name, the last one listed is the one recorded |
| PackageEnumerator.CollectPackages | packages/blerf/src/packageEnumerator.ts:39-85 | the first loop yields the node list and the package table of the specification functions |
| PackageEnumerator.NodeReferencesIff | packages/blerf/src/packageEnumerator.ts:91-96 | a package's call becomes a reference exactly when its version starts with `file:` and it names a node |
| PackageEnumerator.ReferencesIff | packages/blerf/src/packageEnumerator.ts:87-97 | the references of the edge pass are those of visited packages whose calls carry a `file:` version naming a node |
| PackageEnumerator.EdgeIff | packages/blerf/src/packageEnumerator.ts:87-97 | an edge from `d` to `p` exists exactly when `p` is a package and `d` a node, and some declared dependency of `p` on `d` starts with `file:` |
| PackageEnumerator.ValidatedEdge | packages/blerf/src/packageEnumerator.ts:92-94 | when the pass succeeds, every edge comes from a declared reference equal to the canonical reference of its dependency |
| PackageEnumerator.CallEdges | packages/blerf/src/packageEnumerator.ts:91-96 | succeeds exactly when every reference of the calls is canonical, with one edge per reference; otherwise it fails with the error for the first bad one |
| PackageEnumerator.CollectPackageEdges | packages/blerf/src/packageEnumerator.ts:88-96 | the same for one package's declared dependencies |
| PackageEnumerator.CollectEdges | packages/blerf/src/packageEnumerator.ts:87-97 | the same across all packages in discovery order: the first non-canonical reference of the whole pass aborts it |
| PackageEnumerator.EnumeratePackages | packages/blerf/src/packageEnumerator.ts:31-97 | the graph handed to the dependency sort is (nodes, edges, packages) of the listing, or the error for the first non-canonical project reference |
| PackageEnumerator.RewriteProjectReferences | packages/blerf/src/packageEnumerator.ts:187-233 | shared in-place loop. A null dictionary is left alone. `file:` entries are overwritten in key order with the rewrite's value, and other entries are skipped. The first failure stops the loop, with the entries before it already rewritten |
| PackageEnumerator.RewriteKeepsKeys | packages/blerf/src/packageEnumerator.ts:192-196 | a rewrite keeps every key at its position and leaves every entry that is not `file:` unchanged |
| PackageEnumerator.ReferencedManifest | packages/blerf/src/packageEnumerator.ts:198-199 | `packages[name].packageJson` when the package is known; otherwise the TypeError of a missing package |
| PackageEnumerator.RewriteProjectReferencesVersion | packages/blerf/src/packageEnumerator.ts:219-233 | the loop with the caret rewrite |
| PackageEnumerator.CaretRewriteRemovesProjectReferences | packages/blerf/src/packageEnumerator.ts:219-233 | after a complete caret rewrite no `file:` entry remains, and each former one is `^` + the referenced package's version |
| PackageEnumerator.RewriteProjectReferencesFullPath | packages/blerf/src/packageEnumerator.ts:187-201 | the loop with the archive-path rewrite |
| PackageEnumerator.ArtifactPathUnderDirectory | packages/blerf/src/packageEnumerator.ts:187-201 | after a complete rewrite, each former `file:` entry is `join(dir, <sanitised name>.tgz)` of the referenced package |
| PackageEnumerator.RewriteProjectReferencesFullPathVersion | packages/blerf/src/packageEnumerator.ts:203-217 | the loop with the versioned archive rewrite |
| PackageEnumerator.VersionedArtifactEntry | packages/blerf/src/packageEnumerator.ts:214-215 | a rewritten entry is again a `file:` reference, to `join(dir, <sanitised name>-<version>.tgz)` |
| PackageEnumerator.VersionedArtifactPathShape | packages/blerf/src/packageEnumerator.ts:203-217 | after a complete rewrite, every former `file:` entry has that shape |
| PackageEnumerator.RewriteSucceedsIffPackageKnown | packages/blerf/src/packageEnumerator.ts:187-233 | each of the three rewrites succeeds on an entry exactly when the entry is not `file:` or names a known package |
| PackageEnumerator.TrimPackageJson | packages/blerf/src/packageEnumerator.ts:235-241 | removes exactly `scripts`, `blerf` and `devDependencies`; every other key keeps its value |
| PackageEnumerator.ProcessInOrder | packages/blerf/src/packageEnumerator.ts:102-114 | each package of the sorted order is processed once, in order, and its own failure does not stop the others; a name with no package information ends the run |
| Build.NormalizePaths | packages/blerf/src/commands/build.ts:46-62 | an array is kept, a string becomes a one-element list, anything else becomes the empty list |
| Build.LatestIsMaximum | packages/blerf/src/commands/build.ts:196-203 | the maximum is -1 for no files, at least -1 and every time, and otherwise one of the times |
| Build.GetLastModifiedDate | packages/blerf/src/commands/build.ts:196-203 | returns the -1-started maximum: at least -1 and every file's time, and -1 or the time of some file |
| Build.StaleIff | packages/blerf/src/commands/build.ts:74-77 | a step is stale exactly when some source time is above -1 and above every output time |
| Build.NoSourcesNeverStale | packages/blerf/src/commands/build.ts:74-77 | without source files a step is never stale |
| Build.SourcesWithoutOutputsStale | packages/blerf/src/commands/build.ts:74-77 | with non-negative times, a source file and no output file make a step stale |
| Build.FreshOutputNotStale | packages/blerf/src/commands/build.ts:74-77 | an output at least as new as every source keeps the step up to date |
| Build.LastPathKey | packages/blerf/src/commands/build.ts:183-187 | the last key matching `/^PATH$/i`, or none when no key matches |
| Build.FindPathVariable | packages/blerf/src/commands/build.ts:180-190 | `PATH` off win32; on win32, the last PATH-like key of the process environment, or `Path` |
| Build.Environment.constructor | packages/blerf/src/commands/build.ts:81 | the copy starts equal to the process environment |
| Build.Environment.PrependPath | packages/blerf/src/commands/build.ts:179-194 | the chosen variable becomes the directory, then `;` (win32) or `:`, then its old value (`undefined` when unset); every other variable is unchanged |
| Build.BinPath | packages/blerf/src/commands/build.ts:82 | the package directory, then `/`, then `./node_modules/.bin` |
| Build.StepEnvironment | packages/blerf/src/commands/build.ts:81-83 | a stale step's environment: the PATH variable is extended with the package's `.bin` directory, and nothing else changes |
| Build.StepOutcomeOf | packages/blerf/src/commands/build.ts:45-91 | a step does nothing unless stale, and runs its script exactly when stale and the script is set, with the extended environment |
| Build.NoSourceFilesNeverRuns | packages/blerf/src/commands/build.ts:64-77 | a step whose source patterns match nothing never runs |
| Build.MissingOutputsRun | packages/blerf/src/commands/build.ts:64-87 | with non-negative times, a step with a script, a matching source and no matching output runs |
| Build.ProcessBuildStep | packages/blerf/src/commands/build.ts:45-91 | `processBuildStep` does what the step specification says |
| Build.NeedsInstallDependenciesFalseIff | packages/blerf/src/commands/build.ts:153-177 | no install is needed exactly when every dependency is installed and is `file:` or satisfied |
| Build.NeedsInstallDependenciesTrueIff | packages/blerf/src/commands/build.ts:153-177 | an install is needed exactly when the first dependency that is not current is missing or unsatisfied |
| Build.NeedsNpmInstallDependencies | packages/blerf/src/commands/build.ts:153-177 | the early-return loop computes that answer, including the TypeError on an unparsable installed manifest |
| Build.ScanNonTopLevelDependencies | packages/blerf/src/commands/build.ts:136-151 | appends every `requires` key at any depth that is not yet listed; existing names stay in place, and a list without repeats stays without repeats |
| Build.NeedsInstallFalseIff | packages/blerf/src/commands/build.ts:93-134 | no install is needed exactly when all dependencies and dev dependencies are current, and every top-level lock entry is required elsewhere in the lock or still declared with a non-empty value |
| Build.MissingDependencyNeedsInstall | packages/blerf/src/commands/build.ts:94-104 | a declared dependency without an installed manifest means an install, when all installed manifests parse |
| Build.NoUnreadableNoFailure | packages/blerf/src/commands/build.ts:169-170 | when every installed manifest parses, the dependency check does not throw |
| Build.NeedsNpmInstall | packages/blerf/src/commands/build.ts:93-134 | `needsNpmInstall` computes the answer characterised above |
| Build.BuildPackage | packages/blerf/src/commands/build.ts:19-43 | install check first. Without steps it runs `npm run build` when a build script is set, skips otherwise, and throws when `scripts` is absent. Steps that are not an array throw. Otherwise each step is processed, in order |
| CommandLine.ExitCode | packages/blerf/src/commandLineApplication.ts:56-94 | 1 exactly for a rejected command line, 0 for usage and for an invocation |
| CommandLine.OptionNamed | packages/blerf/src/commandLineApplication.ts:69 | the first option with the given name, or none when no option has it |
| CommandLine.OptionWithShortName | packages/blerf/src/commandLineApplication.ts:79 | the first option with the given short name, or none when no option has it |
| CommandLine.ShortOptionKey | packages/blerf/src/commandLineApplication.ts:79 | the short name looked up is everything after the dash |
| CommandLine.LookupOption | packages/blerf/src/commandLineApplication.ts:68-86 | an option found for an argument is one of the command's options |
| CommandLine.ParsedKeysAreOptionNames | packages/blerf/src/commandLineApplication.ts:61-91 | every key of the option object passed to the command is the name of one of its options |
| CommandLine.ArgsFollowSeparator | packages/blerf/src/commandLineApplication.ts:65-67 | the pass-through arguments are empty, or exactly the arguments after a `--` |
| CommandLine.RejectionNamesArgument | packages/blerf/src/commandLineApplication.ts:68-90 | a rejection names an argument of the command line. It is one without a dash, or an option that no option name matches (`--`), or no short name under the lookup in use (`-`) |
| CommandLine.LongOptionStoresValue | packages/blerf/src/commandLineApplication.ts:68-77 | `<command> --name value` invokes the command with `value` under the option's name and no pass-through arguments |
| CommandLine.ShortOptionStoresValue | packages/blerf/src/commandLineApplication.ts:78-86 | as written, `<command> -<d><key> value` invokes the command with `value` under the name of the option whose short name is `key`: the character after the dash is skipped |
| CommandLine.ShortOptionAsWrittenRejected | packages/blerf/src/commandLineApplication.ts:79 | with the lookup as written, `-c value` is rejected even though an option has short name `c`; with the intended lookup it is accepted |
| CommandLine.ShortOptionIntendedStoresValue | packages/blerf/src/commandLineApplication.ts:79 | corrected half of the `-x` finding: with the intended lookup, `-x value` stores `value` under the name of the option whose short name is `x` |
| CommandLine.OptionBody | packages/blerf/src/commandLineApplication.ts:112-119 | a command argument renders as `<name>`; an enum option as `--name <` + its values joined by `\|` + `>` (no values when the list is absent); any other option as `--name <string>` |
| CommandLine.OptionText | packages/blerf/src/commandLineApplication.ts:107-123 | a space, then the body, wrapped in `[...]` unless the option is required |
| CommandLine.CommandUsageLines | packages/blerf/src/commandLineApplication.ts:127-132 | the indented usage line, then `"  " + description` when there is a description, then an empty line |
| CommandLine.UsageLines | packages/blerf/src/commandLineApplication.ts:100-102 | the header `<program> <command> [options]`, an empty line, `Commands:` |
| CommandLine.UsageListsEveryCommand | packages/blerf/src/commandLineApplication.ts:103-133 | every registered command's usage line, under its table key, appears in the usage text |
| CommandLine.ParseArguments | packages/blerf/src/commandLineApplication.ts:61-94 | the argument loop, with `-x` looked up by `substr(2)` as written, gives the parse result of the specification and never usage |
| CommandLine.RenderCommandText | packages/blerf/src/commandLineApplication.ts:105-124 | the appended `commandText` is the program, the key and every option's text in order |
| CommandLine.RenderUsage | packages/blerf/src/commandLineApplication.ts:97-135 | the lines written are the header followed by each command's lines, in registration order |
| CommandLine.CommandLineApplication.constructor | packages/blerf/src/commandLineApplication.ts:26 | a class with no registered command has an empty table |
| CommandLine.CommandLineApplication.RegisterCommand | packages/blerf/src/commandLineApplication.ts:23-35 | the command is stored under its name, replacing an earlier one of that name in place; every other entry stays |
| CommandLine.CommandLineApplication.Run | packages/blerf/src/commandLineApplication.ts:49-95 | usage (exit 0) for an unknown command, otherwise the as-written parse of the remaining arguments; exit 1 exactly on rejection |
| CommandLine.CommandLineApplication.Usage | packages/blerf/src/commandLineApplication.ts:97-135 | the usage text of the current table |
| Pack.UpdateDependencyVersions | packages/blerf/src/commands/pack.ts:35-58 | the in-place loop with the packaging rewrite; a null dictionary is a no-op |
| Pack.AllRewritableIff | packages/blerf/src/commands/pack.ts:40-56 | the rewrite of a dictionary goes through exactly when each of its `file:` references names a known package |
| Pack.DanglingReferenceFails | packages/blerf/src/commands/pack.ts:53-56 | a `file:` reference to an unknown package throws, quoting the reference |
| Pack.PublishEntries | packages/blerf/src/commands/pack.ts:50-52 | publish mode replaces each `file:` reference by the plain version of the named package; keys and other entries are unchanged |
| Pack.DeployEntries | packages/blerf/src/commands/pack.ts:48-49 | deploy mode replaces each `file:` reference by `<name>-<version>.tgz`, with the name as written; keys and other entries are unchanged |
| Pack.PublishRemovesProjectReferences | packages/blerf/src/commands/pack.ts:50-52 | a published manifest keeps no `file:` reference when no workspace version starts with `file:` |
| Pack.PatchPackageJson | packages/blerf/src/commands/pack.ts:60-66 | rewrites `dependencies`, then `devDependencies`, and keeps every other key. It succeeds exactly when both rewrites go through; otherwise it reports the first failure. An unreadable manifest throws |
| Pack.TarballPathAsWritten | packages/blerf/src/commands/pack.ts:23 | the tarball path the code assumes, in the package directory; the one `PackPackage` uses |
| Pack.TarballPath | packages/blerf/src/commands/pack.ts:23 | corrected half of the tarball finding: the tarball `npm pack` writes, in the package directory |
| Pack.TarballPathIsReferencedArchive | packages/blerf/src/commands/pack.ts:23 | the corrected path is the archive that a versioned artifact reference to the package names |
| Pack.TarballPathsAgreeUnscoped | packages/blerf/src/commands/pack.ts:23 | for a name without a scope, the path as written and the corrected one coincide |
| Pack.ScopedTarballPathAsWrittenMissed | packages/blerf/src/commands/pack.ts:23 | for a scoped name, the path as written is one character longer than the tarball written, so it is not found |
| Pack.PackPackage | packages/blerf/src/commands/pack.ts:17-33 | the tarball is looked up at the path as written, and a missing one throws. Otherwise the manifest inside is patched as above and packed again at the same path |

## Left out

- File-system access, `JSON.parse`, `npm` and other subprocesses, `tar`, `fast-glob`, `stringify-package` and console output. Their results are inputs, or are reported in the result values.
- Build.BuildPackage: every subprocess (`npm install`, `npm run build`, a step script) is taken to exit 0. A failing one makes `execSync` throw and stops the remaining steps of the package; that is not modelled.
- Pack.PackPackage: `npm pack` is taken to exit 0 and to have written its tarball. A failing `npm pack` throws before any patching; that is not modelled.
- `path.join` normalisation of `.` and `..` segments and `path.resolve` of the `.bin` directory: paths are joined with `/` as written.
- `semver.satisfies` is an uninterpreted parameter. The dependency sort (`toposort`, which is not part of this model) is replaced by the order given to `ProcessInOrder`.
- `rimraf` and `rimrafWithRetry`: recursive deletion with timed retries, which is I/O and timing. Also the deletion of the temporary directory in `pack`.
- `async`/`await`: every operation runs to completion in sequence.
- `runCommandLineApplicationAndExit`, exceptions thrown by a command's method, and the `process.exit(1)` call on an unknown long option. Both rejection branches are modelled as the result 1.
- JavaScript object details: prototype keys, the ordering of integer-like keys, and the case-insensitive environment on Windows. Dependency dictionaries, scripts and the environment are insertion-ordered dictionaries.
- Manifests: the keys the tool does not interpret are kept as an unordered map, so the top-level key order of a `package.json` that `TrimPackageJson` or `PatchPackageJson` produces is not modelled.
- Values of the wrong JSON type beyond those the code branches on. Examples: a non-string dependency version; `name`/`version` other than strings (an absent one is ""); a `scripts.build` that is not a string.
- Modification times are integers, not floating-point milliseconds.
- Build.BuildPackage: the effect of a step script on the files of later steps is not modelled. Each step is given the file system it observes, through `fsAt`.
- Build.NeedsNpmInstall: the lock file is `None` when `package-lock.json` is missing, unparsable or has no `dependencies`. These cases are not distinguished, just as the code treats them alike.
- Pack: `pack.ts` writes the plain version in publish mode and `<name>-<version>.tgz` in deploy mode, and strips nothing from the packed manifest. It does not rewrite source maps or delete the raw archive.
- Build: `build.ts` decides a single plain `npm install` from version drift and orphaned lock entries. It does not refresh single references, install offline or repair the lock file.
- The dependency sort's cycle detection belongs to `toposort`, which is not part of this model.
- The `test`, `bundle`, `run` and `index` commands are not part of this model.

## Findings

| source | as written | input that shows it | evidently intended | confidence | as-written member | corrected member |
|---|---|---|---|---|---|---|
| packages/blerf/src/commandLineApplication.ts:79 | a `-x` argument is looked up by `arg.substr(2)`, which drops the character after the dash | command line `["build", "-c", "release"]` for a command with an option whose short name is `c`: the lookup searches for short name "" and exits with 1 | look up `arg.substr(1)`, everything after the dash | high (not executed) | CommandLine.ShortOptionAsWrittenRejected | CommandLine.ShortOptionIntendedStoresValue |
| packages/blerf/src/commands/pack.ts:23 | the tarball path uses the package name as written: `<dir>/@scope/x-1.0.0.tgz` | package `@scope/x` at version `1.0.0`: `npm pack` writes `<dir>/scope-x-1.0.0.tgz`, and extraction reads a path that does not exist | sanitise the name as `packageNameToFileName` does, as packageEnumerator.ts:215 does for the same archive | medium (not executed) | Pack.ScopedTarballPathAsWrittenMissed | Pack.TarballPath |
