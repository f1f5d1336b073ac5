/**
 * The `build` command's per-package logic: whether `npm install` is needed,
 * how `blerf.steps` are dispatched, and when a build step is stale. Globbing,
 * file modification times and the semver range check are given as
 * functions; running `npm` and step scripts is reported, not performed.
 */
module Build {
  import opened Wrappers
  import opened Strings
  import opened Dicts
  import opened Manifests
  import opened PackageEnumerator

  /*
   * Step paths and modification times
   */

  /** `srcPath` / `outPath` of a step as a list of glob patterns. */
  function NormalizePaths(spec: PathSpec): (paths: seq<string>)
    ensures spec.PathArray? ==> paths == spec.patterns
    ensures spec.PathString? ==> paths == [spec.pattern]
    ensures spec.PathOther? ==> paths == []
  {
    match spec
    case PathArray(patterns) => patterns
    case PathString(pattern) => [pattern]
    case PathOther => []
  }

  /** `Math.max` over the times, starting from the sentinel -1. */
  function Latest(mtimes: seq<int>): int {
    if |mtimes| == 0 then -1
    else
      var before := Latest(mtimes[..|mtimes| - 1]);
      var last := mtimes[|mtimes| - 1];
      if before < last then last else before
  }

  /** The sentinel-started maximum is -1 or one of the times, and bounds them all from above. */
  lemma {:induction false} LatestIsMaximum(mtimes: seq<int>)
    ensures Latest(mtimes) >= -1
    ensures forall i :: 0 <= i < |mtimes| ==> mtimes[i] <= Latest(mtimes)
    ensures Latest(mtimes) == -1 || Latest(mtimes) in mtimes
    ensures |mtimes| == 0 ==> Latest(mtimes) == -1
  {
    if |mtimes| > 0 {
      var prefix := mtimes[..|mtimes| - 1];
      LatestIsMaximum(prefix);
      assert forall i :: 0 <= i < |prefix| ==> mtimes[i] == prefix[i];
      assert Latest(prefix) in prefix ==> Latest(prefix) in mtimes;
    }
  }

  /** The modification time of every file, each resolved against `basePath`. */
  function Mtimes(basePath: string, fileNames: seq<string>, mtime: string -> int): (ms: seq<int>)
    ensures |ms| == |fileNames|
    ensures forall i :: 0 <= i < |fileNames| ==> ms[i] == mtime(PathJoin(basePath, fileNames[i]))
  {
    seq(|fileNames|, i requires 0 <= i < |fileNames| => mtime(PathJoin(basePath, fileNames[i])))
  }

  /** `getLastModifiedDate`: the latest modification time of the files, or -1 for none. */
  method GetLastModifiedDate(basePath: string, fileNames: seq<string>, mtime: string -> int) returns (mtimeMs: int)
    ensures mtimeMs == Latest(Mtimes(basePath, fileNames, mtime))
    ensures mtimeMs >= -1
    ensures forall i :: 0 <= i < |fileNames| ==> mtime(PathJoin(basePath, fileNames[i])) <= mtimeMs
    ensures mtimeMs == -1 || exists i :: 0 <= i < |fileNames| && mtimeMs == mtime(PathJoin(basePath, fileNames[i]))
  {
    ghost var ms := Mtimes(basePath, fileNames, mtime);
    mtimeMs := -1;
    for i := 0 to |fileNames|
      invariant mtimeMs == Latest(ms[..i])
    {
      assert ms[..i + 1][..i] == ms[..i];
      var t := mtime(PathJoin(basePath, fileNames[i]));
      if mtimeMs < t {
        mtimeMs := t;
      }
    }
    assert ms[..|fileNames|] == ms;
    LatestIsMaximum(ms);
  }

  /** A step is stale when its newest source is newer than its newest output. */
  predicate IsStale(srcMtimes: seq<int>, outMtimes: seq<int>) {
    Latest(srcMtimes) > Latest(outMtimes)
  }

  /**
   * Staleness without the sentinel: some source is newer than -1 and than
   * every output.
   */
  lemma {:induction false} StaleIff(srcMtimes: seq<int>, outMtimes: seq<int>)
    ensures IsStale(srcMtimes, outMtimes) <==>
      exists i :: 0 <= i < |srcMtimes| && srcMtimes[i] > -1 &&
        forall j :: 0 <= j < |outMtimes| ==> srcMtimes[i] > outMtimes[j]
  {
    LatestIsMaximum(srcMtimes);
    LatestIsMaximum(outMtimes);
    if IsStale(srcMtimes, outMtimes) {
      assert Latest(srcMtimes) in srcMtimes;
      var i :| 0 <= i < |srcMtimes| && srcMtimes[i] == Latest(srcMtimes);
      assert srcMtimes[i] > -1;
    }
    if i :| 0 <= i < |srcMtimes| && srcMtimes[i] > -1 &&
           forall j :: 0 <= j < |outMtimes| ==> srcMtimes[i] > outMtimes[j] {
      if Latest(outMtimes) != -1 {
        var j :| 0 <= j < |outMtimes| && outMtimes[j] == Latest(outMtimes);
      }
    }
  }

  /** A step without source files is never stale. */
  lemma {:induction false} NoSourcesNeverStale(outMtimes: seq<int>)
    ensures !IsStale([], outMtimes)
  {
    LatestIsMaximum(outMtimes);
  }

  /** With non-negative times, a step with a source file and no output file is stale. */
  lemma {:induction false} SourcesWithoutOutputsStale(srcMtimes: seq<int>)
    requires |srcMtimes| > 0
    requires forall i :: 0 <= i < |srcMtimes| ==> srcMtimes[i] >= 0
    ensures IsStale(srcMtimes, [])
  {
    LatestIsMaximum(srcMtimes);
  }

  /** An output at least as new as every source keeps the step up to date. */
  lemma {:induction false} FreshOutputNotStale(srcMtimes: seq<int>, outMtimes: seq<int>, k: int)
    requires 0 <= k < |outMtimes|
    requires forall i :: 0 <= i < |srcMtimes| ==> srcMtimes[i] <= outMtimes[k]
    ensures !IsStale(srcMtimes, outMtimes)
  {
    LatestIsMaximum(srcMtimes);
    LatestIsMaximum(outMtimes);
  }

  /*
   * The PATH variable
   */

  /** `/^PATH$/i`: the four letters of PATH in any case. */
  predicate IsPathKey(key: string) {
    && |key| == 4
    && key[0] in "Pp" && key[1] in "Aa" && key[2] in "Tt" && key[3] in "Hh"
  }

  /** The last key that names the PATH variable, if any. */
  function LastPathKey(keys: seq<string>): (r: Option<string>)
    ensures r.None? <==> forall i :: 0 <= i < |keys| ==> !IsPathKey(keys[i])
    ensures r.Some? ==>
      exists i :: && 0 <= i < |keys| && keys[i] == r.value && IsPathKey(keys[i])
                  && forall j :: i < j < |keys| ==> !IsPathKey(keys[j])
  {
    if |keys| == 0 then None
    else if IsPathKey(keys[|keys| - 1]) then Some(keys[|keys| - 1])
    else
      var r := LastPathKey(keys[..|keys| - 1]);
      assert forall i :: 0 <= i < |keys| - 1 ==> keys[..|keys| - 1][i] == keys[i];
      r
  }

  /** The name of the variable to extend: on win32 the last PATH-like key of the environment, or `Path`. */
  function PathVariable(envKeys: seq<string>, isWin32: bool): string {
    if !isWin32 then "PATH"
    else
      match LastPathKey(envKeys)
      case Some(key) => key
      case None => "Path"
  }

  /** The loop of `prependPath` that picks the variable name. */
  method FindPathVariable(envKeys: seq<string>, isWin32: bool) returns (pathName: string)
    ensures pathName == PathVariable(envKeys, isWin32)
    ensures !isWin32 ==> pathName == "PATH"
    ensures isWin32 ==> pathName == "Path" || (IsPathKey(pathName) && pathName in envKeys)
  {
    if !isWin32 {
      return "PATH";
    }
    pathName := "Path";
    for i := 0 to |envKeys|
      invariant pathName == match LastPathKey(envKeys[..i]) case Some(key) => key case None => "Path"
    {
      assert envKeys[..i + 1][..i] == envKeys[..i];
      if IsPathKey(envKeys[i]) {
        pathName := envKeys[i];
      }
    }
    assert envKeys[..|envKeys|] == envKeys;
  }

  function PathSeparator(isWin32: bool): string {
    if isWin32 then ";" else ":"
  }

  /** A value as string concatenation renders it: a missing one is "undefined". */
  function ValueText(v: Option<string>): string {
    match v
    case Some(s) => s
    case None => "undefined"
  }

  /** A copy of the process environment that a step script runs with. */
  class Environment {
    var entries: Dict<string>

    /** `Object.assign({}, process.env)`. */
    constructor (processEnv: Dict<string>)
      ensures entries == processEnv
    {
      entries := processEnv;
    }

    /**
     * `prependPath`: the PATH variable becomes `bin`, the separator, then its
     * old value; every other variable keeps its value.
     */
    method PrependPath(pathToPrepend: string, isWin32: bool, processEnvKeys: seq<string>)
      modifies this
      ensures var name := PathVariable(processEnvKeys, isWin32);
              && entries == Put(old(entries), name, pathToPrepend + PathSeparator(isWin32) + ValueText(Get(old(entries), name)))
              && Get(entries, name) == Some(pathToPrepend + PathSeparator(isWin32) + ValueText(Get(old(entries), name)))
              && (forall k :: k != name ==> Get(entries, k) == Get(old(entries), k))
    {
      var pathName := FindPathVariable(processEnvKeys, isWin32);
      var separator := if isWin32 then ";" else ":";
      entries := Put(entries, pathName, pathToPrepend + separator + ValueText(Get(entries, pathName)));
    }
  }

  /** The environment a stale step's script receives. */
  function StepEnvironment(packagePath: string, processEnv: Dict<string>, isWin32: bool): (env: Dict<string>)
    ensures var name := PathVariable(Keys(processEnv), isWin32);
            && Get(env, name) == Some(BinPath(packagePath) + PathSeparator(isWin32) + ValueText(Get(processEnv, name)))
            && forall k :: k != name ==> Get(env, k) == Get(processEnv, k)
  {
    var name := PathVariable(Keys(processEnv), isWin32);
    Put(processEnv, name, BinPath(packagePath) + PathSeparator(isWin32) + ValueText(Get(processEnv, name)))
  }

  /** The package's own executables, prepended to the PATH. */
  function BinPath(packagePath: string): (r: string)
    ensures StartsWith(r, packagePath + "/")
    ensures r[|packagePath| + 1..] == "./node_modules/.bin"
  {
    PathJoin(packagePath, "./node_modules/.bin")
  }

  /*
   * Build steps
   */

  /**
   * The file system a step sees: `glob(patterns, cwd)` lists the matching
   * files relative to `cwd`, `mtime(path)` is a file's modification time.
   */
  datatype FileSystem = FileSystem(glob: (seq<string>, string) -> seq<string>, mtime: string -> int)

  /** What a build step did: nothing, or found modifications and ran its script (if it has one). */
  datatype StepOutcome = UpToDate | StaleWithoutScript | Ran(script: string, env: Dict<string>)

  /** The source and output times of a step. */
  function StepSourceMtimes(packagePath: string, step: BuildStep, fs: FileSystem): seq<int> {
    Mtimes(packagePath, fs.glob(NormalizePaths(step.srcPath), packagePath), fs.mtime)
  }

  function StepOutputMtimes(packagePath: string, step: BuildStep, fs: FileSystem): seq<int> {
    Mtimes(packagePath, fs.glob(NormalizePaths(step.outPath), packagePath), fs.mtime)
  }

  /** What `processBuildStep` does with one step. */
  function StepOutcomeOf(packagePath: string, step: BuildStep, fs: FileSystem, processEnv: Dict<string>, isWin32: bool): (o: StepOutcome)
    ensures o.UpToDate? <==> !IsStale(StepSourceMtimes(packagePath, step, fs), StepOutputMtimes(packagePath, step, fs))
    ensures o.Ran? <==> IsStale(StepSourceMtimes(packagePath, step, fs), StepOutputMtimes(packagePath, step, fs)) && step.script != ""
    ensures o.Ran? ==> o.script == step.script && o.env == StepEnvironment(packagePath, processEnv, isWin32)
  {
    if !IsStale(StepSourceMtimes(packagePath, step, fs), StepOutputMtimes(packagePath, step, fs)) then UpToDate
    else if step.script == "" then StaleWithoutScript
    else Ran(step.script, StepEnvironment(packagePath, processEnv, isWin32))
  }

  /** A step whose source patterns match no file never runs. */
  lemma {:induction false} NoSourceFilesNeverRuns(packagePath: string, step: BuildStep, fs: FileSystem, processEnv: Dict<string>, isWin32: bool)
    requires fs.glob(NormalizePaths(step.srcPath), packagePath) == []
    ensures StepOutcomeOf(packagePath, step, fs, processEnv, isWin32) == UpToDate
  {
    assert StepSourceMtimes(packagePath, step, fs) == [];
    NoSourcesNeverStale(StepOutputMtimes(packagePath, step, fs));
  }

  /** A step with a script, a source file and no output file runs, when times are non-negative. */
  lemma {:induction false} MissingOutputsRun(packagePath: string, step: BuildStep, fs: FileSystem, processEnv: Dict<string>, isWin32: bool)
    requires step.script != ""
    requires fs.glob(NormalizePaths(step.srcPath), packagePath) != []
    requires fs.glob(NormalizePaths(step.outPath), packagePath) == []
    requires forall f :: fs.mtime(f) >= 0
    ensures StepOutcomeOf(packagePath, step, fs, processEnv, isWin32).Ran?
  {
    assert StepOutputMtimes(packagePath, step, fs) == [];
    SourcesWithoutOutputsStale(StepSourceMtimes(packagePath, step, fs));
  }

  /** `processBuildStep`. */
  method ProcessBuildStep(packagePath: string, step: BuildStep, fs: FileSystem, processEnv: Dict<string>, isWin32: bool)
    returns (outcome: StepOutcome)
    ensures outcome == StepOutcomeOf(packagePath, step, fs, processEnv, isWin32)
  {
    var srcPath := NormalizePaths(step.srcPath);
    var outPath := NormalizePaths(step.outPath);
    var srcFileNames := fs.glob(srcPath, packagePath);
    var outFileNames := fs.glob(outPath, packagePath);
    var srcLastModified := GetLastModifiedDate(packagePath, srcFileNames, fs.mtime);
    var outLastModified := GetLastModifiedDate(packagePath, outFileNames, fs.mtime);
    if srcLastModified > outLastModified {
      var env := new Environment(processEnv);
      env.PrependPath(BinPath(packagePath), isWin32, Keys(processEnv));
      if step.script != "" {
        outcome := Ran(step.script, env.entries);
      } else {
        outcome := StaleWithoutScript;
      }
    } else {
      outcome := UpToDate;
    }
  }

  /*
   * Whether `npm install` is needed
   */

  /** How one declared dependency stands against its installed copy. */
  datatype InstallState = NotInstalled | Unsatisfied | Unreadable | Current

  /**
   * One iteration of `needsNpmInstallDependencies`: a missing manifest is
   * reported first, a `file:` reference needs nothing more, otherwise the
   * installed version must satisfy the declared range.
   */
  function InstallStateOf(e: (string, string), nodeModules: NodeModules, satisfies: (string, string) -> bool): InstallState {
    if e.0 !in nodeModules then NotInstalled
    else if IsProjectReference(e.1) then Current
    else
      match nodeModules[e.0]
      case None => Unreadable
      case Some(installed) => if satisfies(installed.version, e.1) then Current else Unsatisfied
  }

  /** The answer of `needsNpmInstallDependencies`: the first dependency that is not current decides. */
  function NeedsInstallDependencies(dependencies: Dict<string>, nodeModules: NodeModules, satisfies: (string, string) -> bool): Result<bool, Error> {
    if |dependencies| == 0 then Success(false)
    else
      match InstallStateOf(dependencies[0], nodeModules, satisfies)
      case NotInstalled => Success(true)
      case Unsatisfied => Success(true)
      case Unreadable => Failure(UnreadableInstalledManifest(dependencies[0].0))
      case Current => NeedsInstallDependencies(dependencies[1..], nodeModules, satisfies)
  }

  /** No install is needed exactly when every dependency is current. */
  lemma {:induction false} NeedsInstallDependenciesFalseIff(dependencies: Dict<string>, nodeModules: NodeModules, satisfies: (string, string) -> bool)
    ensures NeedsInstallDependencies(dependencies, nodeModules, satisfies) == Success(false) <==>
      forall i :: 0 <= i < |dependencies| ==> InstallStateOf(dependencies[i], nodeModules, satisfies) == Current
  {
    if |dependencies| > 0 {
      NeedsInstallDependenciesFalseIff(dependencies[1..], nodeModules, satisfies);
      assert forall i :: 1 <= i < |dependencies| ==> dependencies[1..][i - 1] == dependencies[i];
    }
  }

  /** An install is needed exactly when the first dependency that is not current is missing or unsatisfied. */
  lemma {:induction false} NeedsInstallDependenciesTrueIff(dependencies: Dict<string>, nodeModules: NodeModules, satisfies: (string, string) -> bool)
    ensures NeedsInstallDependencies(dependencies, nodeModules, satisfies) == Success(true) <==>
      exists k :: && 0 <= k < |dependencies|
                  && InstallStateOf(dependencies[k], nodeModules, satisfies) in {NotInstalled, Unsatisfied}
                  && forall j :: 0 <= j < k ==> InstallStateOf(dependencies[j], nodeModules, satisfies) == Current
  {
    if |dependencies| > 0 {
      var rest := dependencies[1..];
      NeedsInstallDependenciesTrueIff(rest, nodeModules, satisfies);
      assert forall i :: 1 <= i < |dependencies| ==> rest[i - 1] == dependencies[i];
      if InstallStateOf(dependencies[0], nodeModules, satisfies) == Current {
        if k :| && 0 <= k < |rest|
                && InstallStateOf(rest[k], nodeModules, satisfies) in {NotInstalled, Unsatisfied}
                && forall j :: 0 <= j < k ==> InstallStateOf(rest[j], nodeModules, satisfies) == Current {
          assert InstallStateOf(dependencies[k + 1], nodeModules, satisfies) in {NotInstalled, Unsatisfied};
        }
        if k :| && 0 <= k < |dependencies|
                && InstallStateOf(dependencies[k], nodeModules, satisfies) in {NotInstalled, Unsatisfied}
                && forall j :: 0 <= j < k ==> InstallStateOf(dependencies[j], nodeModules, satisfies) == Current {
          assert k > 0;
          assert InstallStateOf(rest[k - 1], nodeModules, satisfies) in {NotInstalled, Unsatisfied};
        }
      }
    }
  }

  /** `needsNpmInstallDependencies`: returns at the first dependency that is missing or out of range. */
  method NeedsNpmInstallDependencies(dependencies: Dict<string>, nodeModules: NodeModules, satisfies: (string, string) -> bool)
    returns (r: Result<bool, Error>)
    ensures r == NeedsInstallDependencies(dependencies, nodeModules, satisfies)
  {
    for i := 0 to |dependencies|
      invariant NeedsInstallDependencies(dependencies, nodeModules, satisfies) == NeedsInstallDependencies(dependencies[i..], nodeModules, satisfies)
    {
      assert dependencies[i..][1..] == dependencies[i + 1..];
      var name := dependencies[i].0;
      var version := dependencies[i].1;
      if name !in nodeModules {
        return Success(true);
      }
      if IsProjectReference(version) {
        continue;
      }
      var installed := nodeModules[name];
      if installed.None? {
        return Failure(UnreadableInstalledManifest(name));
      }
      if !satisfies(installed.value.version, version) {
        return Success(true);
      }
    }
    r := Success(false);
  }

  /** A list of names that a recursive walk appends to. */
  class NameList {
    var names: seq<string>

    constructor ()
      ensures names == []
    {
      names := [];
    }
  }

  predicate NoDuplicates(s: seq<string>) {
    forall i, j :: 0 <= i < j < |s| ==> s[i] != s[j]
  }

  /** Every name some lock entry, at any depth, requires. */
  function RequiredNames(dependencies: LockDependencies): set<string>
    decreases dependencies, 1
  {
    RequiredNamesUpTo(dependencies, |dependencies.entries|)
  }

  /** The names required by the first `n` entries and everything nested in them. */
  function RequiredNamesUpTo(dependencies: LockDependencies, n: nat): set<string>
    requires n <= |dependencies.entries|
    decreases dependencies, 0, n
  {
    if n == 0 then {}
    else
      var entry := dependencies.entries[n - 1];
      RequiredNamesUpTo(dependencies, n - 1) + (set k | k in entry.requiresKeys) + RequiredNames(entry.dependencies)
  }

  /**
   * `scanNonTopLevelDependencies`: appends every required name not yet in
   * the list, walking nested dependencies depth first.
   */
  method ScanNonTopLevelDependencies(dependencies: LockDependencies, nonTopLevelNames: NameList)
    modifies nonTopLevelNames
    decreases dependencies
    ensures old(nonTopLevelNames.names) <= nonTopLevelNames.names
    ensures forall n :: n in nonTopLevelNames.names <==> n in old(nonTopLevelNames.names) || n in RequiredNames(dependencies)
    ensures NoDuplicates(old(nonTopLevelNames.names)) ==> NoDuplicates(nonTopLevelNames.names)
  {
    for i := 0 to |dependencies.entries|
      invariant old(nonTopLevelNames.names) <= nonTopLevelNames.names
      invariant forall n :: n in nonTopLevelNames.names <==>
        n in old(nonTopLevelNames.names) || n in RequiredNamesUpTo(dependencies, i)
      invariant NoDuplicates(old(nonTopLevelNames.names)) ==> NoDuplicates(nonTopLevelNames.names)
    {
      var entry := dependencies.entries[i];
      ghost var before := nonTopLevelNames.names;
      for j := 0 to |entry.requiresKeys|
        invariant before <= nonTopLevelNames.names
        invariant forall n :: n in nonTopLevelNames.names <==> n in before || n in entry.requiresKeys[..j]
        invariant NoDuplicates(before) ==> NoDuplicates(nonTopLevelNames.names)
      {
        var name := entry.requiresKeys[j];
        if name !in nonTopLevelNames.names {
          nonTopLevelNames.names := nonTopLevelNames.names + [name];
        }
      }
      assert entry.requiresKeys[..|entry.requiresKeys|] == entry.requiresKeys;
      ScanNonTopLevelDependencies(entry.dependencies, nonTopLevelNames);
    }
  }

  /** `!!deps[name]` on an optional dictionary: declared with a non-empty value. */
  predicate Declared(d: Option<Dict<string>>, name: string) {
    d.Some? && Get(d.value, name).Some? && Get(d.value, name).value != ""
  }

  /** A top-level lock entry that no other entry requires and the manifest no longer declares. */
  predicate Orphaned(manifest: Manifest, lock: LockDependencies, name: string) {
    && name !in RequiredNames(lock)
    && !Declared(manifest.dependencies, name)
    && !Declared(manifest.devDependencies, name)
  }

  /** The answer of `needsNpmInstall`. */
  function NeedsInstall(manifest: Manifest, nodeModules: NodeModules, lock: Option<LockDependencies>, satisfies: (string, string) -> bool)
    : Result<bool, Error>
  {
    var deps := NeedsInstallDependencies(Entries(manifest.dependencies), nodeModules, satisfies);
    if deps != Success(false) then deps
    else
      var devDeps := NeedsInstallDependencies(Entries(manifest.devDependencies), nodeModules, satisfies);
      if devDeps != Success(false) then devDeps
      else
        Success(lock.Some? && exists i :: 0 <= i < |lock.value.entries| && Orphaned(manifest, lock.value, lock.value.entries[i].name))
  }

  /**
   * No install is needed exactly when every declared dependency, dev
   * dependencies included, is current, and every top-level lock entry is
   * required by another entry or still declared.
   */
  lemma {:induction false} NeedsInstallFalseIff(manifest: Manifest, nodeModules: NodeModules, lock: Option<LockDependencies>, satisfies: (string, string) -> bool)
    ensures NeedsInstall(manifest, nodeModules, lock, satisfies) == Success(false) <==>
      && (forall e :: e in Entries(manifest.dependencies) ==> InstallStateOf(e, nodeModules, satisfies) == Current)
      && (forall e :: e in Entries(manifest.devDependencies) ==> InstallStateOf(e, nodeModules, satisfies) == Current)
      && (lock.Some? ==> forall e :: e in lock.value.entries ==> !Orphaned(manifest, lock.value, e.name))
  {
    NeedsInstallDependenciesFalseIff(Entries(manifest.dependencies), nodeModules, satisfies);
    NeedsInstallDependenciesFalseIff(Entries(manifest.devDependencies), nodeModules, satisfies);
  }

  /** Any dependency missing from `node_modules` means an install, unless an earlier one is unreadable. */
  lemma {:induction false} MissingDependencyNeedsInstall(manifest: Manifest, nodeModules: NodeModules, lock: Option<LockDependencies>, satisfies: (string, string) -> bool, name: string)
    requires name in Keys(Entries(manifest.dependencies)) || name in Keys(Entries(manifest.devDependencies))
    requires name !in nodeModules
    requires forall n :: n in nodeModules ==> nodeModules[n].Some?
    ensures NeedsInstall(manifest, nodeModules, lock, satisfies) == Success(true)
  {
    var deps := Entries(manifest.dependencies);
    var devDeps := Entries(manifest.devDependencies);
    NoUnreadableNoFailure(deps, nodeModules, satisfies);
    NoUnreadableNoFailure(devDeps, nodeModules, satisfies);
    NeedsInstallDependenciesFalseIff(deps, nodeModules, satisfies);
    NeedsInstallDependenciesFalseIff(devDeps, nodeModules, satisfies);
    if name in Keys(deps) {
      var i :| 0 <= i < |Keys(deps)| && Keys(deps)[i] == name;
      assert InstallStateOf(deps[i], nodeModules, satisfies) == NotInstalled;
      assert NeedsInstallDependencies(deps, nodeModules, satisfies).value;
    } else {
      var i :| 0 <= i < |Keys(devDeps)| && Keys(devDeps)[i] == name;
      assert InstallStateOf(devDeps[i], nodeModules, satisfies) == NotInstalled;
      assert NeedsInstallDependencies(devDeps, nodeModules, satisfies).value;
    }
  }

  /** When every installed manifest parses, the dependency check cannot fail. */
  lemma {:induction false} NoUnreadableNoFailure(dependencies: Dict<string>, nodeModules: NodeModules, satisfies: (string, string) -> bool)
    requires forall n :: n in nodeModules ==> nodeModules[n].Some?
    ensures NeedsInstallDependencies(dependencies, nodeModules, satisfies).Success?
  {
    if |dependencies| > 0 {
      NoUnreadableNoFailure(dependencies[1..], nodeModules, satisfies);
    }
  }

  /** `needsNpmInstall`. */
  method NeedsNpmInstall(manifest: Manifest, nodeModules: NodeModules, lock: Option<LockDependencies>, satisfies: (string, string) -> bool)
    returns (r: Result<bool, Error>)
    ensures r == NeedsInstall(manifest, nodeModules, lock, satisfies)
  {
    if manifest.dependencies.Some? {
      r := NeedsNpmInstallDependencies(manifest.dependencies.value, nodeModules, satisfies);
      if r != Success(false) {
        return;
      }
    }
    if manifest.devDependencies.Some? {
      r := NeedsNpmInstallDependencies(manifest.devDependencies.value, nodeModules, satisfies);
      if r != Success(false) {
        return;
      }
    }
    if lock.Some? {
      var nonTopLevelNames := new NameList();
      ScanNonTopLevelDependencies(lock.value, nonTopLevelNames);
      var entries := lock.value.entries;
      for i := 0 to |entries|
        invariant forall k :: 0 <= k < i ==> !Orphaned(manifest, lock.value, entries[k].name)
      {
        var dependencyName := entries[i].name;
        if dependencyName in nonTopLevelNames.names {
          continue;
        }
        var isInDependencies := Declared(manifest.dependencies, dependencyName);
        var isInDevDependencies := Declared(manifest.devDependencies, dependencyName);
        if !isInDependencies && !isInDevDependencies {
          return Success(true);
        }
      }
    }
    r := Success(false);
  }

  /*
   * Processing one package
   */

  /** How the package was built after the install check. */
  datatype BuildKind = NoBuildScript | NpmRunBuild | RanSteps(outcomes: seq<StepOutcome>)

  /** What `processPackage` of the build command did: whether it ran `npm install`, then how it built. */
  datatype BuildReport = BuildReport(installed: bool, kind: BuildKind)

  /**
   * `processPackage` of the build command. `fsAt(i)` is the file system as
   * step `i` finds it, after the scripts of the steps before it have run.
   */
  method BuildPackage(
    packagePath: string, manifest: Manifest, nodeModules: NodeModules, lock: Option<LockDependencies>,
    satisfies: (string, string) -> bool, fsAt: nat -> FileSystem, processEnv: Dict<string>, isWin32: bool)
    returns (r: Result<BuildReport, Error>)
    ensures NeedsInstall(manifest, nodeModules, lock, satisfies).Failure? ==> r == Failure(NeedsInstall(manifest, nodeModules, lock, satisfies).error)
    ensures r.Success? ==> NeedsInstall(manifest, nodeModules, lock, satisfies) == Success(r.value.installed)
    ensures NeedsInstall(manifest, nodeModules, lock, satisfies).Success? ==>
      var steps := if manifest.blerf.Some? then manifest.blerf.value.steps else NoSteps;
      match steps
      case NoSteps =>
        && (manifest.scripts.None? ==> r == Failure(ScriptsUndefined))
        && (manifest.scripts.Some? ==> r.Success? && r.value.kind == if Declared(manifest.scripts, "build") then NpmRunBuild else NoBuildScript)
      case NotAnArray => r == Failure(StepsNotAnArray)
      case StepArray(steps) =>
        && r.Success? && r.value.kind.RanSteps? && |r.value.kind.outcomes| == |steps|
        && forall i :: 0 <= i < |steps| ==> r.value.kind.outcomes[i] == StepOutcomeOf(packagePath, steps[i], fsAt(i), processEnv, isWin32)
  {
    var needs := NeedsNpmInstall(manifest, nodeModules, lock, satisfies);
    if needs.Failure? {
      return Failure(needs.error);
    }
    var installed := needs.value;
    if manifest.blerf.None? || manifest.blerf.value.steps.NoSteps? {
      if manifest.scripts.None? {
        return Failure(ScriptsUndefined);
      }
      if !Declared(manifest.scripts, "build") {
        return Success(BuildReport(installed, NoBuildScript));
      }
      return Success(BuildReport(installed, NpmRunBuild));
    }
    if manifest.blerf.value.steps.NotAnArray? {
      return Failure(StepsNotAnArray);
    }
    var steps := manifest.blerf.value.steps.steps;
    var outcomes: seq<StepOutcome> := [];
    for i := 0 to |steps|
      invariant |outcomes| == i
      invariant forall k :: 0 <= k < i ==> outcomes[k] == StepOutcomeOf(packagePath, steps[k], fsAt(k), processEnv, isWin32)
    {
      var outcome := ProcessBuildStep(packagePath, steps[i], fsAt(i), processEnv, isWin32);
      outcomes := outcomes + [outcome];
    }
    r := Success(BuildReport(installed, RanSteps(outcomes)));
  }
}
