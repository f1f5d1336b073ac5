/**
 * The data the tool reads from disk: a package's manifest (`package.json`),
 * the installed copies under `node_modules`, and the lock file
 * (`package-lock.json`). A manifest read from disk is a value; the object
 * form, `PackageJson`, is the parsed object that packaging edits in place.
 */
module Manifests {
  import opened Wrappers
  import opened Dicts

  /** `srcPath` / `outPath` of a build step: an array, a single string, or anything else (absent included). */
  datatype PathSpec = PathArray(patterns: seq<string>) | PathString(pattern: string) | PathOther

  /** One entry of `blerf.steps`; `script` is "" when the step has none. */
  datatype BuildStep = BuildStep(srcPath: PathSpec, outPath: PathSpec, script: string)

  /** `blerf.steps`: a falsy value (absent included), an array, or some other truthy value. */
  datatype StepsValue = NoSteps | StepArray(steps: seq<BuildStep>) | NotAnArray

  /** The `blerf` section of a manifest. */
  datatype BlerfSection = BlerfSection(steps: StepsValue)

  /**
   * A parsed manifest. `name` and `version` are "" when the key is absent; a
   * dictionary is None when its key is absent. `others` holds every key the
   * tool does not interpret, with its JSON text.
   */
  datatype Manifest = Manifest(
    name: string,
    version: string,
    dependencies: Option<Dict<string>>,
    devDependencies: Option<Dict<string>>,
    scripts: Option<Dict<string>>,
    blerf: Option<BlerfSection>,
    others: map<string, string>)

  /** The entries of an optional dependency dictionary; an absent one has none. */
  function Entries(d: Option<Dict<string>>): Dict<string> {
    if d.Some? then d.value else []
  }

  /**
   * The installed copies in a package's `node_modules`, by dependency name:
   * a name that is absent has no `package.json` there, None is a file that
   * does not parse.
   */
  type NodeModules = map<string, Option<Manifest>>

  /** `readPackageJson` on an installed copy: null for a missing or unparsable file. */
  function ReadInstalled(nodeModules: NodeModules, name: string): (m: Option<Manifest>)
    ensures m.Some? ==> name in nodeModules && nodeModules[name] == m
  {
    if name in nodeModules then nodeModules[name] else None
  }

  /**
   * The lock file's `dependencies` tree: each entry has the keys of its
   * `requires` object and its own nested `dependencies`.
   */
  datatype LockEntry = LockEntry(name: string, requiresKeys: seq<string>, dependencies: LockDependencies)
  datatype LockDependencies = LockDependencies(entries: seq<LockEntry>)

  /** Everything the tool throws. */
  datatype Error =
    | InvalidProjectReference(packageName: string, expected: string)
    | MissingPackageInfo(dependencyName: string)
    | DanglingReference(reference: string)
    | StepsNotAnArray
    | ScriptsUndefined
    | UnreadableInstalledManifest(dependencyName: string)
    | MissingTarball(path: string)
    | UnreadablePackedManifest(path: string)

  /** A dependency dictionary as a JavaScript object that can be edited in place. */
  class DependencyMap {
    var entries: Dict<string>

    constructor (entries: Dict<string>)
      ensures this.entries == entries
    {
      this.entries := entries;
    }
  }

  /** A parsed manifest as a JavaScript object whose keys can be reassigned or deleted. */
  class PackageJson {
    var name: string
    var version: string
    var dependencies: DependencyMap?
    var devDependencies: DependencyMap?
    var scripts: Option<Dict<string>>
    var blerf: Option<BlerfSection>
    var others: map<string, string>

    /** A parsed object never shares one dictionary between two keys. */
    ghost predicate Valid()
      reads this
    {
      dependencies == null || dependencies != devDependencies
    }

    /** The manifest this object currently holds. */
    function View(): (m: Manifest)
      reads this, dependencies, devDependencies
      ensures m.dependencies.Some? <==> dependencies != null
      ensures m.devDependencies.Some? <==> devDependencies != null
    {
      Manifest(
        name, version,
        if dependencies == null then None else Some(dependencies.entries),
        if devDependencies == null then None else Some(devDependencies.entries),
        scripts, blerf, others)
    }

    /** `JSON.parse`: a fresh object for every dictionary. */
    constructor (m: Manifest)
      ensures Valid() && View() == m
      ensures dependencies != null ==> fresh(dependencies)
      ensures devDependencies != null ==> fresh(devDependencies)
    {
      name, version, scripts, blerf, others := m.name, m.version, m.scripts, m.blerf, m.others;
      dependencies, devDependencies := null, null;
      if m.dependencies.Some? {
        dependencies := new DependencyMap(m.dependencies.value);
      }
      if m.devDependencies.Some? {
        devDependencies := new DependencyMap(m.devDependencies.value);
      }
    }
  }
}
