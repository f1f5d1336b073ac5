/**
 * Workspace discovery: which directories are packages, what each declares,
 * which project references become ordering edges, and the in-place
 * rewriting of project references and trimming of manifests for packaging.
 */
module PackageEnumerator {
  import opened Wrappers
  import opened Strings
  import opened Dicts
  import opened Manifests

  /** The marker that makes a declared version a project reference. */
  const FileReferencePrefix := "file:"

  /** Where a project reference must point: the consuming package's view of the shared build artifacts. */
  const BuildArtifactReferencePrefix := "file:../../artifacts/build/"

  predicate IsProjectReference(version: string) {
    StartsWith(version, FileReferencePrefix)
  }

  /*
   * Archive names
   */

  /** `packageNameToFileName`: `@scope/name` becomes `scope-name`; other names are kept. */
  function PackageNameToFileName(packageName: string): (r: string)
    ensures |r| == if StartsWith(packageName, "@") then |packageName| - 1 else |packageName|
    ensures !StartsWith(packageName, "@") ==> r == packageName
    ensures StartsWith(packageName, "@") && '/' !in packageName ==> r == packageName[1..]
  {
    if StartsWith(packageName, "@") then ReplaceFirst(packageName[1..], '/', '-') else packageName
  }

  /** A scoped name loses its `@` and only its first `/` becomes `-`. */
  lemma {:induction false} ScopedFileName(scope: string, rest: string)
    requires '/' !in scope
    ensures PackageNameToFileName("@" + scope + "/" + rest) == scope + "-" + rest
  {
    var name := "@" + scope + "/" + rest;
    assert StartsWith(name, "@");
    assert name[1..] == scope + ['/'] + rest;
    IndexOfAfterPrefix(scope, '/', rest);
    assert ReplaceFirst(name[1..], '/', '-') == scope + ['-'] + rest;
  }

  /** The only project reference `validateFileReference` accepts for a package. */
  function ExpectedReference(packageName: string): string {
    BuildArtifactReferencePrefix + PackageNameToFileName(packageName) + ".tgz"
  }

  /** `validateFileReference`: passes exactly on the canonical reference, and throws otherwise. */
  function ValidateFileReference(version: string, packageName: string): (r: Outcome<Error>)
    ensures r.Pass? <==> version == ExpectedReference(packageName)
    ensures r.Fail? ==> r.error == InvalidProjectReference(packageName, ExpectedReference(packageName))
  {
    var expected := ExpectedReference(packageName);
    if version == expected then Pass else Fail(InvalidProjectReference(packageName, expected))
  }

  /** A reference that passes validation is a project reference, and the archive name can be read back from it. */
  lemma {:induction false} ValidReferenceNamesArchive(version: string, packageName: string)
    requires ValidateFileReference(version, packageName).Pass?
    ensures IsProjectReference(version)
    ensures |version| >= |BuildArtifactReferencePrefix| + 4
    ensures version[|BuildArtifactReferencePrefix|..|version| - 4] == PackageNameToFileName(packageName)
  {
    var p, f := BuildArtifactReferencePrefix, PackageNameToFileName(packageName);
    assert version == p + f + ".tgz";
    assert version[..|FileReferencePrefix|] == p[..|FileReferencePrefix|];
    assert version[|p|..|version| - 4] == f;
  }

  /** Two packages share a canonical reference exactly when they share an archive name. */
  lemma {:induction false} ExpectedReferenceIffFileName(a: string, b: string)
    ensures ExpectedReference(a) == ExpectedReference(b) <==> PackageNameToFileName(a) == PackageNameToFileName(b)
  {
    if ExpectedReference(a) == ExpectedReference(b) {
      ValidReferenceNamesArchive(ExpectedReference(a), a);
      ValidReferenceNamesArchive(ExpectedReference(b), b);
    }
  }

  /*
   * Declared dependencies
   */

  /** One invocation of the `enumerateDependencies` callback. */
  datatype DependencyCall = DependencyCall(name: string, version: string, dev: bool)

  function CallsOf(d: Dict<string>, dev: bool): (calls: seq<DependencyCall>)
    ensures |calls| == |d|
    ensures forall i :: 0 <= i < |d| ==> calls[i] == DependencyCall(d[i].0, d[i].1, dev)
  {
    seq(|d|, i requires 0 <= i < |d| => DependencyCall(d[i].0, d[i].1, dev))
  }

  /**
   * `enumerateDependencies`: the callback runs for every `dependencies` entry
   * in key order with `dev` false, then for every `devDependencies` entry
   * with `dev` true; an absent dictionary adds no calls.
   */
  function EnumerateDependencies(m: Manifest): (calls: seq<DependencyCall>)
    ensures |calls| == |Entries(m.dependencies)| + |Entries(m.devDependencies)|
    ensures forall i :: 0 <= i < |Entries(m.dependencies)| ==>
      calls[i] == DependencyCall(Entries(m.dependencies)[i].0, Entries(m.dependencies)[i].1, false)
    ensures forall i :: 0 <= i < |Entries(m.devDependencies)| ==>
      calls[|Entries(m.dependencies)| + i] ==
        DependencyCall(Entries(m.devDependencies)[i].0, Entries(m.devDependencies)[i].1, true)
  {
    CallsOf(Entries(m.dependencies), false) + CallsOf(Entries(m.devDependencies), true)
  }

  /*
   * Resolving a package's dependencies against its installed copies
   */

  datatype DependencyInfo = DependencyInfo(
    version: string,
    packagePath: string,
    packageJson: Option<Manifest>,
    dev: bool,
    projectReferenceDependencies: map<string, string>)

  datatype PackageInfo = PackageInfo(
    packagePath: string,
    packageJson: Manifest,
    dependencies: map<string, DependencyInfo>)

  type Packages = map<string, PackageInfo>

  /**
   * The installed copy's non-dev dependencies (the inner callback ignores
   * dev calls), recorded only for a project reference whose installed
   * `package.json` could be read.
   */
  function ProjectReferenceDependencies(version: string, installed: Option<Manifest>): (r: map<string, string>)
    ensures r != map[] ==> installed.Some? && IsProjectReference(version)
    ensures installed.Some? && IsProjectReference(version) ==>
      var declared := Entries(installed.value.dependencies);
      && r.Keys == set k | k in Keys(declared)
      && (UniqueKeys(declared) ==> forall i :: 0 <= i < |declared| ==> declared[i].0 in r && r[declared[i].0] == declared[i].1)
  {
    if installed.Some? && IsProjectReference(version) then ToMap(Entries(installed.value.dependencies)) else map[]
  }

  function DependencyInfoOf(packagePath: string, call: DependencyCall, nodeModules: NodeModules): DependencyInfo {
    var installed := ReadInstalled(nodeModules, call.name);
    DependencyInfo(
      call.version,
      PathJoin(PathJoin(packagePath, "node_modules"), call.name),
      installed,
      call.dev,
      ProjectReferenceDependencies(call.version, installed))
  }

  /** The `dependencies` record of a package: one entry per declared name, the last call for a name winning. */
  function DependenciesOf(packagePath: string, calls: seq<DependencyCall>, nodeModules: NodeModules): map<string, DependencyInfo> {
    if |calls| == 0 then map[]
    else
      var c := calls[|calls| - 1];
      DependenciesOf(packagePath, calls[..|calls| - 1], nodeModules)[c.name := DependencyInfoOf(packagePath, c, nodeModules)]
  }

  /** Every declared name is recorded, each from the last call that names it. */
  lemma {:induction false} DependenciesOfLastCall(packagePath: string, calls: seq<DependencyCall>, nodeModules: NodeModules, i: nat)
    requires i < |calls|
    requires forall j :: i < j < |calls| ==> calls[j].name != calls[i].name
    ensures calls[i].name in DependenciesOf(packagePath, calls, nodeModules)
    ensures DependenciesOf(packagePath, calls, nodeModules)[calls[i].name] == DependencyInfoOf(packagePath, calls[i], nodeModules)
  {
    if i < |calls| - 1 {
      var prefix := calls[..|calls| - 1];
      assert prefix[i] == calls[i];
      DependenciesOfLastCall(packagePath, prefix, nodeModules, i);
    }
  }

  /** Nothing but declared names is recorded. */
  lemma {:induction false} DependenciesOfKeys(packagePath: string, calls: seq<DependencyCall>, nodeModules: NodeModules, n: string)
    requires n in DependenciesOf(packagePath, calls, nodeModules)
    ensures exists i :: 0 <= i < |calls| && calls[i].name == n
  {
    var prefix := calls[..|calls| - 1];
    if n != calls[|calls| - 1].name {
      DependenciesOfKeys(packagePath, prefix, nodeModules, n);
      var i :| 0 <= i < |prefix| && prefix[i].name == n;
      assert calls[i] == prefix[i];
    }
  }

  /** Resolves every declared dependency of one package, in callback order. */
  method ResolveDependencies(packagePath: string, packageJson: Manifest, nodeModules: NodeModules)
    returns (dependencies: map<string, DependencyInfo>)
    ensures dependencies == DependenciesOf(packagePath, EnumerateDependencies(packageJson), nodeModules)
  {
    dependencies := RecordDependencies(packagePath, EnumerateDependencies(packageJson), nodeModules);
  }

  /** The callback of `enumeratePackages` run over a sequence of calls: each records its name, overwriting. */
  method RecordDependencies(packagePath: string, calls: seq<DependencyCall>, nodeModules: NodeModules)
    returns (dependencies: map<string, DependencyInfo>)
    ensures dependencies == DependenciesOf(packagePath, calls, nodeModules)
  {
    dependencies := map[];
    for i := 0 to |calls|
      invariant dependencies == DependenciesOf(packagePath, calls[..i], nodeModules)
    {
      assert DependenciesOf(packagePath, calls[..i + 1], nodeModules)
          == DependenciesOf(packagePath, calls[..i], nodeModules)[calls[i].name := DependencyInfoOf(packagePath, calls[i], nodeModules)] by {
        assert calls[..i + 1][..i] == calls[..i];
      }
      dependencies := dependencies[calls[i].name := DependencyInfoOf(packagePath, calls[i], nodeModules)];
    }
    assert calls[..|calls|] == calls;
  }

  /*
   * Workspace discovery
   */

  /** One item of the workspace root's listing, with what can be read under it. */
  datatype DirectoryEntry = DirectoryEntry(
    fileName: string,
    isDirectory: bool,
    packageJson: Option<Manifest>,
    nodeModules: NodeModules)

  /** A directory is a package when its manifest parses and has a name. */
  predicate Accepted(e: DirectoryEntry) {
    e.isDirectory && e.packageJson.Some? && e.packageJson.value.name != ""
  }

  function PackagePath(rootPath: string, e: DirectoryEntry): string {
    rootPath + "/" + e.fileName
  }

  function PackageInfoOf(rootPath: string, e: DirectoryEntry): PackageInfo
    requires Accepted(e)
  {
    var path := PackagePath(rootPath, e);
    PackageInfo(path, e.packageJson.value, DependenciesOf(path, EnumerateDependencies(e.packageJson.value), e.nodeModules))
  }

  /** `nodes`: the name of every accepted directory, in listing order, repeats included. */
  function NodesOf(entries: seq<DirectoryEntry>): seq<string> {
    if |entries| == 0 then []
    else
      var e := entries[|entries| - 1];
      NodesOf(entries[..|entries| - 1]) + if Accepted(e) then [e.packageJson.value.name] else []
  }

  /** `packages`: keyed by name; of two directories with one name, the later one wins. */
  function PackagesOf(rootPath: string, entries: seq<DirectoryEntry>): Packages {
    if |entries| == 0 then map[]
    else
      var e := entries[|entries| - 1];
      var packages := PackagesOf(rootPath, entries[..|entries| - 1]);
      if Accepted(e) then packages[e.packageJson.value.name := PackageInfoOf(rootPath, e)] else packages
  }

  /** A name is a node exactly when some accepted directory declares it. */
  lemma {:induction false} NodesOfIff(entries: seq<DirectoryEntry>, n: string)
    ensures n in NodesOf(entries) <==>
      exists i :: 0 <= i < |entries| && Accepted(entries[i]) && entries[i].packageJson.value.name == n
  {
    if |entries| > 0 {
      var prefix := entries[..|entries| - 1];
      NodesOfIff(prefix, n);
      if exists i :: 0 <= i < |entries| && Accepted(entries[i]) && entries[i].packageJson.value.name == n {
        var i :| 0 <= i < |entries| && Accepted(entries[i]) && entries[i].packageJson.value.name == n;
        if i < |prefix| { assert prefix[i] == entries[i]; }
      }
      if exists i :: 0 <= i < |prefix| && Accepted(prefix[i]) && prefix[i].packageJson.value.name == n {
        var i :| 0 <= i < |prefix| && Accepted(prefix[i]) && prefix[i].packageJson.value.name == n;
        assert prefix[i] == entries[i];
      }
    }
  }

  /** `packages` has exactly the nodes as keys, and each package is filed under its own name. */
  lemma {:induction false} PackagesOfNodes(rootPath: string, entries: seq<DirectoryEntry>)
    ensures forall n :: n in PackagesOf(rootPath, entries) <==> n in NodesOf(entries)
    ensures forall n :: n in PackagesOf(rootPath, entries) ==> PackagesOf(rootPath, entries)[n].packageJson.name == n
  {
    if |entries| > 0 {
      PackagesOfNodes(rootPath, entries[..|entries| - 1]);
    }
  }

  /** The package recorded under a name is the last accepted directory that declares it. */
  lemma {:induction false} PackagesLastWins(rootPath: string, entries: seq<DirectoryEntry>, k: nat)
    requires k < |entries| && Accepted(entries[k])
    requires forall j :: k < j < |entries| && Accepted(entries[j]) ==>
      entries[j].packageJson.value.name != entries[k].packageJson.value.name
    ensures entries[k].packageJson.value.name in PackagesOf(rootPath, entries)
    ensures PackagesOf(rootPath, entries)[entries[k].packageJson.value.name] == PackageInfoOf(rootPath, entries[k])
  {
    if k < |entries| - 1 {
      var prefix := entries[..|entries| - 1];
      assert prefix[k] == entries[k];
      forall j | k < j < |prefix| && Accepted(prefix[j])
        ensures prefix[j].packageJson.value.name != prefix[k].packageJson.value.name
      {
        assert prefix[j] == entries[j];
      }
      PackagesLastWins(rootPath, prefix, k);
    }
  }

  /*
   * Edges
   */

  /** A project reference from `dependent` to another discovered package. */
  datatype Reference = Reference(dependency: string, version: string, dependent: string)

  function NodeReferences(dependent: string, calls: seq<DependencyCall>, nodes: seq<string>): seq<Reference> {
    if |calls| == 0 then []
    else
      var c := calls[|calls| - 1];
      NodeReferences(dependent, calls[..|calls| - 1], nodes) +
        if IsProjectReference(c.version) && c.name in nodes then [Reference(c.name, c.version, dependent)] else []
  }

  lemma {:induction false} NodeReferencesIff(dependent: string, calls: seq<DependencyCall>, nodes: seq<string>, r: Reference)
    ensures r in NodeReferences(dependent, calls, nodes) <==>
      r.dependent == dependent && r.dependency in nodes && IsProjectReference(r.version) &&
      exists c :: c in calls && c.name == r.dependency && c.version == r.version
  {
    if |calls| > 0 {
      var prefix := calls[..|calls| - 1];
      NodeReferencesIff(dependent, prefix, nodes, r);
      assert forall x :: x in calls <==> x in prefix || x == calls[|calls| - 1];
    }
  }

  /** The references met while visiting one package's calls. */
  function PackageReferences(m: Manifest, nodes: seq<string>): seq<Reference> {
    NodeReferences(m.name, EnumerateDependencies(m), nodes)
  }

  /**
   * The references met while visiting `order` package by package, each
   * package's calls in callback order (a name without a package, which the
   * edge pass never visits, contributes none).
   */
  function References(order: seq<string>, nodes: seq<string>, packages: Packages): seq<Reference> {
    if |order| == 0 then []
    else
      var n := order[|order| - 1];
      References(order[..|order| - 1], nodes, packages) +
        if n in packages then PackageReferences(packages[n].packageJson, nodes) else []
  }

  /** Which references the edge pass meets, stated without the visiting order. */
  lemma {:induction false} ReferencesIff(order: seq<string>, nodes: seq<string>, packages: Packages, r: Reference)
    requires forall n :: n in packages ==> packages[n].packageJson.name == n
    requires forall n :: n in order ==> n in packages
    ensures r in References(order, nodes, packages) <==>
      r.dependent in order && r.dependency in nodes && IsProjectReference(r.version) &&
      exists c :: c in EnumerateDependencies(packages[r.dependent].packageJson) && c.name == r.dependency && c.version == r.version
  {
    if |order| > 0 {
      var prefix := order[..|order| - 1];
      assert forall x :: x in order <==> x in prefix || x == order[|order| - 1];
      ReferencesIff(prefix, nodes, packages, r);
      var p := packages[order[|order| - 1]].packageJson;
      NodeReferencesIff(p.name, EnumerateDependencies(p), nodes, r);
    }
  }

  lemma {:induction false} NodeReferencesPrefix(dependent: string, calls: seq<DependencyCall>, nodes: seq<string>, j: nat)
    requires j <= |calls|
    ensures var pre := NodeReferences(dependent, calls[..j], nodes);
            var all := NodeReferences(dependent, calls, nodes);
            |pre| <= |all| && all[..|pre|] == pre
    decreases |calls| - j
  {
    if j < |calls| {
      NodeReferencesPrefix(dependent, calls, nodes, j + 1);
      assert calls[..j + 1][..j] == calls[..j];
    } else {
      assert calls[..j] == calls;
    }
  }

  lemma {:induction false} OrderPrefix(order: seq<string>, nodes: seq<string>, packages: Packages, i: nat)
    requires i <= |order|
    ensures var pre := References(order[..i], nodes, packages);
            var all := References(order, nodes, packages);
            |pre| <= |all| && all[..|pre|] == pre
    decreases |order| - i
  {
    if i < |order| {
      OrderPrefix(order, nodes, packages, i + 1);
      var pre := References(order[..i], nodes, packages);
      var next := References(order[..i + 1], nodes, packages);
      assert |pre| <= |next| && next[..|pre|] == pre by {
        assert order[..i + 1][..i] == order[..i];
      }
      var all := References(order, nodes, packages);
      assert all[..|pre|] == all[..|next|][..|pre|];
    } else {
      assert order[..i] == order;
    }
  }

  function Edges(refs: seq<Reference>): (edges: seq<(string, string)>)
    ensures |edges| == |refs|
    ensures forall i :: 0 <= i < |refs| ==> edges[i] == (refs[i].dependency, refs[i].dependent)
  {
    seq(|refs|, i requires 0 <= i < |refs| => (refs[i].dependency, refs[i].dependent))
  }

  lemma {:induction false} EdgesConcat(a: seq<Reference>, b: seq<Reference>)
    ensures Edges(a + b) == Edges(a) + Edges(b)
  {
  }

  predicate ValidReference(r: Reference) {
    ValidateFileReference(r.version, r.dependency).Pass?
  }

  predicate AllValid(refs: seq<Reference>) {
    forall k :: 0 <= k < |refs| ==> ValidReference(refs[k])
  }

  /** `refs[k]` is the first reference that fails validation, and `e` reports it. */
  predicate FirstInvalid(refs: seq<Reference>, k: int, e: Error) {
    && 0 <= k < |refs| && !ValidReference(refs[k])
    && (forall j :: 0 <= j < k ==> ValidReference(refs[j]))
    && e == InvalidProjectReference(refs[k].dependency, ExpectedReference(refs[k].dependency))
  }

  /** What the dependency sort receives. */
  datatype PackageGraph = PackageGraph(nodes: seq<string>, edges: seq<(string, string)>, packages: Packages)

  /** An edge `(d, p)` exists exactly when package `p` declares `d` with a project reference and `d` is a package. */
  lemma {:induction false} EdgeIff(rootPath: string, entries: seq<DirectoryEntry>, d: string, p: string)
    ensures var nodes := NodesOf(entries);
            var packages := PackagesOf(rootPath, entries);
            (d, p) in Edges(References(nodes, nodes, packages)) <==>
              p in packages && d in nodes &&
              exists c :: c in EnumerateDependencies(packages[p].packageJson) && c.name == d && IsProjectReference(c.version)
  {
    var nodes := NodesOf(entries);
    var packages := PackagesOf(rootPath, entries);
    var refs := References(nodes, nodes, packages);
    PackagesOfNodes(rootPath, entries);
    if (d, p) in Edges(refs) {
      var k :| 0 <= k < |refs| && Edges(refs)[k] == (d, p);
      ReferencesIff(nodes, nodes, packages, refs[k]);
    }
    if p in packages && d in nodes {
      if c :| c in EnumerateDependencies(packages[p].packageJson) && c.name == d && IsProjectReference(c.version) {
        var r := Reference(d, c.version, p);
        ReferencesIff(nodes, nodes, packages, r);
        var k :| 0 <= k < |refs| && refs[k] == r;
        assert Edges(refs)[k] == (d, p);
      }
    }
  }

  /** Once every reference has passed validation, each edge stands for a canonical reference. */
  lemma {:induction false} ValidatedEdge(rootPath: string, entries: seq<DirectoryEntry>, d: string, p: string)
    requires var refs := References(NodesOf(entries), NodesOf(entries), PackagesOf(rootPath, entries));
             forall k :: 0 <= k < |refs| ==> ValidReference(refs[k])
    requires (d, p) in Edges(References(NodesOf(entries), NodesOf(entries), PackagesOf(rootPath, entries)))
    ensures p in PackagesOf(rootPath, entries)
    ensures exists c :: c in EnumerateDependencies(PackagesOf(rootPath, entries)[p].packageJson) &&
                        c.name == d && c.version == ExpectedReference(d)
  {
    var nodes := NodesOf(entries);
    var packages := PackagesOf(rootPath, entries);
    var refs := References(nodes, nodes, packages);
    PackagesOfNodes(rootPath, entries);
    var k :| 0 <= k < |refs| && Edges(refs)[k] == (d, p);
    ReferencesIff(nodes, nodes, packages, refs[k]);
  }

  /** The first loop of `enumeratePackages`: nodes and packages of the accepted directories. */
  method CollectPackages(rootPath: string, entries: seq<DirectoryEntry>) returns (nodes: seq<string>, packages: Packages)
    ensures nodes == NodesOf(entries)
    ensures packages == PackagesOf(rootPath, entries)
  {
    nodes, packages := [], map[];
    for i := 0 to |entries|
      invariant nodes == NodesOf(entries[..i])
      invariant packages == PackagesOf(rootPath, entries[..i])
    {
      assert entries[..i + 1][..i] == entries[..i];
      var e := entries[i];
      if e.isDirectory && e.packageJson.Some? && e.packageJson.value.name != "" {
        var packageJson := e.packageJson.value;
        var packagePath := rootPath + "/" + e.fileName;
        nodes := nodes + [packageJson.name];
        var dependencies := ResolveDependencies(packagePath, packageJson, e.nodeModules);
        packages := packages[packageJson.name := PackageInfo(packagePath, packageJson, dependencies)];
      }
    }
    assert entries[..|entries|] == entries;
  }

  /** A call that fails validation after only valid ones is the first invalid reference of its package. */
  lemma {:induction false} FirstInvalidCall(dependent: string, calls: seq<DependencyCall>, nodes: seq<string>, j: nat)
    requires j < |calls|
    requires AllValid(NodeReferences(dependent, calls[..j], nodes))
    requires IsProjectReference(calls[j].version) && calls[j].name in nodes
    requires ValidateFileReference(calls[j].version, calls[j].name).Fail?
    ensures FirstInvalid(NodeReferences(dependent, calls, nodes), |NodeReferences(dependent, calls[..j], nodes)|,
                         InvalidProjectReference(calls[j].name, ExpectedReference(calls[j].name)))
  {
    var refs := NodeReferences(dependent, calls[..j], nodes);
    var ref := Reference(calls[j].name, calls[j].version, dependent);
    assert NodeReferences(dependent, calls[..j + 1], nodes) == refs + [ref] by {
      assert calls[..j + 1][..j] == calls[..j];
    }
    NodeReferencesPrefix(dependent, calls, nodes, j + 1);
    FirstInvalidAfterValid(refs, [ref], NodeReferences(dependent, calls, nodes), 0,
                           InvalidProjectReference(calls[j].name, ExpectedReference(calls[j].name)));
  }

  /**
   * The edges one package contributes: every project reference to a node is
   * validated, then recorded as a dependency-to-dependent edge.
   */
  method CollectPackageEdges(packageJson: Manifest, nodes: seq<string>) returns (r: Result<seq<(string, string)>, Error>)
    ensures var refs := PackageReferences(packageJson, nodes);
            && (r.Success? <==> AllValid(refs))
            && (r.Success? ==> r.value == Edges(refs))
            && (r.Failure? ==> exists k :: FirstInvalid(refs, k, r.error))
  {
    r := CallEdges(packageJson.name, EnumerateDependencies(packageJson), nodes);
  }

  /** The edge pass's callback run over the calls of `dependent`, in order. */
  method CallEdges(dependent: string, calls: seq<DependencyCall>, nodes: seq<string>) returns (r: Result<seq<(string, string)>, Error>)
    ensures var refs := NodeReferences(dependent, calls, nodes);
            && (r.Success? <==> AllValid(refs))
            && (r.Success? ==> r.value == Edges(refs))
            && (r.Failure? ==> exists k :: FirstInvalid(refs, k, r.error))
  {
    ghost var refs: seq<Reference> := [];
    var edges: seq<(string, string)> := [];
    for j := 0 to |calls|
      invariant refs == NodeReferences(dependent, calls[..j], nodes)
      invariant edges == Edges(refs)
      invariant AllValid(refs)
    {
      var c := calls[j];
      assert NodeReferences(dependent, calls[..j + 1], nodes)
          == refs + if IsProjectReference(c.version) && c.name in nodes then [Reference(c.name, c.version, dependent)] else [] by {
        assert calls[..j + 1][..j] == calls[..j];
      }
      if IsProjectReference(c.version) && c.name in nodes {
        if ValidateFileReference(c.version, c.name).Fail? {
          FirstInvalidCall(dependent, calls, nodes, j);
          return Failure(InvalidProjectReference(c.name, ExpectedReference(c.name)));
        }
        refs := refs + [Reference(c.name, c.version, dependent)];
        edges := edges + [(c.name, dependent)];
      }
    }
    assert calls[..|calls|] == calls;
    r := Success(edges);
  }

  /** The first invalid reference of a package visited after only valid ones is the first invalid reference overall. */
  lemma {:induction false} FirstInvalidPackage(order: seq<string>, nodes: seq<string>, packages: Packages, i: nat, k: int, e: Error)
    requires i < |order| && order[i] in packages
    requires AllValid(References(order[..i], nodes, packages))
    requires var p := packages[order[i]].packageJson;
             FirstInvalid(PackageReferences(p, nodes), k, e)
    ensures FirstInvalid(References(order, nodes, packages), |References(order[..i], nodes, packages)| + k, e)
  {
    ReferencesStep(order, nodes, packages, i);
    OrderPrefix(order, nodes, packages, i + 1);
    FirstInvalidAfterValid(References(order[..i], nodes, packages), PackageReferences(packages[order[i]].packageJson, nodes),
                           References(order, nodes, packages), k, e);
  }

  /** Visiting one more package appends that package's references. */
  lemma {:induction false} ReferencesStep(order: seq<string>, nodes: seq<string>, packages: Packages, i: nat)
    requires i < |order| && order[i] in packages
    ensures References(order[..i + 1], nodes, packages)
         == References(order[..i], nodes, packages) + PackageReferences(packages[order[i]].packageJson, nodes)
  {
    assert order[..i + 1][..i] == order[..i];
  }

  /** An invalid reference preceded only by valid ones stays the first invalid one in any extension. */
  lemma {:induction false} FirstInvalidAfterValid(refs: seq<Reference>, mine: seq<Reference>, all: seq<Reference>, k: int, e: Error)
    requires AllValid(refs) && FirstInvalid(mine, k, e)
    requires |refs + mine| <= |all| && all[..|refs + mine|] == refs + mine
    ensures FirstInvalid(all, |refs| + k, e)
  {
    forall j | 0 <= j < |refs| + |mine|
      ensures all[j] == (refs + mine)[j]
    {
      assert all[j] == all[..|refs + mine|][j];
    }
  }

  /**
   * The second loop of `enumeratePackages`: every package in discovery order
   * contributes its edges; the first malformed reference aborts the pass.
   */
  method CollectEdges(nodes: seq<string>, packages: Packages) returns (r: Result<seq<(string, string)>, Error>)
    requires forall n :: n in nodes ==> n in packages
    ensures var refs := References(nodes, nodes, packages);
            && (r.Success? <==> AllValid(refs))
            && (r.Success? ==> r.value == Edges(refs))
            && (r.Failure? ==> exists k :: FirstInvalid(refs, k, r.error))
  {
    ghost var refs: seq<Reference> := [];
    var edges: seq<(string, string)> := [];
    for i := 0 to |nodes|
      invariant refs == References(nodes[..i], nodes, packages)
      invariant edges == Edges(refs)
      invariant AllValid(refs)
    {
      assert nodes[..i + 1][..i] == nodes[..i];
      var packageJson := packages[nodes[i]].packageJson;
      ghost var mine := PackageReferences(packageJson, nodes);
      var packageEdges := CollectPackageEdges(packageJson, nodes);
      if packageEdges.Failure? {
        ghost var k :| FirstInvalid(mine, k, packageEdges.error);
        FirstInvalidPackage(nodes, nodes, packages, i, k, packageEdges.error);
        return Failure(packageEdges.error);
      }
      assert References(nodes[..i + 1], nodes, packages) == refs + mine;
      EdgesConcat(refs, mine);
      refs := refs + mine;
      edges := edges + packageEdges.value;
    }
    assert nodes[..|nodes|] == nodes;
    r := Success(edges);
  }

  /**
   * `enumeratePackages` up to the dependency sort: collects the packages,
   * then validates every project reference to a discovered package and
   * collects the edges; the first malformed reference aborts the run.
   */
  method EnumeratePackages(rootPath: string, entries: seq<DirectoryEntry>) returns (r: Result<PackageGraph, Error>)
    ensures var nodes := NodesOf(entries);
            var packages := PackagesOf(rootPath, entries);
            var refs := References(nodes, nodes, packages);
            && (r.Success? <==> AllValid(refs))
            && (r.Success? ==> r.value == PackageGraph(nodes, Edges(refs), packages))
            && (r.Failure? ==> exists k :: FirstInvalid(refs, k, r.error))
  {
    var nodes, packages := CollectPackages(rootPath, entries);
    PackagesOfNodes(rootPath, entries);
    var edges := CollectEdges(nodes, packages);
    if edges.Failure? {
      return Failure(edges.error);
    }
    r := Success(PackageGraph(nodes, edges.value, packages));
  }

  /*
   * Rewriting project references in place
   */

  /**
   * What replaces one `file:` reference, given the dependency name and the
   * reference; a failure is what the loop throws.
   */
  type Rewrite = (string, string) -> Result<string, Error>

  /** The entry after the loop has visited it: references other than `file:` are skipped. */
  function RewrittenEntry(e: (string, string), rewrite: Rewrite): Result<(string, string), Error> {
    if !IsProjectReference(e.1) then Success(e)
    else
      match rewrite(e.0, e.1)
      case Success(v) => Success((e.0, v))
      case Failure(err) => Failure(err)
  }

  /** The first `n` entries of `before` have been rewritten into `after`, the rest are untouched. */
  predicate RewrittenUpTo(before: Dict<string>, after: Dict<string>, rewrite: Rewrite, n: int) {
    && |after| == |before| && 0 <= n <= |before|
    && (forall i :: 0 <= i < n ==> RewrittenEntry(before[i], rewrite) == Success(after[i]))
    && (forall i :: n <= i < |before| ==> after[i] == before[i])
  }

  /**
   * The loop shared by the `rewriteProjectReferences*` methods: each `file:`
   * entry, in key order, is overwritten with what `rewrite` gives; a null
   * dictionary is left alone, and the first failure stops the loop with the
   * entries before it already rewritten.
   */
  method RewriteProjectReferences(deps: DependencyMap?, rewrite: Rewrite) returns (r: Outcome<Error>)
    modifies deps
    ensures deps == null ==> r == Pass
    ensures deps != null && r.Pass? ==> RewrittenUpTo(old(deps.entries), deps.entries, rewrite, |old(deps.entries)|)
    ensures deps != null && r.Fail? ==>
      exists k :: && 0 <= k < |old(deps.entries)|
                  && RewrittenUpTo(old(deps.entries), deps.entries, rewrite, k)
                  && RewrittenEntry(old(deps.entries)[k], rewrite) == Failure(r.error)
  {
    if deps == null {
      return Pass;
    }
    ghost var before := deps.entries;
    for i := 0 to |deps.entries|
      invariant RewrittenUpTo(before, deps.entries, rewrite, i)
    {
      var e := deps.entries[i];
      if !IsProjectReference(e.1) {
        continue;
      }
      var v := rewrite(e.0, e.1);
      if v.Failure? {
        return Fail(v.error);
      }
      // keys of a parsed object are unique, so assigning the key overwrites this entry
      deps.entries := deps.entries[i := (e.0, v.value)];
    }
    r := Pass;
  }

  /** A rewrite keeps every key at its position and never touches a reference other than `file:`. */
  lemma {:induction false} RewriteKeepsKeys(before: Dict<string>, after: Dict<string>, rewrite: Rewrite, n: int)
    requires RewrittenUpTo(before, after, rewrite, n)
    ensures Keys(after) == Keys(before)
    ensures forall i :: 0 <= i < |before| && !IsProjectReference(before[i].1) ==> after[i] == before[i]
  {
    forall i | 0 <= i < |before|
      ensures after[i].0 == before[i].0
      ensures !IsProjectReference(before[i].1) ==> after[i] == before[i]
    {
      if i < n {
        assert RewrittenEntry(before[i], rewrite) == Success(after[i]);
      }
    }
  }

  /** `packages[name].packageJson`, or the TypeError of reading a field of undefined. */
  function ReferencedManifest(packages: Packages, name: string): (r: Result<Manifest, Error>)
    ensures r.Success? <==> name in packages
    ensures r.Success? ==> r.value == packages[name].packageJson
    ensures r.Failure? ==> r.error == MissingPackageInfo(name)
  {
    if name in packages then Success(packages[name].packageJson) else Failure(MissingPackageInfo(name))
  }

  /** `rewriteProjectReferencesVersion`: `^<version>` of the referenced package. */
  function CaretRewrite(packages: Packages): Rewrite {
    (name: string, ref: string) =>
      match ReferencedManifest(packages, name)
      case Success(m) => Success("^" + m.version)
      case Failure(e) => Failure(e)
  }

  /** `rewriteProjectReferencesFullPath`: the sanitised archive name under `directory`. */
  function ArtifactPathRewrite(directory: string, packages: Packages): Rewrite {
    (name: string, ref: string) =>
      match ReferencedManifest(packages, name)
      case Success(m) => Success(PathJoin(directory, PackageNameToFileName(m.name) + ".tgz"))
      case Failure(e) => Failure(e)
  }

  /** The archive `npm pack` writes for a manifest: `<sanitised name>-<version>.tgz`. */
  function VersionedArchiveName(m: Manifest): string {
    PackageNameToFileName(m.name) + "-" + m.version + ".tgz"
  }

  /** `rewriteProjectReferencesFullPathVersion`: a `file:` reference to the versioned archive under `directory`. */
  function VersionedArtifactPathRewrite(directory: string, packages: Packages): Rewrite {
    (name: string, ref: string) =>
      match ReferencedManifest(packages, name)
      case Success(m) => Success(FileReferencePrefix + PathJoin(directory, VersionedArchiveName(m)))
      case Failure(e) => Failure(e)
  }

  method RewriteProjectReferencesVersion(deps: DependencyMap?, packages: Packages) returns (r: Outcome<Error>)
    modifies deps
    ensures deps == null ==> r == Pass
    ensures deps != null && r.Pass? ==> RewrittenUpTo(old(deps.entries), deps.entries, CaretRewrite(packages), |old(deps.entries)|)
    ensures deps != null && r.Fail? ==>
      exists k :: && 0 <= k < |old(deps.entries)|
                  && RewrittenUpTo(old(deps.entries), deps.entries, CaretRewrite(packages), k)
                  && RewrittenEntry(old(deps.entries)[k], CaretRewrite(packages)) == Failure(r.error)
  {
    r := RewriteProjectReferences(deps, CaretRewrite(packages));
  }

  method RewriteProjectReferencesFullPath(directory: string, deps: DependencyMap?, packages: Packages) returns (r: Outcome<Error>)
    modifies deps
    ensures deps == null ==> r == Pass
    ensures deps != null && r.Pass? ==>
      RewrittenUpTo(old(deps.entries), deps.entries, ArtifactPathRewrite(directory, packages), |old(deps.entries)|)
    ensures deps != null && r.Fail? ==>
      exists k :: && 0 <= k < |old(deps.entries)|
                  && RewrittenUpTo(old(deps.entries), deps.entries, ArtifactPathRewrite(directory, packages), k)
                  && RewrittenEntry(old(deps.entries)[k], ArtifactPathRewrite(directory, packages)) == Failure(r.error)
  {
    r := RewriteProjectReferences(deps, ArtifactPathRewrite(directory, packages));
  }

  method RewriteProjectReferencesFullPathVersion(directory: string, deps: DependencyMap?, packages: Packages) returns (r: Outcome<Error>)
    modifies deps
    ensures deps == null ==> r == Pass
    ensures deps != null && r.Pass? ==>
      RewrittenUpTo(old(deps.entries), deps.entries, VersionedArtifactPathRewrite(directory, packages), |old(deps.entries)|)
    ensures deps != null && r.Fail? ==>
      exists k :: && 0 <= k < |old(deps.entries)|
                  && RewrittenUpTo(old(deps.entries), deps.entries, VersionedArtifactPathRewrite(directory, packages), k)
                  && RewrittenEntry(old(deps.entries)[k], VersionedArtifactPathRewrite(directory, packages)) == Failure(r.error)
  {
    r := RewriteProjectReferences(deps, VersionedArtifactPathRewrite(directory, packages));
  }

  /**
   * A completed caret rewrite leaves no `file:` reference behind: each one
   * became `^` followed by the referenced package's version.
   */
  lemma {:induction false} CaretRewriteRemovesProjectReferences(before: Dict<string>, after: Dict<string>, packages: Packages)
    requires RewrittenUpTo(before, after, CaretRewrite(packages), |before|)
    ensures forall i :: 0 <= i < |after| ==> !IsProjectReference(after[i].1)
    ensures forall i :: 0 <= i < |before| && IsProjectReference(before[i].1) ==>
      before[i].0 in packages && after[i].1 == "^" + packages[before[i].0].packageJson.version
  {
    forall i | 0 <= i < |after|
      ensures !IsProjectReference(after[i].1)
      ensures IsProjectReference(before[i].1) ==>
        before[i].0 in packages && after[i].1 == "^" + packages[before[i].0].packageJson.version
    {
      assert RewrittenEntry(before[i], CaretRewrite(packages)) == Success(after[i]);
      if IsProjectReference(before[i].1) {
        assert after[i].1[0] == '^';
      }
    }
  }

  /** Every rewrite of this module succeeds on an entry exactly when the entry is skipped or names a package. */
  lemma {:induction false} RewriteSucceedsIffPackageKnown(e: (string, string), directory: string, packages: Packages)
    ensures RewrittenEntry(e, CaretRewrite(packages)).Success? <==> !IsProjectReference(e.1) || e.0 in packages
    ensures RewrittenEntry(e, ArtifactPathRewrite(directory, packages)).Success? <==> !IsProjectReference(e.1) || e.0 in packages
    ensures RewrittenEntry(e, VersionedArtifactPathRewrite(directory, packages)).Success? <==> !IsProjectReference(e.1) || e.0 in packages
    ensures IsProjectReference(e.1) && e.0 !in packages ==>
      RewrittenEntry(e, CaretRewrite(packages)) == Failure(MissingPackageInfo(e.0))
  {
  }

  /** One entry of the versioned artifact rewrite: still a `file:` reference, to the versioned archive. */
  lemma {:induction false} VersionedArtifactEntry(e: (string, string), rewritten: (string, string), directory: string, packages: Packages)
    requires IsProjectReference(e.1)
    requires RewrittenEntry(e, VersionedArtifactPathRewrite(directory, packages)) == Success(rewritten)
    ensures e.0 in packages
    ensures IsProjectReference(rewritten.1)
    ensures rewritten.1 == FileReferencePrefix + PathJoin(directory, VersionedArchiveName(packages[e.0].packageJson))
  {
    var tail := PathJoin(directory, VersionedArchiveName(packages[e.0].packageJson));
    assert rewritten.1 == FileReferencePrefix + tail;
    assert (FileReferencePrefix + tail)[..|FileReferencePrefix|] == FileReferencePrefix;
  }

  /**
   * The versioned artifact rewrite keeps each rewritten entry a `file:`
   * reference and names the archive `<sanitised name>-<version>.tgz` inside `directory`.
   */
  lemma {:induction false} VersionedArtifactPathShape(before: Dict<string>, after: Dict<string>, directory: string, packages: Packages)
    requires RewrittenUpTo(before, after, VersionedArtifactPathRewrite(directory, packages), |before|)
    ensures forall i :: 0 <= i < |before| && IsProjectReference(before[i].1) ==>
      && IsProjectReference(after[i].1)
      && before[i].0 in packages
      && after[i].1 == FileReferencePrefix + PathJoin(directory, VersionedArchiveName(packages[before[i].0].packageJson))
  {
    forall i | 0 <= i < |before| && IsProjectReference(before[i].1)
      ensures IsProjectReference(after[i].1)
      ensures before[i].0 in packages
      ensures after[i].1 == FileReferencePrefix + PathJoin(directory, VersionedArchiveName(packages[before[i].0].packageJson))
    {
      VersionedArtifactEntry(before[i], after[i], directory, packages);
    }
  }

  /** A completed full-path rewrite puts every former `file:` reference under `directory`. */
  lemma {:induction false} ArtifactPathUnderDirectory(before: Dict<string>, after: Dict<string>, directory: string, packages: Packages)
    requires RewrittenUpTo(before, after, ArtifactPathRewrite(directory, packages), |before|)
    ensures forall i :: 0 <= i < |before| && IsProjectReference(before[i].1) ==>
      && before[i].0 in packages
      && after[i].1 == PathJoin(directory, PackageNameToFileName(packages[before[i].0].packageJson.name) + ".tgz")
  {
    forall i | 0 <= i < |before| && IsProjectReference(before[i].1)
      ensures before[i].0 in packages
    {
      assert RewrittenEntry(before[i], ArtifactPathRewrite(directory, packages)) == Success(after[i]);
    }
  }

  /** `trimPackageJson`: deletes `scripts`, `blerf` and `devDependencies`, nothing else. */
  method TrimPackageJson(packageJson: PackageJson)
    requires packageJson.Valid()
    modifies packageJson
    ensures packageJson.Valid()
    ensures packageJson.View() == old(packageJson.View()).(scripts := None, blerf := None, devDependencies := None)
  {
    packageJson.scripts := None;
    packageJson.blerf := None;
    packageJson.devDependencies := null;
  }

  /*
   * Processing packages in dependency order
   */

  /** What `processPackage` of a concrete command does with one package; a failure is what it throws. */
  type ProcessPackage = (string, Manifest, Packages) -> Outcome<Error>

  /**
   * The last loop of `enumeratePackages`: every package in the sorted order
   * is processed, and an error thrown while processing one is reported and
   * does not stop the others. A name without package information fails
   * outside the error handler and ends the run (`aborted`).
   */
  method ProcessInOrder(sorted: seq<string>, packages: Packages, process: ProcessPackage)
    returns (outcomes: seq<Outcome<Error>>, aborted: Option<Error>)
    ensures |outcomes| <= |sorted|
    ensures forall i :: 0 <= i < |outcomes| ==>
              && sorted[i] in packages
              && outcomes[i] == process(packages[sorted[i]].packagePath, packages[sorted[i]].packageJson, packages)
    ensures aborted.None? <==> |outcomes| == |sorted|
    ensures aborted.Some? ==> sorted[|outcomes|] !in packages && aborted.value == MissingPackageInfo(sorted[|outcomes|])
  {
    outcomes := [];
    for i := 0 to |sorted|
      invariant |outcomes| == i
      invariant forall j :: 0 <= j < i ==>
                  && sorted[j] in packages
                  && outcomes[j] == process(packages[sorted[j]].packagePath, packages[sorted[j]].packageJson, packages)
    {
      if sorted[i] !in packages {
        return outcomes, Some(MissingPackageInfo(sorted[i]));
      }
      var info := packages[sorted[i]];
      var outcome := process(info.packagePath, info.packageJson, packages);
      outcomes := outcomes + [outcome];
    }
    aborted := None;
  }
}
