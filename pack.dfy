/**
 * Packaging a workspace package: after `npm pack`, the manifest inside the
 * tarball has each project reference replaced by the referenced package's
 * version (publish) or by the name of its archive (deploy).
 */
module Pack {
  import opened Wrappers
  import opened Strings
  import opened Dicts
  import opened Manifests
  import opened PackageEnumerator

  /*
   * Rewriting one dependency dictionary
   */

  /**
   * What `updateDependencyVersions` writes over a `file:` reference: the plain
   * version in publish mode, `<name>-<version>.tgz` with the unsanitised name
   * in deploy mode; a reference to no known package throws.
   */
  function PackRewrite(isDeploy: bool, packages: Packages): Rewrite {
    (name: string, ref: string) =>
      if name !in packages then Failure(DanglingReference(ref))
      else if isDeploy then Success(packages[name].packageJson.name + "-" + packages[name].packageJson.version + ".tgz")
      else Success(packages[name].packageJson.version)
  }

  /** `updateDependencyVersions`: the shared in-place loop with the packaging rewrite. */
  method UpdateDependencyVersions(isDeploy: bool, deps: DependencyMap?, packages: Packages) returns (r: Outcome<Error>)
    modifies deps
    ensures deps == null ==> r == Pass
    ensures deps != null && r.Pass? ==>
      RewrittenUpTo(old(deps.entries), deps.entries, PackRewrite(isDeploy, packages), |old(deps.entries)|)
    ensures deps != null && r.Fail? ==>
      exists k :: && 0 <= k < |old(deps.entries)|
                  && RewrittenUpTo(old(deps.entries), deps.entries, PackRewrite(isDeploy, packages), k)
                  && RewrittenEntry(old(deps.entries)[k], PackRewrite(isDeploy, packages)) == Failure(r.error)
  {
    r := RewriteProjectReferences(deps, PackRewrite(isDeploy, packages));
  }

  /** Every entry of `d` survives the rewrite. */
  predicate AllRewritable(d: Dict<string>, rewrite: Rewrite) {
    forall i :: 0 <= i < |d| ==> RewrittenEntry(d[i], rewrite).Success?
  }

  /** Entry `k` of `d` is the first one the rewrite fails on, with error `e`. */
  predicate FirstFailure(d: Dict<string>, rewrite: Rewrite, k: int, e: Error) {
    && 0 <= k < |d|
    && (forall i :: 0 <= i < k ==> RewrittenEntry(d[i], rewrite).Success?)
    && RewrittenEntry(d[k], rewrite) == Failure(e)
  }

  /** The packaging rewrite succeeds on a dictionary exactly when each of its project references names a known package. */
  lemma {:induction false} AllRewritableIff(d: Dict<string>, isDeploy: bool, packages: Packages)
    ensures AllRewritable(d, PackRewrite(isDeploy, packages)) <==>
      forall i :: 0 <= i < |d| && IsProjectReference(d[i].1) ==> d[i].0 in packages
  {
    if !AllRewritable(d, PackRewrite(isDeploy, packages)) {
      var i :| 0 <= i < |d| && !RewrittenEntry(d[i], PackRewrite(isDeploy, packages)).Success?;
      assert IsProjectReference(d[i].1) && d[i].0 !in packages;
    }
  }

  /** A reference to an unknown package throws with the reference itself in the message. */
  lemma {:induction false} DanglingReferenceFails(e: (string, string), isDeploy: bool, packages: Packages)
    requires IsProjectReference(e.1) && e.0 !in packages
    ensures RewrittenEntry(e, PackRewrite(isDeploy, packages)) == Failure(DanglingReference(e.1))
  {
    assert PackRewrite(isDeploy, packages)(e.0, e.1) == Failure(DanglingReference(e.1));
  }

  /**
   * A completed publish rewrite replaces each project reference by the plain
   * version of the package it names and leaves every other entry as it was.
   */
  lemma {:induction false} PublishEntries(before: Dict<string>, after: Dict<string>, packages: Packages)
    requires RewrittenUpTo(before, after, PackRewrite(false, packages), |before|)
    ensures Keys(after) == Keys(before)
    ensures forall i :: 0 <= i < |before| && !IsProjectReference(before[i].1) ==> after[i] == before[i]
    ensures forall i :: 0 <= i < |before| && IsProjectReference(before[i].1) ==>
      before[i].0 in packages && after[i].1 == packages[before[i].0].packageJson.version
  {
    RewriteKeepsKeys(before, after, PackRewrite(false, packages), |before|);
    forall i | 0 <= i < |before| && IsProjectReference(before[i].1)
      ensures before[i].0 in packages && after[i].1 == packages[before[i].0].packageJson.version
    {
      assert RewrittenEntry(before[i], PackRewrite(false, packages)) == Success(after[i]);
    }
  }

  /**
   * A completed deploy rewrite replaces each project reference by
   * `<name>-<version>.tgz` of the package it names, with the name as written
   * in its manifest, and leaves every other entry as it was.
   */
  lemma {:induction false} DeployEntries(before: Dict<string>, after: Dict<string>, packages: Packages)
    requires RewrittenUpTo(before, after, PackRewrite(true, packages), |before|)
    ensures Keys(after) == Keys(before)
    ensures forall i :: 0 <= i < |before| && !IsProjectReference(before[i].1) ==> after[i] == before[i]
    ensures forall i :: 0 <= i < |before| && IsProjectReference(before[i].1) ==>
      && before[i].0 in packages
      && after[i].1 == packages[before[i].0].packageJson.name + "-" + packages[before[i].0].packageJson.version + ".tgz"
  {
    RewriteKeepsKeys(before, after, PackRewrite(true, packages), |before|);
    forall i | 0 <= i < |before| && IsProjectReference(before[i].1)
      ensures before[i].0 in packages
      ensures after[i].1 == packages[before[i].0].packageJson.name + "-" + packages[before[i].0].packageJson.version + ".tgz"
    {
      assert RewrittenEntry(before[i], PackRewrite(true, packages)) == Success(after[i]);
    }
  }

  /** A published manifest has no project reference left, as long as no workspace version itself starts with `file:`. */
  lemma {:induction false} PublishRemovesProjectReferences(before: Dict<string>, after: Dict<string>, packages: Packages)
    requires RewrittenUpTo(before, after, PackRewrite(false, packages), |before|)
    requires forall name :: name in packages ==> !IsProjectReference(packages[name].packageJson.version)
    ensures forall i :: 0 <= i < |after| ==> !IsProjectReference(after[i].1)
  {
    PublishEntries(before, after, packages);
  }

  /*
   * Patching the packed manifest
   */

  /** `patched` is `m` with both dependency dictionaries completely rewritten and every other key kept. */
  predicate Patched(m: Manifest, patched: Manifest, rewrite: Rewrite) {
    && patched == m.(dependencies := patched.dependencies, devDependencies := patched.devDependencies)
    && (patched.dependencies.Some? <==> m.dependencies.Some?)
    && (patched.devDependencies.Some? <==> m.devDependencies.Some?)
    && RewrittenUpTo(Entries(m.dependencies), Entries(patched.dependencies), rewrite, |Entries(m.dependencies)|)
    && RewrittenUpTo(Entries(m.devDependencies), Entries(patched.devDependencies), rewrite, |Entries(m.devDependencies)|)
  }

  /** `e` is what the patch throws: the first failure in `dependencies`, or, when there is none, in `devDependencies`. */
  ghost predicate PatchFailure(m: Manifest, rewrite: Rewrite, e: Error) {
    || (exists k :: FirstFailure(Entries(m.dependencies), rewrite, k, e))
    || (AllRewritable(Entries(m.dependencies), rewrite) && exists k :: FirstFailure(Entries(m.devDependencies), rewrite, k, e))
  }

  /**
   * `patchPackageJson`: reads the manifest extracted from the tarball (None
   * when it cannot be read or parsed), rewrites `dependencies`, then
   * `devDependencies`, and yields the manifest it writes back.
   */
  method PatchPackageJson(packageJsonPath: string, packed: Option<Manifest>, isDeploy: bool, packages: Packages)
    returns (r: Result<Manifest, Error>)
    ensures packed.None? ==> r == Failure(UnreadablePackedManifest(packageJsonPath))
    ensures packed.Some? ==>
      (r.Success? <==> AllRewritable(Entries(packed.value.dependencies), PackRewrite(isDeploy, packages))
                       && AllRewritable(Entries(packed.value.devDependencies), PackRewrite(isDeploy, packages)))
    ensures packed.Some? && r.Success? ==> Patched(packed.value, r.value, PackRewrite(isDeploy, packages))
    ensures packed.Some? && r.Failure? ==> PatchFailure(packed.value, PackRewrite(isDeploy, packages), r.error)
  {
    if packed.None? {
      // reading a key of null throws
      return Failure(UnreadablePackedManifest(packageJsonPath));
    }
    var m := packed.value;
    ghost var rewrite := PackRewrite(isDeploy, packages);
    var packageJson := new PackageJson(m);
    var outcome := UpdateDependencyVersions(isDeploy, packageJson.dependencies, packages);
    if outcome.Fail? {
      ghost var k :| && 0 <= k < |Entries(m.dependencies)|
                     && RewrittenUpTo(Entries(m.dependencies), packageJson.dependencies.entries, rewrite, k)
                     && RewrittenEntry(Entries(m.dependencies)[k], rewrite) == Failure(outcome.error);
      assert FirstFailure(Entries(m.dependencies), rewrite, k, outcome.error);
      return Failure(outcome.error);
    }
    assert AllRewritable(Entries(m.dependencies), rewrite);
    outcome := UpdateDependencyVersions(isDeploy, packageJson.devDependencies, packages);
    if outcome.Fail? {
      ghost var k :| && 0 <= k < |Entries(m.devDependencies)|
                     && RewrittenUpTo(Entries(m.devDependencies), packageJson.devDependencies.entries, rewrite, k)
                     && RewrittenEntry(Entries(m.devDependencies)[k], rewrite) == Failure(outcome.error);
      assert FirstFailure(Entries(m.devDependencies), rewrite, k, outcome.error);
      return Failure(outcome.error);
    }
    r := Success(packageJson.View());
  }

  /*
   * The packaging step of one package
   */

  /** The tarballs on disk, by path, each with the manifest inside it (None when that manifest cannot be read). */
  type Tarballs = map<string, Option<Manifest>>

  /** The tarball path `processPackage` assumes: the manifest's name as written, then the version. */
  function TarballPathAsWritten(packagePath: string, m: Manifest): (path: string)
    ensures StartsWith(path, packagePath)
  {
    PathJoin(packagePath, m.name + "-" + m.version + ".tgz")
  }

  /** The tarball `npm pack` writes into the package directory: the sanitised name, then the version. */
  function TarballPath(packagePath: string, m: Manifest): (path: string)
    ensures StartsWith(path, packagePath)
  {
    PathJoin(packagePath, VersionedArchiveName(m))
  }

  /**
   * The corrected path is the archive that a versioned artifact reference
   * to the package names, when the archive directory is the package's own.
   */
  lemma {:induction false} TarballPathIsReferencedArchive(packagePath: string, packages: Packages, name: string, ref: string)
    requires name in packages
    ensures VersionedArtifactPathRewrite(packagePath, packages)(name, ref)
         == Success(FileReferencePrefix + TarballPath(packagePath, packages[name].packageJson))
  {
  }

  /** For a name without a scope the assumed path is the one `npm pack` writes. */
  lemma {:induction false} TarballPathsAgreeUnscoped(packagePath: string, m: Manifest)
    requires !StartsWith(m.name, "@")
    ensures TarballPathAsWritten(packagePath, m) == TarballPath(packagePath, m)
  {
  }

  /**
   * For a scoped name the assumed path is one character longer than the
   * tarball `npm pack` wrote, so a directory holding only that tarball has
   * nothing at the assumed path.
   */
  lemma {:induction false} ScopedTarballPathAsWrittenMissed(packagePath: string, m: Manifest, contents: Option<Manifest>)
    requires StartsWith(m.name, "@")
    ensures |TarballPathAsWritten(packagePath, m)| == |TarballPath(packagePath, m)| + 1
    ensures TarballPathAsWritten(packagePath, m) !in map[TarballPath(packagePath, m) := contents]
  {
  }

  /** What packaging leaves behind: the tarball and the manifest now inside it. */
  datatype Packed = Packed(tarballPath: string, packageJson: Manifest)

  /**
   * `processPackage` of the pack command, after `npm pack` has written its
   * tarball: extracts the tarball at the path the code assumes
   * (`TarballPathAsWritten`), patches the manifest inside and packs it again
   * at the same path. A tarball that is not there throws. `tempPath` is the
   * fresh directory the tarball is extracted into.
   */
  method PackPackage(packagePath: string, manifest: Manifest, tarballs: Tarballs, tempPath: string, isDeploy: bool, packages: Packages)
    returns (r: Result<Packed, Error>)
    ensures TarballPathAsWritten(packagePath, manifest) !in tarballs ==>
      r == Failure(MissingTarball(TarballPathAsWritten(packagePath, manifest)))
    ensures r.Success? ==> r.value.tarballPath == TarballPathAsWritten(packagePath, manifest)
    ensures r.Success? ==>
      && tarballs[r.value.tarballPath].Some?
      && Patched(tarballs[r.value.tarballPath].value, r.value.packageJson, PackRewrite(isDeploy, packages))
    ensures r.Failure? && TarballPathAsWritten(packagePath, manifest) in tarballs && tarballs[TarballPathAsWritten(packagePath, manifest)].Some? ==>
      PatchFailure(tarballs[TarballPathAsWritten(packagePath, manifest)].value, PackRewrite(isDeploy, packages), r.error)
  {
    var tarballPath := TarballPathAsWritten(packagePath, manifest);
    if tarballPath !in tarballs {
      return Failure(MissingTarball(tarballPath));
    }
    var patched := PatchPackageJson(PathJoin(PathJoin(tempPath, "package"), "package.json"), tarballs[tarballPath], isDeploy, packages);
    if patched.Failure? {
      return Failure(patched.error);
    }
    r := Success(Packed(tarballPath, patched.value));
  }
}
