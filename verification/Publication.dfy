/** The resumable publication of a release bundle (scripts/publish-npm-baseline.ts, RegistryPublication). */
module Publication {
  import opened Wrappers
  import opened Text

  const RELEASE_ENTRY_PACKAGE := "lasmex"
  const LATEST_DIST_TAG := "latest"
  const INTEGRITY_PREFIX := "sha512-"

  datatype PackedPackage = PackedPackage(name: string, integrity: string)

  datatype Manifest = Manifest(version: string, distTag: string, packages: seq<PackedPackage>)

  /** What loading a bundle has checked: some packages, no name twice, sha512 integrities. */
  predicate ValidManifest(m: Manifest) {
    && m.packages != []
    && (forall i, j :: 0 <= i < j < |m.packages| ==> m.packages[i].name != m.packages[j].name)
    && (forall i :: 0 <= i < |m.packages| ==> StartsWith(m.packages[i].integrity, INTEGRITY_PREFIX))
  }

  /** Integrity by (name, version), and version by (name, dist-tag). */
  datatype Registry = Registry(published: map<(string, string), string>, tags: map<(string, string), string>)

  datatype Failure =
    | Interrupted
    | NoIntegrity(name: string)
    | DifferentIntegrity(name: string)
    | PackageMissing(name: string)
    | UnknownPackage(name: string)
    | UnknownVersion(name: string)
    | TagElsewhere(name: string, tag: string)

  /** How a sequence of registry calls ended, what it left behind, and how many calls it could still make. */
  datatype Run = Run(failure: Option<Failure>, registry: Registry, calls: nat)

  // ---- The registry's operations ----

  predicate Known(r: Registry, name: string) {
    exists k :: k in r.published && k.0 == name
  }

  function TagOf(r: Registry, name: string, tag: string): Option<string> {
    if (name, tag) in r.tags then Some(r.tags[(name, tag)]) else None
  }

  /** `npm publish --tag`: a new version, named by one tag. */
  function Published(r: Registry, m: Manifest, pkg: PackedPackage): Registry {
    Registry(r.published[(pkg.name, m.version) := pkg.integrity], r.tags[(pkg.name, m.distTag) := m.version])
  }

  /** `npm dist-tag add`. */
  function Tagged(r: Registry, name: string, tag: string, version: string): Registry {
    r.(tags := r.tags[(name, tag) := version])
  }

  // ---- Publishing; every run may be cut off before any registry call ----

  function EnsureTag(m: Manifest, r: Registry, name: string, tag: string, calls: nat): Run {
    if calls == 0 then Run(Some(Interrupted), r, 0)
    else if !Known(r, name) then Run(Some(UnknownPackage(name)), r, calls - 1)
    else if TagOf(r, name, tag) == Some(m.version) then Run(None, r, calls - 1)
    else if calls == 1 then Run(Some(Interrupted), r, 0)
    else if (name, m.version) !in r.published then Run(Some(UnknownVersion(name)), r, calls - 2)
    else Run(None, Tagged(r, name, tag, m.version), calls - 2)
  }

  function PublishOne(m: Manifest, pkg: PackedPackage, r: Registry, calls: nat): Run {
    if calls == 0 then Run(Some(Interrupted), r, 0)
    else if (pkg.name, m.version) !in r.published then
      if calls == 1 then Run(Some(Interrupted), r, 0)
      else EnsureTag(m, Published(r, m, pkg), pkg.name, m.distTag, calls - 2)
    else
      var existing := r.published[(pkg.name, m.version)];
      if !StartsWith(existing, INTEGRITY_PREFIX) then Run(Some(NoIntegrity(pkg.name)), r, calls - 1)
      else if existing != pkg.integrity then Run(Some(DifferentIntegrity(pkg.name)), r, calls - 1)
      else EnsureTag(m, r, pkg.name, m.distTag, calls - 1)
  }

  function PublishFrom(m: Manifest, k: nat, r: Registry, calls: nat): Run
    requires k <= |m.packages|
    decreases |m.packages| - k
  {
    if k == |m.packages| then Run(None, r, calls)
    else
      var one := PublishOne(m, m.packages[k], r, calls);
      if one.failure.Some? then one else PublishFrom(m, k + 1, one.registry, one.calls)
  }

  function VerifyOne(m: Manifest, pkg: PackedPackage, r: Registry, calls: nat): Run {
    if calls == 0 then Run(Some(Interrupted), r, 0)
    else if (pkg.name, m.version) !in r.published then Run(Some(PackageMissing(pkg.name)), r, calls - 1)
    else
      var integrity := r.published[(pkg.name, m.version)];
      if !StartsWith(integrity, INTEGRITY_PREFIX) then Run(Some(NoIntegrity(pkg.name)), r, calls - 1)
      else if integrity != pkg.integrity then Run(Some(DifferentIntegrity(pkg.name)), r, calls - 1)
      else if calls == 1 then Run(Some(Interrupted), r, 0)
      else if TagOf(r, pkg.name, m.distTag) != Some(m.version) then
        Run(Some(TagElsewhere(pkg.name, m.distTag)), r, calls - 2)
      else Run(None, r, calls - 2)
  }

  function VerifyFrom(m: Manifest, k: nat, r: Registry, calls: nat): Run
    requires k <= |m.packages|
    decreases |m.packages| - k
  {
    if k == |m.packages| then VerifyEntry(m, r, calls)
    else
      var one := VerifyOne(m, m.packages[k], r, calls);
      if one.failure.Some? then one else VerifyFrom(m, k + 1, r, one.calls)
  }

  function VerifyEntry(m: Manifest, r: Registry, calls: nat): Run {
    if calls == 0 then Run(Some(Interrupted), r, 0)
    else if !Known(r, RELEASE_ENTRY_PACKAGE) then Run(Some(UnknownPackage(RELEASE_ENTRY_PACKAGE)), r, calls - 1)
    else if TagOf(r, RELEASE_ENTRY_PACKAGE, LATEST_DIST_TAG) != Some(m.version) then
      Run(Some(TagElsewhere(RELEASE_ENTRY_PACKAGE, LATEST_DIST_TAG)), r, calls - 1)
    else Run(None, r, calls - 1)
  }

  /** The ping and the identity request come first; the `latest` tag is set only after every package is done. */
  function Publish(m: Manifest, r: Registry, calls: nat): Run {
    if calls < 2 then Run(Some(Interrupted), r, 0)
    else
      var all := PublishFrom(m, 0, r, calls - 2);
      if all.failure.Some? then all
      else
        var entry := EnsureTag(m, all.registry, RELEASE_ENTRY_PACKAGE, LATEST_DIST_TAG, all.calls);
        if entry.failure.Some? then entry else VerifyFrom(m, 0, entry.registry, entry.calls)
  }

  function Verify(m: Manifest, r: Registry, calls: nat): Run {
    if calls == 0 then Run(Some(Interrupted), r, 0) else VerifyFrom(m, 0, r, calls - 1)
  }

  /** Any number of runs, one after the other, each cut off where its budget ends. */
  function PublishRepeatedly(m: Manifest, r: Registry, budgets: seq<nat>): Registry
    decreases budgets
  {
    if budgets == [] then r else PublishRepeatedly(m, Publish(m, r, budgets[0]).registry, budgets[1..])
  }

  // ---- What must hold ----

  /** The package is there with the bundle's integrity, and its dist-tag names the version. */
  predicate InPlace(m: Manifest, pkg: PackedPackage, r: Registry) {
    && (pkg.name, m.version) in r.published && r.published[(pkg.name, m.version)] == pkg.integrity
    && TagOf(r, pkg.name, m.distTag) == Some(m.version)
  }

  predicate InPlaceUpTo(m: Manifest, k: nat, r: Registry) {
    forall i :: 0 <= i < k && i < |m.packages| ==> InPlace(m, m.packages[i], r)
  }

  predicate LatestNamesVersion(m: Manifest, r: Registry) {
    TagOf(r, RELEASE_ENTRY_PACKAGE, LATEST_DIST_TAG) == Some(m.version)
  }

  /** `lasmex@latest` names the bundle's version only if the whole bundle is in place. */
  predicate LatestIsSafe(m: Manifest, r: Registry) {
    LatestNamesVersion(m, r) ==> InPlaceUpTo(m, |m.packages|, r)
  }

  predicate Complete(m: Manifest, r: Registry) {
    InPlaceUpTo(m, |m.packages|, r) && LatestNamesVersion(m, r) && Known(r, RELEASE_ENTRY_PACKAGE)
  }

  /** No published integrity is ever changed or removed. */
  predicate IntegritiesKept(before: Registry, after: Registry) {
    forall k :: k in before.published ==> k in after.published && after.published[k] == before.published[k]
  }

  /** What only ever grows during a run: integrities, and tags that name the version. */
  predicate Progress(m: Manifest, before: Registry, after: Registry) {
    && IntegritiesKept(before, after)
    && forall k :: k in before.tags && before.tags[k] == m.version ==> k in after.tags && after.tags[k] == m.version
  }

  lemma ProgressTransitive(m: Manifest, a: Registry, b: Registry, c: Registry)
    requires Progress(m, a, b) && Progress(m, b, c)
    ensures Progress(m, a, c)
  {}

  lemma InPlaceStays(m: Manifest, k: nat, a: Registry, b: Registry)
    requires Progress(m, a, b) && InPlaceUpTo(m, k, a)
    ensures InPlaceUpTo(m, k, b)
  {}

  lemma EntryProgress(m: Manifest, r: Registry, calls: nat)
    ensures
      var entry := EnsureTag(m, r, RELEASE_ENTRY_PACKAGE, LATEST_DIST_TAG, calls);
      Progress(m, r, entry.registry) && (entry.failure.None? ==> LatestNamesVersion(m, entry.registry))
  {}

  lemma PublishOneProgress(m: Manifest, pkg: PackedPackage, r: Registry, calls: nat)
    ensures Progress(m, r, PublishOne(m, pkg, r, calls).registry)
    ensures PublishOne(m, pkg, r, calls).failure.None? ==> InPlace(m, pkg, PublishOne(m, pkg, r, calls).registry)
  {}

  lemma {:induction false} PublishFromProgress(m: Manifest, k: nat, r: Registry, calls: nat)
    requires k <= |m.packages|
    ensures Progress(m, r, PublishFrom(m, k, r, calls).registry)
    ensures InPlaceUpTo(m, k, r) && PublishFrom(m, k, r, calls).failure.None? ==>
      InPlaceUpTo(m, |m.packages|, PublishFrom(m, k, r, calls).registry)
    decreases |m.packages| - k
  {
    if k < |m.packages| {
      var one := PublishOne(m, m.packages[k], r, calls);
      PublishOneProgress(m, m.packages[k], r, calls);
      if one.failure.None? {
        PublishFromProgress(m, k + 1, one.registry, one.calls);
        ProgressTransitive(m, r, one.registry, PublishFrom(m, k + 1, one.registry, one.calls).registry);
        if InPlaceUpTo(m, k, r) { InPlaceStays(m, k, r, one.registry); }
      }
    }
  }

  lemma {:induction false} VerifyChangesNothing(m: Manifest, k: nat, r: Registry, calls: nat)
    requires k <= |m.packages|
    ensures VerifyFrom(m, k, r, calls).registry == r
    decreases |m.packages| - k
  {
    if k < |m.packages| {
      VerifyChangesNothing(m, k + 1, r, VerifyOne(m, m.packages[k], r, calls).calls);
    }
  }

  /** No run changes a published integrity, wherever it stops. */
  lemma PublishProgress(m: Manifest, r: Registry, calls: nat)
    ensures Progress(m, r, Publish(m, r, calls).registry)
  {
    if calls >= 2 {
      var all := PublishFrom(m, 0, r, calls - 2);
      PublishFromProgress(m, 0, r, calls - 2);
      if all.failure.None? {
        var entry := EnsureTag(m, all.registry, RELEASE_ENTRY_PACKAGE, LATEST_DIST_TAG, all.calls);
        EntryProgress(m, all.registry, all.calls);
        hide Progress, PublishFrom, VerifyFrom, EnsureTag;
        ProgressTransitive(m, r, all.registry, entry.registry);
        VerifyChangesNothing(m, 0, entry.registry, entry.calls);
      }
    }
  }

  // ---- What a run leaves alone ----

  predicate IsBundled(m: Manifest, name: string) {
    exists i :: 0 <= i < |m.packages| && m.packages[i].name == name
  }

  /** The tags a run may set: the bundle packages' dist-tag, and `latest` of the release entry. */
  predicate IsOwnTag(m: Manifest, k: (string, string)) {
    (k.1 == m.distTag && IsBundled(m, k.0)) || k == (RELEASE_ENTRY_PACKAGE, LATEST_DIST_TAG)
  }

  /** Only bundle packages gain a version, only the bundle's, and only own tags change, to that version. */
  predicate OnlyOwnWrites(m: Manifest, before: Registry, after: Registry) {
    && (forall k :: k in after.published && k !in before.published ==> IsBundled(m, k.0) && k.1 == m.version)
    && (forall k :: k in before.tags ==> k in after.tags)
    && forall k :: k in after.tags && (k !in before.tags || before.tags[k] != after.tags[k]) ==>
         IsOwnTag(m, k) && after.tags[k] == m.version
  }

  lemma OwnWritesTransitive(m: Manifest, a: Registry, b: Registry, c: Registry)
    requires OnlyOwnWrites(m, a, b) && OnlyOwnWrites(m, b, c)
    ensures OnlyOwnWrites(m, a, c)
  {
    hide IsOwnTag, IsBundled;
  }

  lemma TagIsOwnWrite(m: Manifest, r: Registry, name: string, tag: string, calls: nat)
    requires IsOwnTag(m, (name, tag))
    ensures OnlyOwnWrites(m, r, EnsureTag(m, r, name, tag, calls).registry)
  {}

  lemma PublishOneOwnWrites(m: Manifest, k: nat, r: Registry, calls: nat)
    requires k < |m.packages|
    ensures OnlyOwnWrites(m, r, PublishOne(m, m.packages[k], r, calls).registry)
  {
    var pkg := m.packages[k];
    assert IsBundled(m, pkg.name);
    var added := Published(r, m, pkg);
    if (pkg.name, m.version) !in r.published {
      assert OnlyOwnWrites(m, r, added);
      if calls >= 2 {
        TagIsOwnWrite(m, added, pkg.name, m.distTag, calls - 2);
        hide EnsureTag, OnlyOwnWrites;
        OwnWritesTransitive(m, r, added, EnsureTag(m, added, pkg.name, m.distTag, calls - 2).registry);
      }
    } else if calls >= 1 {
      TagIsOwnWrite(m, r, pkg.name, m.distTag, calls - 1);
    }
  }

  lemma {:induction false} PublishFromOwnWrites(m: Manifest, k: nat, r: Registry, calls: nat)
    requires k <= |m.packages|
    ensures OnlyOwnWrites(m, r, PublishFrom(m, k, r, calls).registry)
    decreases |m.packages| - k
  {
    if k < |m.packages| {
      hide OnlyOwnWrites, PublishOne;
      var one := PublishOne(m, m.packages[k], r, calls);
      PublishOneOwnWrites(m, k, r, calls);
      if one.failure.None? {
        PublishFromOwnWrites(m, k + 1, one.registry, one.calls);
        OwnWritesTransitive(m, r, one.registry, PublishFrom(m, k + 1, one.registry, one.calls).registry);
      }
    }
  }

  /** Wherever a run stops, it has written nothing but its own versions and its own tags. */
  lemma PublishOwnWrites(m: Manifest, r: Registry, calls: nat)
    ensures OnlyOwnWrites(m, r, Publish(m, r, calls).registry)
  {
    if calls >= 2 {
      var all := PublishFrom(m, 0, r, calls - 2);
      PublishFromOwnWrites(m, 0, r, calls - 2);
      if all.failure.None? {
        hide OnlyOwnWrites, PublishFrom, VerifyFrom, EnsureTag;
        var entry := EnsureTag(m, all.registry, RELEASE_ENTRY_PACKAGE, LATEST_DIST_TAG, all.calls);
        TagIsOwnWrite(m, all.registry, RELEASE_ENTRY_PACKAGE, LATEST_DIST_TAG, all.calls);
        OwnWritesTransitive(m, r, all.registry, entry.registry);
        VerifyChangesNothing(m, 0, entry.registry, entry.calls);
      }
    }
  }

  // ---- When `latest` is safe ----

  /**
   * The manifest's own dist-tag is not `latest`, or no package after the release entry is still to come when the
   * entry is published. Loading a manifest does not check this; packing always writes `dev-X.Y.Z`.
   */
  predicate TagOrderSafe(m: Manifest) {
    || m.distTag != LATEST_DIST_TAG
    || forall i :: 0 <= i < |m.packages| - 1 ==> m.packages[i].name != RELEASE_ENTRY_PACKAGE
  }

  lemma PublishOneKeepsSafe(m: Manifest, k: nat, r: Registry, calls: nat)
    requires TagOrderSafe(m) && k < |m.packages| && InPlaceUpTo(m, k, r) && LatestIsSafe(m, r)
    ensures LatestIsSafe(m, PublishOne(m, m.packages[k], r, calls).registry)
  {
    var pkg := m.packages[k];
    var after := PublishOne(m, pkg, r, calls).registry;
    PublishOneProgress(m, pkg, r, calls);
    if LatestNamesVersion(m, r) {
      InPlaceStays(m, |m.packages|, r, after);
    } else if LatestNamesVersion(m, after) {
      assert k == |m.packages| - 1;
      InPlaceStays(m, k, r, after);
      assert InPlace(m, pkg, after);
    }
  }

  lemma {:induction false} PublishFromKeepsSafe(m: Manifest, k: nat, r: Registry, calls: nat)
    requires TagOrderSafe(m) && k <= |m.packages| && InPlaceUpTo(m, k, r) && LatestIsSafe(m, r)
    ensures LatestIsSafe(m, PublishFrom(m, k, r, calls).registry)
    decreases |m.packages| - k
  {
    if k < |m.packages| {
      var one := PublishOne(m, m.packages[k], r, calls);
      PublishOneKeepsSafe(m, k, r, calls);
      PublishOneProgress(m, m.packages[k], r, calls);
      if one.failure.None? {
        InPlaceStays(m, k, r, one.registry);
        PublishFromKeepsSafe(m, k + 1, one.registry, one.calls);
      }
    }
  }

  /** One run, cut off anywhere, keeps `latest` safe. */
  lemma PublishKeepsSafe(m: Manifest, r: Registry, calls: nat)
    requires TagOrderSafe(m) && LatestIsSafe(m, r)
    ensures LatestIsSafe(m, Publish(m, r, calls).registry)
  {
    hide TagOrderSafe, Progress, PublishFrom, VerifyFrom, EnsureTag;
    if calls >= 2 {
      var all := PublishFrom(m, 0, r, calls - 2);
      assert InPlaceUpTo(m, 0, r);
      hide InPlaceUpTo;
      PublishFromKeepsSafe(m, 0, r, calls - 2);
      PublishFromProgress(m, 0, r, calls - 2);
      if all.failure.None? {
        var entry := EnsureTag(m, all.registry, RELEASE_ENTRY_PACKAGE, LATEST_DIST_TAG, all.calls);
        EntryProgress(m, all.registry, all.calls);
        InPlaceStays(m, |m.packages|, all.registry, entry.registry);
        VerifyChangesNothing(m, 0, entry.registry, entry.calls);
      }
    }
  }

  /** Any number of interrupted runs: integrities never change, and `latest` stays safe. */
  lemma {:induction false} RepeatedRunsAreSafe(m: Manifest, r: Registry, budgets: seq<nat>)
    requires TagOrderSafe(m) && LatestIsSafe(m, r)
    ensures IntegritiesKept(r, PublishRepeatedly(m, r, budgets)) && LatestIsSafe(m, PublishRepeatedly(m, r, budgets))
    decreases budgets
  {
    if budgets != [] {
      PublishProgress(m, r, budgets[0]);
      PublishKeepsSafe(m, r, budgets[0]);
      RepeatedRunsAreSafe(m, Publish(m, r, budgets[0]).registry, budgets[1..]);
    }
  }

  /** The registry in which exactly the first `j` packages are in place. */
  function FirstInPlace(m: Manifest, j: nat): Registry
    requires ValidManifest(m) && j <= |m.packages|
  {
    if j == 0 then Registry(map[], map[]) else Published(FirstInPlace(m, j - 1), m, m.packages[j - 1])
  }

  lemma PublishedExtends(m: Manifest, j: nat, r: Registry)
    requires ValidManifest(m) && j < |m.packages| && InPlaceUpTo(m, j, r)
    ensures InPlaceUpTo(m, j + 1, Published(r, m, m.packages[j]))
  {
    forall i | 0 <= i <= j ensures InPlace(m, m.packages[i], Published(r, m, m.packages[j])) {
      if i < j { assert InPlace(m, m.packages[i], r) && m.packages[i].name != m.packages[j].name; }
    }
  }

  lemma {:induction false} FirstInPlaceHolds(m: Manifest, j: nat)
    requires ValidManifest(m) && j <= |m.packages|
    ensures InPlaceUpTo(m, j, FirstInPlace(m, j))
    ensures forall i :: j <= i < |m.packages| ==> (m.packages[i].name, m.version) !in FirstInPlace(m, j).published
    ensures forall k :: k in FirstInPlace(m, j).tags ==>
      k.1 == m.distTag && exists i :: 0 <= i < j && k.0 == m.packages[i].name
  {
    if j > 0 {
      FirstInPlaceHolds(m, j - 1);
      PublishedExtends(m, j - 1, FirstInPlace(m, j - 1));
      hide InPlaceUpTo;
    }
  }

  /** Packages already in place cost two calls each and change nothing. */
  lemma {:induction false} InPlaceIsSkipped(m: Manifest, k: nat, j: nat, r: Registry, calls: nat)
    requires ValidManifest(m) && k <= j <= |m.packages| && InPlaceUpTo(m, j, r) && calls >= 2 * (j - k)
    ensures PublishFrom(m, k, r, calls) == PublishFrom(m, j, r, calls - 2 * (j - k))
    decreases j - k
  {
    hide InPlaceUpTo, ValidManifest, PublishOne;
    if k < j {
      OneIsSkipped(m, k, j, r, calls);
      InPlaceIsSkipped(m, k + 1, j, r, calls - 2);
      assert calls - 2 - 2 * (j - (k + 1)) == calls - 2 * (j - k);
    }
  }

  lemma OneIsSkipped(m: Manifest, k: nat, j: nat, r: Registry, calls: nat)
    requires ValidManifest(m) && k < j <= |m.packages| && InPlaceUpTo(m, j, r) && calls >= 2
    ensures PublishOne(m, m.packages[k], r, calls) == Run(None, r, calls - 2)
  {
    assert InPlace(m, m.packages[k], r) && (m.packages[k].name, m.version) in r.published;
  }

  /** Safety for every start and every interruption holds if and only if the tag order is safe. */
  lemma SafeExactlyWhen(m: Manifest)
    requires ValidManifest(m)
    ensures TagOrderSafe(m) <==>
            forall r, calls :: LatestIsSafe(m, r) ==> LatestIsSafe(m, Publish(m, r, calls).registry)
  {
    if TagOrderSafe(m) {
      forall r, calls | LatestIsSafe(m, r) ensures LatestIsSafe(m, Publish(m, r, calls).registry) {
        PublishKeepsSafe(m, r, calls);
      }
    } else {
      var j: nat :| j < |m.packages| - 1 && m.packages[j].name == RELEASE_ENTRY_PACKAGE;
      UnsafeRun(m, j);
    }
  }

  /** Otherwise a run stopped right after publishing the release entry leaves `latest` ahead of the bundle. */
  lemma UnsafeRun(m: Manifest, j: nat)
    requires ValidManifest(m) && m.distTag == LATEST_DIST_TAG && j < |m.packages| - 1
    requires m.packages[j].name == RELEASE_ENTRY_PACKAGE
    ensures LatestIsSafe(m, FirstInPlace(m, j)) && !LatestIsSafe(m, Publish(m, FirstInPlace(m, j), 2 * j + 4).registry)
  {
    var r, pkg := FirstInPlace(m, j), m.packages[j];
    FirstInPlaceHolds(m, j);
    InPlaceIsSkipped(m, 0, j, r, 2 * j + 2);
    var after := Published(r, m, pkg);
    assert PublishOne(m, pkg, r, 2) == Run(Some(Interrupted), after, 0);
    assert PublishFrom(m, j, r, 2) == PublishOne(m, pkg, r, 2);
    var last := m.packages[|m.packages| - 1];
    assert (last.name, m.version) !in after.published;
    assert !InPlace(m, last, after);
  }

  // ---- Completion ----

  lemma {:induction false} CompleteVerifies(m: Manifest, k: nat, r: Registry, calls: nat)
    requires ValidManifest(m) && k <= |m.packages| && Complete(m, r) && calls >= 2 * (|m.packages| - k) + 1
    ensures VerifyFrom(m, k, r, calls).failure.None?
    decreases |m.packages| - k
  {
    if k < |m.packages| {
      assert InPlace(m, m.packages[k], r);
      CompleteVerifies(m, k + 1, r, calls - 2);
    }
  }

  lemma {:induction false} VerifiedIsComplete(m: Manifest, k: nat, r: Registry, calls: nat)
    requires k <= |m.packages| && InPlaceUpTo(m, k, r) && VerifyFrom(m, k, r, calls).failure.None?
    ensures Complete(m, r)
    decreases |m.packages| - k
  {
    if k < |m.packages| {
      VerifiedIsComplete(m, k + 1, r, VerifyOne(m, m.packages[k], r, calls).calls);
    }
  }

  /** `verify` with enough calls succeeds exactly on a complete publication. */
  lemma VerifyDecides(m: Manifest, r: Registry, calls: nat)
    requires ValidManifest(m) && calls >= 2 * |m.packages| + 2
    ensures Verify(m, r, calls).failure.None? <==> Complete(m, r)
    ensures Verify(m, r, calls).registry == r
  {
    VerifyChangesNothing(m, 0, r, calls - 1);
    if Complete(m, r) {
      CompleteVerifies(m, 0, r, calls - 1);
    } else if VerifyFrom(m, 0, r, calls - 1).failure.None? {
      VerifiedIsComplete(m, 0, r, calls - 1);
    }
  }

  /** A run that ends without failure leaves a complete publication. */
  lemma FinishedRunIsComplete(m: Manifest, r: Registry, calls: nat)
    requires Publish(m, r, calls).failure.None?
    ensures Complete(m, Publish(m, r, calls).registry)
  {
    var all := PublishFrom(m, 0, r, calls - 2);
    var entry := EnsureTag(m, all.registry, RELEASE_ENTRY_PACKAGE, LATEST_DIST_TAG, all.calls);
    VerifyChangesNothing(m, 0, entry.registry, entry.calls);
    VerifiedIsComplete(m, 0, entry.registry, entry.calls);
  }

  /** Repeating a finished run writes nothing, wherever the repetition stops. */
  lemma RepeatWritesNothing(m: Manifest, r: Registry, calls: nat)
    requires ValidManifest(m) && Complete(m, r)
    ensures Publish(m, r, calls).registry == r
  {
    if calls >= 2 {
      CompleteIsUntouched(m, 0, r, calls - 2);
      var all := PublishFrom(m, 0, r, calls - 2);
      if all.failure.None? {
        VerifyChangesNothing(m, 0, r, EnsureTag(m, r, RELEASE_ENTRY_PACKAGE, LATEST_DIST_TAG, all.calls).calls);
      }
    }
  }

  lemma {:induction false} CompleteIsUntouched(m: Manifest, k: nat, r: Registry, calls: nat)
    requires ValidManifest(m) && k <= |m.packages| && InPlaceUpTo(m, |m.packages|, r)
    ensures PublishFrom(m, k, r, calls).registry == r
    decreases |m.packages| - k
  {
    if k < |m.packages| {
      assert InPlace(m, m.packages[k], r);
      if PublishOne(m, m.packages[k], r, calls).failure.None? {
        CompleteIsUntouched(m, k + 1, r, PublishOne(m, m.packages[k], r, calls).calls);
      }
    }
  }

  // ---- Resumption ----

  /** No package of the bundle is already published with other contents. */
  predicate NoConflicts(m: Manifest, r: Registry) {
    forall i :: 0 <= i < |m.packages| && (m.packages[i].name, m.version) in r.published ==>
      r.published[(m.packages[i].name, m.version)] == m.packages[i].integrity
  }

  lemma PublishOneResumes(m: Manifest, k: nat, r: Registry, calls: nat)
    requires ValidManifest(m) && k < |m.packages| && NoConflicts(m, r) && calls >= 4
    ensures
      var one := PublishOne(m, m.packages[k], r, calls);
      one.failure.None? && one.calls >= calls - 4 && NoConflicts(m, one.registry)
  {
    var pkg := m.packages[k];
    if (pkg.name, m.version) !in r.published {
      assert (pkg.name, m.version) in Published(r, m, pkg).published;
    } else {
      assert Known(r, pkg.name);
    }
  }

  lemma {:induction false} PublishFromResumes(m: Manifest, k: nat, r: Registry, calls: nat)
    requires ValidManifest(m) && k <= |m.packages| && NoConflicts(m, r) && calls >= 4 * (|m.packages| - k)
    ensures
      var all := PublishFrom(m, k, r, calls);
      all.failure.None? && all.calls >= calls - 4 * (|m.packages| - k)
    decreases |m.packages| - k
  {
    if k < |m.packages| {
      PublishOneResumes(m, k, r, calls);
      var one := PublishOne(m, m.packages[k], r, calls);
      PublishFromResumes(m, k + 1, one.registry, one.calls);
    }
  }

  lemma EntrySucceeds(m: Manifest, r: Registry, calls: nat)
    requires (RELEASE_ENTRY_PACKAGE, m.version) in r.published && calls >= 2
    ensures
      var entry := EnsureTag(m, r, RELEASE_ENTRY_PACKAGE, LATEST_DIST_TAG, calls);
      entry.failure.None? && entry.calls >= calls - 2 && Known(entry.registry, RELEASE_ENTRY_PACKAGE)
  {
    assert Known(r, RELEASE_ENTRY_PACKAGE);
  }

  lemma EntryPublished(m: Manifest, r: Registry)
    requires InPlaceUpTo(m, |m.packages|, r)
    requires exists i :: 0 <= i < |m.packages| && m.packages[i].name == RELEASE_ENTRY_PACKAGE
    ensures (RELEASE_ENTRY_PACKAGE, m.version) in r.published
  {
    var i :| 0 <= i < |m.packages| && m.packages[i].name == RELEASE_ENTRY_PACKAGE;
    assert InPlace(m, m.packages[i], r);
  }

  /**
   * Whatever earlier runs left behind, an uninterrupted run of a conflict-free bundle with the release entry
   * completes.
   */
  lemma UninterruptedRunCompletes(m: Manifest, r: Registry, calls: nat)
    requires ValidManifest(m) && NoConflicts(m, r) && calls >= 6 * |m.packages| + 5
    requires exists i :: 0 <= i < |m.packages| && m.packages[i].name == RELEASE_ENTRY_PACKAGE
    ensures Publish(m, r, calls).failure.None?
  {
    NothingInPlace(m, r);
    hide InPlace, InPlaceUpTo, Progress, PublishFrom, VerifyFrom, EnsureTag, NoConflicts, ValidManifest, Known;
    hide LatestNamesVersion;
    PublishFromResumes(m, 0, r, calls - 2);
    PublishFromProgress(m, 0, r, calls - 2);
    var all := PublishFrom(m, 0, r, calls - 2);
    EntryPublished(m, all.registry);
    var entry := EnsureTag(m, all.registry, RELEASE_ENTRY_PACKAGE, LATEST_DIST_TAG, all.calls);
    EntrySucceeds(m, all.registry, all.calls);
    EntryProgress(m, all.registry, all.calls);
    InPlaceStays(m, |m.packages|, all.registry, entry.registry);
    assert Complete(m, entry.registry);
    CompleteVerifies(m, 0, entry.registry, entry.calls);
  }

  lemma NothingInPlace(m: Manifest, r: Registry)
    ensures InPlaceUpTo(m, 0, r)
  {}

  /** A package published with other contents stops every run before `latest` can move. */
  lemma ConflictBlocksLatest(m: Manifest, r: Registry, calls: nat, i: nat)
    requires i < |m.packages| && (m.packages[i].name, m.version) in r.published
    requires r.published[(m.packages[i].name, m.version)] != m.packages[i].integrity
    requires TagOrderSafe(m) && LatestIsSafe(m, r)
    ensures Publish(m, r, calls).failure.Some? && !LatestNamesVersion(m, Publish(m, r, calls).registry)
  {
    PublishProgress(m, r, calls);
    PublishKeepsSafe(m, r, calls);
    var after := Publish(m, r, calls).registry;
    assert !InPlace(m, m.packages[i], after);
    if Publish(m, r, calls).failure.None? { FinishedRunIsComplete(m, r, calls); }
  }

  // ---- A run is interrupted only when its calls are used up ----

  predicate SpentIfInterrupted(run: Run) {
    run.failure == Some(Interrupted) ==> run.calls == 0
  }

  lemma {:induction false} PublishFromSpent(m: Manifest, k: nat, r: Registry, calls: nat)
    requires k <= |m.packages|
    ensures SpentIfInterrupted(PublishFrom(m, k, r, calls)) && PublishFrom(m, k, r, calls).calls <= calls
    decreases |m.packages| - k
  {
    if k < |m.packages| {
      var one := PublishOne(m, m.packages[k], r, calls);
      PublishFromSpent(m, k + 1, one.registry, one.calls);
    }
  }

  lemma {:induction false} VerifyFromSpent(m: Manifest, k: nat, r: Registry, calls: nat)
    requires k <= |m.packages|
    ensures SpentIfInterrupted(VerifyFrom(m, k, r, calls)) && VerifyFrom(m, k, r, calls).calls <= calls
    decreases |m.packages| - k
  {
    if k < |m.packages| {
      VerifyFromSpent(m, k + 1, r, VerifyOne(m, m.packages[k], r, calls).calls);
    }
  }

  /** Being cut off means having made every call there was, and no run makes more. */
  lemma InterruptedIsSpent(m: Manifest, r: Registry, calls: nat)
    ensures SpentIfInterrupted(Publish(m, r, calls)) && Publish(m, r, calls).calls <= calls
    ensures SpentIfInterrupted(Verify(m, r, calls)) && Verify(m, r, calls).calls <= calls
  {
    hide PublishFrom, VerifyFrom;
    if calls >= 1 { VerifyFromSpent(m, 0, r, calls - 1); }
    if calls >= 2 {
      PublishFromSpent(m, 0, r, calls - 2);
      var all := PublishFrom(m, 0, r, calls - 2);
      var entry := EnsureTag(m, all.registry, RELEASE_ENTRY_PACKAGE, LATEST_DIST_TAG, all.calls);
      VerifyFromSpent(m, 0, entry.registry, entry.calls);
    }
  }

  // ---- The reason a run reports ----

  /** The registry holds the version with another integrity, or with none that can be compared. */
  predicate ConflictIs(m: Manifest, pkg: PackedPackage, r: Registry, f: Failure) {
    && (pkg.name, m.version) in r.published
    && match f
       case NoIntegrity(n) => n == pkg.name && !StartsWith(r.published[(n, m.version)], "sha512-")
       case DifferentIntegrity(n) =>
         n == pkg.name && StartsWith(r.published[(n, m.version)], "sha512-")
           && r.published[(n, m.version)] != pkg.integrity
       case _ => false
  }

  /** What is wrong with a package that is out of place. */
  predicate ReasonIs(m: Manifest, pkg: PackedPackage, r: Registry, f: Failure) {
    match f
    case PackageMissing(n) => n == pkg.name && (n, m.version) !in r.published
    case TagElsewhere(n, tag) =>
      && n == pkg.name && tag == m.distTag && (n, m.version) in r.published
      && r.published[(n, m.version)] == pkg.integrity && TagOf(r, n, tag) != Some(m.version)
    case _ => ConflictIs(m, pkg, r, f)
  }

  /** With enough calls, checking names the first package out of place and what is wrong with it. */
  lemma {:induction false} VerifyNamesFirst(m: Manifest, k: nat, r: Registry, calls: nat, j: nat)
    requires ValidManifest(m) && k <= j < |m.packages| && calls >= 2 * (|m.packages| - k) + 1
    requires !InPlace(m, m.packages[j], r) && forall i :: k <= i < j ==> InPlace(m, m.packages[i], r)
    ensures
      var f := VerifyFrom(m, k, r, calls).failure;
      f.Some? && ReasonIs(m, m.packages[j], r, f.value)
    decreases j - k
  {
    if k < j {
      assert InPlace(m, m.packages[k], r);
      VerifyNamesFirst(m, k + 1, r, calls - 2, j);
    }
  }

  /**
   * `verify` with enough calls reports the first package out of place and the reason; with every package in place,
   * only the release entry can be at fault.
   */
  lemma VerifyReason(m: Manifest, r: Registry, calls: nat)
    requires ValidManifest(m) && calls >= 2 * |m.packages| + 2
    ensures forall j :: 0 <= j < |m.packages| && !InPlace(m, m.packages[j], r) && InPlaceUpTo(m, j, r) ==>
      var f := Verify(m, r, calls).failure;
      f.Some? && ReasonIs(m, m.packages[j], r, f.value)
    ensures InPlaceUpTo(m, |m.packages|, r) && !Complete(m, r) ==>
      Verify(m, r, calls).failure ==
        Some(if Known(r, "lasmex") then TagElsewhere("lasmex", "latest") else UnknownPackage("lasmex"))
  {
    hide InPlace, VerifyFrom, ReasonIs;
    forall j | 0 <= j < |m.packages| && !InPlace(m, m.packages[j], r) && InPlaceUpTo(m, j, r)
      ensures
        var f := Verify(m, r, calls).failure;
        f.Some? && ReasonIs(m, m.packages[j], r, f.value)
    {
      VerifyNamesFirst(m, 0, r, calls - 1, j);
    }
    if InPlaceUpTo(m, |m.packages|, r) { InPlaceLeavesEntry(m, 0, r, calls - 1); }
  }

  lemma {:induction false} InPlaceLeavesEntry(m: Manifest, k: nat, r: Registry, calls: nat)
    requires ValidManifest(m) && k <= |m.packages| && InPlaceUpTo(m, |m.packages|, r)
    requires calls >= 2 * (|m.packages| - k) + 1
    ensures VerifyFrom(m, k, r, calls).failure == VerifyEntry(m, r, calls - 2 * (|m.packages| - k)).failure
    decreases |m.packages| - k
  {
    if k < |m.packages| {
      assert InPlace(m, m.packages[k], r);
      InPlaceLeavesEntry(m, k + 1, r, calls - 2);
    }
  }

  predicate InConflict(m: Manifest, pkg: PackedPackage, r: Registry) {
    (pkg.name, m.version) in r.published && r.published[(pkg.name, m.version)] != pkg.integrity
  }

  ghost predicate SameConflict(m: Manifest, pkg: PackedPackage, a: Registry, b: Registry) {
    && (InConflict(m, pkg, a) <==> InConflict(m, pkg, b))
    && forall f :: ConflictIs(m, pkg, a, f) <==> ConflictIs(m, pkg, b, f)
  }

  lemma PublishOneDecides(m: Manifest, k: nat, r: Registry, calls: nat)
    requires ValidManifest(m) && k < |m.packages| && calls >= 4
    ensures
      var pkg := m.packages[k];
      var one := PublishOne(m, pkg, r, calls);
      if InConflict(m, pkg, r) then one.failure.Some? && ConflictIs(m, pkg, r, one.failure.value)
      else one.failure.None? && one.calls >= calls - 4
    ensures
      var pkg := m.packages[k];
      var after := PublishOne(m, pkg, r, calls).registry;
      forall i :: 0 <= i < |m.packages| && i != k ==> SameConflict(m, m.packages[i], r, after)
  {
    var pkg := m.packages[k];
    var after := PublishOne(m, pkg, r, calls).registry;
    if (pkg.name, m.version) in r.published {
      assert Known(r, pkg.name);
      assert after.published == r.published;
    } else {
      assert (pkg.name, m.version) in Published(r, m, pkg).published;
      assert after.published == r.published[(pkg.name, m.version) := pkg.integrity];
    }
    forall i | 0 <= i < |m.packages| && i != k ensures m.packages[i].name != pkg.name {}
    hide PublishOne;
  }

  /** With enough calls, publishing fails exactly at the first package in conflict, and names it and the reason. */
  lemma {:induction false} PublishNamesFirst(m: Manifest, k: nat, r: Registry, calls: nat, j: nat)
    requires ValidManifest(m) && k <= j < |m.packages| && calls >= 4 * (|m.packages| - k)
    requires InConflict(m, m.packages[j], r) && forall i :: k <= i < j ==> !InConflict(m, m.packages[i], r)
    ensures
      var f := PublishFrom(m, k, r, calls).failure;
      f.Some? && ConflictIs(m, m.packages[j], r, f.value)
    decreases j - k
  {
    PublishOneDecides(m, k, r, calls);
    hide PublishOne, InConflict, ConflictIs;
    if k < j {
      var one := PublishOne(m, m.packages[k], r, calls);
      forall i | k < i <= j ensures SameConflict(m, m.packages[i], r, one.registry) {}
      PublishNamesFirst(m, k + 1, one.registry, one.calls, j);
    }
  }

  /** `publish` with enough calls reports the first package in conflict and the reason. */
  lemma PublishReason(m: Manifest, r: Registry, calls: nat, j: nat)
    requires ValidManifest(m) && calls >= 4 * |m.packages| + 2 && j < |m.packages|
    requires InConflict(m, m.packages[j], r) && forall i :: 0 <= i < j ==> !InConflict(m, m.packages[i], r)
    ensures
      var f := Publish(m, r, calls).failure;
      f.Some? && ConflictIs(m, m.packages[j], r, f.value)
  {
    PublishNamesFirst(m, 0, r, calls - 2, j);
  }

  // ---- The publisher, issuing one registry call after the other ----

  /** The registry as a remote service: every call may be the one that is cut off. */
  class Npm {
    var state: Registry
    var calls: nat

    constructor (state: Registry, calls: nat)
      ensures this.state == state && this.calls == calls
    {
      this.state := state;
      this.calls := calls;
    }

    method Call() returns (failure: Option<Failure>)
      modifies this`calls
      ensures old(calls) == 0 ==> failure == Some(Interrupted) && calls == 0
      ensures old(calls) > 0 ==> failure == None && calls == old(calls) - 1
    {
      if calls == 0 { return Some(Interrupted); }
      calls := calls - 1;
      return None;
    }
  }

  class RegistryPublication {
    const m: Manifest
    const npm: Npm

    constructor (m: Manifest, npm: Npm)
      ensures this.m == m && this.npm == npm
    {
      this.m := m;
      this.npm := npm;
    }

    method EnsureDistTag(name: string, tag: string) returns (failure: Option<Failure>)
      modifies npm
      ensures Run(failure, npm.state, npm.calls) == EnsureTag(m, old(npm.state), name, tag, old(npm.calls))
    {
      failure := npm.Call();
      if failure.Some? { return; }
      if !Known(npm.state, name) { return Some(UnknownPackage(name)); }
      if TagOf(npm.state, name, tag) == Some(m.version) { return None; }
      failure := npm.Call();
      if failure.Some? { return; }
      if (name, m.version) !in npm.state.published { return Some(UnknownVersion(name)); }
      npm.state := Tagged(npm.state, name, tag, m.version);
    }

    method PublishBundle() returns (failure: Option<Failure>)
      modifies npm
      ensures Run(failure, npm.state, npm.calls) == Publish(m, old(npm.state), old(npm.calls))
    {
      hide EnsureTag, VerifyFrom;
      failure := npm.Call();
      if failure.Some? { return; }
      failure := npm.Call();
      if failure.Some? { return; }
      for k := 0 to |m.packages|
        invariant old(npm.calls) >= 2
        invariant PublishFrom(m, 0, old(npm.state), old(npm.calls) - 2) == PublishFrom(m, k, npm.state, npm.calls)
      {
        failure := PublishPackage(m.packages[k]);
        if failure.Some? { return; }
      }
      failure := EnsureDistTag(RELEASE_ENTRY_PACKAGE, LATEST_DIST_TAG);
      if failure.Some? { return; }
      failure := VerifyRemote();
    }

    /** One turn of the publishing loop. */
    method PublishPackage(pkg: PackedPackage) returns (failure: Option<Failure>)
      modifies npm
      ensures Run(failure, npm.state, npm.calls) == PublishOne(m, pkg, old(npm.state), old(npm.calls))
    {
      failure := npm.Call();
      if failure.Some? { return; }
      if (pkg.name, m.version) !in npm.state.published {
        failure := npm.Call();
        if failure.Some? { return; }
        npm.state := Published(npm.state, m, pkg);
      } else {
        var existing := npm.state.published[(pkg.name, m.version)];
        if !StartsWith(existing, INTEGRITY_PREFIX) { return Some(NoIntegrity(pkg.name)); }
        if existing != pkg.integrity { return Some(DifferentIntegrity(pkg.name)); }
      }
      failure := EnsureDistTag(pkg.name, m.distTag);
    }

    /** The check of every package, followed by the check of the release entry's tag. */
    method VerifyRemote() returns (failure: Option<Failure>)
      modifies npm
      ensures Run(failure, npm.state, npm.calls) == VerifyFrom(m, 0, old(npm.state), old(npm.calls))
    {
      for k := 0 to |m.packages|
        invariant npm.state == old(npm.state)
        invariant VerifyFrom(m, 0, old(npm.state), old(npm.calls)) == VerifyFrom(m, k, npm.state, npm.calls)
      {
        failure := VerifyPackage(m.packages[k]);
        if failure.Some? { return; }
      }
      failure := npm.Call();
      if failure.Some? { return; }
      if !Known(npm.state, RELEASE_ENTRY_PACKAGE) { return Some(UnknownPackage(RELEASE_ENTRY_PACKAGE)); }
      if TagOf(npm.state, RELEASE_ENTRY_PACKAGE, LATEST_DIST_TAG) != Some(m.version) {
        return Some(TagElsewhere(RELEASE_ENTRY_PACKAGE, LATEST_DIST_TAG));
      }
    }

    method VerifyPackage(pkg: PackedPackage) returns (failure: Option<Failure>)
      modifies npm
      ensures Run(failure, npm.state, npm.calls) == VerifyOne(m, pkg, old(npm.state), old(npm.calls))
    {
      failure := npm.Call();
      if failure.Some? { return; }
      if (pkg.name, m.version) !in npm.state.published { return Some(PackageMissing(pkg.name)); }
      var integrity := npm.state.published[(pkg.name, m.version)];
      if !StartsWith(integrity, INTEGRITY_PREFIX) { return Some(NoIntegrity(pkg.name)); }
      if integrity != pkg.integrity { return Some(DifferentIntegrity(pkg.name)); }
      failure := npm.Call();
      if failure.Some? { return; }
      if TagOf(npm.state, pkg.name, m.distTag) != Some(m.version) { return Some(TagElsewhere(pkg.name, m.distTag)); }
    }

    method VerifyBundle() returns (failure: Option<Failure>)
      modifies npm
      ensures Run(failure, npm.state, npm.calls) == Verify(m, old(npm.state), old(npm.calls))
    {
      failure := npm.Call();
      if failure.Some? { return; }
      failure := VerifyRemote();
    }
  }
}
