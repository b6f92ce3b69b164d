/**
 The release publisher: checking the order of a release, then publishing it crate by crate against a
 registry that answers as it likes.

 The outside world (registry, cargo, checkout, receipt file) is an oracle asked at successive times, so
 that every statement holds for all its behaviours. What a run did is recorded in a log of events.
 */
module Publisher {
  import opened Wrappers

  // ---------- The release order ----------

  /** A resolved dependency: its crate, its version requirement, where it comes from. */
  datatype Dependency = Dependency(name: string, requirement: string, git: bool, forbidden: bool)

  datatype Package = Package(name: string, version: string, publishable: bool, dependencies: seq<Dependency>)

  /** A crate at a version. */
  datatype Crate = Crate(name: string, version: string)

  datatype ReleaseError =
    | DisablesPublication
    | ForbiddenDependency
    | MismatchedDependency
    | WrongOrder
    | NeedsExactVersion

  function StripEquals(requirement: string): string {
    if |requirement| > 0 && requirement[0] == '=' then requirement[1..] else requirement
  }

  predicate StartsWithEquals(requirement: string) {
    |requirement| > 0 && requirement[0] == '='
  }

  predicate InRelease(packages: seq<Package>, name: string) {
    exists j :: 0 <= j < |packages| && packages[j].name == name
  }

  /** The version the release gives a crate; a repeated name keeps the last. */
  function VersionOf(packages: seq<Package>, name: string): string
    requires InRelease(packages, name)
  {
    var last := packages[|packages| - 1];
    if last.name == name then last.version else VersionOf(packages[..|packages| - 1], name)
  }

  /** A dependency of package `k` on a crate of the release names its version and comes earlier; one
      on a crate taken from git is pinned exactly; none is forbidden. */
  predicate DependencyOk(packages: seq<Package>, k: nat, d: Dependency)
    requires k <= |packages|
  {
    && !d.forbidden
    && (InRelease(packages, d.name) ==>
          StripEquals(d.requirement) == VersionOf(packages, d.name) && InRelease(packages[..k], d.name))
    && (!InRelease(packages, d.name) && d.git ==> StartsWithEquals(d.requirement))
  }

  predicate PackageOk(packages: seq<Package>, k: nat)
    requires k < |packages|
  {
    forall i :: 0 <= i < |packages[k].dependencies| ==> DependencyOk(packages, k, packages[k].dependencies[i])
  }

  /** Package `k` takes crate `u` from git, so that version must already be on the registry. */
  predicate PackageNeeds(packages: seq<Package>, k: nat, u: Crate)
    requires k < |packages|
  {
    var dependencies := packages[k].dependencies;
    exists i :: 0 <= i < |dependencies| && NeedsUpstream(packages, dependencies[i], u)
  }

  predicate NeedsUpstream(packages: seq<Package>, d: Dependency, u: Crate) {
    !InRelease(packages, d.name) && d.git && u == Crate(d.name, StripEquals(d.requirement))
  }

  ghost predicate IsUpstream(packages: seq<Package>, upstream: set<Crate>) {
    forall u :: u in upstream <==> exists k :: 0 <= k < |packages| && PackageNeeds(packages, k, u)
  }

  predicate ReleaseOk(packages: seq<Package>) {
    && (forall k :: 0 <= k < |packages| ==> packages[k].publishable)
    && (forall k :: 0 <= k < |packages| ==> PackageOk(packages, k))
  }

  /** The dependency checks of `release_packages` for one package. */
  method CheckDependencies(packages: seq<Package>, k: nat, seen: set<string>)
    returns (fault: Option<ReleaseError>, upstream: set<Crate>)
    requires k < |packages|
    requires forall name :: name in seen <==> InRelease(packages[..k], name)
    ensures fault.None? <==> PackageOk(packages, k)
    ensures fault.None? ==> forall u :: u in upstream <==> PackageNeeds(packages, k, u)
  {
    upstream := {};
    var i := 0;
    var dependencies := packages[k].dependencies;
    while i < |dependencies|
      invariant 0 <= i <= |dependencies|
      invariant forall h :: 0 <= h < i ==> DependencyOk(packages, k, dependencies[h])
      invariant forall u :: u in upstream <==> exists h :: 0 <= h < i && NeedsUpstream(packages, dependencies[h], u)
    {
      var d := dependencies[i];
      if d.forbidden {
        return Some(ForbiddenDependency), {};
      }
      if InRelease(packages, d.name) {
        if StripEquals(d.requirement) != VersionOf(packages, d.name) {
          return Some(MismatchedDependency), {};
        }
        if d.name !in seen {
          return Some(WrongOrder), {};
        }
      } else if d.git {
        if !StartsWithEquals(d.requirement) {
          return Some(NeedsExactVersion), {};
        }
        upstream := upstream + {Crate(d.name, d.requirement[1..])};
      }
      i := i + 1;
    }
    fault := None;
  }

  /** `release_packages`: accepts exactly the releases in dependency order. */
  method ReleasePackages(packages: seq<Package>) returns (fault: Option<ReleaseError>, upstream: set<Crate>)
    ensures fault.None? <==> ReleaseOk(packages)
    ensures fault.None? ==> IsUpstream(packages, upstream)
  {
    var k := 0;
    while k < |packages|
      invariant 0 <= k <= |packages|
      invariant forall h :: 0 <= h < k ==> packages[h].publishable
    {
      if !packages[k].publishable {
        return Some(DisablesPublication), {};
      }
      k := k + 1;
    }
    var seen: set<string> := {};
    upstream := {};
    k := 0;
    while k < |packages|
      invariant 0 <= k <= |packages|
      invariant forall name :: name in seen <==> InRelease(packages[..k], name)
      invariant forall h :: 0 <= h < k ==> PackageOk(packages, h)
      invariant forall u :: u in upstream <==> exists h :: 0 <= h < k && PackageNeeds(packages, h, u)
    {
      var found;
      fault, found := CheckDependencies(packages, k, seen);
      if fault.Some? {
        return;
      }
      upstream := upstream + found;
      SeenGrows(packages, k);
      seen := seen + {packages[k].name};
      k := k + 1;
    }
    fault := None;
  }

  lemma SeenGrows(packages: seq<Package>, k: nat)
    requires k < |packages|
    ensures forall name :: InRelease(packages[..k + 1], name) <==>
            InRelease(packages[..k], name) || name == packages[k].name
  {
    forall name
      ensures InRelease(packages[..k + 1], name) <==> InRelease(packages[..k], name) || name == packages[k].name
    {
      if InRelease(packages[..k], name) {
        var j :| 0 <= j < k && packages[..k][j].name == name;
        assert packages[..k + 1][j].name == name;
      }
      if InRelease(packages[..k + 1], name) {
        var j :| 0 <= j < k + 1 && packages[..k + 1][j].name == name;
        assert j < k ==> packages[..k][j].name == name;
      }
      assert packages[..k + 1][k].name == packages[k].name;
    }
  }

  predicate DistinctNames(packages: seq<Package>) {
    forall i, j :: 0 <= i < j < |packages| ==> packages[i].name != packages[j].name
  }

  lemma {:induction false} VersionOfPackage(packages: seq<Package>, j: nat)
    requires j < |packages| && DistinctNames(packages)
    ensures InRelease(packages, packages[j].name)
    ensures VersionOf(packages, packages[j].name) == packages[j].version
  {
    var n := |packages| - 1;
    if j < n {
      assert packages[..n][j] == packages[j];
      VersionOfPackage(packages[..n], j);
    }
  }

  /** What the release demands of dependency `d` of package `k`: it is not forbidden; a package of that name comes
      earlier and has the version required, written with or without a leading "="; and one taken from git that
      no package provides has a requirement that starts with "=". */
  ghost predicate DependencyInOrder(packages: seq<Package>, k: nat, d: Dependency) {
    && !d.forbidden
    && (forall j :: 0 <= j < |packages| && packages[j].name == d.name ==>
          && j < k
          && (if |d.requirement| > 0 && d.requirement[0] == '=' then d.requirement == "=" + packages[j].version
              else d.requirement == packages[j].version))
    && (d.git && (forall j :: 0 <= j < |packages| ==> packages[j].name != d.name) ==>
          |d.requirement| > 0 && d.requirement[0] == '=')
  }

  lemma DependencyOkIff(packages: seq<Package>, k: nat, d: Dependency)
    requires k < |packages| && DistinctNames(packages)
    ensures DependencyOk(packages, k, d) <==> DependencyInOrder(packages, k, d)
  {
    if InRelease(packages, d.name) {
      var j :| 0 <= j < |packages| && packages[j].name == d.name;
      VersionOfPackage(packages, j);
      assert InRelease(packages[..k], d.name) <==> j < k by {
        assert j < k ==> packages[..k][j].name == d.name;
        assert forall i :: 0 <= i < k ==> packages[..k][i] == packages[i];
      }
      assert d.requirement == "=" + packages[j].version <==>
             |d.requirement| > 0 && d.requirement[0] == '=' && d.requirement[1..] == packages[j].version;
    } else {
      assert forall j :: 0 <= j < |packages| ==> packages[j].name != d.name;
    }
  }

  ghost predicate PackageInOrder(packages: seq<Package>, k: nat)
    requires k < |packages|
  {
    && packages[k].publishable
    && forall i :: 0 <= i < |packages[k].dependencies| ==> DependencyInOrder(packages, k, packages[k].dependencies[i])
  }

  /** A release whose names differ is accepted exactly when no package is withheld and all dependencies are in
      order. */
  lemma ReleaseAcceptedIff(packages: seq<Package>)
    requires DistinctNames(packages)
    ensures ReleaseOk(packages) <==> forall k :: 0 <= k < |packages| ==> PackageInOrder(packages, k)
  {
    hide DependencyOk, DependencyInOrder;
    forall k | 0 <= k < |packages|
      ensures PackageInOrder(packages, k) <==> packages[k].publishable && PackageOk(packages, k)
    {
      forall i | 0 <= i < |packages[k].dependencies|
        ensures DependencyOk(packages, k, packages[k].dependencies[i]) <==>
                DependencyInOrder(packages, k, packages[k].dependencies[i])
      {
        DependencyOkIff(packages, k, packages[k].dependencies[i]);
      }
    }
    hide PackageOk, PackageInOrder;
  }

  /** An accepted dependency on a crate of the release is an earlier package at that very version. */
  lemma DependencyIsEarlier(packages: seq<Package>, k: nat, d: Dependency) returns (j: nat)
    requires k <= |packages| && DistinctNames(packages)
    requires DependencyOk(packages, k, d) && InRelease(packages, d.name)
    ensures j < k && packages[j].name == d.name && packages[j].version == StripEquals(d.requirement)
  {
    j :| 0 <= j < k && packages[..k][j].name == d.name;
    assert packages[..k][j] == packages[j];
    VersionOfPackage(packages, j);
  }

  // ---------- The world and the log ----------

  datatype Status = Absent | Available | Yanked

  datatype Answer = Reply(status: Status) | NetworkError

  /** What each external call does when made at a given time. A wait polls at most `patience` times. */
  datatype World = World(
    registry: nat -> Answer,
    cargo: nat -> bool,
    checkout: nat -> bool,
    write: nat -> bool,
    patience: nat)

  datatype Outcome = Remaining | PreviouslyAvailable | Failed | UploadedUnconfirmed | Published

  datatype Event =
    | UpstreamObserved(crate: Crate, status: Status)
    | Observed(package: nat, status: Status)
    | Verified(package: nat)
    | Checked
    | Uploading(package: nat)
    | Marked(package: nat, outcome: Outcome)
    | Saved(ok: bool)

  /** The log ends with the receipt of package `k`'s publication failing to be written. */
  ghost predicate EndsInLostReceipt(log: seq<Event>, k: nat) {
    |log| >= 2 && log[|log| - 2] == Marked(k, Published) && log[|log| - 1] == Saved(false)
  }

  /** What must have happened before an event may happen. */
  ghost predicate Grounds(upstream: set<Crate>, before: seq<Event>, e: Event) {
    match e
    case Uploading(k) =>
      && (forall j :: 0 <= j < k ==> Observed(j, Available) in before)
      && (forall u :: u in upstream ==> UpstreamObserved(u, Available) in before)
      && Observed(k, Absent) in before
      && UploadedBefore(before, k)
      && |before| > 0 && before[|before| - 1] == Checked
    case Marked(k, UploadedUnconfirmed) =>
      |before| > 0 && before[|before| - 1] == Uploading(k)
    case Marked(k, Published) =>
      && Marked(k, UploadedUnconfirmed) in before
      && |before| > 1 && before[|before| - 2] == Observed(k, Available) && before[|before| - 1] == Checked
    case Marked(k, Failed) =>
      Marked(k, UploadedUnconfirmed) in before ==> EndsInLostReceipt(before, k)
    case _ => true
  }

  /** The event has its grounds, and a receipt just lost is answered by marking its package failed. */
  ghost predicate Justified(upstream: set<Crate>, before: seq<Event>, e: Event) {
    && (forall k :: EndsInLostReceipt(before, k) ==> e == Marked(k, Failed))
    && Grounds(upstream, before, e)
  }

  ghost predicate Sound(upstream: set<Crate>, log: seq<Event>) {
    forall t :: 0 <= t < |log| ==> Justified(upstream, log[..t], log[t])
  }

  lemma SoundExtends(upstream: set<Crate>, log: seq<Event>, e: Event)
    requires Sound(upstream, log) && Justified(upstream, log, e)
    ensures Sound(upstream, log + [e])
  {
    var longer := log + [e];
    forall t | 0 <= t < |longer| ensures Justified(upstream, longer[..t], longer[t]) {
      assert longer[..t] == log[..t];
      assert t == |log| ==> log[..t] == log;
    }
  }

  /** The write at time `t` lost the receipt of a publication. */
  ghost predicate LostAt(log: seq<Event>, t: nat) {
    t + 1 < |log| && log[t].Marked? && log[t].outcome == Published && log[t + 1] == Saved(false)
  }

  ghost predicate LostReceipt(log: seq<Event>) {
    exists t :: LostAt(log, t)
  }

  ghost predicate EndsPublished(log: seq<Event>) {
    |log| > 0 && log[|log| - 1].Marked? && log[|log| - 1].outcome == Published
  }

  /** The last write lost no receipt of a publication. */
  ghost predicate Settled(log: seq<Event>) {
    forall k :: !EndsInLostReceipt(log, k)
  }

  /** No record is marked failed after it was marked uploaded. */
  ghost predicate NoFailureAfterUpload(log: seq<Event>) {
    forall s, t :: 0 <= s < t < |log| && log[s].Marked? && log[s].outcome == UploadedUnconfirmed ==>
      log[t] != Marked(log[s].package, Failed)
  }

  /** Uploads and publications so far concern packages before `k`. */
  ghost predicate UploadedBefore(log: seq<Event>, k: nat) {
    forall t :: 0 <= t < |log| && IsUpload(log[t]) ==> log[t].package < k
  }

  predicate IsUpload(e: Event) {
    e.Uploading? || (e.Marked? && e.outcome in {UploadedUnconfirmed, Published})
  }

  lemma UploadedBeforeStep(log: seq<Event>, e: Event)
    ensures forall b :: UploadedBefore(log + [e], b) <==> UploadedBefore(log, b) && (IsUpload(e) ==> e.package < b)
  {
    forall b ensures UploadedBefore(log + [e], b) <==> UploadedBefore(log, b) && (IsUpload(e) ==> e.package < b) {
      assert (log + [e])[|log|] == e;
      assert forall t :: 0 <= t < |log| ==> (log + [e])[t] == log[t];
    }
  }

  lemma UploadedBeforeGrows(log: seq<Event>, k: nat)
    requires UploadedBefore(log, k)
    ensures UploadedBefore(log, k + 1)
    ensures Uploading(k) !in log && Marked(k, UploadedUnconfirmed) !in log && Marked(k, Published) !in log
  {
  }

  lemma SettledJustifies(upstream: set<Crate>, log: seq<Event>, e: Event)
    requires Settled(log) && Grounds(upstream, log, e)
    ensures Justified(upstream, log, e)
  {
  }

  lemma SettledStep(log: seq<Event>, e: Event)
    requires !(e == Saved(false) && EndsPublished(log))
    ensures Settled(log + [e])
  {
  }

  /** The outcome a record last received. */
  ghost function LastOutcome(log: seq<Event>, k: nat): Outcome {
    if log == [] then Remaining
    else
      var e := log[|log| - 1];
      if e.Marked? && e.package == k then e.outcome else LastOutcome(log[..|log| - 1], k)
  }

  lemma {:induction false} LastOutcomeMarked(log: seq<Event>, k: nat)
    ensures LastOutcome(log, k) == Remaining || Marked(k, LastOutcome(log, k)) in log
  {
    if log != [] {
      LastOutcomeMarked(log[..|log| - 1], k);
    }
  }

  lemma LastOutcomeStep(log: seq<Event>, e: Event)
    ensures forall k ::
              LastOutcome(log + [e], k) == if e.Marked? && e.package == k then e.outcome else LastOutcome(log, k)
  {
    assert (log + [e])[..|log|] == log;
  }

  /** A lost receipt belongs to an uploaded package, which is then marked failed. */
  lemma LossIsMarked(upstream: set<Crate>, log: seq<Event>, t: nat)
    requires Sound(upstream, log) && Settled(log) && LostAt(log, t)
    ensures Marked(log[t].package, UploadedUnconfirmed) in log[..t]
    ensures t + 2 < |log| && log[t + 2] == Marked(log[t].package, Failed)
  {
    var k := log[t].package;
    assert Justified(upstream, log[..t], log[t]);
    var before := log[..t + 2];
    assert before[t] == log[t] && before[t + 1] == log[t + 1];
    assert EndsInLostReceipt(before, k);
    assert t + 2 == |log| ==> before == log;
    assert Justified(upstream, before, log[t + 2]);
  }

  lemma SoundAt(upstream: set<Crate>, log: seq<Event>, t: nat)
    requires Sound(upstream, log) && t < |log|
    ensures Justified(upstream, log[..t], log[t])
  {
  }

  lemma LossInPrefix(log: seq<Event>, t: nat, k: nat)
    requires t <= |log| && EndsInLostReceipt(log[..t], k)
    ensures LostReceipt(log)
  {
    assert LostAt(log, t - 2);
  }

  /** A failure mark after the upload comes of a lost receipt. */
  lemma FailureNeedsLoss(upstream: set<Crate>, log: seq<Event>, s: nat, t: nat)
    requires Sound(upstream, log) && s < t < |log|
    requires log[s].Marked? && log[s].outcome == UploadedUnconfirmed && log[t] == Marked(log[s].package, Failed)
    ensures LostReceipt(log)
  {
    hide Sound;
    var k := log[s].package;
    SoundAt(upstream, log, t);
    assert log[..t][s] == Marked(k, UploadedUnconfirmed);
    LossInPrefix(log, t, k);
  }

  /** A run never marks an uploaded record failed, unless it lost the receipt of that publication: then it does. */
  lemma FailureAfterUploadIff(upstream: set<Crate>, log: seq<Event>)
    requires Sound(upstream, log) && Settled(log)
    ensures NoFailureAfterUpload(log) <==> !LostReceipt(log)
  {
    hide Sound, Settled;
    if LostReceipt(log) {
      var t: nat :| LostAt(log, t);
      LossIsMarked(upstream, log, t);
      var s :| 0 <= s < t && log[s] == Marked(log[t].package, UploadedUnconfirmed);
      assert log[t + 2] == Marked(log[s].package, Failed);
    } else {
      forall s, t | 0 <= s < t < |log| && log[s].Marked? && log[s].outcome == UploadedUnconfirmed
        ensures log[t] != Marked(log[s].package, Failed)
      {
        if log[t] == Marked(log[s].package, Failed) {
          FailureNeedsLoss(upstream, log, s, t);
        }
      }
    }
  }

  /** Whatever a package needs: each dependency in the release or taken from git. */
  ghost predicate SeenToBeAvailable(packages: seq<Package>, before: seq<Event>, d: Dependency) {
    if InRelease(packages, d.name) then
      exists j :: 0 <= j < |packages| && packages[j].name == d.name
                  && packages[j].version == StripEquals(d.requirement) && Observed(j, Available) in before
    else
      d.git ==> UpstreamObserved(Crate(d.name, StripEquals(d.requirement)), Available) in before
  }

  lemma DependencySeen(packages: seq<Package>, upstream: set<Crate>, before: seq<Event>, k: nat, i: nat)
    requires ReleaseOk(packages) && DistinctNames(packages) && IsUpstream(packages, upstream)
    requires Grounds(upstream, before, Uploading(k)) && k < |packages| && i < |packages[k].dependencies|
    ensures SeenToBeAvailable(packages, before, packages[k].dependencies[i])
  {
    var d := packages[k].dependencies[i];
    assert PackageOk(packages, k) && DependencyOk(packages, k, d);
    if InRelease(packages, d.name) {
      var j := DependencyIsEarlier(packages, k, d);
      assert Observed(j, Available) in before;
    } else if d.git {
      assert NeedsUpstream(packages, d, Crate(d.name, StripEquals(d.requirement)));
      assert PackageNeeds(packages, k, Crate(d.name, StripEquals(d.requirement)));
    }
  }

  /** Every upload comes after each of the package's dependencies, at the declared version, was seen
      available; the package itself was seen absent; and no package is uploaded twice. */
  lemma UploadFollowsDependencies(packages: seq<Package>, upstream: set<Crate>, log: seq<Event>, t: nat)
    requires ReleaseOk(packages) && DistinctNames(packages) && IsUpstream(packages, upstream)
    requires Sound(upstream, log)
    requires t < |log| && log[t].Uploading? && log[t].package < |packages|
    ensures UploadWellTimed(packages, log, t)
  {
    var k := log[t].package;
    assert Justified(upstream, log[..t], log[t]);
    forall i | 0 <= i < |packages[k].dependencies|
      ensures SeenToBeAvailable(packages, log[..t], packages[k].dependencies[i])
    {
      DependencySeen(packages, upstream, log[..t], k, i);
    }
    forall s | 0 <= s < |log| && s != t ensures log[s] != log[t] {
      assert Justified(upstream, log[..s], log[s]);
      if s < t {
        assert log[..t][s] == log[s];
      } else {
        assert log[..s][t] == log[t];
      }
    }
  }

  ghost predicate DependenciesFirst(packages: seq<Package>, log: seq<Event>) {
    forall t :: 0 <= t < |log| && log[t].Uploading? ==>
      && log[t].package < |packages|
      && UploadWellTimed(packages, log, t)
  }

  /** The upload at time `t` is the only one of its package, which was seen absent; it comes after everything
      the package depends on was seen available, and right after the checkout was found unchanged. */
  ghost predicate UploadWellTimed(packages: seq<Package>, log: seq<Event>, t: nat)
    requires t < |log| && log[t].Uploading? && log[t].package < |packages|
  {
    var dependencies := packages[log[t].package].dependencies;
    && (forall i :: 0 <= i < |dependencies| ==> SeenToBeAvailable(packages, log[..t], dependencies[i]))
    && Observed(log[t].package, Absent) in log[..t]
    && t > 0 && log[t - 1] == Checked
    && (forall s :: 0 <= s < |log| && s != t ==> log[s] != log[t])
  }

  lemma AllUploadsFollowDependencies(packages: seq<Package>, upstream: set<Crate>, log: seq<Event>)
    requires ReleaseOk(packages) && DistinctNames(packages) && IsUpstream(packages, upstream)
    requires Sound(upstream, log) && UploadedBefore(log, |packages|)
    ensures DependenciesFirst(packages, log)
  {
    forall t | 0 <= t < |log| && log[t].Uploading?
      ensures log[t].package < |packages| && UploadWellTimed(packages, log, t)
    {
      UploadFollowsDependencies(packages, upstream, log, t);
    }
  }

  /** Every package uploaded was verified. */
  ghost predicate VerifiedFirst(log: seq<Event>) {
    forall k :: Uploading(k) in log ==> Verified(k) in log
  }

  ghost predicate WritesAlways(world: World) {
    forall t :: world.write(t)
  }

  /** The `n`-th answer from time `t` on is the first that is not Absent, and it is Available. */
  predicate AvailableAfter(world: World, t: nat, n: nat) {
    && world.registry(t + n) == Reply(Available)
    && forall m :: 0 <= m < n ==> AbsentAfter(world, t, m)
  }

  predicate AbsentAfter(world: World, t: nat, m: nat) {
    world.registry(t + m) == Reply(Absent)
  }

  /** The registry shows a package within the patience of a wait. */
  ghost predicate BecomesAvailable(world: World, t: nat) {
    exists n :: 0 <= n <= world.patience && AvailableAfter(world, t, n)
  }

  lemma WaitFails(world: World, t: nat, n: nat)
    requires n <= world.patience && forall m :: 0 <= m < n ==> AbsentAfter(world, t, m)
    requires world.registry(t + n) != Reply(Available) && (n == world.patience || !AbsentAfter(world, t, n))
    ensures !BecomesAvailable(world, t)
  {
    forall l | 0 <= l <= world.patience ensures !AvailableAfter(world, t, l) {
      assert l < n ==> AbsentAfter(world, t, l);
    }
  }

  /** From time `t` on, everything succeeds but the second write. */
  predicate LosesReceiptAfter(world: World, t: nat) {
    world.write(t) && world.registry(t + 1) == Reply(Available) && world.checkout(t + 2) && !world.write(t + 3)
  }

  /** At time `t` a package is absent, and nothing stops the attempt to publish it. */
  predicate Attempts(world: World, t: nat) {
    world.registry(t) == Reply(Absent) && world.write(t + 1) && world.checkout(t + 2)
  }

  /** From time `t` on, an absent package is uploaded and its last receipt is lost. */
  predicate UploadsThenLoses(world: World, t: nat) {
    && Attempts(world, t)
    && world.checkout(t + 3) && world.cargo(t + 4) && LosesReceiptAfter(world, t + 5)
  }

  /** From time `t` on, `n` packages are absent and their receipts written. */
  predicate AllAbsent(world: World, t: nat, n: nat) {
    forall k :: 0 <= k < n ==> world.registry(t + 2 * k) == Reply(Absent) && world.write(t + 2 * k + 1)
  }

  /** From time `t` on, a run of `n` packages starts well, uploads the first and loses its last receipt. */
  predicate LosesFirstReceipt(world: World, t: nat, n: nat) {
    world.write(t) && AllAbsent(world, t + 1, n) && UploadsThenLoses(world, t + 1 + 2 * n)
  }

  // ---------- The run ----------

  /** A publishing run: the receipt's records, the time, and the log of what happened. */
  class Release {
    const packages: seq<Package>
    const upstream: set<Crate>
    const world: World
    const verified: bool
    var clock: nat
    var statuses: seq<Option<Status>>
    var results: seq<Outcome>
    ghost var log: seq<Event>

    constructor (packages: seq<Package>, upstream: set<Crate>, world: World, verified: bool, clock: nat)
      ensures this.packages == packages && this.upstream == upstream && this.world == world
      ensures this.verified == verified
      ensures Valid() && log == [] && this.clock == clock
    {
      this.packages, this.upstream, this.world, this.clock := packages, upstream, world, clock;
      this.verified := verified;
      statuses := seq(|packages|, _ => None);
      results := seq(|packages|, _ => Remaining);
      log := [];
    }

    /** The receipt shows each record's last outcome, and every event was justified when it happened. */
    ghost predicate Faithful()
      reads this
    {
      && |statuses| == |packages| && |results| == |packages|
      && Sound(upstream, log)
      && (WritesAlways(world) ==> Saved(false) !in log)
      && (!verified ==> VerifiedFirst(log))
      && forall k :: 0 <= k < |packages| ==> results[k] == LastOutcome(log, k)
    }

    ghost predicate Valid()
      reads this
    {
      Faithful() && Settled(log)
    }

    /** Appends an event other than a mark. */
    ghost method Note(e: Event)
      requires Valid() && !e.Marked? && Grounds(upstream, log, e)
      requires e == Saved(false) ==> !WritesAlways(world)
      requires e.Uploading? && !verified ==> Verified(e.package) in log
      modifies this`log
      ensures Faithful() && log == old(log) + [e]
      ensures !(e == Saved(false) && old(EndsPublished(log))) ==> Valid()
      ensures forall b :: old(UploadedBefore(log, b)) && (IsUpload(e) ==> e.package < b) ==> UploadedBefore(log, b)
    {
      hide Sound, LastOutcome, UploadedBefore, Settled;
      SettledJustifies(upstream, log, e);
      SoundExtends(upstream, log, e);
      LastOutcomeStep(log, e);
      UploadedBeforeStep(log, e);
      if !(e == Saved(false) && EndsPublished(log)) {
        SettledStep(log, e);
      }
      log := log + [e];
    }

    /** Gives a record an outcome. */
    method Mark(k: nat, outcome: Outcome)
      requires Faithful() && k < |packages| && Grounds(upstream, log, Marked(k, outcome))
      requires Settled(log) || (EndsInLostReceipt(log, k) && outcome == Failed)
      modifies this`results, this`log
      ensures Valid() && log == old(log) + [Marked(k, outcome)] && results == old(results)[k := outcome]
      ensures forall b :: old(UploadedBefore(log, b)) && (outcome in {UploadedUnconfirmed, Published} ==> k < b) ==>
                UploadedBefore(log, b)
    {
      hide Sound, LastOutcome, UploadedBefore;
      SoundExtends(upstream, log, Marked(k, outcome));
      SettledStep(log, Marked(k, outcome));
      UploadedBeforeStep(log, Marked(k, outcome));
      LastOutcomeStep(log, Marked(k, outcome));
      results := results[k := outcome];
      log := log + [Marked(k, outcome)];
    }

    /** `save_receipt`: writing the receipt may raise an error. */
    method Save() returns (ok: bool)
      requires Valid()
      modifies this`clock, this`log
      ensures Faithful() && log == old(log) + [Saved(ok)]
      ensures ok == world.write(old(clock)) && clock == old(clock) + 1
      ensures old(!EndsPublished(log)) || ok ==> Valid()
      ensures forall b :: old(UploadedBefore(log, b)) ==> UploadedBefore(log, b)
    {
      ok := world.write(clock);
      clock := clock + 1;
      Note(Saved(ok));
    }

    /** `observe_package`: the answer, or None when it raised. */
    method Observe(k: nat) returns (status: Option<Status>)
      requires Valid() && k < |packages| && Marked(k, UploadedUnconfirmed) !in log
      modifies this
      ensures Valid() && old(log) <= log
      ensures forall b :: old(UploadedBefore(log, b)) ==> UploadedBefore(log, b)
      ensures !EndsPublished(log)
      ensures status.Some? ==> Observed(k, status.value) in log
      ensures clock == old(clock) + 2
      ensures
        var answer := world.registry(old(clock));
        && statuses == (if answer.Reply? then old(statuses)[k := Some(answer.status)] else old(statuses))
        && (if answer.NetworkError? || answer.status == Yanked then
              status.None? && results == old(results)[k := Failed]
            else
              && status == (if world.write(old(clock) + 1) then Some(answer.status) else None)
              && results == if answer.status == Available then old(results)[k := PreviouslyAvailable] else old(results))
    {
      hide Sound, LastOutcome, UploadedBefore, Settled, Justified, VerifiedFirst, WritesAlways;
      var answer := world.registry(clock);
      clock := clock + 1;
      if answer.Reply? {
        statuses := statuses[k := Some(answer.status)];
        Note(Observed(k, answer.status));
      }
      if answer.NetworkError? || answer.status == Yanked {
        Mark(k, Failed);
        var _ := Save();
        return None;
      }
      if answer.status == Available {
        Mark(k, PreviouslyAvailable);
      }
      var ok := Save();
      status := if ok then Some(answer.status) else None;
    }

    /** `wait_for_publication`: polls until the package is available, is yanked, or time runs out. */
    method WaitForPublication(k: nat) returns (ok: bool)
      requires Valid() && k < |packages|
      modifies this`clock, this`log
      ensures Valid() && old(log) <= log
      ensures forall t :: |old(log)| <= t < |log| ==> log[t].Observed? && log[t].package == k
      ensures forall b :: old(UploadedBefore(log, b)) ==> UploadedBefore(log, b)
      ensures old(!EndsPublished(log)) ==> !EndsPublished(log)
      ensures ok ==> |log| > 0 && log[|log| - 1] == Observed(k, Available)
      ensures ok <==> BecomesAvailable(world, old(clock))
      ensures world.registry(old(clock)) == Reply(Available) ==> ok && clock == old(clock) + 1
    {
      hide Sound, LastOutcome, UploadedBefore, Settled, Justified, VerifiedFirst, WritesAlways;
      var polls := 0;
      while true
        invariant Valid() && old(log) <= log
        invariant polls <= world.patience && clock == old(clock) + polls
        invariant forall m :: 0 <= m < polls ==> AbsentAfter(world, old(clock), m)
        invariant forall t :: |old(log)| <= t < |log| ==> log[t].Observed? && log[t].package == k
        invariant forall b :: old(UploadedBefore(log, b)) ==> UploadedBefore(log, b)
        invariant old(!EndsPublished(log)) ==> !EndsPublished(log)
        decreases world.patience + 1 - polls
      {
        assert polls > 0 ==> AbsentAfter(world, old(clock), 0);
        var answer := world.registry(clock);
        clock := clock + 1;
        if answer.NetworkError? {
          WaitFails(world, old(clock), polls);
          return false;
        }
        Note(Observed(k, answer.status));
        if answer.status == Available {
          assert AvailableAfter(world, old(clock), polls);
          return true;
        }
        if answer.status == Yanked || polls >= world.patience {
          WaitFails(world, old(clock), polls);
          return false;
        }
        polls := polls + 1;
      }
    }

    /** Whether the checkout is still the clean release commit. */
    method CheckCheckout() returns (ok: bool)
      requires Valid()
      modifies this`clock, this`log
      ensures ok == world.checkout(old(clock)) && clock == old(clock) + 1
      ensures Valid() && log == if ok then old(log) + [Checked] else old(log)
      ensures forall b :: old(UploadedBefore(log, b)) ==> UploadedBefore(log, b)
    {
      ok := world.checkout(clock);
      clock := clock + 1;
      if ok {
        Note(Checked);
      }
    }

    method RunCargo() returns (ok: bool)
      modifies this`clock
      ensures ok == world.cargo(old(clock)) && clock == old(clock) + 1
    {
      ok := world.cargo(clock);
      clock := clock + 1;
    }

    /** Everything that has to hold before package `k` is published. */
    ghost predicate ReadyFor(k: nat)
      reads this
    {
      && UploadedBefore(log, k)
      && (forall j :: 0 <= j < k ==> Observed(j, Available) in log)
      && (forall u :: u in upstream ==> UpstreamObserved(u, Available) in log)
    }

    /** Records the publication of package `k`, which was just seen available with the checkout unchanged. */
    method RecordPublication(k: nat) returns (ok: bool)
      requires Valid() && k < |packages| && UploadedBefore(log, k + 1)
      requires Grounds(upstream, log, Marked(k, Published))
      modifies this
      ensures Faithful() && UploadedBefore(log, k + 1)
      ensures ok == world.write(old(clock)) && log == old(log) + [Marked(k, Published), Saved(ok)]
      ensures results == old(results)[k := Published] && statuses == old(statuses)[k := Some(Available)]
      ensures if ok then Valid() else EndsInLostReceipt(log, k)
    {
      hide Sound, LastOutcome, UploadedBefore, Justified, Grounds, Settled, VerifiedFirst, WritesAlways;
      statuses := statuses[k := Some(Available)];
      Mark(k, Published);
      ok := Save();
    }

    /** From the upload of package `k` to its confirmation. */
    method Confirm(k: nat) returns (ok: bool)
      requires Valid() && k < |packages| && UploadedBefore(log, k + 1)
      requires |log| > 0 && log[|log| - 1] == Marked(k, UploadedUnconfirmed) && results[k] == UploadedUnconfirmed
      requires Marked(k, Published) !in log
      modifies this
      ensures Faithful() && old(log) <= log && UploadedBefore(log, k + 1)
      ensures ok ==> Observed(k, Available) in log && results == old(results)[k := Published]
      ensures ok ==> statuses == old(statuses)[k := Some(Available)]
      ensures ok || !EndsInLostReceipt(log, k) ==> Valid() && !EndsPublished(log)
      ensures !ok ==> results == if EndsInLostReceipt(log, k) then old(results)[k := Published] else old(results)
      ensures !ok ==> (EndsInLostReceipt(log, k) <==> Marked(k, Published) in log)
      ensures LosesReceiptAfter(world, old(clock)) ==> EndsInLostReceipt(log, k)
    {
      hide Sound, LastOutcome, UploadedBefore, Justified, VerifiedFirst, WritesAlways;
      ok := Save();
      if !ok {
        return;
      }
      ok := WaitForPublication(k);
      if !ok {
        return;
      }
      ok := CheckCheckout();
      if !ok {
        return;
      }
      assert log[|old(log)| - 1] == Marked(k, UploadedUnconfirmed);
      ok := RecordPublication(k);
    }

    /** Runs the upload of package `k`. */
    method Upload(k: nat) returns (ok: bool)
      requires Valid() && k < |packages| && UploadedBefore(log, k)
      requires Grounds(upstream, log, Uploading(k)) && (!verified ==> Verified(k) in log)
      modifies this
      ensures Valid() && UploadedBefore(log, k + 1)
      ensures ok == world.cargo(old(clock)) && clock == old(clock) + 1
      ensures log == old(log) + if ok then [Uploading(k), Marked(k, UploadedUnconfirmed)] else [Uploading(k)]
      ensures results == if ok then old(results)[k := UploadedUnconfirmed] else old(results)
      ensures statuses == old(statuses)
    {
      hide Sound, LastOutcome, UploadedBefore, Justified, Settled, VerifiedFirst, WritesAlways;
      UploadedBeforeGrows(log, k);
      Note(Uploading(k));
      ok := RunCargo();
      if ok {
        Mark(k, UploadedUnconfirmed);
      }
    }

    /** Verifies package `k` unless that was done before, and checks the checkout once more. */
    method Prepare(k: nat) returns (ok: bool)
      requires Valid() && k < |packages| && ReadyFor(k) && Observed(k, Absent) in log && !EndsPublished(log)
      modifies this`clock, this`log
      ensures Valid() && !EndsPublished(log) && UploadedBefore(log, k)
      ensures old(log) <= log && forall t :: |old(log)| <= t < |log| ==> log[t].Verified? || log[t].Checked?
      ensures ok ==> Grounds(upstream, log, Uploading(k)) && (!verified ==> Verified(k) in log)
      ensures verified ==> ok == world.checkout(old(clock)) && clock == old(clock) + 1
    {
      hide Sound, LastOutcome, UploadedBefore, Justified, Settled, VerifiedFirst, WritesAlways;
      if !verified {
        ok := RunCargo();
        if !ok {
          return;
        }
        Note(Verified(k));
      }
      ok := CheckCheckout();
    }

    /** The upload of package `k` up to its confirmation, inside the error handler. */
    method TryPublish(k: nat) returns (ok: bool)
      requires Valid() && k < |packages| && ReadyFor(k) && Observed(k, Absent) in log && !EndsPublished(log)
      modifies this
      ensures Faithful() && old(log) <= log && UploadedBefore(log, k + 1)
      ensures ok ==> Valid() && !EndsPublished(log)
      ensures ok ==> Observed(k, Available) in log && results == old(results)[k := Published]
      ensures !ok && !EndsInLostReceipt(log, k) ==> Valid() && !EndsPublished(log)
      ensures EndsInLostReceipt(log, k) ==> !ok && results[k] == Published
      ensures !ok ==> (EndsInLostReceipt(log, k) <==> Marked(k, Published) in log)
      ensures !ok && !EndsInLostReceipt(log, k) ==>
                (Marked(k, UploadedUnconfirmed) in log <==> results[k] == UploadedUnconfirmed)
      ensures forall j :: 0 <= j < |packages| && j != k ==> results[j] == old(results[j])
      ensures && verified && world.checkout(old(clock)) && world.cargo(old(clock) + 1)
              && LosesReceiptAfter(world, old(clock) + 2) ==>
                EndsInLostReceipt(log, k)
    {
      hide Sound, LastOutcome, UploadedBefore, Justified, LosesReceiptAfter, VerifiedFirst, WritesAlways;
      UploadedBeforeGrows(log, k);
      LastOutcomeMarked(log, k);
      ok := Prepare(k);
      UploadedBeforeGrows(log, k);
      hide Grounds, ReadyFor;
      if !ok {
        return;
      }
      ok := Upload(k);
      if !ok {
        return;
      }
      ok := Confirm(k);
    }

    /** One round of the publishing loop. */
    method PublishOne(k: nat) returns (ok: bool)
      requires Valid() && k < |packages| && ReadyFor(k) && !EndsPublished(log)
      modifies this
      ensures Valid() && old(log) <= log && UploadedBefore(log, k + 1) && !EndsPublished(log)
      ensures ok ==> ReadyFor(k + 1)
      ensures ok ==> results in [old(results)[k := PreviouslyAvailable], old(results)[k := Published]]
      ensures forall j :: 0 <= j < |packages| && j != k ==> results[j] == old(results[j])
      ensures !ok && Attempts(world, old(clock)) ==>
                results[k] ==
                if Marked(k, UploadedUnconfirmed) in log && Marked(k, Published) !in log
                then UploadedUnconfirmed else Failed
      ensures verified && UploadsThenLoses(world, old(clock)) ==> !ok && LostReceipt(log)
    {
      hide Sound, LastOutcome, UploadedBefore, Settled, Justified, VerifiedFirst, WritesAlways;
      UploadedBeforeGrows(log, k);
      var status := Observe(k);
      UploadedBeforeGrows(log, k);
      if status.None? {
        return false;
      }
      if status == Some(Available) {
        return true;
      }
      ok := CheckCheckout();
      if !ok {
        return;
      }
      ok := TryPublish(k);
      assert EndsInLostReceipt(log, k) ==> LostAt(log, |log| - 2);
      ghost var t := |log| - 2;
      ghost var lost := EndsInLostReceipt(log, k);
      if !ok {
        if results[k] != UploadedUnconfirmed {
          Mark(k, Failed);
        }
        var _ := Save();
      }
      assert lost ==> LostAt(log, t);
    }

    /** Looks up the crates taken from git. None: the registry could not answer; else whether all are there. */
    method ObserveUpstream() returns (found: Option<bool>)
      requires Valid() && !EndsPublished(log) && UploadedBefore(log, 0)
      modifies this`clock, this`log
      ensures Valid() && !EndsPublished(log) && UploadedBefore(log, 0)
      ensures found == Some(true) ==> forall u :: u in upstream ==> UpstreamObserved(u, Available) in log
      ensures upstream == {} ==> found == Some(true) && clock == old(clock)
    {
      hide Sound, LastOutcome, UploadedBefore, Settled, Justified, VerifiedFirst, WritesAlways;
      var all := true;
      var rest := upstream;
      while rest != {}
        invariant Valid() && !EndsPublished(log) && UploadedBefore(log, 0)
        invariant upstream == {} ==> all && clock == old(clock)
        invariant all ==> forall u :: u in upstream - rest ==> UpstreamObserved(u, Available) in log
      {
        var u :| u in rest;
        rest := rest - {u};
        var answer := world.registry(clock);
        clock := clock + 1;
        if answer.NetworkError? {
          return None;
        }
        Note(UpstreamObserved(u, answer.status));
        if answer.status != Available {
          all := false;
        }
      }
      return Some(all);
    }

    /** Observes every package of the release. */
    method ObserveAll() returns (ok: bool)
      requires Valid() && !EndsPublished(log) && UploadedBefore(log, 0)
      modifies this
      ensures Valid() && !EndsPublished(log) && UploadedBefore(log, 0)
      ensures old(log) <= log
      ensures ok ==> clock == old(clock) + 2 * |packages|
      ensures AllAbsent(world, old(clock), |packages|) ==> ok
    {
      hide Sound, LastOutcome, Settled, Justified, VerifiedFirst, WritesAlways;
      var k := 0;
      while k < |packages|
        invariant 0 <= k <= |packages|
        invariant Valid() && !EndsPublished(log) && UploadedBefore(log, 0)
        invariant old(log) <= log
        invariant clock == old(clock) + 2 * k
      {
        var status := Observe(k);
        if status.None? {
          return false;
        }
        k := k + 1;
      }
      return true;
    }

    /** Verifying everything without uploading. */
    method DryRun() returns (ok: bool)
      requires Valid() && !EndsPublished(log) && UploadedBefore(log, 0)
      modifies this`clock, this`log
      ensures Valid() && UploadedBefore(log, 0) && old(log) <= log
      ensures ok == (&& world.checkout(old(clock)) && world.cargo(old(clock) + 1)
                     && world.checkout(old(clock) + 2) && world.write(old(clock) + 3))
    {
      ok := CheckCheckout();
      if ok {
        ok := RunCargo();
      }
      if ok {
        ok := CheckCheckout();
      }
      if ok {
        ok := Save();
      }
    }

    /** The run once the receipt exists. */
    method Perform(arguments: Arguments) returns (ok: bool)
      requires Valid() && log == []
      modifies this
      ensures Valid() && UploadedBefore(log, |packages|)
      ensures !Uploads(arguments) ==> UploadedBefore(log, 0)
      ensures ok && Uploads(arguments) ==> forall k :: 0 <= k < |packages| ==>
                Observed(k, Available) in log && results[k] in {PreviouslyAvailable, Published}
      ensures ok ==> forall u :: u in upstream ==> UpstreamObserved(u, Available) in log
      ensures (&& upstream == {} && |packages| > 0 && !arguments.plan && arguments.verified.Some? && verified
               && LosesFirstReceipt(world, old(clock), |packages|)) ==>
                LostReceipt(log)
    {
      hide Sound, LastOutcome, Settled, Justified, UploadsThenLoses, VerifiedFirst, WritesAlways;
      ok := Save();
      if !ok {
        return;
      }
      var found := ObserveUpstream();
      if found.None? {
        return false;
      }
      ok := ObserveAll();
      if !ok || !found.value {
        return false;
      }
      if arguments.plan {
        return true;
      }
      if !Uploads(arguments) {
        ok := DryRun();
        return;
      }
      ok := PublishAll();
    }

    /** The publishing loop. */
    method PublishAll() returns (ok: bool)
      requires Valid() && !EndsPublished(log) && ReadyFor(0)
      modifies this
      ensures Valid() && UploadedBefore(log, |packages|) && old(log) <= log
      ensures ok ==> forall k :: 0 <= k < |packages| ==>
                Observed(k, Available) in log && results[k] in {PreviouslyAvailable, Published}
      ensures |packages| > 0 && verified && UploadsThenLoses(world, old(clock)) ==> LostReceipt(log)
    {
      hide Sound, LastOutcome, Settled, Justified, UploadsThenLoses, VerifiedFirst, WritesAlways;
      var k := 0;
      while k < |packages|
        invariant 0 <= k <= |packages|
        invariant Valid() && !EndsPublished(log) && ReadyFor(k) && old(log) <= log
        invariant forall j :: 0 <= j < k ==> results[j] in {PreviouslyAvailable, Published}
        invariant if k == 0 then clock == old(clock) else !(verified && UploadsThenLoses(world, old(clock)))
      {
        ok := PublishOne(k);
        if !ok {
          return;
        }
        k := k + 1;
      }
      return true;
    }
  }

  /** The command line: `verified` tells, when a verification receipt is given, whether it matches. */
  datatype Arguments = Arguments(publish: bool, plan: bool, outputOutside: bool, verified: Option<bool>)

  predicate Uploads(arguments: Arguments) {
    !arguments.plan && (arguments.publish || arguments.verified.Some?)
  }

  /** `run_release`: whatever the world does, uploads follow their dependencies, and a record once uploaded
      is marked failed exactly when the receipt of its publication could not be written. */
  method RunRelease(packages: seq<Package>, world: World, arguments: Arguments) returns (ok: bool, run: Release?)
    ensures run == null ==> !ok
    ensures run != null <==> && world.checkout(0) && ReleaseOk(packages) && arguments.outputOutside
                             && arguments.verified != Some(false)
    ensures run != null && arguments.verified.None? ==> VerifiedFirst(run.log)
    ensures ok ==> forall u :: u in run.upstream ==> UpstreamObserved(u, Available) in run.log
    ensures run != null ==> IsUpstream(packages, run.upstream)
    ensures run != null ==> fresh(run) && run.packages == packages && run.world == world && run.Valid()
    ensures run != null && DistinctNames(packages) ==> DependenciesFirst(packages, run.log)
    ensures run != null ==> (NoFailureAfterUpload(run.log) <==> !LostReceipt(run.log))
    ensures run != null && WritesAlways(world) ==> NoFailureAfterUpload(run.log)
    ensures run != null && !Uploads(arguments) ==> UploadedBefore(run.log, 0)
    ensures ok && Uploads(arguments) ==> forall k :: 0 <= k < |packages| ==>
              Observed(k, Available) in run.log && run.results[k] in {PreviouslyAvailable, Published}
    ensures (&& world.checkout(0) && ReleaseOk(packages) && IsUpstream(packages, {}) && packages != []
             && arguments == Arguments(arguments.publish, false, true, Some(true))
             && LosesFirstReceipt(world, 1, |packages|)) ==>
              run != null && LostReceipt(run.log)
  {
    if !world.checkout(0) {
      return false, null;
    }
    var fault, upstream := ReleasePackages(packages);
    if fault.Some? || !arguments.outputOutside || arguments.verified == Some(false) {
      return false, null;
    }
    assert IsUpstream(packages, {}) ==> upstream == {};
    run := new Release(packages, upstream, world, arguments.verified.Some?, 1);
    ok := run.Perform(arguments);
    if DistinctNames(packages) {
      AllUploadsFollowDependencies(packages, upstream, run.log);
    }
    FailureAfterUploadIff(upstream, run.log);
  }

  /** A whole run in which a package was uploaded, confirmed, and then marked failed. */
  method PublishedThenFailed() returns (run: Release?)
    ensures run != null && fresh(run) && run.Valid() && !NoFailureAfterUpload(run.log)
  {
    var packages := [Package("pczt", "0.1.0", true, [])];
    var world := World(t => if t <= 4 then Reply(Absent) else Reply(Available), t => true, t => true, t => t != 12, 24);
    var ok;
    ok, run := RunRelease(packages, world, Arguments(false, false, true, Some(true)));
  }
}
