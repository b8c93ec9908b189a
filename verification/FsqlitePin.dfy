/** The lockfile loop that pins the fsqlite family (build.rs). */
module FsqlitePin {
  import opened Prelude

  /** A lockfile entry; None is a missing field or one that is not a string. */
  datatype Package = Package(name: Option<string>, version: Option<string>, source: Option<string>)

  datatype Violation =
    | ResolvesAgain(name: string)
    | WrongVersion(name: string, version: string)
    | WrongSource(name: string, source: string)
    | EngineMissing

  /** `cargo update -p name@version --precise` the expected version. */
  datatype Remediation = Update(name: string, version: string)

  const ENGINE := "fsqlite"
  const EXPECTED_VERSION := "0.4.12"
  const EXPECTED_REGISTRY_SOURCE := "registry+https://github.com/rust-lang/crates.io-index"

  function OrEmpty(x: Option<string>): string {
    if x.Some? then x.value else ""
  }

  predicate InFamily(p: Package) {
    OrEmpty(p.name) == ENGINE || ENGINE + "-" <= OrEmpty(p.name)
  }

  /** The family is `fsqlite` and everything whose name goes on after `fsqlite-`. */
  lemma FamilyMeans(p: Package)
    ensures InFamily(p) <==>
      p.name.Some? && (p.name.value == "fsqlite" || exists rest: string :: p.name.value == "fsqlite-" + rest)
  {
    var name := OrEmpty(p.name);
    if ENGINE + "-" <= name {
      assert name == "fsqlite-" + name[8..];
    }
  }

  predicate Pinned(p: Package) {
    p.version == Some(EXPECTED_VERSION) && p.source == Some(EXPECTED_REGISTRY_SOURCE)
  }

  /** The contract: every family member resolves once, at the pinned version from the registry, and
      the engine itself resolves. */
  ghost predicate Converged(packages: seq<Package>) {
    && (forall i | 0 <= i < |packages| && InFamily(packages[i]) :: Pinned(packages[i]))
    && (forall i, j | 0 <= i < j < |packages| && InFamily(packages[i]) :: packages[i].name != packages[j].name)
    && exists i :: 0 <= i < |packages| && packages[i].name == Some(ENGINE)
  }

  /** What a family member is reported for; `again` says its name was seen before. */
  predicate Reports(p: Package, again: bool, v: Violation) {
    match v
    case ResolvesAgain(name) => again && name == OrEmpty(p.name)
    case WrongVersion(name, version) =>
      p.version != Some(EXPECTED_VERSION) && name == OrEmpty(p.name) && version == OrEmpty(p.version)
    case WrongSource(name, source) =>
      p.source != Some(EXPECTED_REGISTRY_SOURCE) && name == OrEmpty(p.name) && source == OrEmpty(p.source)
    case EngineMissing => false
  }

  /** The violations of one member, in the order they are pushed. */
  function EntryViolations(p: Package, again: bool): (r: seq<Violation>)
    ensures forall v :: v in r <==> Reports(p, again, v)
  {
    var name, version, source := OrEmpty(p.name), OrEmpty(p.version), OrEmpty(p.source);
    (if again then [ResolvesAgain(name)] else []) +
    (if version != EXPECTED_VERSION then [WrongVersion(name, version)] else []) +
    if source != EXPECTED_REGISTRY_SOURCE then [WrongSource(name, source)] else []
  }

  /** The order in which one member's violations are pushed. */
  function Place(v: Violation): nat {
    match v
    case ResolvesAgain(_) => 0
    case WrongVersion(_, _) => 1
    case WrongSource(_, _) => 2
    case EngineMissing => 3
  }

  /** Each is pushed once, in that order. */
  lemma EntryViolationsInOrder(p: Package, again: bool, i: nat, j: nat)
    requires i < j < |EntryViolations(p, again)|
    ensures Place(EntryViolations(p, again)[i]) < Place(EntryViolations(p, again)[j])
  {
  }

  /** The violations of the lockfile's family members, in order. */
  ghost function Violations(packages: seq<Package>): seq<Violation> {
    if packages == [] then [] else
      var n := |packages| - 1;
      Violations(packages[..n]) + if InFamily(packages[n]) then EntryViolations(packages[n], Again(packages, n)) else []
  }

  ghost predicate Again(packages: seq<Package>, i: nat)
    requires i < |packages|
  {
    exists j :: 0 <= j < i && packages[j].name == packages[i].name
  }

  ghost predicate Raises(packages: seq<Package>, i: nat, v: Violation)
    requires i < |packages|
  {
    InFamily(packages[i]) && Reports(packages[i], Again(packages, i), v)
  }

  ghost predicate Raised(packages: seq<Package>, v: Violation) {
    exists i :: 0 <= i < |packages| && Raises(packages, i, v)
  }

  ghost predicate HasEngine(packages: seq<Package>) {
    exists i :: 0 <= i < |packages| && packages[i].name == Some(ENGINE)
  }

  /** Off-version family members, in lockfile order. */
  function OffVersion(packages: seq<Package>): seq<Remediation> {
    if packages == [] then [] else
      var (before, p) := (OffVersion(packages[..|packages| - 1]), packages[|packages| - 1]);
      if InFamily(p) && OrEmpty(p.version) != EXPECTED_VERSION
      then before + [Update(OrEmpty(p.name), OrEmpty(p.version))] else before
  }

  /** The names the loop has inserted. */
  ghost function Seen(packages: seq<Package>): set<string> {
    set i | 0 <= i < |packages| && InFamily(packages[i]) :: OrEmpty(packages[i].name)
  }

  /** One entry's violations, in the order they are pushed. */
  method CheckPackage(p: Package, again: bool) returns (violations: seq<Violation>, remediations: seq<Remediation>)
    requires InFamily(p)
    ensures violations == EntryViolations(p, again)
    ensures remediations == OffVersion([p])
  {
    violations, remediations := [], [];
    var name, version, source := OrEmpty(p.name), OrEmpty(p.version), OrEmpty(p.source);
    if again { violations := violations + [ResolvesAgain(name)]; }
    if version != EXPECTED_VERSION {
      violations := violations + [WrongVersion(name, version)];
      remediations := remediations + [Update(name, version)];
    }
    if source != EXPECTED_REGISTRY_SOURCE { violations := violations + [WrongSource(name, source)]; }
  }

  /** Every problem is reported before failing, with one remediation per off-version entry. */
  method Validate(packages: seq<Package>) returns (violations: seq<Violation>, remediations: seq<Remediation>)
    ensures violations == Violations(packages) + if HasEngine(packages) then [] else [EngineMissing]
    ensures violations == [] <==> Converged(packages)
    ensures remediations == OffVersion(packages)
  {
    var seen: set<string> := {};
    violations, remediations := [], [];
    var i := 0;
    while i < |packages|
      invariant 0 <= i <= |packages| && seen == Seen(packages[..i])
      invariant violations == Violations(packages[..i])
      invariant remediations == OffVersion(packages[..i])
    {
      var p := packages[i];
      SeenStep(packages, i);
      OffVersionStep(packages, i);
      ViolationsStep(packages, i);
      if InFamily(p) {
        var name := OrEmpty(p.name);
        var more, fixes := CheckPackage(p, name in seen);
        assert name in seen <==> Again(packages, i);
        seen := seen + {name};
        violations := violations + more;
        remediations := remediations + fixes;
      }
      i := i + 1;
    }
    assert packages[..|packages|] == packages;
    EngineSeen(packages);
    if ENGINE !in seen { violations := violations + [EngineMissing]; }
    NoViolationsExactly(packages);
  }

  lemma SeenStep(packages: seq<Package>, i: nat)
    requires i < |packages|
    ensures Seen(packages[..i + 1])
         == Seen(packages[..i]) + if InFamily(packages[i]) then {OrEmpty(packages[i].name)} else {}
    ensures InFamily(packages[i]) ==>
      (OrEmpty(packages[i].name) in Seen(packages[..i]) <==> Again(packages, i))
  {
  }

  lemma RaisesInPrefix(packages: seq<Package>, n: nat, i: nat, v: Violation)
    requires i < n <= |packages|
    ensures Raises(packages[..n], i, v) <==> Raises(packages, i, v)
  {
    assert forall j | 0 <= j <= i :: packages[..n][j] == packages[j];
  }

  lemma RaisedInPrefix(packages: seq<Package>, n: nat, v: Violation)
    requires n <= |packages|
    ensures Raised(packages[..n], v) <==> exists i :: 0 <= i < n && Raises(packages, i, v)
  {
    if Raised(packages[..n], v) {
      var i :| 0 <= i < n && Raises(packages[..n], i, v);
      RaisesInPrefix(packages, n, i, v);
    }
    if i :| 0 <= i < n && Raises(packages, i, v) {
      RaisesInPrefix(packages, n, i, v);
      assert Raises(packages[..n], i, v);
    }
  }

  lemma RaisedStep(packages: seq<Package>, i: nat, v: Violation)
    requires i < |packages|
    ensures Raised(packages[..i + 1], v) <==> Raised(packages[..i], v) || Raises(packages, i, v)
  {
    RaisedInPrefix(packages, i, v);
    RaisedInPrefix(packages, i + 1, v);
  }

  lemma OffVersionStep(packages: seq<Package>, i: nat)
    requires i < |packages|
    ensures OffVersion(packages[..i + 1]) == OffVersion(packages[..i]) + OffVersion([packages[i]])
  {
    assert packages[..i + 1][..i] == packages[..i];
    assert [packages[i]][..0] == [];
  }

  lemma EngineSeen(packages: seq<Package>)
    ensures ENGINE in Seen(packages) <==> HasEngine(packages)
  {
  }

  /** No violation is raised exactly when the contract holds, the engine's presence aside. */
  lemma NothingRaised(packages: seq<Package>)
    ensures Converged(packages) <==> HasEngine(packages) && forall v :: !Raised(packages, v)
  {
    if Converged(packages) {
      forall v ensures !Raised(packages, v) {
        forall i | 0 <= i < |packages| ensures !Raises(packages, i, v) {
        }
      }
    } else if forall v :: !Raised(packages, v) {
      forall i | 0 <= i < |packages| && InFamily(packages[i]) ensures Pinned(packages[i]) && !Again(packages, i) {
        NothingRaisedHere(packages, i);
      }
      forall i, j | 0 <= i < j < |packages| && InFamily(packages[i]) ensures packages[i].name != packages[j].name {
        assert InFamily(packages[j]) ==> !Again(packages, j);
      }
    }
  }

  lemma NothingRaisedHere(packages: seq<Package>, i: nat)
    requires i < |packages| && InFamily(packages[i]) && forall v :: !Raised(packages, v)
    ensures Pinned(packages[i]) && !Again(packages, i)
  {
    var p := packages[i];
    var name := OrEmpty(p.name);
    assert !Raised(packages, WrongVersion(name, OrEmpty(p.version))) &&
      !Raised(packages, WrongSource(name, OrEmpty(p.source)));
    assert !Raised(packages, ResolvesAgain(name));
    assert !Raises(packages, i, WrongVersion(name, OrEmpty(p.version)));
    assert !Raises(packages, i, WrongSource(name, OrEmpty(p.source)));
    assert !Raises(packages, i, ResolvesAgain(name));
  }

  lemma ViolationsStep(packages: seq<Package>, i: nat)
    requires i < |packages|
    ensures Violations(packages[..i + 1]) == Violations(packages[..i]) +
      if InFamily(packages[i]) then EntryViolations(packages[i], Again(packages, i)) else []
  {
    assert packages[..i + 1][..i] == packages[..i];
    assert forall j | 0 <= j <= i :: packages[..i + 1][j] == packages[j];
    assert Again(packages[..i + 1], i) <==> Again(packages, i);
  }

  /** The list holds exactly what some entry raises. */
  lemma {:induction false} ViolationsAreRaised(packages: seq<Package>, v: Violation)
    ensures v in Violations(packages) <==> Raised(packages, v)
  {
    if packages != [] {
      var n := |packages| - 1;
      ViolationsAreRaised(packages[..n], v);
      RaisedStep(packages, n, v);
      assert packages[..n + 1] == packages;
    }
  }

  /** Nothing is listed exactly when the contract holds, the engine's presence aside. */
  lemma NoViolationsExactly(packages: seq<Package>)
    ensures Violations(packages) == [] && HasEngine(packages) <==> Converged(packages)
  {
    NothingRaised(packages);
    forall v ensures v in Violations(packages) <==> Raised(packages, v) { ViolationsAreRaised(packages, v); }
    if Violations(packages) != [] {
      assert Violations(packages)[0] in Violations(packages);
    }
  }

  // ---------- Remediation ----------

  /** `u` is the update for this off-version member. */
  predicate IsOffVersion(p: Package, u: Remediation) {
    InFamily(p) && OrEmpty(p.version) != EXPECTED_VERSION && u == Update(OrEmpty(p.name), OrEmpty(p.version))
  }

  /** One entry is updated at most once. */
  lemma OneUpdate(p: Package, u: Remediation)
    ensures |OffVersion([p])| <= 1 && (u in OffVersion([p]) <==> IsOffVersion(p, u))
  {
    assert [p][..0] == [];
  }

  /** An update is listed exactly when some family member is off-version and the update names it. */
  lemma {:induction false} OffVersionMembers(packages: seq<Package>, u: Remediation)
    ensures u in OffVersion(packages) <==> exists p :: p in packages && IsOffVersion(p, u)
  {
    if packages != [] {
      var n := |packages| - 1;
      OffVersionMembers(packages[..n], u);
      assert packages == packages[..n] + [packages[n]];
      assert u in OffVersion(packages) <==> u in OffVersion(packages[..n]) || IsOffVersion(packages[n], u);
    }
  }
}
