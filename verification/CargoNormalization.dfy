/** Which Cargo.toml / Cargo.lock pairs are normalised, and what normalisation forgets
    (build_support/source_ingest_contract.rs). */
module CargoNormalization {
  import opened Prelude
  import opened Framing
  import opened Toml
  import opened TomlTables

  const PACKAGE := Ascii("package")
  const NAME := Ascii("name")
  const VERSION := Ascii("version")
  const SOURCE := Ascii("source")

  datatype Refusal =
    | NoPackageTable
    | BadRootString(key: Bytes)
    | NoPackageArray
    | NoRoot
    | AmbiguousRoot

  /** A manifest and lockfile whose root package has been identified. */
  datatype Cargo = Cargo(package: seq<Entry>, name: Bytes, version: Bytes, items: seq<Value>, root: nat)

  /** An exact, source-less match of the root package. */
  predicate IsRoot(entry: Value, name: Bytes, version: Bytes) {
    && Get(entry, NAME) == Some(String(name))
    && Get(entry, VERSION) == Some(String(version))
    && Get(entry, SOURCE).None?
  }

  function RootString(package: seq<Entry>, key: Bytes): Option<Bytes> {
    match Find(package, key)
    case Some(String(t)) => if t != [] then Some(t) else None
    case _ => None
  }

  function NextRoot(items: seq<Value>, name: Bytes, version: Bytes, from: nat): (r: nat)
    requires from <= |items|
    ensures from <= r <= |items|
    ensures forall i | from <= i < r :: !IsRoot(items[i], name, version)
    ensures r < |items| ==> IsRoot(items[r], name, version)
    decreases |items| - from
  {
    if from == |items| || IsRoot(items[from], name, version) then from
    else NextRoot(items, name, version, from + 1)
  }

  function Identify(manifest: Value, lock: Value): Result<Cargo, Refusal> {
    match Get(manifest, PACKAGE)
    case Some(Table(package)) => (
      match (RootString(package, NAME), RootString(package, VERSION), Get(lock, PACKAGE))
      case (None, _, _) => Failure(BadRootString(NAME))
      case (_, None, _) => Failure(BadRootString(VERSION))
      case (Some(name), Some(version), Some(Array(items))) =>
        var root := NextRoot(items, name, version, 0);
        if root == |items| then Failure(NoRoot)
        else if NextRoot(items, name, version, root + 1) < |items| then Failure(AmbiguousRoot)
        else Success(Cargo(package, name, version, items, root))
      case _ => Failure(NoPackageArray)
    )
    case _ => Failure(NoPackageTable)
  }

  /** The identity as a statement about the pair: named and versioned by non-empty strings, and
      exactly one lock entry is the root. */
  ghost predicate Identifies(manifest: Value, lock: Value, c: Cargo) {
    && Get(manifest, PACKAGE) == Some(Table(c.package))
    && Find(c.package, NAME) == Some(String(c.name)) && c.name != []
    && Find(c.package, VERSION) == Some(String(c.version)) && c.version != []
    && Get(lock, PACKAGE) == Some(Array(c.items))
    && c.root < |c.items| && IsRoot(c.items[c.root], c.name, c.version)
    && forall i | 0 <= i < |c.items| && i != c.root :: !IsRoot(c.items[i], c.name, c.version)
  }

  lemma IdentifyExactly(manifest: Value, lock: Value, c: Cargo)
    ensures Identify(manifest, lock) == Success(c) <==> Identifies(manifest, lock, c)
  {
  }

  /** `key` holds a non-empty string. */
  ghost predicate HasString(package: seq<Entry>, key: Bytes) {
    exists t: Bytes :: t != [] && Find(package, key) == Some(String(t))
  }

  /** Why a pair is left as it is, as far as the manifest and the kind of the list go: each reason is given exactly
      when it is the first that applies. */
  lemma RefusedIdentity(manifest: Value, lock: Value, package: seq<Entry>)
    ensures Identify(manifest, lock) == Failure(NoPackageTable) <==>
      Get(manifest, PACKAGE).None? || !Get(manifest, PACKAGE).value.Table?
    ensures Get(manifest, PACKAGE) == Some(Table(package)) ==>
      (Identify(manifest, lock) == Failure(BadRootString(NAME)) <==> !HasString(package, NAME))
    ensures Get(manifest, PACKAGE) == Some(Table(package)) ==>
      (Identify(manifest, lock) == Failure(BadRootString(VERSION)) <==>
        HasString(package, NAME) && !HasString(package, VERSION))
    ensures Get(manifest, PACKAGE) == Some(Table(package)) ==>
      (Identify(manifest, lock) == Failure(NoPackageArray) <==>
        && HasString(package, NAME) && HasString(package, VERSION)
        && (Get(lock, PACKAGE).None? || !Get(lock, PACKAGE).value.Array?))
  {
    assert NAME != VERSION by { assert |NAME| != |VERSION|; }
  }

  ghost predicate TwoRoots(items: seq<Value>, name: Bytes, version: Bytes) {
    exists i, j :: 0 <= i < j < |items| && IsRoot(items[i], name, version) && IsRoot(items[j], name, version)
  }

  /** And as far as the roots in the list go. */
  lemma RefusedRoots(manifest: Value, lock: Value, package: seq<Entry>, name: Bytes, version: Bytes, items: seq<Value>)
    requires Get(manifest, PACKAGE) == Some(Table(package)) && Get(lock, PACKAGE) == Some(Array(items))
    requires name != [] && Find(package, NAME) == Some(String(name))
    requires version != [] && Find(package, VERSION) == Some(String(version))
    ensures Identify(manifest, lock) == Failure(NoRoot) <==>
      forall i | 0 <= i < |items| :: !IsRoot(items[i], name, version)
    ensures Identify(manifest, lock) == Failure(AmbiguousRoot) <==> TwoRoots(items, name, version)
  {
  }

  function WithRoot(c: Cargo, root: Value): seq<Value>
    requires c.root < |c.items|
  {
    c.items[c.root := root]
  }

  function NormalManifest(manifest: Value, c: Cargo): Value
    requires manifest.Table?
  {
    Table(Put(manifest.entries, PACKAGE, Table(Remove(c.package, VERSION))))
  }

  function NormalLock(lock: Value, c: Cargo): Value
    requires lock.Table? && c.root < |c.items| && c.items[c.root].Table?
  {
    Table(Put(lock.entries, PACKAGE, Array(WithRoot(c, Table(Remove(c.items[c.root].entries, VERSION))))))
  }

  function Normalize(manifest: Value, lock: Value): Result<(Value, Value), Refusal> {
    match Identify(manifest, lock)
    case Failure(e) => Failure(e)
    case Success(c) =>
      IdentifyExactly(manifest, lock, c);
      Success((NormalManifest(manifest, c), NormalLock(lock, c)))
  }

  /** The function's own loop: take the first match, then look whether the iterator has another. */
  method NormalizedCargoInputs(manifest: Value, lock: Value) returns (r: Result<(Value, Value), Refusal>)
    ensures r == Normalize(manifest, lock)
  {
    var field := Get(manifest, PACKAGE);
    if field.None? || !field.value.Table? { return Failure(NoPackageTable); }
    var package := field.value.entries;
    var name, version := RootString(package, NAME), RootString(package, VERSION);
    if name.None? { return Failure(BadRootString(NAME)); }
    if version.None? { return Failure(BadRootString(VERSION)); }
    var list := Get(lock, PACKAGE);
    if list.None? || !list.value.Array? { return Failure(NoPackageArray); }
    var items := list.value.items;
    var roots: seq<nat> := [];
    var i := 0;
    while i < |items| && |roots| < 2
      invariant 0 <= i <= |items| && |roots| <= 2
      invariant roots == [] ==>
        NextRoot(items, name.value, version.value, 0) == NextRoot(items, name.value, version.value, i)
      invariant |roots| >= 1 ==> roots[0] < i && roots[0] == NextRoot(items, name.value, version.value, 0)
      invariant |roots| == 1 ==>
        NextRoot(items, name.value, version.value, roots[0] + 1) == NextRoot(items, name.value, version.value, i)
      invariant |roots| == 2 ==>
        NextRoot(items, name.value, version.value, roots[0] + 1) < |items|
    {
      if IsRoot(items[i], name.value, version.value) {
        roots := roots + [i];
      }
      i := i + 1;
    }
    if |roots| == 0 { return Failure(NoRoot); }
    if |roots| == 2 { return Failure(AmbiguousRoot); }
    var root := items[roots[0]];
    var bareRoot := Table(Remove(root.entries, VERSION));
    var barePackage := Table(Remove(package, VERSION));
    r := Success((Table(Put(manifest.entries, PACKAGE, barePackage)),
                  Table(Put(lock.entries, PACKAGE, Array(items[roots[0] := bareRoot])))));
  }

  // ---------- What is forgotten ----------

  /** The pair, with its release renumbered in both files. */
  function RenumberManifest(manifest: Value, c: Cargo, version: Bytes): Value
    requires manifest.Table?
  {
    Table(Put(manifest.entries, PACKAGE, Table(Put(c.package, VERSION, String(version)))))
  }

  function RenumberLock(lock: Value, c: Cargo, version: Bytes): Value
    requires lock.Table? && c.root < |c.items| && c.items[c.root].Table?
  {
    Table(Put(lock.entries, PACKAGE, Array(WithRoot(c, Table(Put(c.items[c.root].entries, VERSION, String(version)))))))
  }

  ghost predicate Pair(manifest: Value, lock: Value, c: Cargo) {
    WellFormed(manifest) && WellFormed(lock) && Identifies(manifest, lock, c)
  }

  /** Both files normalise to the same values. */
  ghost predicate SameOutput(m1: Value, l1: Value, c1: Cargo, m2: Value, l2: Value, c2: Cargo)
    requires Pair(m1, l1, c1) && Pair(m2, l2, c2)
  {
    Same(NormalManifest(m1, c1), NormalManifest(m2, c2)) && Same(NormalLock(l1, c1), NormalLock(l2, c2))
  }

  /** The second pair is the first one under another release number. */
  ghost predicate Renumbered(m1: Value, l1: Value, c1: Cargo, m2: Value, l2: Value, c2: Cargo)
    requires Pair(m1, l1, c1) && Pair(m2, l2, c2)
  {
    Same(RenumberManifest(m1, c1, c2.version), m2) && Same(RenumberLock(l1, c1, c2.version), l2)
  }

  /** A lock entry that has lost its version and would otherwise pass for the root package. */
  predicate Twin(entry: Value, name: Bytes) {
    && Get(entry, NAME) == Some(String(name))
    && Get(entry, VERSION).None?
    && Get(entry, SOURCE).None?
  }

  predicate NoTwin(c: Cargo) {
    forall i | 0 <= i < |c.items| :: !Twin(c.items[i], c.name)
  }

  lemma SlotSame(es: seq<Entry>, fs: seq<Entry>, k: Bytes, v: Value, w: Value)
    requires WellFormed(Table(es)) && WellFormed(Table(fs)) && WellFormed(v) && WellFormed(w)
    requires Find(es, k).Some? && Find(fs, k).Some?
    ensures Same(Table(Put(es, k, v)), Table(Put(fs, k, w))) <==> AgreeExcept(es, fs, k) && Same(v, w)
  {
    if Same(Table(Put(es, k, v)), Table(Put(fs, k, w))) {
      SlotSplit(es, fs, k, v, w);
    }
    if AgreeExcept(es, fs, k) && Same(v, w) {
      SamePut(es, fs, k, v, w);
    }
  }

  lemma SlotSplit(es: seq<Entry>, fs: seq<Entry>, k: Bytes, v: Value, w: Value)
    requires WellFormed(Table(es)) && WellFormed(Table(fs)) && WellFormed(v) && WellFormed(w)
    requires Find(es, k).Some? && Find(fs, k).Some?
    requires Same(Table(Put(es, k, v)), Table(Put(fs, k, w)))
    ensures AgreeExcept(es, fs, k) && Same(v, w)
  {
    WellFormedFind(es, k);
    WellFormedPut(es, k, v);
    WellFormedPut(fs, k, w);
    forall q ensures if q == k then Same(v, w) else SameOption(Find(es, q), Find(fs, q)) {
      SameFind(Put(es, k, v), Put(fs, k, w), q);
      PutFind(es, k, v, q);
      PutFind(fs, k, w, q);
    }
  }

  /** Forgetting a key and overwriting it by the other side's value come to the same. */
  lemma ForgetOrOverwrite(es: seq<Entry>, fs: seq<Entry>, k: Bytes, w: Value)
    requires WellFormed(Table(es)) && WellFormed(Table(fs))
    requires Find(es, k).Some? && Find(fs, k) == Some(w)
    ensures WellFormed(Table(Put(es, k, w)))
    ensures Same(Table(Remove(es, k)), Table(Remove(fs, k))) <==> Same(Table(Put(es, k, w)), Table(fs))
  {
    WellFormedFind(fs, k);
    WellFormedPut(es, k, w);
    SameReflexive(w);
    PutSame(fs, k, w);
    SlotSame(es, fs, k, w, w);
    if Same(Table(Remove(es, k)), Table(Remove(fs, k))) {
      SameElsewhere(es, fs, k);
    }
    if Same(Table(Put(es, k, w)), Table(fs)) {
      SameRemove(es, fs, k);
    }
  }

  lemma PairParts(m: Value, l: Value, c: Cargo)
    requires Pair(m, l, c)
    ensures m.Table? && l.Table? && WellFormed(Table(c.package)) && WellFormed(Array(c.items))
    ensures c.items[c.root].Table? && WellFormed(c.items[c.root])
    ensures WellFormed(String(c.version)) && Sized(PACKAGE)
    ensures Find(m.entries, PACKAGE) == Some(Table(c.package)) && Find(l.entries, PACKAGE) == Some(Array(c.items))
  {
    WellFormedFind(m.entries, PACKAGE);
    WellFormedFind(l.entries, PACKAGE);
    WellFormedFind(c.package, VERSION);
  }

  lemma ManifestForgets(m1: Value, l1: Value, c1: Cargo, m2: Value, l2: Value, c2: Cargo)
    requires Pair(m1, l1, c1) && Pair(m2, l2, c2)
    ensures Same(NormalManifest(m1, c1), NormalManifest(m2, c2))
       <==> Same(RenumberManifest(m1, c1, c2.version), m2)
  {
    PairParts(m1, l1, c1);
    PairParts(m2, l2, c2);
    ForgetOrOverwrite(c1.package, c2.package, VERSION, String(c2.version));
    WellFormedRemove(c1.package, VERSION);
    WellFormedRemove(c2.package, VERSION);
    SlotSame(m1.entries, m2.entries, PACKAGE, Table(Remove(c1.package, VERSION)), Table(Remove(c2.package, VERSION)));
    SlotSame(m1.entries, m2.entries, PACKAGE, Table(Put(c1.package, VERSION, String(c2.version))), Table(c2.package));
    PutSame(m2.entries, PACKAGE, Table(c2.package));
  }

  /** Equal normalised manifests name the same package. */
  lemma SameName(m1: Value, l1: Value, c1: Cargo, m2: Value, l2: Value, c2: Cargo)
    requires Pair(m1, l1, c1) && Pair(m2, l2, c2)
    requires Same(NormalManifest(m1, c1), NormalManifest(m2, c2))
    ensures c1.name == c2.name
  {
    PairParts(m1, l1, c1);
    PairParts(m2, l2, c2);
    WellFormedRemove(c1.package, VERSION);
    WellFormedRemove(c2.package, VERSION);
    SlotSame(m1.entries, m2.entries, PACKAGE, Table(Remove(c1.package, VERSION)), Table(Remove(c2.package, VERSION)));
    SameElsewhere(c1.package, c2.package, VERSION);
    assert SameOption(Find(c1.package, NAME), Find(c2.package, NAME));
  }

  lemma WithRootWellFormed(c: Cargo, v: Value)
    requires WellFormed(Array(c.items)) && c.root < |c.items| && WellFormed(v)
    ensures WellFormed(Array(WithRoot(c, v)))
  {
  }

  lemma LockSlot(m1: Value, l1: Value, c1: Cargo, m2: Value, l2: Value, c2: Cargo)
    requires Pair(m1, l1, c1) && Pair(m2, l2, c2)
    ensures l1.Table? && l2.Table? && c1.items[c1.root].Table? && c2.items[c2.root].Table?
    ensures var xs := WithRoot(c1, Table(Remove(c1.items[c1.root].entries, VERSION)));
      var ys := WithRoot(c2, Table(Remove(c2.items[c2.root].entries, VERSION)));
      Same(NormalLock(l1, c1), NormalLock(l2, c2)) <==>
      AgreeExcept(l1.entries, l2.entries, PACKAGE) && Same(Array(xs), Array(ys))
    ensures var zs := WithRoot(c1, Table(Put(c1.items[c1.root].entries, VERSION, String(c2.version))));
      Same(RenumberLock(l1, c1, c2.version), l2) <==>
      AgreeExcept(l1.entries, l2.entries, PACKAGE) && Same(Array(zs), Array(c2.items))
  {
    PairParts(m1, l1, c1);
    PairParts(m2, l2, c2);
    var e1, e2 := c1.items[c1.root].entries, c2.items[c2.root].entries;
    WellFormedRemove(e1, VERSION);
    WellFormedRemove(e2, VERSION);
    WithRootWellFormed(c1, Table(Remove(e1, VERSION)));
    WithRootWellFormed(c2, Table(Remove(e2, VERSION)));
    SlotSame(l1.entries, l2.entries, PACKAGE,
             Array(WithRoot(c1, Table(Remove(e1, VERSION)))), Array(WithRoot(c2, Table(Remove(e2, VERSION)))));
    ForgetOrOverwrite(e1, e2, VERSION, String(c2.version));
    WithRootWellFormed(c1, Table(Put(e1, VERSION, String(c2.version))));
    SlotSame(l1.entries, l2.entries, PACKAGE,
             Array(WithRoot(c1, Table(Put(e1, VERSION, String(c2.version))))), Array(c2.items));
    PutSame(l2.entries, PACKAGE, Array(c2.items));
  }

  /** Without a twin, equal outputs put the root at the same place in the lockfile. */
  lemma SameBareItems(m1: Value, l1: Value, c1: Cargo, m2: Value, l2: Value, c2: Cargo)
    requires Pair(m1, l1, c1) && Pair(m2, l2, c2) && SameOutput(m1, l1, c1, m2, l2, c2)
    ensures c1.name == c2.name && c1.items[c1.root].Table? && c2.items[c2.root].Table?
    ensures Same(Array(WithRoot(c1, Table(Remove(c1.items[c1.root].entries, VERSION)))),
                 Array(WithRoot(c2, Table(Remove(c2.items[c2.root].entries, VERSION)))))
  {
    SameName(m1, l1, c1, m2, l2, c2);
    LockSlot(m1, l1, c1, m2, l2, c2);
  }

  lemma SameRootPosition(m1: Value, l1: Value, c1: Cargo, m2: Value, l2: Value, c2: Cargo)
    requires Pair(m1, l1, c1) && Pair(m2, l2, c2) && NoTwin(c1)
    requires SameOutput(m1, l1, c1, m2, l2, c2)
    ensures c1.root == c2.root
  {
    SameBareItems(m1, l1, c1, m2, l2, c2);
    var xs := WithRoot(c1, Table(Remove(c1.items[c1.root].entries, VERSION)));
    var ys := WithRoot(c2, Table(Remove(c2.items[c2.root].entries, VERSION)));
    assert |xs| == |ys|;
    SameAt(xs, ys, c2.root);
    PairParts(m1, l1, c1);
    PairParts(m2, l2, c2);
    if c1.root != c2.root {
      WellFormedItem(c1.items, c2.root);
      BareIsTwin(c1.items[c2.root], c2.items[c2.root], c2.name, c2.version);
    }
  }

  lemma BareIsTwin(other: Value, root: Value, name: Bytes, version: Bytes)
    requires WellFormed(other) && WellFormed(root) && IsRoot(root, name, version)
    requires Same(other, Table(Remove(root.entries, VERSION)))
    ensures Twin(other, name)
  {
    var bare := Remove(root.entries, VERSION);
    WellFormedRemove(root.entries, VERSION);
    SameFind(other.entries, bare, NAME);
    SameFind(other.entries, bare, VERSION);
    SameFind(other.entries, bare, SOURCE);
    RemoveFind(root.entries, VERSION, NAME);
    RemoveFind(root.entries, VERSION, VERSION);
    RemoveFind(root.entries, VERSION, SOURCE);
  }

  lemma LockForgets(m1: Value, l1: Value, c1: Cargo, m2: Value, l2: Value, c2: Cargo)
    requires Pair(m1, l1, c1) && Pair(m2, l2, c2) && c1.root == c2.root
    ensures l1.Table? && l2.Table? && c1.items[c1.root].Table? && c2.items[c2.root].Table?
    ensures Same(NormalLock(l1, c1), NormalLock(l2, c2)) <==> Same(RenumberLock(l1, c1, c2.version), l2)
  {
    PairParts(m1, l1, c1);
    PairParts(m2, l2, c2);
    LockSlot(m1, l1, c1, m2, l2, c2);
    var r := c1.root;
    var e1, e2 := c1.items[r].entries, c2.items[r].entries;
    ForgetOrOverwrite(e1, e2, VERSION, String(c2.version));
    var xs, ys := WithRoot(c1, Table(Remove(e1, VERSION))), WithRoot(c2, Table(Remove(e2, VERSION)));
    var zs := WithRoot(c1, Table(Put(e1, VERSION, String(c2.version))));
    SameExceptAt(xs, ys, zs, c2.items, r);
  }

  lemma SameExceptAt(xs: seq<Value>, ys: seq<Value>, zs: seq<Value>, ws: seq<Value>, r: nat)
    requires |xs| == |zs| && |ys| == |ws| && r < |xs| && r < |ys|
    requires forall i | 0 <= i < |xs| && i != r :: xs[i] == zs[i]
    requires forall i | 0 <= i < |ys| && i != r :: ys[i] == ws[i]
    requires Same(xs[r], ys[r]) <==> Same(zs[r], ws[r])
    ensures Same(Array(xs), Array(ys)) <==> Same(Array(zs), Array(ws))
  {
    if |xs| == |ys| {
      assert forall i | 0 <= i < |xs| && i != r :: Same(xs[i], ys[i]) <==> Same(zs[i], ws[i]);
    }
  }

  /** Renumbering keeps the root where it is. */
  lemma SameAt(xs: seq<Value>, ys: seq<Value>, i: nat)
    requires Same(Array(xs), Array(ys)) && i < |xs|
    ensures i < |ys| && Same(xs[i], ys[i])
  {
  }

  lemma RenumberedItems(m1: Value, l1: Value, c1: Cargo, m2: Value, l2: Value, c2: Cargo)
    requires Pair(m1, l1, c1) && Pair(m2, l2, c2) && Renumbered(m1, l1, c1, m2, l2, c2)
    ensures c1.name == c2.name && c1.items[c1.root].Table?
    ensures Same(Array(WithRoot(c1, Table(Put(c1.items[c1.root].entries, VERSION, String(c2.version))))),
                 Array(c2.items))
  {
    ManifestForgets(m1, l1, c1, m2, l2, c2);
    SameName(m1, l1, c1, m2, l2, c2);
    LockSlot(m1, l1, c1, m2, l2, c2);
  }

  lemma RenumberedRootPosition(m1: Value, l1: Value, c1: Cargo, m2: Value, l2: Value, c2: Cargo)
    requires Pair(m1, l1, c1) && Pair(m2, l2, c2) && Renumbered(m1, l1, c1, m2, l2, c2)
    ensures c1.root == c2.root
  {
    PairParts(m1, l1, c1);
    PairParts(m2, l2, c2);
    RenumberedItems(m1, l1, c1, m2, l2, c2);
    var e1 := c1.items[c1.root].entries;
    SameAt(WithRoot(c1, Table(Put(e1, VERSION, String(c2.version)))), c2.items, c1.root);
    WellFormedItem(c2.items, c1.root);
    RenumberedIsRoot(e1, c2.items[c1.root], c2.name, c1.version, c2.version);
  }

  lemma WellFormedItem(items: seq<Value>, i: nat)
    requires WellFormed(Array(items)) && i < |items|
    ensures WellFormed(items[i])
  {
  }

  lemma RenumberedIsRoot(es: seq<Entry>, other: Value, name: Bytes, version: Bytes, next: Bytes)
    requires WellFormed(Table(es)) && WellFormed(other) && WellFormed(String(next))
    requires IsRoot(Table(es), name, version)
    requires Same(Table(Put(es, VERSION, String(next))), other)
    ensures IsRoot(other, name, next)
  {
    var put := Put(es, VERSION, String(next));
    WellFormedFind(es, VERSION);
    WellFormedPut(es, VERSION, String(next));
    PutFind(es, VERSION, String(next), NAME);
    PutFind(es, VERSION, String(next), VERSION);
    PutFind(es, VERSION, String(next), SOURCE);
    SameFind(put, other.entries, NAME);
    SameFind(put, other.entries, VERSION);
    SameFind(put, other.entries, SOURCE);
  }

  /** Renumbering a release in both files never changes the output. */
  lemma RenumberingIsForgotten(m1: Value, l1: Value, c1: Cargo, m2: Value, l2: Value, c2: Cargo)
    requires Pair(m1, l1, c1) && Pair(m2, l2, c2) && Renumbered(m1, l1, c1, m2, l2, c2)
    ensures SameOutput(m1, l1, c1, m2, l2, c2)
  {
    ManifestForgets(m1, l1, c1, m2, l2, c2);
    RenumberedRootPosition(m1, l1, c1, m2, l2, c2);
    LockForgets(m1, l1, c1, m2, l2, c2);
  }

  lemma OnlyRenumberingIsForgotten(m1: Value, l1: Value, c1: Cargo, m2: Value, l2: Value, c2: Cargo)
    requires Pair(m1, l1, c1) && Pair(m2, l2, c2) && NoTwin(c1)
    requires SameOutput(m1, l1, c1, m2, l2, c2)
    ensures Renumbered(m1, l1, c1, m2, l2, c2)
  {
    ManifestForgets(m1, l1, c1, m2, l2, c2);
    SameRootPosition(m1, l1, c1, m2, l2, c2);
    LockForgets(m1, l1, c1, m2, l2, c2);
  }

  // ---------- Exactly when nothing else is forgotten ----------

  /** The lockfile with the root's version moved over to its twin. */
  function MoveVersion(c: Cargo, twin: nat): seq<Value>
    requires c.root < |c.items| && c.items[c.root].Table?
    requires twin < |c.items| && c.items[twin].Table?
  {
    WithRoot(c, Table(Remove(c.items[c.root].entries, VERSION)))
      [twin := Table(Put(c.items[twin].entries, VERSION, String(c.version)))]
  }

  lemma MovedRoot(c: Cargo, twin: nat)
    requires c.root < |c.items| && IsRoot(c.items[c.root], c.name, c.version)
    requires forall i | 0 <= i < |c.items| && i != c.root :: !IsRoot(c.items[i], c.name, c.version)
    requires twin < |c.items| && Twin(c.items[twin], c.name)
    requires UniqueKeys(c.items[c.root].entries)
    ensures var items := MoveVersion(c, twin);
      IsRoot(items[twin], c.name, c.version) &&
      forall i | 0 <= i < |items| && i != twin :: !IsRoot(items[i], c.name, c.version)
  {
    var es := c.items[twin].entries;
    PutFind(es, VERSION, String(c.version), NAME);
    PutFind(es, VERSION, String(c.version), VERSION);
    PutFind(es, VERSION, String(c.version), SOURCE);
    RemoveFind(c.items[c.root].entries, VERSION, VERSION);
  }

  /** The pair with the version moved to the twin is a pair in its own right ... */
  lemma MovedPair(m: Value, l: Value, c: Cargo, twin: nat) returns (l2: Value, c2: Cargo)
    requires Pair(m, l, c)
    requires twin < |c.items| && Twin(c.items[twin], c.name) && |c.items[twin].entries| + 1 < U64
    ensures l.Table? && c.items[c.root].Table?
    ensures l2 == Table(Put(l.entries, PACKAGE, Array(MoveVersion(c, twin))))
    ensures c2 == Cargo(c.package, c.name, c.version, MoveVersion(c, twin), twin)
    ensures Pair(m, l2, c2)
  {
    PairParts(m, l, c);
    var items := MoveVersion(c, twin);
    var es := c.items[twin].entries;
    l2 := Table(Put(l.entries, PACKAGE, Array(items)));
    c2 := Cargo(c.package, c.name, c.version, items, twin);
    MovedRoot(c, twin);
    PutFind(l.entries, PACKAGE, Array(items), PACKAGE);
    WellFormedRemove(c.items[c.root].entries, VERSION);
    WellFormedPut(es, VERSION, String(c.version));
    MovedWellFormed(c, twin);
    WellFormedPut(l.entries, PACKAGE, Array(items));
  }

  /** ... whose normal form is the same, value for value. */
  lemma MovedOutput(m: Value, l: Value, c: Cargo, twin: nat, l2: Value, c2: Cargo)
    requires Pair(m, l, c)
    requires twin < |c.items| && Twin(c.items[twin], c.name) && l.Table? && c.items[c.root].Table?
    requires l2 == Table(Put(l.entries, PACKAGE, Array(MoveVersion(c, twin))))
    requires c2 == Cargo(c.package, c.name, c.version, MoveVersion(c, twin), twin)
    ensures m.Table? && NormalLock(l2, c2) == NormalLock(l, c) && NormalManifest(m, c2) == NormalManifest(m, c)
  {
    var items := MoveVersion(c, twin);
    var bare := WithRoot(c, Table(Remove(c.items[c.root].entries, VERSION)));
    RemovePut(c.items[twin].entries, VERSION, String(c.version));
    assert WithRoot(c2, Table(Remove(items[twin].entries, VERSION))) == bare;
    PutPut(l.entries, PACKAGE, Array(items), Array(bare));
  }

  /** A twin makes normalisation forget which of two lock entries is the root. */
  lemma TwinIsForgotten(m: Value, l: Value, c: Cargo, twin: nat) returns (l2: Value, c2: Cargo)
    requires Pair(m, l, c)
    requires twin < |c.items| && Twin(c.items[twin], c.name) && |c.items[twin].entries| + 1 < U64
    ensures Pair(m, l2, c2) && SameOutput(m, l, c, m, l2, c2) && !Renumbered(m, l, c, m, l2, c2)
  {
    l2, c2 := MovedPair(m, l, c, twin);
    MovedOutput(m, l, c, twin, l2, c2);
    NormalWellFormed(m, l, c);
    SameReflexive(NormalLock(l, c));
    SameReflexive(NormalManifest(m, c));
    if Renumbered(m, l, c, m, l2, c2) {
      RenumberedRootPosition(m, l, c, m, l2, c2);
    }
  }

  /** A manifest with a name and a version, and a lockfile with that package and its twin. */
  function TwinManifest(name: Bytes, version: Bytes): Value {
    Table([Entry(PACKAGE, Table(Release(name, version)))])
  }

  function Release(name: Bytes, version: Bytes): seq<Entry> {
    [Entry(NAME, String(name)), Entry(VERSION, String(version))]
  }

  function TwinLock(name: Bytes, version: Bytes): Value {
    Table([Entry(PACKAGE, Array([Table(Release(name, version)), Table([Entry(NAME, String(name))])]))])
  }

  lemma KeysApart()
    ensures NAME != VERSION && NAME != SOURCE && VERSION != SOURCE
    ensures Sized(PACKAGE) && Sized(NAME) && Sized(VERSION)
  {
    assert |NAME| == 4 && |VERSION| == 7 && |SOURCE| == 6 && |PACKAGE| == 7;
  }

  lemma ReleaseFields(name: Bytes, version: Bytes)
    requires Sized(name) && Sized(version)
    ensures WellFormed(Table(Release(name, version)))
    ensures Find(Release(name, version), NAME) == Some(String(name))
    ensures Find(Release(name, version), VERSION) == Some(String(version))
    ensures Find(Release(name, version), SOURCE).None?
  {
    KeysApart();
    var es := Release(name, version);
    FindInPair(es[0], es[1], NAME);
    FindInPair(es[0], es[1], VERSION);
    FindInPair(es[0], es[1], SOURCE);
    assert Keys(es) == [NAME, VERSION];
  }

  lemma BareFields(name: Bytes)
    requires Sized(name)
    ensures WellFormed(Table([Entry(NAME, String(name))])) && Twin(Table([Entry(NAME, String(name))]), name)
  {
    KeysApart();
    var e := Entry(NAME, String(name));
    FindInPair(e, e, NAME);
    FindInPair(e, e, VERSION);
    FindInPair(e, e, SOURCE);
  }

  /** The smallest project whose normal form forgets more than its version: its root and its twin can
      change places. */
  lemma TwinProject(name: Bytes, version: Bytes) returns (c: Cargo, l2: Value, c2: Cargo)
    requires name != [] && version != [] && Sized(name) && Sized(version)
    ensures Pair(TwinManifest(name, version), TwinLock(name, version), c) && !NoTwin(c)
    ensures Pair(TwinManifest(name, version), l2, c2)
    ensures SameOutput(TwinManifest(name, version), TwinLock(name, version), c, TwinManifest(name, version), l2, c2)
    ensures !Renumbered(TwinManifest(name, version), TwinLock(name, version), c, TwinManifest(name, version), l2, c2)
  {
    var m, l := TwinManifest(name, version), TwinLock(name, version);
    var release, bare := Release(name, version), Table([Entry(NAME, String(name))]);
    c := Cargo(release, name, version, [Table(release), bare], 0);
    KeysApart();
    ReleaseFields(name, version);
    BareFields(name);
    SingleEntry(PACKAGE, Table(release));
    SingleEntry(PACKAGE, Array([Table(release), bare]));
    assert c.items[1] == bare && !IsRoot(bare, name, version);
    l2, c2 := TwinIsForgotten(m, l, c, 1);
  }

  lemma SingleEntry(k: Bytes, v: Value)
    requires Sized(k) && WellFormed(v)
    ensures WellFormed(Table([Entry(k, v)])) && Get(Table([Entry(k, v)]), k) == Some(v)
  {
    assert Keys([Entry(k, v)]) == [k];
  }

  lemma MovedWellFormed(c: Cargo, twin: nat)
    requires WellFormed(Array(c.items)) && c.root < |c.items| && c.items[c.root].Table?
    requires twin < |c.items| && c.items[twin].Table?
    requires WellFormed(Table(Remove(c.items[c.root].entries, VERSION)))
    requires WellFormed(Table(Put(c.items[twin].entries, VERSION, String(c.version))))
    ensures WellFormed(Array(MoveVersion(c, twin)))
  {
    WithRootWellFormed(c, Table(Remove(c.items[c.root].entries, VERSION)));
  }

  lemma NormalWellFormed(m: Value, l: Value, c: Cargo)
    requires Pair(m, l, c)
    ensures m.Table? && l.Table? && c.items[c.root].Table?
    ensures WellFormed(NormalManifest(m, c)) && WellFormed(NormalLock(l, c))
  {
    PairParts(m, l, c);
    WellFormedRemove(c.package, VERSION);
    WellFormedPut(m.entries, PACKAGE, Table(Remove(c.package, VERSION)));
    var bare := Table(Remove(c.items[c.root].entries, VERSION));
    WellFormedRemove(c.items[c.root].entries, VERSION);
    WithRootWellFormed(c, bare);
    WellFormedPut(l.entries, PACKAGE, Array(WithRoot(c, bare)));
  }

  /** Normalisation forgets the release version and nothing else, exactly for the pairs whose
      lockfile holds no version-less, source-less entry of the root's name. */
  lemma ForgetsOnlyTheVersion(m: Value, l: Value, c: Cargo)
    requires Pair(m, l, c)
    requires forall i | 0 <= i < |c.items| && c.items[i].Table? :: |c.items[i].entries| + 1 < U64
    ensures NoTwin(c) <==>
      forall m2, l2, c2 | Pair(m2, l2, c2) && SameOutput(m, l, c, m2, l2, c2) :: Renumbered(m, l, c, m2, l2, c2)
  {
    if NoTwin(c) {
      forall m2, l2, c2 | Pair(m2, l2, c2) && SameOutput(m, l, c, m2, l2, c2)
        ensures Renumbered(m, l, c, m2, l2, c2)
      {
        OnlyRenumberingIsForgotten(m, l, c, m2, l2, c2);
      }
    } else {
      var twin :| 0 <= twin < |c.items| && Twin(c.items[twin], c.name);
      var l2, c2 := TwinIsForgotten(m, l, c, twin);
      assert Pair(m, l2, c2) && SameOutput(m, l, c, m, l2, c2) && !Renumbered(m, l, c, m, l2, c2);
    }
  }

  // ---------- The two byte strings ----------

  const NORMALIZED_TAG := Ascii("normalized-cargo-input\0")
  const RAW_TAG := Ascii("raw-cargo-input\0")

  /** TOML text parsing, left abstract: a document is a well-formed table. */
  ghost predicate Parser(parse: Bytes -> Option<Value>) {
    forall b :: parse(b).Some? ==> parse(b).value.Table? && WellFormed(parse(b).value)
  }

  function NormalizedPair(parse: Bytes -> Option<Value>, manifest: Bytes, lock: Bytes): Option<(Value, Value)> {
    match (parse(manifest), parse(lock))
    case (Some(m), Some(l)) => (
      match Normalize(m, l)
      case Success(pair) => Some(pair)
      case Failure(_) => None
    )
    case _ => None
  }

  function CargoInputs(parse: Bytes -> Option<Value>, manifest: Bytes, lock: Bytes): (Bytes, Bytes) {
    match NormalizedPair(parse, manifest, lock)
    case Some((m, l)) => (NORMALIZED_TAG + Emit(m), NORMALIZED_TAG + Emit(l))
    case None => (RAW_TAG + manifest, RAW_TAG + lock)
  }

  /** Both pairs were hashed byte for byte and are equal, or both were normalised and are equal
      as TOML once normalised. */
  ghost predicate SameCargo(parse: Bytes -> Option<Value>, m1: Bytes, l1: Bytes, m2: Bytes, l2: Bytes) {
    match (NormalizedPair(parse, m1, l1), NormalizedPair(parse, m2, l2))
    case (None, None) => m1 == m2 && l1 == l2
    case (Some((a, b)), Some((c, d))) => Same(a, c) && Same(b, d)
    case _ => false
  }

  lemma NormalizedPairWellFormed(parse: Bytes -> Option<Value>, m: Bytes, l: Bytes)
    requires Parser(parse) && NormalizedPair(parse, m, l).Some?
    ensures var (a, b) := NormalizedPair(parse, m, l).value; WellFormed(a) && WellFormed(b)
  {
    var c := Identify(parse(m).value, parse(l).value).value;
    IdentifyExactly(parse(m).value, parse(l).value, c);
    NormalWellFormed(parse(m).value, parse(l).value, c);
  }

  lemma TaggedEqual(tag: Bytes, a: Bytes, b: Bytes)
    ensures tag + a == tag + b <==> a == b
  {
    if tag + a == tag + b { SplitEqual(tag, tag, a, b); }
  }

  lemma TagsDiffer(a: Bytes, b: Bytes)
    ensures NORMALIZED_TAG + a != RAW_TAG + b
  {
    assert (NORMALIZED_TAG + a)[0] == 'n' as Byte && (RAW_TAG + b)[0] == 'r' as Byte;
  }

  /** The emitted pair of byte strings identifies the Cargo inputs up to `SameCargo`; a raw pair
      and a normalised pair never collide. */
  lemma CargoInputsIdentify(parse: Bytes -> Option<Value>, m1: Bytes, l1: Bytes, m2: Bytes, l2: Bytes)
    requires Parser(parse)
    ensures CargoInputs(parse, m1, l1) == CargoInputs(parse, m2, l2) <==> SameCargo(parse, m1, l1, m2, l2)
  {
    var p, q := NormalizedPair(parse, m1, l1), NormalizedPair(parse, m2, l2);
    match (p, q) {
      case (None, None) =>
        TaggedEqual(RAW_TAG, m1, m2);
        TaggedEqual(RAW_TAG, l1, l2);
      case (Some((a, b)), Some((c, d))) =>
        NormalizedPairWellFormed(parse, m1, l1);
        NormalizedPairWellFormed(parse, m2, l2);
        EmitIdentifies(a, c);
        EmitIdentifies(b, d);
        TaggedEqual(NORMALIZED_TAG, Emit(a), Emit(c));
        TaggedEqual(NORMALIZED_TAG, Emit(b), Emit(d));
      case (Some((a, b)), None) =>
        TagsDiffer(Emit(a), m2);
      case (None, Some((c, d))) =>
        TagsDiffer(Emit(c), m1);
    }
  }

  /** Of two normalising pairs, the first without a twin, the emitted bytes are equal exactly when one
      is a renumbering of the other. */
  lemma CargoInputsForgetOnlyTheVersion(parse: Bytes -> Option<Value>, m1: Bytes, l1: Bytes, c1: Cargo,
                                        m2: Bytes, l2: Bytes, c2: Cargo)
    requires Parser(parse) && Parsed(parse, m1, l1, c1) && Parsed(parse, m2, l2, c2) && NoTwin(c1)
    ensures CargoInputs(parse, m1, l1) == CargoInputs(parse, m2, l2) <==>
      Renumbered(parse(m1).value, parse(l1).value, c1, parse(m2).value, parse(l2).value, c2)
  {
    var a, b, x, y := parse(m1).value, parse(l1).value, parse(m2).value, parse(l2).value;
    CargoInputsIdentify(parse, m1, l1, m2, l2);
    IdentifyExactly(a, b, c1);
    IdentifyExactly(x, y, c2);
    assert SameCargo(parse, m1, l1, m2, l2) <==> SameOutput(a, b, c1, x, y, c2);
    if SameOutput(a, b, c1, x, y, c2) { OnlyRenumberingIsForgotten(a, b, c1, x, y, c2); }
    if Renumbered(a, b, c1, x, y, c2) { RenumberingIsForgotten(a, b, c1, x, y, c2); }
  }

  /** Both texts parse, and `c` is the root package they identify. */
  ghost predicate Parsed(parse: Bytes -> Option<Value>, manifest: Bytes, lock: Bytes, c: Cargo) {
    parse(manifest).Some? && parse(lock).Some? && Pair(parse(manifest).value, parse(lock).value, c)
  }
}
