/** The fingerprint stream over the source inputs and Cargo features
    (build_support/source_ingest_contract.rs). */
module SourceContract {
  import opened Prelude
  import opened Framing
  import opened FramedStream
  import opened PathNames
  import opened Sorting
  import opened Toml
  import opened CargoNormalization
  import opened TreeWalk
  import Rules = PresentationRules

  const MANIFEST := Ascii("Cargo.toml")
  const LOCKFILE := Ascii("Cargo.lock")
  const BUILD_SCRIPT := Ascii("build.rs")

  const MANDATORY: set<Path> := {[MANIFEST], [LOCKFILE], [BUILD_SCRIPT]}

  const HEADER := Ascii("cass-source-ingest-contract-v3\0")
  const FEATURE_PREFIX := Ascii("CARGO_FEATURE_")

  ghost function Inputs(fs: Tree): set<Path> {
    MANDATORY + ReachedFiles(Rules.PresentationOnly(), Rules.ROOTS, fs)
  }

  // ---------- The order of the inputs ----------

  lemma PathOrder()
    ensures TotalOrder(Lex(NameLe))
  {
    NameOrder();
    LexTotalOrder(NameLe);
  }

  /** The inputs in the order of the sorted set: component-wise path order. */
  ghost function Ordered(inputs: set<Path>): (r: seq<Path>)
    ensures Distinct(r) && forall p :: p in r <==> p in inputs
  {
    PathOrder();
    FromSet(Lex(NameLe), inputs)
  }

  // ---------- Features ----------

  predicate PairLe(a: Pair, b: Pair) {
    if a.0 == b.0 then NameLe(a.1, b.1) else NameLe(a.0, b.0)
  }

  lemma PairOrder()
    ensures TotalOrder(PairLe)
  {
    NameOrder();
  }

  function Features(environment: seq<Pair>): set<Pair> {
    set e | e in environment && FEATURE_PREFIX <= e.0
  }

  function OrderedPairs(s: set<Pair>): (r: seq<Pair>)
    ensures Distinct(r) && forall p :: p in r <==> p in s
  {
    PairOrder();
    FromSet(PairLe, s)
  }

  // ---------- The stream ----------

  /** What is framed under one input's name. */
  function Content(fs: Tree, p: Path, cargo: Pair): Option<Bytes> {
    var name := Render(p);
    if name == MANIFEST then Some(cargo.0)
    else if name == LOCKFILE then Some(cargo.1)
    else if p in fs && fs[p].File? then Some(fs[p].content)
    else None
  }

  function Listing(fs: Tree, ps: seq<Path>, cargo: Pair): (r: seq<Pair>)
    requires forall i | 0 <= i < |ps| :: Content(fs, ps[i], cargo).Some?
    ensures |r| == |ps|
    ensures forall i | 0 <= i < |ps| :: r[i] == (Render(ps[i]), Content(fs, ps[i], cargo).value)
  {
    seq(|ps|, i requires 0 <= i < |ps| => (Render(ps[i]), Content(fs, ps[i], cargo).value))
  }

  predicate HasFile(fs: Tree, p: Path) {
    p in fs && fs[p].File?
  }

  /** The two Cargo byte strings of a project that has both files. */
  function CargoPair(parse: Bytes -> Option<Value>, fs: Tree): Pair
    requires HasFile(fs, [MANIFEST]) && HasFile(fs, [LOCKFILE])
  {
    CargoInputs(parse, fs[[MANIFEST]].content, fs[[LOCKFILE]].content)
  }

  /** Every one of `inputs` can be read, the two Cargo files among them. */
  ghost predicate Readable(parse: Bytes -> Option<Value>, fs: Tree, inputs: set<Path>) {
    && HasFile(fs, [MANIFEST]) && HasFile(fs, [LOCKFILE]) && [MANIFEST] in inputs && [LOCKFILE] in inputs
    && forall p | p in inputs :: Content(fs, p, CargoPair(parse, fs)).Some?
  }

  /** A contract is certified exactly for a project whose source directories exist and whose every
      input can be read. */
  ghost predicate Certifiable(parse: Bytes -> Option<Value>, fs: Tree) {
    && (forall name | name in Rules.ROOTS :: HasDirectory(fs, [name]))
    && Readable(parse, fs, Inputs(fs))
  }

  ghost function InputListing(parse: Bytes -> Option<Value>, fs: Tree, inputs: set<Path>): seq<Pair>
    requires Readable(parse, fs, inputs)
  {
    Listing(fs, Ordered(inputs), CargoPair(parse, fs))
  }

  ghost function Contract(parse: Bytes -> Option<Value>, fs: Tree, inputs: set<Path>, environment: seq<Pair>): Bytes
    requires Readable(parse, fs, inputs)
  {
    HEADER + (Counted(InputListing(parse, fs, inputs)) + Counted(OrderedPairs(Features(environment))))
  }

  /** The collecting half: the walk over the source directories, started from the mandatory files. */
  method CollectInputs(fs: Tree) returns (r: Result<set<Path>, Path>)
    requires Rooted(fs)
    ensures r.Success? <==> forall name | name in Rules.ROOTS :: HasDirectory(fs, [name])
    ensures r.Success? ==> r.value == Inputs(fs)
  {
    Rules.RootsDistinct();
    var inputs, _ := Walk(Rules.PresentationOnly(), Rules.ROOTS, fs, MANDATORY);
    r := inputs;
  }

  method EmitContract(parse: Bytes -> Option<Value>, fs: Tree, environment: seq<Pair>)
    returns (r: Result<Bytes, Path>)
    requires Rooted(fs)
    ensures r.Success? <==> Certifiable(parse, fs)
    ensures r.Success? ==> r.value == Contract(parse, fs, Inputs(fs), environment)
  {
    if !HasFile(fs, [MANIFEST]) { return Failure([MANIFEST]); }
    if !HasFile(fs, [LOCKFILE]) { return Failure([LOCKFILE]); }
    var walked := CollectInputs(fs);
    if walked.Failure? { return Failure(walked.error); }
    r := EmitInputs(parse, fs, walked.value, environment);
  }

  /** The emitting half, over the collected set of inputs. */
  method EmitInputs(parse: Bytes -> Option<Value>, fs: Tree, inputs: set<Path>, environment: seq<Pair>)
    returns (r: Result<Bytes, Path>)
    requires HasFile(fs, [MANIFEST]) && HasFile(fs, [LOCKFILE]) && [MANIFEST] in inputs && [LOCKFILE] in inputs
    ensures r.Success? <==> Readable(parse, fs, inputs)
    ensures r.Success? ==> r.value == Contract(parse, fs, inputs, environment)
  {
    PathOrder();
    var paths := FromSet(Lex(NameLe), inputs);
    var listed := EmitListing(fs, paths, CargoPair(parse, fs));
    if listed.Failure? {
      assert listed.error in inputs;
      return Failure(listed.error);
    }
    var features := EmitFeatures(OrderedPairs(Features(environment)));
    r := Success(HEADER + (listed.value + features));
  }

  lemma ListingStep(fs: Tree, ps: seq<Path>, i: nat, cargo: Pair)
    requires i < |ps| && forall j | 0 <= j <= i :: Content(fs, ps[j], cargo).Some?
    ensures Listing(fs, ps[..i + 1], cargo)
         == Listing(fs, ps[..i], cargo) + [(Render(ps[i]), Content(fs, ps[i], cargo).value)]
  {
  }

  method EmitListing(fs: Tree, paths: seq<Path>, cargo: Pair) returns (r: Result<Bytes, Path>)
    ensures r.Success? <==> forall i | 0 <= i < |paths| :: Content(fs, paths[i], cargo).Some?
    ensures r.Success? ==> r.value == Counted(Listing(fs, paths, cargo))
    ensures r.Failure? ==> r.error in paths && Content(fs, r.error, cargo).None?
  {
    var stream := Word(|paths|);
    var i := 0;
    ghost var listed: seq<Pair> := [];
    while i < |paths|
      invariant 0 <= i <= |paths|
      invariant forall j | 0 <= j < i :: Content(fs, paths[j], cargo).Some?
      invariant listed == Listing(fs, paths[..i], cargo)
      invariant stream == Word(|paths|) + Fields(listed)
    {
      var content := Content(fs, paths[i], cargo);
      if content.None? { return Failure(paths[i]); }
      var field := (Render(paths[i]), content.value);
      ListingStep(fs, paths, i, cargo);
      CountedStep(|paths|, listed, field);
      stream := stream + (Field(field.0) + Field(field.1));
      listed := listed + [field];
      i := i + 1;
    }
    assert paths[..|paths|] == paths;
    r := Success(stream);
  }

  method EmitFeatures(features: seq<Pair>) returns (stream: Bytes)
    ensures stream == Counted(features)
  {
    stream := Word(|features|);
    var i := 0;
    while i < |features|
      invariant 0 <= i <= |features|
      invariant stream == Word(|features|) + Fields(features[..i])
    {
      CountedStep(|features|, features[..i], features[i]);
      assert features[..i + 1] == features[..i] + [features[i]];
      stream := stream + (Field(features[i].0) + Field(features[i].1));
      i := i + 1;
    }
    assert features[..|features|] == features;
  }

  // ---------- What a contract identifies ----------

  /** The same paths in the same order, as far as a name tells them apart, and the same bytes in every
      input that is not a Cargo file. */
  ghost predicate SameSources(fs1: Tree, inputs1: set<Path>, fs2: Tree, inputs2: set<Path>) {
    var ps, qs := Ordered(inputs1), Ordered(inputs2);
    |ps| == |qs| && forall i | 0 <= i < |ps| :: SameInput(fs1, ps[i], fs2, qs[i])
  }

  ghost predicate SameInput(fs1: Tree, p: Path, fs2: Tree, q: Path) {
    && Pieces(p) == Pieces(q)
    && (Pieces(p) != [MANIFEST] && Pieces(p) != [LOCKFILE] ==>
          HasFile(fs1, p) && HasFile(fs2, q) && fs1[p].content == fs2[q].content)
  }

  ghost predicate SameListed(fs1: Tree, p: Path, fs2: Tree, q: Path) {
    && Render(p) == Render(q)
    && (Render(p) != MANIFEST && Render(p) != LOCKFILE ==>
          HasFile(fs1, p) && HasFile(fs2, q) && fs1[p].content == fs2[q].content)
  }

  lemma CargoPieces()
    ensures Pieces([MANIFEST]) == [MANIFEST] && Pieces([LOCKFILE]) == [LOCKFILE]
  {
    PortablePieces([MANIFEST]);
    PortablePieces([LOCKFILE]);
  }

  /** The same list, but for the contents of the Cargo files. */
  ghost predicate ListedAlike(fs1: Tree, inputs1: set<Path>, fs2: Tree, inputs2: set<Path>) {
    var ps, qs := Ordered(inputs1), Ordered(inputs2);
    |ps| == |qs| && forall i | 0 <= i < |ps| :: SameListed(fs1, ps[i], fs2, qs[i])
  }

  lemma AlikeIsSame(fs1: Tree, inputs1: set<Path>, fs2: Tree, inputs2: set<Path>)
    requires [] !in inputs1 && [] !in inputs2
    ensures ListedAlike(fs1, inputs1, fs2, inputs2) <==> SameSources(fs1, inputs1, fs2, inputs2)
  {
    var ps, qs := Ordered(inputs1), Ordered(inputs2);
    if |ps| == |qs| {
      forall i | 0 <= i < |ps| ensures SameListed(fs1, ps[i], fs2, qs[i]) <==> SameInput(fs1, ps[i], fs2, qs[i]) {
        assert ps[i] in inputs1 && qs[i] in inputs2;
        ListedIsInput(fs1, ps[i], fs2, qs[i]);
      }
    }
  }

  lemma ListedIsInput(fs1: Tree, p: Path, fs2: Tree, q: Path)
    requires p != [] && q != []
    ensures SameListed(fs1, p, fs2, q) <==> SameInput(fs1, p, fs2, q)
  {
    CargoNames();
    CargoPieces();
    SameRendering(p, q);
    SameRendering(p, [MANIFEST]);
    SameRendering(p, [LOCKFILE]);
  }

  lemma CargoNames()
    ensures Render([MANIFEST]) == MANIFEST && Render([LOCKFILE]) == LOCKFILE && MANIFEST != LOCKFILE
  {
    assert MANIFEST[6] == 't' as Byte && LOCKFILE[6] == 'l' as Byte;
    assert Slashed(MANIFEST) == MANIFEST && Slashed(LOCKFILE) == LOCKFILE;
  }

  lemma ListedCargo(parse: Bytes -> Option<Value>, fs: Tree, inputs: set<Path>)
    requires Readable(parse, fs, inputs)
    ensures (MANIFEST, CargoPair(parse, fs).0) in InputListing(parse, fs, inputs)
    ensures (LOCKFILE, CargoPair(parse, fs).1) in InputListing(parse, fs, inputs)
  {
    CargoNames();
    var ps, listing := Ordered(inputs), InputListing(parse, fs, inputs);
    assert [MANIFEST] in ps && [LOCKFILE] in ps;
    var i :| 0 <= i < |ps| && ps[i] == [MANIFEST];
    var j :| 0 <= j < |ps| && ps[j] == [LOCKFILE];
    assert listing[i] in listing && listing[j] in listing;
  }

  lemma ListedName(parse: Bytes -> Option<Value>, fs: Tree, inputs: set<Path>, e: Pair)
    requires Readable(parse, fs, inputs) && e in InputListing(parse, fs, inputs)
    ensures e.0 == MANIFEST ==> e.1 == CargoPair(parse, fs).0
    ensures e.0 == LOCKFILE ==> e.1 == CargoPair(parse, fs).1
  {
    CargoNames();
    var ps, listing := Ordered(inputs), InputListing(parse, fs, inputs);
    var i :| 0 <= i < |listing| && listing[i] == e;
    assert listing[i].0 == Render(ps[i]);
  }

  lemma EqualListings(parse: Bytes -> Option<Value>, fs1: Tree, inputs1: set<Path>, fs2: Tree, inputs2: set<Path>)
    requires Readable(parse, fs1, inputs1) && Readable(parse, fs2, inputs2)
    ensures InputListing(parse, fs1, inputs1) == InputListing(parse, fs2, inputs2) <==>
      ListedAlike(fs1, inputs1, fs2, inputs2) && CargoPair(parse, fs1) == CargoPair(parse, fs2)
  {
    var l1, l2 := InputListing(parse, fs1, inputs1), InputListing(parse, fs2, inputs2);
    var ps, qs := Ordered(inputs1), Ordered(inputs2);
    if l1 == l2 {
      ListedCargo(parse, fs1, inputs1);
      ListedName(parse, fs2, inputs2, (MANIFEST, CargoPair(parse, fs1).0));
      ListedName(parse, fs2, inputs2, (LOCKFILE, CargoPair(parse, fs1).1));
      forall i | 0 <= i < |ps| ensures SameListed(fs1, ps[i], fs2, qs[i]) {
        assert l1[i] == l2[i];
        assert ps[i] in inputs1 && qs[i] in inputs2;
      }
    }
    if ListedAlike(fs1, inputs1, fs2, inputs2) && CargoPair(parse, fs1) == CargoPair(parse, fs2) {
      forall i | 0 <= i < |l1| ensures l1[i] == l2[i] {
        assert SameListed(fs1, ps[i], fs2, qs[i]);
      }
    }
  }

  lemma SameOrderedPairs(s1: set<Pair>, s2: set<Pair>)
    requires OrderedPairs(s1) == OrderedPairs(s2)
    ensures s1 == s2
  {
    assert forall p :: p in s1 <==> p in OrderedPairs(s1);
    assert forall p :: p in s2 <==> p in OrderedPairs(s2);
  }

  /** The features that are framed are the environment's variables with the feature prefix. */
  lemma SameFeatures(env1: seq<Pair>, env2: seq<Pair>)
    ensures Features(env1) == Features(env2) <==>
      forall e: Pair | FEATURE_PREFIX <= e.0 :: e in env1 <==> e in env2
  {
    if Features(env1) == Features(env2) {
      forall e: Pair | FEATURE_PREFIX <= e.0 ensures e in env1 <==> e in env2 {
        assert e in Features(env1) <==> e in Features(env2);
      }
    }
  }

  lemma ContractDecodes(i1: seq<Pair>, s1: set<Pair>, i2: seq<Pair>, s2: set<Pair>)
    requires Addressable(i1) && Addressable(i2) && Addressable(OrderedPairs(s1)) && Addressable(OrderedPairs(s2))
    ensures HEADER + (Counted(i1) + Counted(OrderedPairs(s1))) == HEADER + (Counted(i2) + Counted(OrderedPairs(s2)))
       <==> i1 == i2 && s1 == s2
  {
    StreamDecodes(HEADER, i1, OrderedPairs(s1), i2, OrderedPairs(s2));
    if OrderedPairs(s1) == OrderedPairs(s2) { SameOrderedPairs(s1, s2); }
  }

  /** Lengths and counts fit the 64-bit frames. */
  ghost predicate AddressableContract(parse: Bytes -> Option<Value>, fs: Tree, inputs: set<Path>,
                                      environment: seq<Pair>)
    requires Readable(parse, fs, inputs)
  {
    Addressable(InputListing(parse, fs, inputs)) && Addressable(OrderedPairs(Features(environment)))
  }

  lemma StreamsAgree(parse: Bytes -> Option<Value>, fs1: Tree, inputs1: set<Path>, env1: seq<Pair>,
                     fs2: Tree, inputs2: set<Path>, env2: seq<Pair>)
    requires Readable(parse, fs1, inputs1) && Readable(parse, fs2, inputs2)
    requires AddressableContract(parse, fs1, inputs1, env1) && AddressableContract(parse, fs2, inputs2, env2)
    requires [] !in inputs1 && [] !in inputs2
    ensures Contract(parse, fs1, inputs1, env1) == Contract(parse, fs2, inputs2, env2) <==>
      && SameSources(fs1, inputs1, fs2, inputs2) && CargoPair(parse, fs1) == CargoPair(parse, fs2)
      && forall e: Pair | FEATURE_PREFIX <= e.0 :: e in env1 <==> e in env2
  {
    SameFeatures(env1, env2);
    AlikeIsSame(fs1, inputs1, fs2, inputs2);
    ContractDecodes(InputListing(parse, fs1, inputs1), Features(env1), InputListing(parse, fs2, inputs2),
      Features(env2));
    EqualListings(parse, fs1, inputs1, fs2, inputs2);
  }

  lemma StreamsIdentify(parse: Bytes -> Option<Value>, fs1: Tree, inputs1: set<Path>, env1: seq<Pair>,
                        fs2: Tree, inputs2: set<Path>, env2: seq<Pair>)
    requires Parser(parse) && Readable(parse, fs1, inputs1) && Readable(parse, fs2, inputs2)
    requires AddressableContract(parse, fs1, inputs1, env1) && AddressableContract(parse, fs2, inputs2, env2)
    requires [] !in inputs1 && [] !in inputs2
    ensures Contract(parse, fs1, inputs1, env1) == Contract(parse, fs2, inputs2, env2) <==>
      && SameSources(fs1, inputs1, fs2, inputs2)
      && SameCargo(parse, fs1[[MANIFEST]].content, fs1[[LOCKFILE]].content, fs2[[MANIFEST]].content,
        fs2[[LOCKFILE]].content)
      && forall e: Pair | FEATURE_PREFIX <= e.0 :: e in env1 <==> e in env2
  {
    StreamsAgree(parse, fs1, inputs1, env1, fs2, inputs2, env2);
    CargoInputsIdentify(parse, fs1[[MANIFEST]].content, fs1[[LOCKFILE]].content,
                        fs2[[MANIFEST]].content, fs2[[LOCKFILE]].content);
  }

  lemma TopLevel(a: Bytes, b: Bytes, c: Bytes, more: set<Path>)
    requires [] !in more
    ensures [] !in {[a], [b], [c]} + more
  {
  }

  lemma NoEmptyInput(fs: Tree)
    ensures [] !in Inputs(fs)
  {
    TopLevel(MANIFEST, LOCKFILE, BUILD_SCRIPT, ReachedFiles(Rules.PresentationOnly(), Rules.ROOTS, fs));
  }

  /** With presentation files that are files, the inputs are the three top-level files and everything below
      the two source directories, directories apart, that is not listed as presentation. */
  lemma InputsAre(fs: Tree, p: Path)
    requires FilesAreFiles(Rules.PRESENTATION_FILES, fs)
    ensures p in Inputs(fs) <==>
      || p == [Ascii("Cargo.toml")] || p == [Ascii("Cargo.lock")] || p == [Ascii("build.rs")]
      || (p in fs && |p| > 1 && !fs[p].Directory? && (p[0] == Ascii("src") || p[0] == Ascii("build_support"))
          && p !in Rules.PRESENTATION_FILES
          && forall i | 0 <= i < |Rules.PRESENTATION_DIRECTORIES| :: !(Rules.PRESENTATION_DIRECTORIES[i] <= p))
  {
    Rules.InputsAreIntended(fs);
    KeptFrom(Rules.PRESENTATION_DIRECTORIES, Rules.PRESENTATION_FILES, Ascii("src"), Ascii("build_support"), fs, p);
    OneOfThree(p, [MANIFEST], [LOCKFILE], [BUILD_SCRIPT], ReachedFiles(Rules.PresentationOnly(), Rules.ROOTS, fs));
  }

  lemma OneOfThree(p: Path, a: Path, b: Path, c: Path, more: set<Path>)
    ensures p in {a, b, c} + more <==> p == a || p == b || p == c || p in more
  {
  }

  /** The whole fingerprint stream: two projects get the same stream exactly when their inputs,
      their Cargo files (up to the release version, if both normalise) and their Cargo features
      are the same. */
  lemma ContractIdentifies(parse: Bytes -> Option<Value>, fs1: Tree, env1: seq<Pair>, fs2: Tree, env2: seq<Pair>)
    requires Parser(parse) && Certifiable(parse, fs1) && Certifiable(parse, fs2)
    requires AddressableContract(parse, fs1, Inputs(fs1), env1) && AddressableContract(parse, fs2, Inputs(fs2), env2)
    ensures Contract(parse, fs1, Inputs(fs1), env1) == Contract(parse, fs2, Inputs(fs2), env2) <==>
      && SameSources(fs1, Inputs(fs1), fs2, Inputs(fs2))
      && SameCargo(parse, fs1[[MANIFEST]].content, fs1[[LOCKFILE]].content, fs2[[MANIFEST]].content,
        fs2[[LOCKFILE]].content)
      && forall e: Pair | FEATURE_PREFIX <= e.0 :: e in env1 <==> e in env2
  {
    NoEmptyInput(fs1);
    NoEmptyInput(fs2);
    StreamsIdentify(parse, fs1, Inputs(fs1), env1, fs2, Inputs(fs2), env2);
  }

  /** For projects whose Cargo pairs both normalise, without a twin of the first root, the whole
      fingerprint forgets the release number and nothing else. */
  lemma ContractForgetsOnlyTheVersion(parse: Bytes -> Option<Value>, fs1: Tree, env1: seq<Pair>, c1: Cargo,
                                      fs2: Tree, env2: seq<Pair>, c2: Cargo)
    requires Parser(parse) && Certifiable(parse, fs1) && Certifiable(parse, fs2)
    requires AddressableContract(parse, fs1, Inputs(fs1), env1) && AddressableContract(parse, fs2, Inputs(fs2), env2)
    requires Parsed(parse, fs1[[MANIFEST]].content, fs1[[LOCKFILE]].content, c1) && NoTwin(c1)
    requires Parsed(parse, fs2[[MANIFEST]].content, fs2[[LOCKFILE]].content, c2)
    ensures Contract(parse, fs1, Inputs(fs1), env1) == Contract(parse, fs2, Inputs(fs2), env2) <==>
      && SameSources(fs1, Inputs(fs1), fs2, Inputs(fs2))
      && (forall e: Pair | FEATURE_PREFIX <= e.0 :: e in env1 <==> e in env2)
      && Renumbered(parse(fs1[[MANIFEST]].content).value, parse(fs1[[LOCKFILE]].content).value, c1,
                    parse(fs2[[MANIFEST]].content).value, parse(fs2[[LOCKFILE]].content).value, c2)
  {
    ContractIdentifies(parse, fs1, env1, fs2, env2);
    var m1, l1 := fs1[[MANIFEST]].content, fs1[[LOCKFILE]].content;
    var m2, l2 := fs2[[MANIFEST]].content, fs2[[LOCKFILE]].content;
    CargoInputsIdentify(parse, m1, l1, m2, l2);
    CargoInputsForgetOnlyTheVersion(parse, m1, l1, c1, m2, l2, c2);
  }

  // ---------- Names without separators ----------

  /** No component of any path holds a slash or a backslash. */
  ghost predicate PortableNames(fs: Tree) {
    forall p, c | p in fs && c in p :: SLASH !in c && BACKSLASH !in c
  }

  /** The same paths, and the same bytes at every path but the two Cargo files'. */
  ghost predicate SameFiles(fs1: Tree, inputs1: set<Path>, fs2: Tree, inputs2: set<Path>) {
    && inputs1 == inputs2
    && forall p | p in inputs1 && p != [MANIFEST] && p != [LOCKFILE] ::
         HasFile(fs1, p) && HasFile(fs2, p) && fs1[p].content == fs2[p].content
  }

  lemma PortableInput(fs: Tree, p: Path)
    requires PortableNames(fs) && p in fs
    ensures Pieces(p) == p
  {
    PortablePieces(p);
  }

  /** Without separators in names, the stream tells all paths apart. */
  lemma PortableSources(fs1: Tree, inputs1: set<Path>, fs2: Tree, inputs2: set<Path>)
    requires PortableNames(fs1) && PortableNames(fs2)
    requires (forall p | p in inputs1 :: p in fs1) && (forall p | p in inputs2 :: p in fs2)
    ensures SameSources(fs1, inputs1, fs2, inputs2) <==> SameFiles(fs1, inputs1, fs2, inputs2)
  {
    var ps, qs := Ordered(inputs1), Ordered(inputs2);
    forall i | 0 <= i < |ps| ensures Pieces(ps[i]) == ps[i] { assert ps[i] in inputs1; PortableInput(fs1, ps[i]); }
    forall i | 0 <= i < |qs| ensures Pieces(qs[i]) == qs[i] { assert qs[i] in inputs2; PortableInput(fs2, qs[i]); }
    if SameSources(fs1, inputs1, fs2, inputs2) {
      forall i | 0 <= i < |ps| ensures ps[i] == qs[i] { assert SameInput(fs1, ps[i], fs2, qs[i]); }
      assert ps == qs;
      forall p ensures p in inputs1 <==> p in inputs2 { assert p in ps <==> p in qs; }
      forall p | p in inputs1 && p != [MANIFEST] && p != [LOCKFILE]
        ensures HasFile(fs1, p) && HasFile(fs2, p) && fs1[p].content == fs2[p].content
      {
        assert p in ps;
        var i :| 0 <= i < |ps| && ps[i] == p;
        assert SameInput(fs1, ps[i], fs2, qs[i]);
      }
    } else if SameFiles(fs1, inputs1, fs2, inputs2) {
      forall i | 0 <= i < |ps| ensures SameInput(fs1, ps[i], fs2, qs[i]) { assert ps[i] in inputs1; }
    }
  }
}
