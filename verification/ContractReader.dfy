/** A reader for the whole fingerprint stream, and the order of what it holds
    (build_support/source_ingest_contract.rs). */
module ContractReader {
  import opened Prelude
  import opened Framing
  import opened Cutting
  import opened FramedStream
  import opened Sorting
  import opened Toml
  import opened TomlReader
  import opened TreeWalk
  import opened SourceContract

  // ---------- The reader ----------

  /** `n` pairs of a name and a content. */
  function ReadMany(n: nat, b: Bytes): Option<(seq<Pair>, Bytes)> {
    if n == 0 then Some(([], b)) else
      match ReadField(b)
      case None => None
      case Some((name, rest)) =>
        match ReadField(rest)
        case None => None
        case Some((content, rest)) =>
          match ReadMany(n - 1, rest)
          case Some((ps, rest)) => Some(([(name, content)] + ps, rest))
          case None => None
  }

  /** A count, and that many pairs. */
  function ReadList(b: Bytes): Option<(seq<Pair>, Bytes)> {
    match ReadWord(b)
    case Some((n, rest)) => ReadMany(n, rest)
    case None => None
  }

  function Framed(p: Pair): Bytes { Field(p.0) + Field(p.1) }

  lemma {:induction false} FieldsFront(ps: seq<Pair>)
    requires ps != []
    ensures Fields(ps) == Framed(ps[0]) + Fields(ps[1..])
  {
    var n := |ps| - 1;
    if n == 0 {
      assert ps[..0] == [] && ps[1..] == [];
    } else {
      FieldsFront(ps[..n]);
      assert ps[..n][1..] == ps[1..][..n - 1] && ps[1..][n - 1] == ps[n];
      Associate(Framed(ps[0]), Fields(ps[1..][..n - 1]), Framed(ps[n]));
    }
  }

  lemma PairReadsBack(p: Pair, all: Bytes, fields: Bytes, x: Bytes)
    requires Sized(p.0) && Sized(p.1) && all == Framed(p) + fields
    ensures ReadField(all + x) == Some((p.0, Field(p.1) + (fields + x)))
    ensures ReadField(Field(p.1) + (fields + x)) == Some((p.1, fields + x))
  {
    assert all + x == Field(p.0) + (Field(p.1) + (fields + x));
    FieldReadsBack(p.0, Field(p.1) + (fields + x));
    FieldReadsBack(p.1, fields + x);
  }

  lemma OneMoreRead(ps: seq<Pair>, b: Bytes, middle: Bytes, rest: Bytes, x: Bytes)
    requires ps != [] && ReadField(b) == Some((ps[0].0, middle)) && ReadField(middle) == Some((ps[0].1, rest))
    requires ReadMany(|ps| - 1, rest) == Some((ps[1..], x))
    ensures ReadMany(|ps|, b) == Some((ps, x))
  {
    FirstAndRest(ps);
  }

  lemma FirstAndRest(ps: seq<Pair>)
    requires ps != []
    ensures [(ps[0].0, ps[0].1)] + ps[1..] == ps
  {
  }

  lemma AddressableTail(ps: seq<Pair>)
    requires ps != [] && Addressable(ps)
    ensures Addressable(ps[1..]) && Sized(ps[0].0) && Sized(ps[0].1)
  {
  }

  lemma {:induction false} ManyReadBack(ps: seq<Pair>, x: Bytes)
    requires Addressable(ps)
    ensures ReadMany(|ps|, Fields(ps) + x) == Some((ps, x))
  {
    if ps == [] {
      assert [] + x == x;
    } else {
      var all, fields := Fields(ps), Fields(ps[1..]);
      AddressableTail(ps);
      ManyReadBack(ps[1..], x);
      FieldsFront(ps);
      PairReadsBack(ps[0], all, fields, x);
      OneMoreRead(ps, all + x, Field(ps[0].1) + (fields + x), fields + x, x);
    }
  }

  lemma ListReadsBack(ps: seq<Pair>, x: Bytes)
    requires Addressable(ps)
    ensures ReadList(Counted(ps) + x) == Some((ps, x))
  {
    Associate(Word(|ps|), Fields(ps), x);
    WordReadsBack(|ps|, Fields(ps) + x);
    SmallResidue(|ps|);
    ManyReadBack(ps, x);
  }

  /** The stream is its header, the list of the inputs and the list of the features, and nothing else. */
  lemma ContractReadsBack(parse: Bytes -> Option<Value>, fs: Tree, inputs: set<Path>, environment: seq<Pair>)
    requires Readable(parse, fs, inputs) && AddressableContract(parse, fs, inputs, environment)
    ensures var stream := Contract(parse, fs, inputs, environment);
      var features := Counted(OrderedPairs(Features(environment)));
      && HEADER <= stream
      && ReadList(stream[|HEADER|..]) == Some((InputListing(parse, fs, inputs), features))
      && ReadList(features) == Some((OrderedPairs(Features(environment)), []))
  {
    var listing, features := InputListing(parse, fs, inputs), OrderedPairs(Features(environment));
    ListReadsBack(listing, Counted(features));
    ListReadsBack(features, []);
    assert Counted(features) + [] == Counted(features);
    Behind(HEADER, Counted(listing) + Counted(features));
  }

  lemma Behind(header: Bytes, rest: Bytes)
    ensures header <= header + rest && (header + rest)[|header|..] == rest
  {
  }

  // ---------- The order ----------

  /** Component by component: a directory comes before what is in it, and otherwise the first different
      component decides. */
  ghost predicate PathBefore(p: Path, q: Path) {
    p < q || exists k: nat :: FirstDifference(p, q, k) && KeyBefore(p[k], q[k])
  }

  /** The inputs are listed in ascending order of their paths. */
  lemma InputsInOrder(inputs: set<Path>, i: nat, j: nat)
    requires i < j < |Ordered(inputs)|
    ensures PathBefore(Ordered(inputs)[i], Ordered(inputs)[j])
  {
    PathOrder();
    var ps := FromSet(Lex(NameLe), inputs);
    assert Lex(NameLe)(ps[i], ps[j]) && ps[i] != ps[j];
    LexMeans(NameLe, ps[i], ps[j]);
    if k: nat :| FirstDifference(ps[i], ps[j], k) && NameLe(ps[i][k], ps[j][k]) {
      NameLeMeans(ps[i][k], ps[j][k]);
      assert FirstDifference(ps[i], ps[j], k) && KeyBefore(ps[i][k], ps[j][k]);
    }
  }

  /** The features are listed by name, and by value if that is the same. */
  lemma FeaturesInOrder(environment: seq<Pair>, i: nat, j: nat)
    requires i < j < |OrderedPairs(Features(environment))|
    ensures var fs := OrderedPairs(Features(environment));
      KeyBefore(fs[i].0, fs[j].0) || (fs[i].0 == fs[j].0 && KeyBefore(fs[i].1, fs[j].1))
  {
    var fs := OrderedPairs(Features(environment));
    PairOrder();
    assert PairLe(fs[i], fs[j]) && fs[i] != fs[j];
    NameLeMeans(fs[i].0, fs[j].0);
    NameLeMeans(fs[i].1, fs[j].1);
  }

  /** Every feature is listed once, and nothing else. */
  lemma FeaturesAreListed(environment: seq<Pair>, e: Pair)
    ensures e in OrderedPairs(Features(environment)) <==> e in environment && Ascii("CARGO_FEATURE_") <= e.0
    ensures Distinct(OrderedPairs(Features(environment)))
  {
  }
}
