/** TOML values and the type- and length-framed encoding that enters the source fingerprint
    (build_support/source_ingest_contract.rs). */
module Toml {
  import opened Prelude
  import opened Framing
  import opened Sorting

  /** A table is kept in its iteration order, so that "key order never matters" is a statement
      about the encoder and not an assumption about the map type. Text is UTF-8 bytes, a float is
      its bit pattern and a date-time its printed form. */
  datatype Value =
    | String(text: Bytes)
    | Integer(number: int)
    | Float(bits: int)
    | Boolean(flag: bool)
    | Datetime(shown: Bytes)
    | Array(items: seq<Value>)
    | Table(entries: seq<Entry>)

  datatype Entry = Entry(key: Bytes, value: Value)

  function Keys(es: seq<Entry>): (r: seq<Bytes>)
    ensures |r| == |es| && forall i | 0 <= i < |es| :: r[i] == es[i].key
  {
    seq(|es|, i requires 0 <= i < |es| => es[i].key)
  }

  ghost predicate Sized<T>(s: seq<T>) {
    |s| < U64
  }

  /** What the Rust types guarantee of every value: 64-bit numbers, addressable lengths, unique keys. */
  ghost predicate WellFormed(v: Value) {
    match v
    case String(t) => Sized(t)
    case Integer(n) => -U64 <= 2 * n < U64
    case Float(bits) => 0 <= bits < U64
    case Boolean(_) => true
    case Datetime(t) => Sized(t)
    case Array(items) => Sized(items) && forall i | 0 <= i < |items| :: WellFormed(items[i])
    case Table(es) => Sized(es) && Distinct(Keys(es)) && forall i | 0 <= i < |es| ::
      Sized(es[i].key) && WellFormed(es[i].value)
  }

  /** The same TOML value: arrays in order, tables by key. */
  ghost predicate Same(a: Value, b: Value) {
    match (a, b)
    case (Array(xs), Array(ys)) =>
      |xs| == |ys| && forall i | 0 <= i < |xs| :: Same(xs[i], ys[i])
    case (Table(es), Table(fs)) =>
      |es| == |fs| && forall i | 0 <= i < |es| :: HasSame(es[i], fs)
    case _ => a == b
  }

  ghost predicate HasSame(e: Entry, fs: seq<Entry>) {
    exists f | f in fs :: e.key == f.key && Same(e.value, f.value)
  }

  predicate ByteLe(a: Byte, b: Byte) { a <= b }

  predicate NameLe(a: Bytes, b: Bytes) { LexLe(ByteLe, a, b) }

  predicate KeyLe(e: Entry, f: Entry) { NameLe(e.key, f.key) }

  function ByKey(es: seq<Entry>): seq<Entry> { Sort(KeyLe, es) }

  // ---------- The encoder ----------

  function Tag(v: Value): Byte {
    match v
    case String(_) => 's' as Byte
    case Integer(_) => 'i' as Byte
    case Float(_) => 'f' as Byte
    case Boolean(_) => 'b' as Byte
    case Datetime(_) => 'd' as Byte
    case Array(_) => 'a' as Byte
    case Table(_) => 't' as Byte
  }

  function Emit(v: Value): Bytes
    decreases v, 1
  {
    [Tag(v)] + Body(v)
  }

  function Body(v: Value): Bytes
    decreases v, 0
  {
    match v
    case String(t) => Field(t)
    case Integer(n) => Word(n)
    case Float(bits) => Word(bits)
    case Boolean(flag) => [if flag then 1 else 0]
    case Datetime(t) => Field(t)
    case Array(items) => Word(|items|) + EmitItems(items)
    case Table(es) =>
      SortMembers(KeyLe, es);
      Word(|es|) + EmitEntries(ByKey(es), es)
  }

  function EmitItems(items: seq<Value>): Bytes
    decreases items, 0
  {
    if items == [] then [] else Emit(items[0]) + EmitItems(items[1..])
  }

  /** `all` are the entries of the table that `es` comes from; it only serves termination. */
  function EmitEntries(es: seq<Entry>, ghost all: seq<Entry>): Bytes
    requires forall e | e in es :: e in all
    decreases all, 0, |es|
  {
    if es == [] then [] else
      EntryBelow(all, es[0]);
      Field(es[0].key) + Emit(es[0].value) + EmitEntries(es[1..], all)
  }

  lemma EntryBelow(all: seq<Entry>, e: Entry)
    requires e in all
    ensures all decreases to e.value
  {
    var i :| 0 <= i < |all| && all[i] == e;
    assert all decreases to all[i];
    assert e decreases to e.value;
  }

  // ---------- Orders ----------

  lemma NameOrder()
    ensures TotalOrder(NameLe)
  {
    LexTotalOrder(ByteLe);
    forall a, b ensures NameLe(a, b) <==> Lex(ByteLe)(a, b) {}
  }

  /** A proper prefix comes first; otherwise the first different byte decides. */
  ghost predicate KeyBefore(a: Bytes, b: Bytes) {
    a < b || exists k: nat :: FirstDifference(a, b, k) && a[k] < b[k]
  }

  lemma NameLeMeans(a: Bytes, b: Bytes)
    ensures NameLe(a, b) && a != b <==> KeyBefore(a, b)
  {
    LexMeans(ByteLe, a, b);
  }

  lemma KeyOrder()
    ensures TotalPreorder(KeyLe)
  {
    NameOrder();
  }

  lemma ByKeySorted(es: seq<Entry>)
    requires Distinct(Keys(es))
    ensures Sorted(NameLe, Keys(ByKey(es))) && Distinct(Keys(ByKey(es)))
    ensures forall e :: e in ByKey(es) <==> e in es
  {
    KeyOrder();
    SortSorted(KeyLe, es);
    SortMembers(KeyLe, es);
    SortMultiset(KeyLe, es);
    KeysDistinct(es);
    DistinctPermutation(es, ByKey(es));
    KeysDistinct(ByKey(es));
  }

  /** Unique keys, read as: an entry is determined by its key. */
  lemma KeysDistinct(es: seq<Entry>)
    ensures Distinct(Keys(es)) <==> Distinct(es) && forall e, f | e in es && f in es && e.key == f.key :: e == f
  {
    var ks := Keys(es);
    if Distinct(ks) {
      forall i, j | 0 <= i < j < |es| ensures es[i] != es[j] { assert ks[i] != ks[j]; }
      forall e, f | e in es && f in es && e.key == f.key ensures e == f {
        var i :| 0 <= i < |es| && es[i] == e;
        var j :| 0 <= j < |es| && es[j] == f;
        assert ks[i] == ks[j];
      }
    }
    if Distinct(es) && forall e, f | e in es && f in es && e.key == f.key :: e == f {
      forall i, j | 0 <= i < j < |ks| ensures ks[i] != ks[j] { assert es[i] != es[j]; }
    }
  }

  // ---------- Unique decoding ----------

  ghost predicate PairwiseSame(es: seq<Entry>, fs: seq<Entry>) {
    |es| == |fs| && forall i | 0 <= i < |es| :: es[i].key == fs[i].key && Same(es[i].value, fs[i].value)
  }

  /** Two encodings that agree in front of anything are encodings of the same value, and
      what follows them is the same. */
  lemma {:induction false} EmitPrefix(a: Value, b: Value, x: Bytes, y: Bytes)
    requires WellFormed(a) && WellFormed(b)
    requires Emit(a) + x == Emit(b) + y
    ensures x == y && Same(a, b)
    decreases a, 3
  {
    EmitFront(a, x);
    EmitFront(b, y);
    SplitEqual([Tag(a)], [Tag(b)], Body(a) + x, Body(b) + y);
    if a.Array? {
      ArrayPrefix(a.items, b.items, x, y);
    } else if a.Table? {
      TablePrefix(a.entries, b.entries, x, y);
    } else {
      ScalarPrefix(a, b, x, y);
    }
  }

  lemma EmitFront(v: Value, x: Bytes)
    ensures Emit(v) + x == [Tag(v)] + (Body(v) + x)
  {
  }

  lemma ScalarPrefix(a: Value, b: Value, x: Bytes, y: Bytes)
    requires WellFormed(a) && WellFormed(b) && !a.Array? && !a.Table?
    requires Tag(a) == Tag(b) && Body(a) + x == Body(b) + y
    ensures x == y && a == b
  {
    match a {
      case String(t) => FieldPrefix(t, b.text, x, y);
      case Datetime(t) => FieldPrefix(t, b.shown, x, y);
      case Integer(n) => SignedPrefix(n, b.number, x, y);
      case Float(n) => LengthPrefix(n, b.bits, x, y);
      case Boolean(_) => SplitEqual(Body(a), Body(b), x, y);
    }
  }

  lemma {:induction false} ArrayPrefix(xs: seq<Value>, ys: seq<Value>, x: Bytes, y: Bytes)
    requires WellFormed(Array(xs)) && WellFormed(Array(ys))
    requires Body(Array(xs)) + x == Body(Array(ys)) + y
    ensures x == y && Same(Array(xs), Array(ys))
    decreases xs, 1
  {
    ArrayFront(xs, x);
    ArrayFront(ys, y);
    LengthPrefix(|xs|, |ys|, EmitItems(xs) + x, EmitItems(ys) + y);
    ItemsPrefix(xs, ys, x, y);
  }

  lemma ArrayFront(xs: seq<Value>, x: Bytes)
    ensures Body(Array(xs)) + x == Word(|xs|) + (EmitItems(xs) + x)
  {
  }

  lemma {:induction false} ItemsPrefix(xs: seq<Value>, ys: seq<Value>, x: Bytes, y: Bytes)
    requires |xs| == |ys|
    requires forall i | 0 <= i < |xs| :: WellFormed(xs[i]) && WellFormed(ys[i])
    requires EmitItems(xs) + x == EmitItems(ys) + y
    ensures x == y && forall i | 0 <= i < |xs| :: Same(xs[i], ys[i])
    decreases xs, 0
  {
    if xs != [] {
      var u, v := EmitItems(xs[1..]) + x, EmitItems(ys[1..]) + y;
      assert EmitItems(xs) + x == Emit(xs[0]) + u;
      assert EmitItems(ys) + y == Emit(ys[0]) + v;
      EmitPrefix(xs[0], ys[0], u, v);
      ItemsPrefix(xs[1..], ys[1..], x, y);
      forall i | 0 <= i < |xs| ensures Same(xs[i], ys[i]) {
        if i > 0 { assert xs[i] == xs[1..][i - 1] && ys[i] == ys[1..][i - 1]; }
      }
    } else {
      assert [] + x == x && [] + y == y;
    }
  }

  lemma {:induction false} TablePrefix(es: seq<Entry>, fs: seq<Entry>, x: Bytes, y: Bytes)
    requires WellFormed(Table(es)) && WellFormed(Table(fs))
    requires Body(Table(es)) + x == Body(Table(fs)) + y
    ensures x == y && Same(Table(es), Table(fs))
    decreases es, 2
  {
    var a, b := ByKey(es), ByKey(fs);
    ByKeySorted(es);
    ByKeySorted(fs);
    TableFront(es, x);
    TableFront(fs, y);
    EntryListPrefix(a, b, es, fs, x, y);
  }

  lemma {:induction false} EntryListPrefix(a: seq<Entry>, b: seq<Entry>, es: seq<Entry>, fs: seq<Entry>, x: Bytes,
                                           y: Bytes)
    requires WellFormed(Table(es)) && WellFormed(Table(fs)) && |a| == |es| && |b| == |fs|
    requires (forall e :: e in a <==> e in es) && (forall f :: f in b <==> f in fs)
    requires Word(|es|) + (EmitEntries(a, es) + x) == Word(|fs|) + (EmitEntries(b, fs) + y)
    ensures x == y && Same(Table(es), Table(fs))
    decreases es, 1
  {
    LengthPrefix(|es|, |fs|, EmitEntries(a, es) + x, EmitEntries(b, fs) + y);
    WellFormedEntries(es);
    WellFormedEntries(fs);
    EntriesPrefix(a, b, es, fs, x, y);
    AlignedSame(a, b, es, fs);
  }

  lemma TableFront(es: seq<Entry>, x: Bytes)
    requires forall e :: e in ByKey(es) <==> e in es
    ensures Body(Table(es)) + x == Word(|es|) + (EmitEntries(ByKey(es), es) + x)
  {
  }

  lemma EmitEntriesFront(a: seq<Entry>, es: seq<Entry>, x: Bytes)
    requires a != [] && forall e | e in a :: e in es
    ensures EmitEntries(a, es) + x == Field(a[0].key) + (Emit(a[0].value) + (EmitEntries(a[1..], es) + x))
  {
  }

  lemma AlignedSame(a: seq<Entry>, b: seq<Entry>, es: seq<Entry>, fs: seq<Entry>)
    requires |es| == |fs| && PairwiseSame(a, b)
    requires (forall e | e in es :: e in a) && (forall f | f in b :: f in fs)
    ensures Same(Table(es), Table(fs))
  {
    forall i | 0 <= i < |es| ensures HasSame(es[i], fs) {
      assert es[i] in a;
      var k :| 0 <= k < |a| && a[k] == es[i];
      assert b[k] in fs;
    }
  }

  lemma WellFormedEntries(es: seq<Entry>)
    requires WellFormed(Table(es))
    ensures forall e | e in es :: Sized(e.key) && WellFormed(e.value)
  {
  }

  lemma {:induction false} EntriesPrefix(a: seq<Entry>, b: seq<Entry>, es: seq<Entry>, fs: seq<Entry>, x: Bytes,
                                         y: Bytes)
    requires |a| == |b|
    requires forall e | e in es :: Sized(e.key) && WellFormed(e.value)
    requires forall f | f in fs :: Sized(f.key) && WellFormed(f.value)
    requires (forall e | e in a :: e in es) && (forall f | f in b :: f in fs)
    requires EmitEntries(a, es) + x == EmitEntries(b, fs) + y
    ensures x == y && PairwiseSame(a, b)
    decreases es, 0, |a|
  {
    if a != [] {
      var e, f := a[0], b[0];
      EntryBelow(es, e);
      var u, v := EmitEntries(a[1..], es) + x, EmitEntries(b[1..], fs) + y;
      EmitEntriesFront(a, es, x);
      EmitEntriesFront(b, fs, y);
      FieldPrefix(e.key, f.key, Emit(e.value) + u, Emit(f.value) + v);
      EmitPrefix(e.value, f.value, u, v);
      EntriesPrefix(a[1..], b[1..], es, fs, x, y);
      forall i | 0 <= i < |a| ensures a[i].key == b[i].key && Same(a[i].value, b[i].value) {
        if i > 0 { assert a[i] == a[1..][i - 1] && b[i] == b[1..][i - 1]; }
      }
    } else {
      assert [] + x == x && [] + y == y;
    }
  }

  // ---------- Key order never changes the bytes ----------

  lemma {:induction false} SameEmits(a: Value, b: Value)
    requires WellFormed(a) && WellFormed(b) && Same(a, b)
    ensures Emit(a) == Emit(b)
    decreases a, 2
  {
    if a.Array? {
      SameItemsEmit(a.items, b.items);
    } else if a.Table? {
      SameEntriesAlign(a.entries, b.entries);
      WellFormedEntries(a.entries);
      WellFormedEntries(b.entries);
      SameEntriesEmit(ByKey(a.entries), ByKey(b.entries), a.entries, b.entries);
    }
  }

  lemma {:induction false} SameItemsEmit(xs: seq<Value>, ys: seq<Value>)
    requires |xs| == |ys|
    requires forall i | 0 <= i < |xs| :: WellFormed(xs[i]) && WellFormed(ys[i]) && Same(xs[i], ys[i])
    ensures EmitItems(xs) == EmitItems(ys)
    decreases xs, 0
  {
    if xs != [] {
      SameEmits(xs[0], ys[0]);
      SameItemsEmit(xs[1..], ys[1..]);
    }
  }

  /** Sorting lines up the entries of two tables that are the same. */
  lemma SameEntriesAlign(es: seq<Entry>, fs: seq<Entry>)
    requires WellFormed(Table(es)) && WellFormed(Table(fs)) && Same(Table(es), Table(fs))
    ensures PairwiseSame(ByKey(es), ByKey(fs))
    ensures (forall e :: e in ByKey(es) <==> e in es) && (forall f :: f in ByKey(fs) <==> f in fs)
  {
    var a, b := ByKey(es), ByKey(fs);
    ByKeySorted(es);
    ByKeySorted(fs);
    forall k | k in Keys(a) ensures k in Keys(b) {
      var e := EntryWith(a, k);
      var f := SameEntry(es, fs, e);
      KeyOf(b, f);
    }
    DistinctSubsetSameSize(Keys(a), Keys(b));
    NameOrder();
    SortedUnique(NameLe, Keys(a), Keys(b));
    forall i | 0 <= i < |a| ensures a[i].key == b[i].key && Same(a[i].value, b[i].value) {
      assert Keys(a)[i] == Keys(b)[i];
      var f := SameEntry(es, fs, a[i]);
      KeysDistinct(b);
      assert f in b && b[i] in b;
    }
  }

  lemma EntryWith(es: seq<Entry>, k: Bytes) returns (e: Entry)
    requires k in Keys(es)
    ensures e in es && e.key == k
  {
    var i :| 0 <= i < |es| && Keys(es)[i] == k;
    e := es[i];
  }

  lemma KeyOf(es: seq<Entry>, e: Entry)
    requires e in es
    ensures e.key in Keys(es)
  {
    var i :| 0 <= i < |es| && es[i] == e;
    assert Keys(es)[i] == e.key;
  }

  lemma SameEntry(es: seq<Entry>, fs: seq<Entry>, e: Entry) returns (f: Entry)
    requires Same(Table(es), Table(fs)) && e in es
    ensures f in fs && f.key == e.key && Same(e.value, f.value)
  {
    var i :| 0 <= i < |es| && es[i] == e;
    assert HasSame(es[i], fs);
    f :| f in fs && e.key == f.key && Same(e.value, f.value);
  }

  lemma {:induction false} SameEntriesEmit(a: seq<Entry>, b: seq<Entry>, es: seq<Entry>, fs: seq<Entry>)
    requires PairwiseSame(a, b)
    requires (forall e | e in es :: WellFormed(e.value)) && (forall f | f in fs :: WellFormed(f.value))
    requires (forall e | e in a :: e in es) && (forall f | f in b :: f in fs)
    ensures EmitEntries(a, es) == EmitEntries(b, fs)
    decreases es, 0, |a|
  {
    if a != [] {
      EntryBelow(es, a[0]);
      SameEmits(a[0].value, b[0].value);
      SameEntriesEmit(a[1..], b[1..], es, fs);
    }
  }

  /** The encoding identifies a value exactly up to table key order. */
  lemma EmitIdentifies(a: Value, b: Value)
    requires WellFormed(a) && WellFormed(b)
    ensures Emit(a) == Emit(b) <==> Same(a, b)
  {
    if Emit(a) == Emit(b) {
      assert Emit(a) + [] == Emit(b) + [];
      EmitPrefix(a, b, [], []);
    }
    if Same(a, b) {
      SameEmits(a, b);
    }
  }
}
