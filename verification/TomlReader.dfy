/** A reader for the TOML encoding, and the round trip through it
    (build_support/source_ingest_contract.rs). */
module TomlReader {
  import opened Prelude
  import opened Framing
  import opened Sorting
  import opened Toml

  // ---------- The reader ----------

  /** Eight bytes, least significant first. */
  function ReadWord(b: Bytes): (r: Option<(nat, Bytes)>)
    ensures r.Some? ==> |r.value.1| < |b|
  {
    if |b| < 8 then None else Some((FromLittleEndian(b[..8]), b[8..]))
  }

  /** A length, and that many bytes. */
  function ReadField(b: Bytes): (r: Option<(Bytes, Bytes)>)
    ensures r.Some? ==> |r.value.1| < |b|
  {
    match ReadWord(b)
    case Some((n, rest)) => if |rest| < n then None else Some((rest[..n], rest[n..]))
    case None => None
  }

  function Signed(n: nat): int { if 2 * n < U64 then n else n - U64 }

  /** One value: a letter for its type, and what that type calls for. */
  function Read(b: Bytes): (r: Option<(Value, Bytes)>)
    ensures r.Some? ==> |r.value.1| < |b|
    decreases |b|, 0
  {
    if b == [] then None
    else if b[0] == 's' as Byte then
      match ReadField(b[1..]) case Some((t, rest)) => Some((String(t), rest)) case None => None
    else if b[0] == 'd' as Byte then
      match ReadField(b[1..]) case Some((t, rest)) => Some((Datetime(t), rest)) case None => None
    else if b[0] == 'i' as Byte then
      match ReadWord(b[1..]) case Some((n, rest)) => Some((Integer(Signed(n)), rest)) case None => None
    else if b[0] == 'f' as Byte then
      match ReadWord(b[1..]) case Some((n, rest)) => Some((Float(n), rest)) case None => None
    else if b[0] == 'b' as Byte then
      if |b| < 2 || b[1] > 1 then None else Some((Boolean(b[1] == 1), b[2..]))
    else if b[0] == 'a' as Byte then
      match ReadWord(b[1..])
      case None => None
      case Some((n, rest)) =>
        match ReadItems(n, rest) case Some((items, rest)) => Some((Array(items), rest)) case None => None
    else if b[0] == 't' as Byte then
      match ReadWord(b[1..])
      case None => None
      case Some((n, rest)) =>
        match ReadEntries(n, rest) case Some((es, rest)) => Some((Table(es), rest)) case None => None
    else None
  }

  function ReadItems(n: nat, b: Bytes): (r: Option<(seq<Value>, Bytes)>)
    ensures r.Some? ==> |r.value.1| <= |b|
    decreases |b|, 1, n
  {
    if n == 0 then Some(([], b)) else
      match Read(b)
      case None => None
      case Some((v, rest)) =>
        match ReadItems(n - 1, rest) case Some((vs, rest)) => Some(([v] + vs, rest)) case None => None
  }

  function ReadEntries(n: nat, b: Bytes): (r: Option<(seq<Entry>, Bytes)>)
    ensures r.Some? ==> |r.value.1| <= |b|
    decreases |b|, 1, n
  {
    if n == 0 then Some(([], b)) else
      match ReadField(b)
      case None => None
      case Some((key, rest)) =>
        match Read(rest)
        case None => None
        case Some((v, rest)) =>
          match ReadEntries(n - 1, rest)
          case Some((es, rest)) => Some(([Entry(key, v)] + es, rest))
          case None => None
  }

  // ---------- The order of keys ----------

  /** In every table, at every depth, the keys ascend. */
  ghost predicate InOrder(v: Value) {
    match v
    case Array(items) => forall i | 0 <= i < |items| :: InOrder(items[i])
    case Table(es) =>
      && (forall i, j | 0 <= i < j < |es| :: KeyBefore(es[i].key, es[j].key))
      && forall i | 0 <= i < |es| :: InOrder(es[i].value)
    case _ => true
  }

  // ---------- The round trip ----------

  lemma WordReadsBack(n: int, x: Bytes)
    ensures ReadWord(Word(n) + x) == Some((n % U64, x))
  {
    WordReads(n);
    assert (Word(n) + x)[..8] == Word(n) && (Word(n) + x)[8..] == x;
  }

  lemma FieldReadsBack(t: Bytes, x: Bytes)
    requires Sized(t)
    ensures ReadField(Field(t) + x) == Some((t, x))
  {
    FieldFront(t, x);
    WordReadsBack(|t|, t + x);
    SmallResidue(|t|);
    assert (t + x)[..|t|] == t && (t + x)[|t|..] == x;
  }

  lemma Tagged(v: Value, x: Bytes)
    ensures var b := Emit(v) + x; b[0] == Tag(v) && b[1..] == Body(v) + x
  {
  }

  lemma TextReadsBack(v: Value, x: Bytes)
    requires WellFormed(v) && (v.String? || v.Datetime?)
    ensures Read(Emit(v) + x) == Some((v, x))
  {
    Tagged(v, x);
    FieldReadsBack(if v.String? then v.text else v.shown, x);
  }

  lemma SignedReads(n: int)
    requires -U64 <= 2 * n < U64
    ensures 0 <= n % U64 && Signed(n % U64) == n
  {
    assert n % U64 == if n < 0 then n + U64 else n;
  }

  lemma NumberReadsBack(v: Value, x: Bytes)
    requires WellFormed(v) && (v.Integer? || v.Float?)
    ensures Read(Emit(v) + x) == Some((v, x))
  {
    var n := if v.Integer? then v.number else v.bits;
    Tagged(v, x);
    WordReadsBack(n, x);
    if v.Float? { SmallResidue(n); } else { SignedReads(n); }
    NumberBytes(Emit(v) + x, n % U64, x);
  }

  lemma NumberBytes(b: Bytes, n: nat, x: Bytes)
    requires b != [] && ReadWord(b[1..]) == Some((n, x))
    ensures b[0] == 'i' as Byte ==> Read(b) == Some((Integer(Signed(n)), x))
    ensures b[0] == 'f' as Byte ==> Read(b) == Some((Float(n), x))
  {
  }

  lemma FlagReadsBack(flag: bool, x: Bytes)
    ensures Read(Emit(Boolean(flag)) + x) == Some((Boolean(flag), x))
  {
    var b := Emit(Boolean(flag)) + x;
    Tagged(Boolean(flag), x);
    assert b[1] == if flag then 1 else 0;
    assert b[2..] == x;
  }

  /** Reading back an encoded value, in front of anything, gives that value up to key order, with the keys of
      every table ascending, and the rest. */
  lemma {:induction false} ReadsBack(v: Value, x: Bytes) returns (w: Value)
    requires WellFormed(v)
    ensures Read(Emit(v) + x) == Some((w, x)) && Same(v, w) && InOrder(w)
    decreases v, 3
  {
    match v {
      case Array(items) => w := ArrayReadsBack(items, x);
      case Table(es) => w := TableReadsBack(es, x);
      case Boolean(flag) =>
        FlagReadsBack(flag, x);
        w := v;
      case _ =>
        if v.String? || v.Datetime? { TextReadsBack(v, x); } else { NumberReadsBack(v, x); }
        w := v;
    }
  }

  lemma {:induction false} ArrayReadsBack(items: seq<Value>, x: Bytes) returns (w: Value)
    requires WellFormed(Array(items))
    ensures Read(Emit(Array(items)) + x) == Some((w, x)) && Same(Array(items), w) && InOrder(w)
    decreases items, 1
  {
    Tagged(Array(items), x);
    ArrayFront(items, x);
    WordReadsBack(|items|, EmitItems(items) + x);
    SmallResidue(|items|);
    var ws := ItemsReadBack(items, x);
    w := Array(ws);
  }

  lemma {:induction false} ItemsReadBack(items: seq<Value>, x: Bytes) returns (ws: seq<Value>)
    requires forall i | 0 <= i < |items| :: WellFormed(items[i])
    ensures ReadItems(|items|, EmitItems(items) + x) == Some((ws, x)) && |ws| == |items|
    ensures forall i | 0 <= i < |items| :: Same(items[i], ws[i]) && InOrder(ws[i])
    decreases items, 0
  {
    if items == [] {
      ws := [];
      assert [] + x == x;
    } else {
      var rest := EmitItems(items[1..]) + x;
      assert EmitItems(items) + x == Emit(items[0]) + rest;
      var w := ReadsBack(items[0], rest);
      var tail := ItemsReadBack(items[1..], x);
      ws := [w] + tail;
      forall i | 0 <= i < |items| ensures Same(items[i], ws[i]) && InOrder(ws[i]) {
        if i > 0 { assert items[i] == items[1..][i - 1] && ws[i] == tail[i - 1]; }
      }
    }
  }

  lemma {:induction false} TableReadsBack(es: seq<Entry>, x: Bytes) returns (w: Value)
    requires WellFormed(Table(es))
    ensures Read(Emit(Table(es)) + x) == Some((w, x)) && Same(Table(es), w) && InOrder(w)
    decreases es, 2
  {
    var a := ByKey(es);
    ByKeySorted(es);
    WellFormedEntries(es);
    var fs := EntriesReadBack(a, es, x);
    ReadTable(es, a, fs, x);
    AlignedSame(a, fs, es, fs);
    AscendingKeys(a, fs);
    w := Table(fs);
  }

  lemma ReadTable(es: seq<Entry>, a: seq<Entry>, fs: seq<Entry>, x: Bytes)
    requires Sized(es) && a == ByKey(es) && forall e :: e in a <==> e in es
    requires ReadEntries(|a|, EmitEntries(a, es) + x) == Some((fs, x))
    ensures Read(Emit(Table(es)) + x) == Some((Table(fs), x))
  {
    var b, rest := Emit(Table(es)) + x, EmitEntries(a, es) + x;
    Tagged(Table(es), x);
    TableFront(es, x);
    WordReadsBack(|es|, rest);
    SmallResidue(|es|);
    ReadTableBytes(b, |a|, rest, fs, x);
  }

  lemma ReadTableBytes(b: Bytes, n: nat, rest: Bytes, fs: seq<Entry>, x: Bytes)
    requires b != [] && b[0] == 't' as Byte && ReadWord(b[1..]) == Some((n, rest))
    requires ReadEntries(n, rest) == Some((fs, x))
    ensures Read(b) == Some((Table(fs), x))
  {
  }

  lemma AscendingKeys(a: seq<Entry>, fs: seq<Entry>)
    requires Sorted(NameLe, Keys(a)) && Distinct(Keys(a)) && PairwiseSame(a, fs)
    ensures forall i, j | 0 <= i < j < |fs| :: KeyBefore(fs[i].key, fs[j].key)
  {
    forall i, j | 0 <= i < j < |fs| ensures KeyBefore(fs[i].key, fs[j].key) {
      assert NameLe(Keys(a)[i], Keys(a)[j]) && Keys(a)[i] != Keys(a)[j];
      NameLeMeans(fs[i].key, fs[j].key);
    }
  }

  lemma OneMoreEntry(a: seq<Entry>, f: Entry, tail: seq<Entry>)
    requires a != [] && a[0].key == f.key && Same(a[0].value, f.value) && InOrder(f.value)
    requires PairwiseSame(a[1..], tail) && forall i | 0 <= i < |tail| :: InOrder(tail[i].value)
    ensures PairwiseSame(a, [f] + tail) && forall i | 0 <= i < |[f] + tail| :: InOrder(([f] + tail)[i].value)
  {
    forall i | 0 < i < |a| ensures a[i].key == tail[i - 1].key && Same(a[i].value, tail[i - 1].value) {
      assert a[i] == a[1..][i - 1];
    }
  }

  lemma {:induction false} EntriesReadBack(a: seq<Entry>, es: seq<Entry>, x: Bytes) returns (fs: seq<Entry>)
    requires forall e | e in es :: Sized(e.key) && WellFormed(e.value)
    requires forall e | e in a :: e in es
    ensures ReadEntries(|a|, EmitEntries(a, es) + x) == Some((fs, x)) && PairwiseSame(a, fs)
    ensures forall i | 0 <= i < |fs| :: InOrder(fs[i].value)
    decreases es, 0, |a|
  {
    if a == [] {
      fs := [];
      assert [] + x == x;
    } else {
      var e, rest := a[0], EmitEntries(a[1..], es) + x;
      EntryBelow(es, e);
      EmitEntriesFront(a, es, x);
      FieldReadsBack(e.key, Emit(e.value) + rest);
      var w := ReadsBack(e.value, rest);
      var tail := EntriesReadBack(a[1..], es, x);
      fs := [Entry(e.key, w)] + tail;
      OneMoreEntry(a, fs[0], tail);
    }
  }
}
