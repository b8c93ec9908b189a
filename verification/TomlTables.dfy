/** Table access by key, and TOML sameness read key by key. */
module TomlTables {
  import opened Prelude
  import opened Framing
  import opened Sorting
  import opened Toml

  function Find(es: seq<Entry>, k: Bytes): Option<Value> {
    if es == [] then None
    else if es[0].key == k then Some(es[0].value)
    else Find(es[1..], k)
  }

  /** Overwrite the value of a key in place, or add it at the end. */
  function Put(es: seq<Entry>, k: Bytes, v: Value): seq<Entry> {
    if es == [] then [Entry(k, v)]
    else if es[0].key == k then [Entry(k, v)] + es[1..]
    else [es[0]] + Put(es[1..], k, v)
  }

  function Remove(es: seq<Entry>, k: Bytes): seq<Entry> {
    if es == [] then []
    else if es[0].key == k then es[1..]
    else [es[0]] + Remove(es[1..], k)
  }

  /** `get` on a value: only tables have keys. */
  function Get(v: Value, k: Bytes): Option<Value> {
    if v.Table? then Find(v.entries, k) else None
  }

  ghost predicate UniqueKeys(es: seq<Entry>) {
    Distinct(Keys(es))
  }

  lemma {:induction false} FindMember(es: seq<Entry>, k: Bytes)
    ensures Find(es, k).Some? ==> Entry(k, Find(es, k).value) in es
    ensures Find(es, k).Some? <==> k in Keys(es)
  {
    if es != [] {
      FindMember(es[1..], k);
      KeysCons(es);
    }
  }

  lemma FindInPair(e: Entry, f: Entry, k: Bytes)
    ensures Find([e], k) == if e.key == k then Some(e.value) else None
    ensures Find([e, f], k) == if e.key == k then Some(e.value) else Find([f], k)
    ensures Find([f], k) == if f.key == k then Some(f.value) else None
  {
    assert [e][1..] == [] && [f][1..] == [] && [e, f][1..] == [f];
  }

  lemma KeysCons(es: seq<Entry>)
    requires es != []
    ensures Keys(es) == [es[0].key] + Keys(es[1..])
  {
  }

  lemma FindUnique(es: seq<Entry>, e: Entry)
    requires UniqueKeys(es) && e in es
    ensures Find(es, e.key) == Some(e.value)
  {
    KeyOf(es, e);
    FindMember(es, e.key);
    KeysDistinct(es);
  }

  lemma {:induction false} UniqueTail(es: seq<Entry>)
    requires es != [] && UniqueKeys(es)
    ensures UniqueKeys(es[1..]) && es[0].key !in Keys(es[1..])
  {
    KeysCons(es);
    DistinctCons(Keys(es));
  }

  lemma {:induction false} PutFind(es: seq<Entry>, k: Bytes, v: Value, q: Bytes)
    ensures Find(Put(es, k, v), q) == if q == k then Some(v) else Find(es, q)
  {
    if es != [] && es[0].key != k {
      PutFind(es[1..], k, v, q);
    }
  }

  lemma {:induction false} RemoveFind(es: seq<Entry>, k: Bytes, q: Bytes)
    requires UniqueKeys(es)
    ensures Find(Remove(es, k), q) == if q == k then None else Find(es, q)
  {
    if es != [] {
      UniqueTail(es);
      FindMember(es[1..], es[0].key);
      if es[0].key != k {
        RemoveFind(es[1..], k, q);
      }
    }
  }

  lemma {:induction false} PutUnique(es: seq<Entry>, k: Bytes, v: Value)
    requires UniqueKeys(es)
    ensures UniqueKeys(Put(es, k, v))
    ensures forall e | e in Put(es, k, v) :: e == Entry(k, v) || e in es
    ensures |Put(es, k, v)| == if k in Keys(es) then |es| else |es| + 1
  {
    if es != [] {
      UniqueTail(es);
      KeysCons(es);
      var r := Put(es, k, v);
      if es[0].key == k {
        KeysCons(r);
        DistinctCons(Keys(r));
      } else {
        PutUnique(es[1..], k, v);
        KeysCons(r);
        PutFind(es[1..], k, v, es[0].key);
        FindMember(es[1..], es[0].key);
        FindMember(r[1..], es[0].key);
        DistinctCons(Keys(r));
      }
    }
  }

  lemma {:induction false} RemoveUnique(es: seq<Entry>, k: Bytes)
    requires UniqueKeys(es)
    ensures UniqueKeys(Remove(es, k))
    ensures forall e | e in Remove(es, k) :: e in es
    ensures |Remove(es, k)| <= |es|
  {
    if es != [] {
      UniqueTail(es);
      if es[0].key != k {
        RemoveUnique(es[1..], k);
        var r := Remove(es, k);
        KeysCons(r);
        RemoveFind(es[1..], k, es[0].key);
        FindMember(es[1..], es[0].key);
        FindMember(r[1..], es[0].key);
        DistinctCons(Keys(r));
      }
    }
  }

  lemma {:induction false} PutSame(es: seq<Entry>, k: Bytes, v: Value)
    requires Find(es, k) == Some(v)
    ensures Put(es, k, v) == es
  {
    if es[0].key != k {
      PutSame(es[1..], k, v);
    }
  }

  lemma {:induction false} RemovePut(es: seq<Entry>, k: Bytes, v: Value)
    requires Find(es, k).None?
    ensures Remove(Put(es, k, v), k) == es
  {
    if es != [] {
      RemovePut(es[1..], k, v);
    }
  }

  lemma {:induction false} PutPut(es: seq<Entry>, k: Bytes, v: Value, w: Value)
    ensures Put(Put(es, k, v), k, w) == Put(es, k, w)
  {
    if es != [] && es[0].key != k {
      PutPut(es[1..], k, v, w);
    }
  }

  // ---------- Well-formedness ----------

  lemma WellFormedFind(es: seq<Entry>, k: Bytes)
    requires WellFormed(Table(es)) && Find(es, k).Some?
    ensures WellFormed(Find(es, k).value) && Sized(k)
  {
    FindMember(es, k);
    WellFormedEntries(es);
  }

  lemma WellFormedTable(es: seq<Entry>)
    requires Sized(es) && UniqueKeys(es) && forall e | e in es :: Sized(e.key) && WellFormed(e.value)
    ensures WellFormed(Table(es))
  {
  }

  lemma WellFormedPut(es: seq<Entry>, k: Bytes, v: Value)
    requires WellFormed(Table(es)) && Sized(k) && WellFormed(v)
    requires |es| + 1 < U64 || Find(es, k).Some?
    ensures WellFormed(Table(Put(es, k, v)))
  {
    PutUnique(es, k, v);
    FindMember(es, k);
    WellFormedEntries(es);
    WellFormedTable(Put(es, k, v));
  }

  lemma WellFormedRemove(es: seq<Entry>, k: Bytes)
    requires WellFormed(Table(es))
    ensures WellFormed(Table(Remove(es, k)))
  {
    RemoveUnique(es, k);
    WellFormedEntries(es);
    WellFormedTable(Remove(es, k));
  }

  // ---------- Sameness, key by key ----------

  ghost predicate SameOption(a: Option<Value>, b: Option<Value>) {
    (a.None? && b.None?) || (a.Some? && b.Some? && Same(a.value, b.value))
  }

  /** Two entry lists that agree, up to sameness, on every key but one. */
  ghost predicate AgreeExcept(es: seq<Entry>, fs: seq<Entry>, k: Bytes) {
    forall q | q != k :: SameOption(Find(es, q), Find(fs, q))
  }

  lemma SameFind(es: seq<Entry>, fs: seq<Entry>, k: Bytes)
    requires WellFormed(Table(es)) && WellFormed(Table(fs)) && Same(Table(es), Table(fs))
    ensures SameOption(Find(es, k), Find(fs, k))
  {
    SameEntriesAlign(es, fs);
    var a, b := ByKey(es), ByKey(fs);
    FindMember(es, k);
    FindMember(fs, k);
    if Find(es, k).Some? {
      var f := SameEntry(es, fs, Entry(k, Find(es, k).value));
      FindUnique(fs, f);
    } else if Find(fs, k).Some? {
      var f := Entry(k, Find(fs, k).value);
      assert f in b;
      var i :| 0 <= i < |b| && b[i] == f;
      assert a[i] in es && a[i].key == k;
      KeyOf(es, a[i]);
    }
  }

  lemma SameByFind(es: seq<Entry>, fs: seq<Entry>)
    requires UniqueKeys(es) && UniqueKeys(fs)
    requires forall k :: SameOption(Find(es, k), Find(fs, k))
    ensures Same(Table(es), Table(fs))
  {
    forall k ensures k in Keys(es) <==> k in Keys(fs) {
      FindMember(es, k);
      FindMember(fs, k);
      assert SameOption(Find(es, k), Find(fs, k));
    }
    DistinctSameMembers(Keys(es), Keys(fs));
    assert |multiset(Keys(es))| == |es| && |multiset(Keys(fs))| == |fs|;
    forall i | 0 <= i < |es| ensures HasSame(es[i], fs) {
      FindUnique(es, es[i]);
      assert SameOption(Find(es, es[i].key), Find(fs, es[i].key));
      FindMember(fs, es[i].key);
    }
  }

  lemma SameReflexive(v: Value)
    requires WellFormed(v)
    ensures Same(v, v)
  {
    EmitIdentifies(v, v);
  }

  /** Two tables that are the same stay so when the value of one key is exchanged for same values. */
  lemma SamePut(es: seq<Entry>, fs: seq<Entry>, k: Bytes, v: Value, w: Value)
    requires WellFormed(Table(es)) && WellFormed(Table(fs))
    requires AgreeExcept(es, fs, k)
    requires Same(v, w)
    ensures Same(Table(Put(es, k, v)), Table(Put(fs, k, w)))
  {
    PutUnique(es, k, v);
    PutUnique(fs, k, w);
    forall q ensures SameOption(Find(Put(es, k, v), q), Find(Put(fs, k, w), q)) {
      PutFind(es, k, v, q);
      PutFind(fs, k, w, q);
    }
    SameByFind(Put(es, k, v), Put(fs, k, w));
  }

  lemma SameRemove(es: seq<Entry>, fs: seq<Entry>, k: Bytes)
    requires WellFormed(Table(es)) && WellFormed(Table(fs))
    requires AgreeExcept(es, fs, k)
    ensures Same(Table(Remove(es, k)), Table(Remove(fs, k)))
  {
    RemoveUnique(es, k);
    RemoveUnique(fs, k);
    forall q ensures SameOption(Find(Remove(es, k), q), Find(Remove(fs, k), q)) {
      RemoveFind(es, k, q);
      RemoveFind(fs, k, q);
    }
    SameByFind(Remove(es, k), Remove(fs, k));
  }

  /** What two tables have in common once one key is removed from both. */
  lemma SameElsewhere(es: seq<Entry>, fs: seq<Entry>, k: Bytes)
    requires WellFormed(Table(es)) && WellFormed(Table(fs))
    requires Same(Table(Remove(es, k)), Table(Remove(fs, k)))
    ensures AgreeExcept(es, fs, k)
  {
    WellFormedRemove(es, k);
    WellFormedRemove(fs, k);
    forall q | q != k ensures SameOption(Find(es, q), Find(fs, q)) {
      SameFind(Remove(es, k), Remove(fs, k), q);
      RemoveFind(es, k, q);
      RemoveFind(fs, k, q);
    }
  }
}
