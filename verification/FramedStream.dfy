/** A stream of two counted lists of framed pairs behind a fixed header. */
module FramedStream {
  import opened Prelude
  import opened Framing
  import opened Cutting

  type Pair = (Bytes, Bytes)

  function Fields(ps: seq<Pair>): Bytes {
    if ps == [] then [] else Fields(ps[..|ps| - 1]) + (Field(ps[|ps| - 1].0) + Field(ps[|ps| - 1].1))
  }

  function Counted(ps: seq<Pair>): Bytes {
    Word(|ps|) + Fields(ps)
  }

  ghost predicate Addressable(ps: seq<Pair>) {
    |ps| < U64 && forall i | 0 <= i < |ps| :: |ps[i].0| < U64 && |ps[i].1| < U64
  }

  lemma FieldsStep(ps: seq<Pair>, p: Pair)
    ensures Fields(ps + [p]) == Fields(ps) + (Field(p.0) + Field(p.1))
  {
    assert (ps + [p])[..|ps|] == ps;
  }

  /** Appending one framed pair to a stream that announced `total` of them. */
  lemma CountedStep(total: nat, ps: seq<Pair>, p: Pair)
    ensures Word(total) + Fields(ps + [p]) == (Word(total) + Fields(ps)) + (Field(p.0) + Field(p.1))
  {
    FieldsStep(ps, p);
    Associate(Word(total), Fields(ps), Field(p.0) + Field(p.1));
  }

  lemma Regroup(a: Bytes, b: Bytes, c: Bytes, x: Bytes)
    ensures (a + (b + c)) + x == a + (b + (c + x))
  {
  }

  lemma LastPair(ps: seq<Pair>, x: Bytes)
    requires ps != []
    ensures var n := |ps| - 1;
      Fields(ps) + x == Fields(ps[..n]) + (Field(ps[n].0) + (Field(ps[n].1) + x))
  {
    var n := |ps| - 1;
    Regroup(Fields(ps[..n]), Field(ps[n].0), Field(ps[n].1), x);
  }

  lemma PairPrefix(p: Pair, q: Pair, x: Bytes, y: Bytes)
    requires |p.0| < U64 && |p.1| < U64 && |q.0| < U64 && |q.1| < U64
    requires Field(p.0) + (Field(p.1) + x) == Field(q.0) + (Field(q.1) + y)
    ensures p == q && x == y
  {
    FieldPrefix(p.0, q.0, Field(p.1) + x, Field(q.1) + y);
    FieldPrefix(p.1, q.1, x, y);
  }

  lemma SameLast(ps: seq<Pair>, qs: seq<Pair>)
    requires |ps| == |qs| > 0 && ps[..|ps| - 1] == qs[..|qs| - 1] && ps[|ps| - 1] == qs[|qs| - 1]
    ensures ps == qs
  {
    assert ps == ps[..|ps| - 1] + [ps[|ps| - 1]] && qs == qs[..|qs| - 1] + [qs[|qs| - 1]];
  }

  lemma {:induction false} FieldsPrefix(ps: seq<Pair>, qs: seq<Pair>, x: Bytes, y: Bytes)
    requires Addressable(ps) && Addressable(qs) && |ps| == |qs|
    requires Fields(ps) + x == Fields(qs) + y
    ensures ps == qs && x == y
  {
    if ps != [] {
      var n := |ps| - 1;
      var u, v := Field(ps[n].0) + (Field(ps[n].1) + x), Field(qs[n].0) + (Field(qs[n].1) + y);
      LastPair(ps, x);
      LastPair(qs, y);
      FieldsPrefix(ps[..n], qs[..n], u, v);
      PairPrefix(ps[n], qs[n], x, y);
      SameLast(ps, qs);
    } else {
      assert [] + x == x && [] + y == y;
    }
  }

  lemma CountedPrefix(ps: seq<Pair>, qs: seq<Pair>, x: Bytes, y: Bytes)
    requires Addressable(ps) && Addressable(qs)
    requires Counted(ps) + x == Counted(qs) + y
    ensures ps == qs && x == y
  {
    Associate(Word(|ps|), Fields(ps), x);
    Associate(Word(|qs|), Fields(qs), y);
    LengthPrefix(|ps|, |qs|, Fields(ps) + x, Fields(qs) + y);
    FieldsPrefix(ps, qs, x, y);
  }

  /** Two streams are equal exactly when they carry the same two lists: no name, content or list
      boundary can shift. */
  lemma StreamDecodes(header: Bytes, i1: seq<Pair>, f1: seq<Pair>, i2: seq<Pair>, f2: seq<Pair>)
    requires Addressable(i1) && Addressable(f1) && Addressable(i2) && Addressable(f2)
    ensures header + (Counted(i1) + Counted(f1)) == header + (Counted(i2) + Counted(f2)) <==> i1 == i2 && f1 == f2
  {
    if header + (Counted(i1) + Counted(f1)) == header + (Counted(i2) + Counted(f2)) {
      SplitEqual(header, header, Counted(i1) + Counted(f1), Counted(i2) + Counted(f2));
      CountedPrefix(i1, i2, Counted(f1), Counted(f2));
      assert Counted(f1) + [] == Counted(f2) + [];
      CountedPrefix(f1, f2, [], []);
    }
  }
}
