/** Cutting a sequence at separators and joining the pieces again. */
module Cutting {

  /** Put one more member in front of what has been cut. */
  function Prepend<T(==)>(separators: set<T>, x: T, pieces: seq<seq<T>>): (r: seq<seq<T>>)
    requires pieces != []
    ensures r != [] && (|r| > 1 || r[0] != [])
  {
    if x in separators then [[]] + pieces else [[x] + pieces[0]] + pieces[1..]
  }

  /** Cut at every separator. */
  function Cut<T(==)>(separators: set<T>, s: seq<T>): (r: seq<seq<T>>)
    ensures r != []
  {
    if s == [] then [[]] else Prepend(separators, s[0], Cut(separators, s[1..]))
  }

  /** The pieces, with `glue` between them. */
  function Join<T>(glue: seq<T>, pieces: seq<seq<T>>): seq<T>
    requires pieces != []
  {
    if |pieces| == 1 then pieces[0] else pieces[0] + glue + Join(glue, pieces[1..])
  }

  lemma Associate<T>(a: seq<T>, b: seq<T>, c: seq<T>)
    ensures a + (b + c) == (a + b) + c
  {
  }

  lemma PrependJoined<T>(c: T, x: T, a: seq<seq<T>>, b: seq<seq<T>>)
    requires a != []
    ensures Prepend({c}, x, a + b) == Prepend({c}, x, a) + b
  {
    if x == c {
      Associate([[]], a, b);
    } else {
      assert (a + b)[1..] == a[1..] + b;
      Associate([[x] + a[0]], a[1..], b);
    }
  }

  lemma {:induction false} CutJoined<T>(c: T, a: seq<T>, b: seq<T>)
    ensures Cut({c}, a + [c] + b) == Cut({c}, a) + Cut({c}, b)
  {
    var whole := a + [c] + b;
    if a == [] {
      assert whole[0] == c && whole[1..] == b;
    } else {
      CutJoined(c, a[1..], b);
      assert whole[0] == a[0] && whole[1..] == a[1..] + [c] + b;
      PrependJoined(c, a[0], Cut({c}, a[1..]), Cut({c}, b));
    }
  }

  lemma {:induction false} CutWhole<T>(separators: set<T>, s: seq<T>)
    requires forall x | x in s :: x !in separators
    ensures Cut(separators, s) == [s]
  {
    if s != [] {
      CutWhole(separators, s[1..]);
      assert s == [s[0]] + s[1..];
    }
  }

  lemma JoinPrepended<T>(c: T, x: T, glue: seq<T>, pieces: seq<seq<T>>)
    requires pieces != []
    ensures Join(glue, Prepend({c}, x, pieces)) == (if x == c then glue else [x]) + Join(glue, pieces)
  {
    if x == c {
      assert ([[]] + pieces)[1..] == pieces;
    } else if |pieces| > 1 {
      assert ([[x] + pieces[0]] + pieces[1..])[1..] == pieces[1..];
      assert ([x] + pieces[0]) + glue + Join(glue, pieces[1..]) == [x] + (pieces[0] + glue + Join(glue, pieces[1..]));
    } else {
      assert pieces[1..] == [];
    }
  }

  /** Cutting at `c` loses nothing: with `c` between them, the pieces are the sequence again. */
  lemma {:induction false} JoinCut<T>(c: T, s: seq<T>)
    ensures Join([c], Cut({c}, s)) == s
  {
    if s != [] {
      JoinCut(c, s[1..]);
      JoinPrepended(c, s[0], [c], Cut({c}, s[1..]));
      assert s == [s[0]] + s[1..];
    }
  }

  /** And pieces without `c` come back from what they are joined to. */
  lemma {:induction false} CutJoin<T>(c: T, pieces: seq<seq<T>>)
    requires pieces != [] && forall p | p in pieces :: c !in p
    ensures Cut({c}, Join([c], pieces)) == pieces
  {
    CutWhole({c}, pieces[0]);
    if |pieces| > 1 {
      CutJoin(c, pieces[1..]);
      CutJoined(c, pieces[0], Join([c], pieces[1..]));
    }
    assert pieces == [pieces[0]] + pieces[1..];
  }

  /** No piece holds a separator. */
  lemma {:induction false} PiecesAreClean<T>(separators: set<T>, s: seq<T>)
    ensures forall p, x | p in Cut(separators, s) && x in p :: x !in separators
  {
    if s != [] {
      PiecesAreClean(separators, s[1..]);
      var rest := Cut(separators, s[1..]);
      assert forall p | p in rest[1..] :: p in rest;
      assert rest[0] in rest;
    }
  }

  /** Every member of a piece is a member of the sequence. */
  lemma {:induction false} CutMembers<T>(separators: set<T>, s: seq<T>, p: seq<T>)
    requires p in Cut(separators, s)
    ensures forall x | x in p :: x in s
  {
    if s != [] {
      var rest := Cut(separators, s[1..]);
      assert s == [s[0]] + s[1..];
      if p in rest {
        CutMembers(separators, s[1..], p);
      } else if p != [] {
        CutMembers(separators, s[1..], rest[0]);
      }
    }
  }

  /** Whatever is in what pieces are joined to is in one of them or in the glue. */
  lemma {:induction false} JoinMembers<T>(glue: seq<T>, pieces: seq<seq<T>>)
    requires pieces != []
    ensures forall x | x in Join(glue, pieces) :: x in glue || exists p :: p in pieces && x in p
  {
    assert pieces[0] in pieces;
    if |pieces| > 1 {
      JoinMembers(glue, pieces[1..]);
      assert forall p | p in pieces[1..] :: p in pieces;
    }
  }
}
