/** Byte strings, fixed-width little-endian integers, and length-framed fields. */
module Framing {
  import opened Prelude

  newtype Byte = x: int | 0 <= x < 256

  type Bytes = seq<Byte>

  /** The bytes of an ASCII literal. */
  function Ascii(s: string): (r: Bytes)
    ensures |r| == |s|
  {
    seq(|s|, i requires 0 <= i < |s| => (s[i] as int % 256) as Byte)
  }

  function LittleEndian(n: nat, width: nat): (r: Bytes)
    ensures |r| == width
  {
    if width == 0 then [] else [(n % 256) as Byte] + LittleEndian(n / 256, width - 1)
  }

  function FromLittleEndian(b: Bytes): nat {
    if b == [] then 0 else b[0] as int + 256 * FromLittleEndian(b[1..])
  }

  function Pow256(width: nat): nat {
    if width == 0 then 1 else 256 * Pow256(width - 1)
  }

  lemma {:induction false} LittleEndianRoundTrip(n: nat, width: nat)
    requires n < Pow256(width)
    ensures FromLittleEndian(LittleEndian(n, width)) == n
  {
    if width != 0 {
      LittleEndianRoundTrip(n / 256, width - 1);
      assert LittleEndian(n, width)[1..] == LittleEndian(n / 256, width - 1);
    }
  }

  /** A 64-bit word; the argument is reduced as an `as u64` cast (or two's complement) reduces it. */
  function Word(n: int): (r: Bytes)
    ensures |r| == 8
  {
    LittleEndian(n % U64, 8)
  }

  /** A word reads back as the number it was reduced to. */
  lemma WordReads(n: int)
    ensures FromLittleEndian(Word(n)) == n % U64
  {
    assert Pow256(8) == U64 by {
      assert Pow256(2) == 0x1_0000;
      assert Pow256(4) == 0x1_0000_0000;
      assert Pow256(6) == 0x1_0000_0000_0000;
    }
    LittleEndianRoundTrip(n % U64, 8);
  }

  lemma WordDetermines(m: int, n: int)
    requires Word(m) == Word(n)
    ensures m % U64 == n % U64
  {
    WordReads(m);
    WordReads(n);
  }

  /** Length in front, then the bytes. */
  function Field(b: Bytes): (r: Bytes)
    ensures |r| == 8 + |b|
  {
    Word(|b|) + b
  }

  lemma SplitEqual<T>(p: seq<T>, q: seq<T>, x: seq<T>, y: seq<T>)
    requires |p| == |q| && p + x == q + y
    ensures p == q && x == y
  {
    assert (p + x)[..|p|] == p && (q + y)[..|q|] == q;
    assert (p + x)[|p|..] == x && (q + y)[|q|..] == y;
  }

  lemma WordPrefix(m: int, n: int, x: Bytes, y: Bytes)
    requires Word(m) + x == Word(n) + y
    ensures m % U64 == n % U64 && x == y
  {
    SplitEqual(Word(m), Word(n), x, y);
    WordDetermines(m, n);
  }

  lemma SmallResidue(n: nat)
    requires n < U64
    ensures n % U64 == n
  {
  }

  lemma SignedResidue(m: int, n: int)
    requires -U64 <= 2 * m < U64 && -U64 <= 2 * n < U64
    requires m % U64 == n % U64
    ensures m == n
  {
    assert m % U64 == if m < 0 then m + U64 else m;
    assert n % U64 == if n < 0 then n + U64 else n;
  }

  lemma LengthPrefix(m: nat, n: nat, x: Bytes, y: Bytes)
    requires m < U64 && n < U64
    requires Word(m) + x == Word(n) + y
    ensures m == n && x == y
  {
    WordPrefix(m, n, x, y);
    SmallResidue(m);
    SmallResidue(n);
  }

  lemma SignedPrefix(m: int, n: int, x: Bytes, y: Bytes)
    requires -U64 <= 2 * m < U64 && -U64 <= 2 * n < U64
    requires Word(m) + x == Word(n) + y
    ensures m == n && x == y
  {
    WordPrefix(m, n, x, y);
    SignedResidue(m, n);
  }

  lemma FieldFront(a: Bytes, x: Bytes)
    ensures Field(a) + x == Word(|a|) + (a + x)
  {
  }

  /** A framed field can be cut off the front of any stream in only one way. */
  lemma FieldPrefix(a: Bytes, b: Bytes, x: Bytes, y: Bytes)
    requires |a| < U64 && |b| < U64
    requires Field(a) + x == Field(b) + y
    ensures a == b && x == y
  {
    FieldFront(a, x);
    FieldFront(b, y);
    LengthPrefix(|a|, |b|, a + x, b + y);
    SplitEqual(a, b, x, y);
  }
}
