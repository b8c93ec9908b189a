/** The names under which paths enter the fingerprint (build_support/source_ingest_contract.rs). */
module PathNames {
  import opened Framing
  import opened Cutting

  const SLASH: Byte := 47
  const BACKSLASH: Byte := 92

  /** Components joined by slashes, then every backslash turned into a slash. */
  function Render(p: seq<Bytes>): Bytes {
    if p == [] then [] else
      if |p| == 1 then Slashed(p[0]) else Slashed(p[0]) + [SLASH] + Render(p[1..])
  }

  function Slashed(name: Bytes): (r: Bytes)
    ensures |r| == |name|
  {
    seq(|name|, i requires 0 <= i < |name| => if name[i] == BACKSLASH then SLASH else name[i])
  }

  // ---------- What a name says about its path ----------

  /** All components of a path, cut again where they hold a slash or a backslash themselves. */
  function Pieces(p: seq<Bytes>): seq<Bytes> {
    if p == [] then [] else Cut({SLASH, BACKSLASH}, p[0]) + Pieces(p[1..])
  }

  /** No component holds a separator. */
  ghost predicate Portable(p: seq<Bytes>) {
    p != [] && forall c | c in p :: SLASH !in c && BACKSLASH !in c
  }

  lemma {:induction false} CutSlashed(name: Bytes)
    ensures Cut({SLASH}, Slashed(name)) == Cut({SLASH, BACKSLASH}, name)
  {
    if name != [] {
      CutSlashed(name[1..]);
      assert Slashed(name)[1..] == Slashed(name[1..]);
    }
  }

  /** A name, cut at its slashes, is the path's components, cut where they hold separators themselves. */
  lemma {:induction false} RenderMeans(p: seq<Bytes>)
    requires p != []
    ensures Cut({SLASH}, Render(p)) == Pieces(p)
  {
    CutSlashed(p[0]);
    if |p| > 1 {
      RenderMeans(p[1..]);
      CutJoined(SLASH, Slashed(p[0]), Render(p[1..]));
    } else {
      assert p[1..] == [];
      assert Pieces(p) == Cut({SLASH, BACKSLASH}, p[0]) + [];
    }
  }

  /** Two paths get the same name exactly when they have the same pieces. */
  lemma SameRendering(p: seq<Bytes>, q: seq<Bytes>)
    requires p != [] && q != []
    ensures Render(p) == Render(q) <==> Pieces(p) == Pieces(q)
  {
    RenderMeans(p);
    RenderMeans(q);
    JoinCut(SLASH, Render(p));
    JoinCut(SLASH, Render(q));
  }

  lemma {:induction false} PortablePieces(p: seq<Bytes>)
    requires forall c | c in p :: SLASH !in c && BACKSLASH !in c
    ensures Pieces(p) == p
  {
    if p != [] {
      CutWhole({SLASH, BACKSLASH}, p[0]);
      PortablePieces(p[1..]);
      assert p == [p[0]] + p[1..];
    }
  }

  /** Without separators in its components, a path can be read back from its name. */
  lemma PortableRoundTrip(p: seq<Bytes>)
    requires Portable(p)
    ensures Cut({SLASH}, Render(p)) == p
  {
    RenderMeans(p);
    PortablePieces(p);
  }
}
