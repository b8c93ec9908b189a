/** A pruning worklist walk over a finite directory tree, for any rule of what to skip. */
module TreeWalk {
  import opened Prelude
  import opened Framing
  import opened Sorting

  /** A path relative to the walked directory, by components. */
  type Path = seq<Bytes>

  datatype Node =
    | Directory
    | File(content: Bytes)
    | Unreadable              // neither a directory nor something that can be read

  type Tree = map<Path, Node>

  predicate HasDirectory(fs: Tree, p: Path) {
    p in fs && fs[p].Directory?
  }

  function Parent(p: Path): Path
    requires p != []
  {
    p[..|p| - 1]
  }

  /** Every entry lies in a directory. */
  ghost predicate Rooted(fs: Tree) {
    forall p | p in fs :: p != [] && (|p| > 1 ==> HasDirectory(fs, Parent(p)))
  }

  /** Not skipped, and neither is any directory on the way from one of the roots. */
  ghost predicate Reached(skip: Path -> bool, roots: seq<Bytes>, p: Path)
    decreases |p|
  {
    p != [] && if |p| == 1 then p[0] in roots else !skip(p) && Reached(skip, roots, Parent(p))
  }

  ghost function ReachedFiles(skip: Path -> bool, roots: seq<Bytes>, fs: Tree): set<Path> {
    set p | p in fs && |p| > 1 && !fs[p].Directory? && Reached(skip, roots, p)
  }

  ghost function ReachedDirectories(skip: Path -> bool, roots: seq<Bytes>, fs: Tree): set<Path> {
    set p | p in fs && fs[p].Directory? && Reached(skip, roots, p)
  }

  function Children(fs: Tree, directory: Path): set<Path> {
    set p | p in fs && p != [] && Parent(p) == directory
  }

  /** Everything on the worklist or visited is a reached directory (roots may still turn out not
      to be); nothing is there twice, and each came from a visited parent. */
  ghost predicate WorkInvariant(skip: Path -> bool, roots: seq<Bytes>, fs: Tree, work: seq<Path>, visited: set<Path>) {
    && Distinct(work)
    && (forall p | p in work :: p !in visited && Reached(skip, roots, p) && (|p| == 1 || HasDirectory(fs, p)))
    && visited <= ReachedDirectories(skip, roots, fs)
    && (forall p | p in work || p in visited :: |p| == 1 || (p != [] && Parent(p) in visited))
    && (forall r | r in roots :: [r] in work || [r] in visited)
  }

  /** Every reached entry of a visited directory, except those in `rest`, has been dealt with. */
  ghost predicate ReadInvariant(skip: Path -> bool, roots: seq<Bytes>, fs: Tree, seed: set<Path>,
                                work: seq<Path>, visited: set<Path>, inputs: set<Path>, rest: set<Path>) {
    && seed <= inputs && inputs <= seed + ReachedFiles(skip, roots, fs)
    && (forall p | p in fs && |p| > 1 && Parent(p) in visited && p !in rest && !skip(p) ::
          if fs[p].Directory? then p in work || p in visited else p in inputs)
  }

  lemma PopLast(work: seq<Path>)
    requires work != [] && Distinct(work)
    ensures var n := |work| - 1;
      Distinct(work[..n]) && work[n] !in work[..n] && forall p :: p in work <==> p == work[n] || p in work[..n]
  {
    var n := |work| - 1;
    assert work == work[..n] + [work[n]];
    forall i | 0 <= i < n ensures work[i] != work[n] {}
  }

  lemma PushFresh(work: seq<Path>, p: Path)
    requires Distinct(work) && p !in work
    ensures Distinct(work + [p])
  {
  }

  lemma VisitDirectory(skip: Path -> bool, roots: seq<Bytes>, fs: Tree, work: seq<Path>, visited: set<Path>)
    requires Rooted(fs) && work != [] && WorkInvariant(skip, roots, fs, work, visited)
    requires HasDirectory(fs, work[|work| - 1])
    ensures var n := |work| - 1;
      && WorkInvariant(skip, roots, fs, work[..n], visited + {work[n]})
      && (forall p | p in Children(fs, work[n]) :: p !in visited + {work[n]} && p !in work[..n])
  {
    PopLast(work);
    var n := |work| - 1;
    forall p | p in Children(fs, work[n]) ensures p !in visited && p != work[n] && p !in work[..n] {
      assert |p| == |work[n]| + 1 && |p| > 1;
    }
  }

  lemma PushChild(skip: Path -> bool, roots: seq<Bytes>, fs: Tree, work: seq<Path>, visited: set<Path>, p: Path)
    requires WorkInvariant(skip, roots, fs, work, visited)
    requires |p| > 1 && HasDirectory(fs, p) && Parent(p) in visited && !skip(p)
    requires p !in work && p !in visited
    ensures WorkInvariant(skip, roots, fs, work + [p], visited)
  {
    PushFresh(work, p);
  }

  /** One directory's entries, in whatever order the file system lists them. */
  method ReadDirectory(skip: Path -> bool, ghost roots: seq<Bytes>, fs: Tree, ghost seed: set<Path>,
                       directory: Path, ghost visited: set<Path>, work: seq<Path>, inputs: set<Path>)
    returns (work': seq<Path>, inputs': set<Path>)
    requires Rooted(fs) && directory in visited
    requires WorkInvariant(skip, roots, fs, work, visited)
    requires ReadInvariant(skip, roots, fs, seed, work, visited, inputs, Children(fs, directory))
    requires forall p | p in Children(fs, directory) :: p !in visited && p !in work
    ensures WorkInvariant(skip, roots, fs, work', visited)
    ensures ReadInvariant(skip, roots, fs, seed, work', visited, inputs', {})
  {
    work', inputs' := work, inputs;
    var rest := Children(fs, directory);
    while rest != {}
      invariant WorkInvariant(skip, roots, fs, work', visited)
      invariant ReadInvariant(skip, roots, fs, seed, work', visited, inputs', rest)
      invariant rest <= Children(fs, directory)
      invariant forall p | p in rest :: p !in work'
    {
      var path :| path in rest;
      assert Parent(path) == directory && |path| > 1;
      rest := rest - {path};
      if !skip(path) {
        if fs[path].Directory? {
          PushChild(skip, roots, fs, work', visited, path);
          work' := work' + [path];
        } else {
          inputs' := inputs' + {path};
        }
      }
    }
  }

  /** The walk fails exactly when a root is not a directory; otherwise it collects the reached
      files and visits the reached directories, whatever the listing order. */
  method Walk(skip: Path -> bool, roots: seq<Bytes>, fs: Tree, seed: set<Path>)
    returns (r: Result<set<Path>, Path>, watched: set<Path>)
    requires Rooted(fs) && Distinct(roots)
    ensures r.Success? <==> forall name | name in roots :: HasDirectory(fs, [name])
    ensures r.Success? ==>
      r.value == seed + ReachedFiles(skip, roots, fs) && watched == ReachedDirectories(skip, roots, fs)
    ensures r.Failure? ==> |r.error| == 1 && r.error[0] in roots && !HasDirectory(fs, r.error)
  {
    var inputs := seed;
    var work := seq(|roots|, i requires 0 <= i < |roots| => [roots[i]]);
    watched := {};
    RootsQueued(skip, roots, fs, work);
    while work != []
      invariant WorkInvariant(skip, roots, fs, work, watched)
      invariant ReadInvariant(skip, roots, fs, seed, work, watched, inputs, {})
      decreases ReachedDirectories(skip, roots, fs) - watched
    {
      var n := |work| - 1;
      var directory := work[n];
      if !HasDirectory(fs, directory) {
        RootMissing(skip, roots, fs, work, watched);
        return Failure(directory), watched;
      }
      VisitDirectory(skip, roots, fs, work, watched);
      PopLast(work);
      watched := watched + {directory};
      work := work[..n];
      work, inputs := ReadDirectory(skip, roots, fs, seed, directory, watched, work, inputs);
    }
    EverythingVisited(skip, roots, fs, seed, watched, inputs);
    r := Success(inputs);
  }

  lemma RootsQueued(skip: Path -> bool, roots: seq<Bytes>, fs: Tree, work: seq<Path>)
    requires Distinct(roots) && |work| == |roots| && forall i | 0 <= i < |roots| :: work[i] == [roots[i]]
    ensures WorkInvariant(skip, roots, fs, work, {})
  {
    forall i, j | 0 <= i < j < |work| ensures work[i] != work[j] { assert work[i][0] != work[j][0]; }
    forall r | r in roots ensures [r] in work {
      var i :| 0 <= i < |roots| && roots[i] == r;
      assert work[i] == [r];
    }
  }

  lemma RootMissing(skip: Path -> bool, roots: seq<Bytes>, fs: Tree, work: seq<Path>, visited: set<Path>)
    requires work != [] && WorkInvariant(skip, roots, fs, work, visited) && !HasDirectory(fs, work[|work| - 1])
    ensures var d := work[|work| - 1]; |d| == 1 && d[0] in roots && d == [d[0]]
  {
    assert work[|work| - 1] in work;
  }

  lemma EverythingVisited(skip: Path -> bool, roots: seq<Bytes>, fs: Tree, seed: set<Path>, visited: set<Path>,
                          inputs: set<Path>)
    requires Rooted(fs) && WorkInvariant(skip, roots, fs, [], visited)
    requires ReadInvariant(skip, roots, fs, seed, [], visited, inputs, {})
    ensures inputs == seed + ReachedFiles(skip, roots, fs) && visited == ReachedDirectories(skip, roots, fs)
    ensures forall name | name in roots :: HasDirectory(fs, [name])
  {
    forall p | p in fs && Reached(skip, roots, p) && fs[p].Directory? ensures p in visited {
      ReachedVisited(skip, roots, fs, seed, visited, inputs, p);
    }
    forall p | p in ReachedFiles(skip, roots, fs) ensures p in inputs {
      assert HasDirectory(fs, Parent(p)) && Reached(skip, roots, Parent(p));
    }
  }

  lemma {:induction false} ReachedVisited(skip: Path -> bool, roots: seq<Bytes>, fs: Tree, seed: set<Path>,
                                          visited: set<Path>, inputs: set<Path>, p: Path)
    requires Rooted(fs) && WorkInvariant(skip, roots, fs, [], visited)
    requires ReadInvariant(skip, roots, fs, seed, [], visited, inputs, {})
    requires p in fs && Reached(skip, roots, p) && fs[p].Directory?
    ensures p in visited
    decreases |p|
  {
    if |p| == 1 {
      assert p == [p[0]];
    } else {
      ReachedVisited(skip, roots, fs, seed, visited, inputs, Parent(p));
    }
  }

  /** Reaching a path means that nothing from the second component on is skipped. */
  lemma {:induction false} ReachedPrefixes(skip: Path -> bool, roots: seq<Bytes>, p: Path)
    ensures Reached(skip, roots, p) <==>
      p != [] && p[0] in roots && forall n | 2 <= n <= |p| :: !skip(p[..n])
    decreases |p|
  {
    if |p| > 1 {
      var d := Parent(p);
      ReachedPrefixes(skip, roots, d);
      assert p[..|p|] == p;
      assert forall n | 2 <= n < |p| :: p[..n] == d[..n];
      if forall n | 2 <= n <= |p| :: !skip(p[..n]) {
        forall n | 2 <= n <= |d| ensures !skip(d[..n]) { assert d[..n] == p[..n]; }
      }
    }
  }

  // ---------- Pruning by a list of directories and a list of files ----------

  /** Anything in or below one of `dirs`, and `files` themselves. */
  predicate Listed(dirs: seq<Path>, files: seq<Path>, p: Path) {
    (exists i | 0 <= i < |dirs| :: dirs[i] <= p) || p in files
  }

  function SkipListed(dirs: seq<Path>, files: seq<Path>): Path -> bool {
    p => Listed(dirs, files, p)
  }

  /** What such lists are meant to keep: every non-directory that is not itself listed. */
  ghost function KeptFiles(dirs: seq<Path>, files: seq<Path>, roots: seq<Bytes>, fs: Tree): set<Path> {
    set p | p in fs && |p| > 1 && !fs[p].Directory? && p[0] in roots && !Listed(dirs, files, p)
  }

  lemma KeptFrom(dirs: seq<Path>, files: seq<Path>, a: Bytes, b: Bytes, fs: Tree, p: Path)
    ensures p in KeptFiles(dirs, files, [a, b], fs) <==>
      && p in fs && |p| > 1 && !fs[p].Directory? && (p[0] == a || p[0] == b) && p !in files
      && forall i | 0 <= i < |dirs| :: !(dirs[i] <= p)
  {
  }

  /** No listed file name is a directory with something in it. */
  ghost predicate FilesAreFiles(files: seq<Path>, fs: Tree) {
    forall p, f | p in fs && !fs[p].Directory? && f in files :: !(f < p)
  }

  /** Listed files lie below a root; no listed path is above another one. */
  ghost predicate SeparateLists(dirs: seq<Path>, files: seq<Path>, roots: seq<Bytes>) {
    && (forall f | f in files :: |f| > 1 && f[0] in roots)
    && (forall d, f | d in dirs && f in files :: !(d <= f) && !(f <= d))
    && (forall f, g | f in files && g in files :: !(f < g))
  }

  lemma KeptUnlessBelowFile(dirs: seq<Path>, files: seq<Path>, roots: seq<Bytes>, p: Path)
    requires p != [] && p[0] in roots && !Listed(dirs, files, p)
    requires forall f | f in files :: !(f < p)
    ensures Reached(SkipListed(dirs, files), roots, p)
  {
    ReachedPrefixes(SkipListed(dirs, files), roots, p);
    forall n | 2 <= n <= |p| ensures !Listed(dirs, files, p[..n]) {
      if n < |p| {
        assert p[..n] < p;
        assert forall i | 0 <= i < |dirs| :: dirs[i] <= p[..n] ==> dirs[i] <= p;
      } else {
        assert p[..n] == p;
      }
    }
  }

  lemma PrefixesComparable(a: Path, b: Path, p: Path)
    ensures a <= p && b <= p ==> a <= b || b <= a
  {
    if a <= p && b <= p {
      assert forall i | 0 <= i < |a| && i < |b| :: a[i] == p[i] == b[i];
    }
  }

  lemma BelowFileIsPruned(dirs: seq<Path>, files: seq<Path>, roots: seq<Bytes>, p: Path, f: Path)
    requires SeparateLists(dirs, files, roots) && f in files && f < p
    ensures |p| > 1 && p[0] in roots && !Listed(dirs, files, p) && !Reached(SkipListed(dirs, files), roots, p)
  {
    ReachedPrefixes(SkipListed(dirs, files), roots, p);
    assert p[..|f|] == f && Listed(dirs, files, f);
    forall i | 0 <= i < |dirs| ensures !(dirs[i] <= p) {
      assert dirs[i] in dirs;
      PrefixesComparable(dirs[i], f, p);
    }
  }

  /** Pruning by directory keeps what the lists are meant to keep exactly when no listed file name
      is a directory holding other files. */
  lemma PruningIsExact(dirs: seq<Path>, files: seq<Path>, roots: seq<Bytes>, fs: Tree)
    requires SeparateLists(dirs, files, roots)
    ensures ReachedFiles(SkipListed(dirs, files), roots, fs) == KeptFiles(dirs, files, roots, fs)
       <==> FilesAreFiles(files, fs)
  {
    var skip := SkipListed(dirs, files);
    if FilesAreFiles(files, fs) {
      forall p | p in fs && |p| > 1 && !fs[p].Directory?
        ensures Reached(skip, roots, p) <==> p[0] in roots && !Listed(dirs, files, p)
      {
        if p[0] in roots && !Listed(dirs, files, p) {
          KeptUnlessBelowFile(dirs, files, roots, p);
        } else {
          ReachedPrefixes(skip, roots, p);
          assert p[..|p|] == p;
        }
      }
    } else {
      var p, f :| p in fs && !fs[p].Directory? && f in files && f < p;
      BelowFileIsPruned(dirs, files, roots, p, f);
      assert p in KeptFiles(dirs, files, roots, fs) && p !in ReachedFiles(skip, roots, fs);
    }
  }

  /** A project in which `[root, name]` is a directory that holds `file`. */
  function NestedFile(root: Bytes, name: Bytes, file: Bytes, content: Bytes): Tree {
    map[[root] := Directory, [root, name] := Directory, [root, name, file] := File(content)]
  }

  /** If the lists name `[root, name]` as a file, the walk drops what they are not meant to exclude. */
  lemma NestedFileIsDropped(dirs: seq<Path>, files: seq<Path>, roots: seq<Bytes>,
                            root: Bytes, name: Bytes, file: Bytes, content: Bytes)
    requires root in roots && [root, name] in files
    requires !Listed(dirs, files, [root, name, file])
    ensures var fs := NestedFile(root, name, file, content);
      && Rooted(fs)
      && [root, name, file] in KeptFiles(dirs, files, roots, fs)
      && [root, name, file] !in ReachedFiles(SkipListed(dirs, files), roots, fs)
  {
    var dropped := [root, name, file];
    assert Parent(dropped) == [root, name] && Parent([root, name]) == [root];
    var skip := SkipListed(dirs, files);
    assert skip([root, name]) && !Reached(skip, roots, [root, name]) && !Reached(skip, roots, dropped);
  }
}
