/** The lexical owner's index guard: a flat list of pinned descriptors that must agree with a whole
    directory tree (scripts/cass_lexical_ipc.py). */
module IndexGuard {
  import opened Prelude
  import opened Sorting
  import opened Framing
  import opened Toml

  const MAX_FILES := 4096
  const MAX_DEPTH := 16

  type Name = Bytes
  type Inode = nat

  datatype Kind = Dir | Regular | Other

  /** Everything `stamp` compares; it contains the inode's identity and its file type. */
  datatype Stamp = Stamp(inode: Inode, kind: Kind, metadata: int)

  datatype Entry = Entry(stamp: Stamp, children: map<Name, Inode>)

  /** The inodes that can be reached or are pinned, and what the guarded path opens as, if it does. */
  datatype FileSystem = FileSystem(inodes: map<Inode, Entry>, root: Option<Inode>)

  /** A stamp identifies its inode. */
  ghost predicate Consistent(fs: FileSystem) {
    forall i | i in fs.inodes :: fs.inodes[i].stamp.inode == i
  }

  /** One guarded descriptor. A descriptor pins its inode, so the two are not distinguished. */
  datatype Node = Node(fd: Inode, parent: Option<Inode>, name: Name, identity: Stamp, names: Option<seq<Name>>)

  /** What was captured, as a tree. */
  datatype Tree = Tree(stamp: Stamp, names: Option<seq<Name>>, subtrees: seq<Tree>)

  function StampOf(fs: FileSystem, i: Inode): Option<Stamp> {
    if i in fs.inodes then Some(fs.inodes[i].stamp) else None
  }

  function Child(fs: FileSystem, directory: Inode, name: Name): Option<Inode> {
    if directory in fs.inodes && name in fs.inodes[directory].children
    then Some(fs.inodes[directory].children[name]) else None
  }

  /** A directory's names in order; refused above the limit. */
  function DirectoryNames(fs: FileSystem, directory: Inode): (r: Option<seq<Name>>)
    ensures r.Some? <==> directory in fs.inodes && |fs.inodes[directory].children| <= MAX_FILES
    ensures r.Some? ==> |r.value| <= MAX_FILES
    ensures r.Some? ==> forall n :: n in r.value <==> n in fs.inodes[directory].children
  {
    if directory !in fs.inodes then None else
      NameOrder();
      var names := FromSet(NameLe, fs.inodes[directory].children.Keys);
      ListSize(names, fs.inodes[directory].children.Keys);
      if |names| > MAX_FILES then None else Some(names)
  }

  lemma NamesInOrder(fs: FileSystem, directory: Inode, i: nat, j: nat)
    requires DirectoryNames(fs, directory).Some? && i < j < |DirectoryNames(fs, directory).value|
    ensures KeyBefore(DirectoryNames(fs, directory).value[i], DirectoryNames(fs, directory).value[j])
  {
    NameOrder();
    var names := FromSet(NameLe, fs.inodes[directory].children.Keys);
    NameLeMeans(names[i], names[j]);
  }

  // ---------- The guarded tree ----------

  /** The tree below inode `i` is `t`: same stamps and same names at every depth. */
  ghost predicate Matches(fs: FileSystem, i: Inode, t: Tree)
    decreases t
  {
    && StampOf(fs, i) == Some(t.stamp)
    && (t.names.Some? ==>
          && DirectoryNames(fs, i) == t.names
          && |t.subtrees| == |t.names.value|
          && forall k | 0 <= k < |t.subtrees| ::
               Child(fs, i, t.names.value[k]).Some? && Matches(fs, Child(fs, i, t.names.value[k]).value, t.subtrees[k]))
  }

  /** A capture: directories list their entries, everything else is a regular file, and no node
      lies deeper than the limit. */
  ghost predicate WellShaped(t: Tree, depth: nat) {
    && depth <= MAX_DEPTH
    && (if t.stamp.kind.Dir? then t.names.Some? && |t.subtrees| == |t.names.value|
        else t.stamp.kind.Regular? && t.names.None? && t.subtrees == [])
    && forall k | 0 <= k < |t.subtrees| :: WellShaped(t.subtrees[k], depth + 1)
  }

  /** The tree in the guard's order: a node, then its children's nodes, one child after the other. */
  ghost function Flatten(t: Tree, parent: Option<Inode>, name: Name): seq<Node>
    requires t.names.Some? ==> |t.subtrees| == |t.names.value|
    requires t.names.None? ==> t.subtrees == []
    decreases t, 0
  {
    [Node(t.stamp.inode, parent, name, t.stamp, t.names)] +
    if t.names.None? then [] else FlattenAll(t.subtrees, t.stamp.inode, t.names.value)
  }

  ghost function FlattenAll(ts: seq<Tree>, parent: Inode, names: seq<Name>): seq<Node>
    requires |ts| == |names|
    decreases ts, 0
  {
    if ts == [] then [] else
      FlattenAll(ts[..|ts| - 1], parent, names[..|ts| - 1])
      + FlattenChecked(ts[|ts| - 1], Some(parent), names[|ts| - 1])
  }

  ghost function FlattenChecked(t: Tree, parent: Option<Inode>, name: Name): seq<Node>
    decreases t, 1
  {
    if (t.names.Some? && |t.subtrees| == |t.names.value|) || (t.names.None? && t.subtrees == [])
    then Flatten(t, parent, name) else []
  }

  // ---------- The flat check ----------

  /** The three comparisons made for one descriptor. */
  predicate NodeUnchanged(fs: FileSystem, n: Node) {
    && StampOf(fs, n.fd) == Some(n.identity)
    && (n.parent.Some? ==>
          Child(fs, n.parent.value, n.name).Some? &&
            StampOf(fs, Child(fs, n.parent.value, n.name).value) == Some(n.identity))
    && (n.names.Some? ==> DirectoryNames(fs, n.fd) == n.names)
  }

  ghost predicate FlatUnchanged(fs: FileSystem, nodes: seq<Node>) {
    && nodes != []
    && fs.root.Some? && StampOf(fs, fs.root.value) == Some(nodes[0].identity)
    && forall n | n in nodes :: NodeUnchanged(fs, n)
  }

  lemma FlattenLast(ts: seq<Tree>, parent: Inode, names: seq<Name>)
    requires |ts| == |names| > 0
    requires var t := ts[|ts| - 1];
      (t.names.Some? && |t.subtrees| == |t.names.value|) || (t.names.None? && t.subtrees == [])
    ensures var last := |ts| - 1;
      FlattenAll(ts, parent, names)
        == FlattenAll(ts[..last], parent, names[..last]) + Flatten(ts[last], Some(parent), names[last])
  {
  }

  ghost predicate AllUnchanged(fs: FileSystem, nodes: seq<Node>) {
    forall n | n in nodes :: NodeUnchanged(fs, n)
  }

  lemma UnchangedSplit(fs: FileSystem, a: seq<Node>, b: seq<Node>)
    requires AllUnchanged(fs, a + b)
    ensures AllUnchanged(fs, a) && AllUnchanged(fs, b)
  {
    forall n | n in a || n in b ensures NodeUnchanged(fs, n) { assert n in a + b; }
  }

  /** The named entries of a directory match their trees. */
  ghost predicate ChildrenMatch(fs: FileSystem, ts: seq<Tree>, parent: Inode, names: seq<Name>) {
    |ts| == |names| && forall k | 0 <= k < |ts| ::
      Child(fs, parent, names[k]).Some? && Matches(fs, Child(fs, parent, names[k]).value, ts[k])
  }

  lemma OneMoreMatch(fs: FileSystem, ts: seq<Tree>, parent: Inode, names: seq<Name>)
    requires |ts| == |names| > 0 && ChildrenMatch(fs, ts[..|ts| - 1], parent, names[..|ts| - 1])
    requires var last := |ts| - 1;
      Child(fs, parent, names[last]).Some? && Matches(fs, Child(fs, parent, names[last]).value, ts[last])
    ensures ChildrenMatch(fs, ts, parent, names)
  {
    forall k | 0 <= k < |ts|
      ensures Child(fs, parent, names[k]).Some? && Matches(fs, Child(fs, parent, names[k]).value, ts[k])
    {
      if k < |ts| - 1 { assert ts[..|ts| - 1][k] == ts[k] && names[..|ts| - 1][k] == names[k]; }
    }
  }

  lemma {:induction false} UnchangedBelow(fs: FileSystem, t: Tree, parent: Option<Inode>, name: Name, depth: nat)
    requires Consistent(fs) && WellShaped(t, depth) && AllUnchanged(fs, Flatten(t, parent, name))
    ensures Matches(fs, t.stamp.inode, t)
    ensures parent.Some? ==> Child(fs, parent.value, name) == Some(t.stamp.inode)
    decreases t, 1
  {
    var head := Flatten(t, parent, name)[0];
    assert NodeUnchanged(fs, head);
    if t.names.Some? {
      var below := FlattenAll(t.subtrees, t.stamp.inode, t.names.value);
      UnchangedSplit(fs, [head], below);
      UnchangedChildren(fs, t.subtrees, t.stamp.inode, t.names.value, depth + 1);
    }
  }

  lemma {:induction false} UnchangedChildren(fs: FileSystem, ts: seq<Tree>, parent: Inode, names: seq<Name>, depth: nat)
    requires Consistent(fs) && |ts| == |names| && forall k | 0 <= k < |ts| :: WellShaped(ts[k], depth)
    requires AllUnchanged(fs, FlattenAll(ts, parent, names))
    ensures ChildrenMatch(fs, ts, parent, names)
    decreases ts, 0
  {
    if ts != [] {
      var last := |ts| - 1;
      var front, back := FlattenAll(ts[..last], parent, names[..last]), Flatten(ts[last], Some(parent), names[last]);
      FlattenLast(ts, parent, names);
      UnchangedSplit(fs, front, back);
      UnchangedChildren(fs, ts[..last], parent, names[..last], depth);
      UnchangedBelow(fs, ts[last], Some(parent), names[last], depth);
      OneMoreMatch(fs, ts, parent, names);
    }
  }

  lemma {:induction false} MatchesBelow(fs: FileSystem, t: Tree, parent: Option<Inode>, name: Name, depth: nat)
    requires Consistent(fs) && WellShaped(t, depth) && Matches(fs, t.stamp.inode, t)
    requires parent.Some? ==> Child(fs, parent.value, name) == Some(t.stamp.inode)
    ensures forall n | n in Flatten(t, parent, name) :: NodeUnchanged(fs, n)
    decreases t, 1
  {
    if t.names.Some? {
      MatchesChildren(fs, t.subtrees, t.stamp.inode, t.names.value, depth + 1);
    }
  }

  lemma {:induction false} MatchesChildren(fs: FileSystem, ts: seq<Tree>, parent: Inode, names: seq<Name>, depth: nat)
    requires Consistent(fs) && |ts| == |names| && forall k | 0 <= k < |ts| :: WellShaped(ts[k], depth)
    requires forall k | 0 <= k < |ts| ::
      Child(fs, parent, names[k]).Some? && Matches(fs, Child(fs, parent, names[k]).value, ts[k])
    ensures forall n | n in FlattenAll(ts, parent, names) :: NodeUnchanged(fs, n)
    decreases ts, 0
  {
    if ts != [] {
      var last := |ts| - 1;
      MatchesChildren(fs, ts[..last], parent, names[..last], depth);
      MatchesBelow(fs, ts[last], Some(parent), names[last], depth);
    }
  }

  /** On a file system that stands still, the flat check passes exactly when the whole tree at the
      guarded path is the captured one. */
  lemma FlatCheckSeesTheTree(fs: FileSystem, t: Tree)
    requires Consistent(fs) && WellShaped(t, 0)
    ensures FlatUnchanged(fs, Flatten(t, None, [])) <==> fs.root.Some? && Matches(fs, fs.root.value, t)
  {
    var nodes := Flatten(t, None, []);
    if FlatUnchanged(fs, nodes) {
      UnchangedBelow(fs, t, None, [], 0);
    }
    if fs.root.Some? && Matches(fs, fs.root.value, t) {
      MatchesBelow(fs, t, None, [], 0);
    }
  }

  // ---------- The guard ----------

  /** A file system that may change before every system call. */
  type World = nat -> FileSystem

  ghost predicate Still(world: World, fs: FileSystem) {
    Consistent(fs) && forall n :: world(n) == fs
  }

  /** What opening the guarded path, or a name in some directory, may yield. */
  ghost predicate Opens(fs: FileSystem, i: Inode) {
    fs.root == Some(i) || exists d, name :: Child(fs, d, name) == Some(i)
  }

  /** Nothing stands in the way of capturing `t` below inode `i`: the file system stands still, the
      tree is there, and it stays within the limits. */
  ghost predicate Capturable(world: World, fs: FileSystem, i: Inode, t: Tree, depth: nat, count: nat) {
    Still(world, fs) && WellShaped(t, depth) && Matches(fs, i, t) && count + |Flatten(t, None, [])| <= MAX_FILES
  }

  ghost predicate ChildCapturable(world: World, fs: FileSystem, directory: Inode, name: Name, t: Tree, depth: nat,
                                  count: nat) {
    Child(fs, directory, name).Some? && Capturable(world, fs, Child(fs, directory, name).value, t, depth, count)
  }

  ghost predicate AllCapturable(world: World, fs: FileSystem, directory: Inode, ts: seq<Tree>, names: seq<Name>,
                                depth: nat, count: nat) {
    && Still(world, fs) && |ts| == |names|
    && (forall k | 0 <= k < |ts| :: WellShaped(ts[k], depth))
    && (forall k | 0 <= k < |ts| ::
          Child(fs, directory, names[k]).Some? && Matches(fs, Child(fs, directory, names[k]).value, ts[k]))
    && count + |FlattenAll(ts, directory, names)| <= MAX_FILES
  }

  /** Descriptors in the order they were opened: each node owns the one in its place. */
  ghost predicate Owns(nodes: seq<Node>, open: seq<Inode>) {
    |nodes| <= |open| && forall i | 0 <= i < |nodes| :: open[i] == nodes[i].fd
  }

  /** One `fstat` of a guard: on which descriptor, and when. */
  datatype Query = Query(fd: Inode, time: nat)

  predicate Stamped(fs: FileSystem, i: Inode) {
    StampOf(fs, i).Some? && StampOf(fs, i).value.inode == i
  }

  /** Every `fstat` found the inode that had been opened. */
  ghost predicate Answered(world: World, asked: seq<Query>) {
    forall k | 0 <= k < |asked| :: Stamped(world(asked[k].time), asked[k].fd)
  }

  /** Each descriptor was asked once, right after it was opened and before `clock`. */
  ghost predicate Asked(world: World, open: seq<Inode>, asked: seq<Query>, clock: nat) {
    && |asked| == |open|
    && forall k | 0 <= k < |asked| ::
         asked[k].fd == open[k] && 0 < asked[k].time < clock && Opens(world(asked[k].time - 1), open[k])
  }

  /** A capture that may go on: every descriptor is owned by a node, and every `fstat` was answered. */
  ghost predicate Settled(world: World, nodes: seq<Node>, open: seq<Inode>, asked: seq<Query>, clock: nat) {
    Owns(nodes, open) && |nodes| == |open| && Asked(world, open, asked, clock) && Answered(world, asked)
  }

  /** A capture that has ended: settled, or failed over the last `fstat`, whose descriptor no node owns. */
  ghost predicate Accounted(world: World, nodes: seq<Node>, open: seq<Inode>, asked: seq<Query>, clock: nat, ok: bool) {
    && Owns(nodes, open) && |open| <= |nodes| + 1 && Asked(world, open, asked, clock)
    && (|nodes| == |open| <==> Answered(world, asked))
    && (ok ==> |nodes| == |open|)
  }

  /** What capturing inode `fd` after `before` has come to. */
  ghost predicate Captured(world: World, fd: Inode, parent: Option<Inode>, name: Name, depth: nat,
                           before: seq<Node>, nodes: seq<Node>, open: seq<Inode>, asked: seq<Query>, clock: nat,
                           ok: bool, t: Tree) {
    && before <= nodes && Accounted(world, nodes, open, asked, clock, ok)
    && (ok ==> WellShaped(t, depth) && t.stamp.inode == fd && |nodes| <= MAX_FILES)
    && (ok ==> nodes == before + Flatten(t, parent, name))
  }

  /** The same for the entries of directory `fd`. */
  ghost predicate ChildrenCaptured(world: World, fd: Inode, names: seq<Name>, depth: nat,
                                   before: seq<Node>, nodes: seq<Node>, open: seq<Inode>, asked: seq<Query>, clock: nat,
                                   ok: bool, ts: seq<Tree>) {
    && before <= nodes && Accounted(world, nodes, open, asked, clock, ok)
    && (ok ==> |ts| == |names| && forall k | 0 <= k < |names| :: WellShaped(ts[k], depth + 1))
    && (ok ==> nodes == before + FlattenAll(ts, fd, names))
    && (ok && |before| <= MAX_FILES ==> |nodes| <= MAX_FILES)
  }

  /** What closing the nodes' descriptors leaves open. */
  lemma LeftOpen(world: World, nodes: seq<Node>, open: seq<Inode>, asked: seq<Query>, clock: nat)
    requires Accounted(world, nodes, open, asked, clock, false)
    ensures open[|nodes|..] == [] <==> Answered(world, asked)
    ensures open[|nodes|..] != [] ==> asked != [] && open[|nodes|..] == [asked[|asked| - 1].fd]
  {
  }

  /** If the guarded path opens at time `n`, the `fstat` that follows is answered. */
  ghost predicate RootAnswers(world: World, n: nat) {
    world(n).root.Some? ==> Stamped(world(n + 1), world(n).root.value)
  }

  /** Opening a name in a directory. */
  lemma OneMoreOpen(world: World, nodes: seq<Node>, open: seq<Inode>, asked: seq<Query>, clock: nat, fd: Inode,
                    name: Name)
    requires clock > 0 && Settled(world, nodes, open, asked, clock - 1) && Child(world(clock - 1), fd, name).Some?
    ensures var more := open + [Child(world(clock - 1), fd, name).value];
      && Opens(world(clock - 1), more[|more| - 1])
      && more[..|more| - 1] == open && Settled(world, nodes, more[..|more| - 1], asked, clock)
  {
    assert (open + [Child(world(clock - 1), fd, name).value])[..|open|] == open;
  }

  /** The `fstat` on the descriptor opened last decides whether the capture stays settled. */
  lemma OneMoreQuery(world: World, nodes: seq<Node>, open: seq<Inode>, asked: seq<Query>, clock: nat)
    requires open != [] && clock > 0 && Opens(world(clock - 1), open[|open| - 1])
    requires Settled(world, nodes, open[..|open| - 1], asked, clock)
    ensures Asked(world, open, asked + [Query(open[|open| - 1], clock)], clock + 1)
    ensures Answered(world, asked + [Query(open[|open| - 1], clock)]) <==> Stamped(world(clock), open[|open| - 1])
  {
  }

  class Guard {
    var nodes: seq<Node>
    /** The descriptors that have been opened for this guard and not yet closed. */
    var open: seq<Inode>
    var clock: nat
    /** The `fstat` calls made for those descriptors. */
    ghost var asked: seq<Query>

    constructor ()
      ensures nodes == [] && open == [] && clock == 0 && asked == []
    {
      nodes, open, clock, asked := [], [], 0, [];
    }

    /** Take ownership of a descriptor and, for a directory, of everything below it. The file system
        may move all the while: what ends up in the list is always some tree, laid out flat. */
    method Capture(world: World, fd: Inode, parent: Option<Inode>, name: Name, depth: nat,
                   ghost planned: bool, ghost fs: FileSystem, ghost expected: Tree)
      returns (ok: bool, ghost t: Tree)
      requires depth <= MAX_DEPTH + 1
      requires planned ==> Capturable(world, fs, fd, expected, depth, |nodes|)
      requires open != [] && fd == open[|open| - 1] && clock > 0 && Opens(world(clock - 1), fd)
      requires Settled(world, nodes, open[..|open| - 1], asked, clock)
      modifies this
      ensures Captured(world, fd, parent, name, depth, old(nodes), nodes, open, asked, clock, ok, t)
      ensures !Stamped(world(old(clock)), fd) ==> !ok && nodes == old(nodes) && open == old(open)
      ensures planned ==> ok && t == expected
      decreases MAX_DEPTH + 1 - depth, 2
    {
      ok := false;
      t := Tree(Stamp(fd, Regular, 0), None, []);
      var identity := StampOf(world(clock), fd);
      OneMoreQuery(world, nodes, open, asked, clock);
      asked, clock := asked + [Query(fd, clock)], clock + 1;
      if identity.None? || identity.value.inode != fd { return; }
      var node := Node(fd, parent, name, identity.value, None);
      nodes := nodes + [node];
      if |nodes| > MAX_FILES || depth > MAX_DEPTH { return; }
      if identity.value.kind.Dir? {
        ok, t := CaptureDirectory(world, node, depth, old(nodes), planned, fs, expected);
      } else if identity.value.kind.Regular? {
        t := Tree(identity.value, None, []);
        ok := true;
      }
    }

    /** Fill in the names of the directory whose node was registered last. */
    method ListDirectory(world: World, node: Node, ghost before: seq<Node>) returns (names: Option<seq<Name>>)
      requires nodes == before + [node] && Settled(world, nodes, open, asked, clock)
      modifies this`nodes, this`clock
      ensures names == DirectoryNames(world(old(clock)), node.fd) && clock == old(clock) + 1
      ensures nodes == before + [if names.Some? then node.(names := names) else node]
      ensures Settled(world, nodes, open, asked, clock)
    {
      names := DirectoryNames(world(clock), node.fd);
      clock := clock + 1;
      if names.Some? { nodes := nodes[|nodes| - 1 := node.(names := names)]; }
    }

    /** The directory whose node was registered last: list it, and capture every entry. */
    method CaptureDirectory(world: World, node: Node, depth: nat, ghost before: seq<Node>,
                            ghost planned: bool, ghost fs: FileSystem, ghost expected: Tree)
      returns (ok: bool, ghost t: Tree)
      requires depth <= MAX_DEPTH && node.identity.kind.Dir? && node.identity.inode == node.fd
      requires nodes == before + [node] && |nodes| <= MAX_FILES && Settled(world, nodes, open, asked, clock)
      requires planned ==> Capturable(world, fs, node.fd, expected, depth, |before|) && expected.stamp == node.identity
      modifies this
      ensures Captured(world, node.fd, node.parent, node.name, depth, before, nodes, open, asked, clock, ok, t)
      ensures planned ==> ok && t == expected
      decreases MAX_DEPTH + 1 - depth, 1, 1
    {
      var names := ListDirectory(world, node, before);
      ok, t := false, Tree(node.identity, None, []);
      if planned { ChildrenCapturable(world, fs, node.fd, expected, names, depth, |before|); }
      if names.None? { return; }
      ghost var subtrees;
      ok, subtrees := CaptureChildren(world, node.fd, names.value, depth, planned, fs, expected.subtrees);
      t := Tree(node.identity, names, subtrees);
      DirectoryCaptured(world, before, node, names.value, depth, nodes, open, asked, clock, ok, subtrees);
    }

    method CaptureChildren(world: World, fd: Inode, names: seq<Name>, depth: nat,
                           ghost planned: bool, ghost fs: FileSystem, ghost expected: seq<Tree>)
      returns (ok: bool, ghost subtrees: seq<Tree>)
      requires planned ==> AllCapturable(world, fs, fd, expected, names, depth + 1, |nodes|)
      requires depth <= MAX_DEPTH && Settled(world, nodes, open, asked, clock)
      modifies this
      ensures ChildrenCaptured(world, fd, names, depth, old(nodes), nodes, open, asked, clock, ok, subtrees)
      ensures planned ==> ok && subtrees == expected
      decreases MAX_DEPTH + 1 - depth, 1, 0
    {
      ghost var start := nodes;
      ok, subtrees := true, [];
      var i := 0;
      while i < |names|
        invariant 0 <= i <= |names| && ok
        invariant ChildrenCaptured(world, fd, names[..i], depth, start, nodes, open, asked, clock, true, subtrees)
        invariant planned ==> i <= |expected| && subtrees == expected[..i]
      {
        ok, subtrees := CaptureNext(world, fd, names, i, depth, start, subtrees, planned, fs, expected);
        if !ok { return; }
        i := i + 1;
      }
      assert names[..i] == names;
    }

    /** One round of that loop. */
    method CaptureNext(world: World, fd: Inode, names: seq<Name>, i: nat, depth: nat, ghost start: seq<Node>,
                       ghost before: seq<Tree>, ghost planned: bool, ghost fs: FileSystem, ghost expected: seq<Tree>)
      returns (ok: bool, ghost subtrees: seq<Tree>)
      requires i < |names| && depth <= MAX_DEPTH
      requires ChildrenCaptured(world, fd, names[..i], depth, start, nodes, open, asked, clock, true, before)
      requires planned ==> AllCapturable(world, fs, fd, expected, names, depth + 1, |start|) && before == expected[..i]
      modifies this
      ensures !ok ==> start <= nodes && Accounted(world, nodes, open, asked, clock, false)
      ensures ok ==>
        ChildrenCaptured(world, fd, names[..i + 1], depth, start, nodes, open, asked, clock, true, subtrees)
      ensures planned ==> ok && i < |expected| && subtrees == expected[..i + 1]
      decreases MAX_DEPTH + 1 - depth, 0, 1
    {
      ghost var t;
      ghost var next := Tree(Stamp(0, Regular, 0), None, []);
      if planned {
        NextCapturable(world, fs, fd, expected, names, depth + 1, |start|, i);
        next := expected[i];
        PrefixStep(expected, i);
      }
      ok, t := CaptureChild(world, fd, names[i], depth, planned, fs, next);
      subtrees := before + [t];
      if ok {
        OneMoreChild(world, fd, names, i, depth, start, old(nodes), nodes, open, asked, clock, before, t);
      }
    }

    /** Open a name of the directory whose descriptor is `fd`. */
    method OpenChild(world: World, fd: Inode, name: Name) returns (child: Option<Inode>)
      requires Settled(world, nodes, open, asked, clock)
      modifies this`open, this`clock
      ensures child == Child(world(old(clock)), fd, name)
      ensures child.None? ==> Accounted(world, nodes, open, asked, clock, false)
      ensures child.Some? ==>
        open != [] && child.value == open[|open| - 1] && Settled(world, nodes, open[..|open| - 1], asked, clock)
      ensures child.Some? ==> clock > 0 && Opens(world(clock - 1), child.value)
    {
      child := Child(world(clock), fd, name);
      clock := clock + 1;
      if child.Some? {
        OneMoreOpen(world, nodes, open, asked, clock, fd, name);
        open := open + [child.value];
      }
    }

    method CaptureChild(world: World, fd: Inode, name: Name, depth: nat,
                        ghost planned: bool, ghost fs: FileSystem, ghost expected: Tree)
      returns (ok: bool, ghost t: Tree)
      requires planned ==> ChildCapturable(world, fs, fd, name, expected, depth + 1, |nodes|)
      requires depth <= MAX_DEPTH && Settled(world, nodes, open, asked, clock)
      modifies this
      ensures Accounted(world, nodes, open, asked, clock, ok) && old(nodes) <= nodes
      ensures ok ==> WellShaped(t, depth + 1)
      ensures ok ==> nodes == old(nodes) + Flatten(t, Some(fd), name) && |nodes| <= MAX_FILES
      ensures planned ==> ok && t == expected
      decreases MAX_DEPTH + 1 - depth, 0, 0
    {
      var child := OpenChild(world, fd, name);
      if child.None? { return false, expected; }
      ok, t := Capture(world, child.value, Some(fd), name, depth + 1, planned, fs, expected);
    }

    /** The check itself, loop and early exits as in the source. */
    method Unchanged(fs: FileSystem) returns (same: bool)
      ensures same <==> FlatUnchanged(fs, nodes)
    {
      if nodes == [] { return false; }
      if fs.root.None? || StampOf(fs, fs.root.value) != Some(nodes[0].identity) { return false; }
      var i := 0;
      while i < |nodes|
        invariant 0 <= i <= |nodes|
        invariant forall k | 0 <= k < i :: NodeUnchanged(fs, nodes[k])
      {
        var node := nodes[i];
        assert node in nodes;
        if StampOf(fs, node.fd) != Some(node.identity) { return false; }
        if node.parent.Some? {
          var child := Child(fs, node.parent.value, node.name);
          if child.None? || StampOf(fs, child.value) != Some(node.identity) { return false; }
        }
        if node.names.Some? && DirectoryNames(fs, node.fd) != node.names { return false; }
        i := i + 1;
      }
      same := true;
    }

    /** Release the nodes' descriptors, last one first; only what the nodes do not own stays open. */
    method Close()
      requires Owns(nodes, open)
      modifies this`nodes, this`open
      ensures nodes == [] && open == old(open[|nodes|..])
    {
      ghost var rest := open[|nodes|..];
      var i := |nodes|;
      while i > 0
        invariant 0 <= i <= |nodes| && nodes == old(nodes)
        invariant Owns(nodes[..i], open) && open[i..] == rest
      {
        i := i - 1;
        assert open[i] == nodes[i].fd;
        open := open[..i] + open[i + 1..];
      }
      nodes := [];
    }

    /** Open the guarded path and capture what is there. */
    method CaptureRoot(world: World, ghost planned: bool, ghost fs: FileSystem, ghost expected: Tree)
      returns (ok: bool, ghost t: Tree)
      requires nodes == [] && open == [] && asked == []
      requires planned ==> fs.root.Some? && Capturable(world, fs, fs.root.value, expected, 0, 0)
      modifies this
      ensures Accounted(world, nodes, open, asked, clock, ok)
      ensures ok ==> WellShaped(t, 0) && nodes == Flatten(t, None, []) && 0 < |nodes| <= MAX_FILES
      ensures !RootAnswers(world, old(clock)) ==> open == [world(old(clock)).root.value] && nodes == []
      ensures planned ==> ok && t == expected
    {
      t := Tree(Stamp(0, Regular, 0), None, []);
      var fd := world(clock).root;
      clock := clock + 1;
      if fd.None? { return false, t; }
      open := open + [fd.value];
      ok, t := Capture(world, fd.value, None, [], 0, planned, fs, expected);
    }

    /** Close a capture that has ended. */
    method Refuse(ghost world: World)
      requires Accounted(world, nodes, open, asked, clock, false)
      modifies this`nodes, this`open
      ensures nodes == [] && (old(nodes) == [] ==> open == old(open))
      ensures open == [] <==> Answered(world, asked)
      ensures open != [] ==> asked != [] && open == [asked[|asked| - 1].fd]
    {
      LeftOpen(world, nodes, open, asked, clock);
      Close();
    }

    /** The check on a whole captured tree. */
    method Certify(final: FileSystem, ghost t: Tree) returns (ok: bool)
      requires Consistent(final) && WellShaped(t, 0) && nodes == Flatten(t, None, [])
      ensures ok <==> final.root.Some? && Matches(final, final.root.value, t)
    {
      FlatCheckSeesTheTree(final, t);
      ok := Unchanged(final);
    }

    /** Admission: capture from a moving file system, then check once against the file system as it
        stands. Success certifies a snapshot of the whole tree, whose descriptors are exactly the open
        ones. Failure leaves none open exactly when every `fstat` was answered; otherwise the descriptor
        of the last one stays open, since the node list takes a descriptor over only afterwards. A tree
        within the limits on a file system that stands still is always admitted. */
    method Admit(world: World, final: FileSystem, ghost expected: Tree) returns (ok: bool, ghost t: Tree)
      requires Consistent(final) && nodes == [] && open == [] && asked == []
      modifies this
      ensures ok ==> WellShaped(t, 0) && nodes == Flatten(t, None, []) && 0 < |nodes| <= MAX_FILES
      ensures ok ==> Owns(nodes, open) && |nodes| == |open|
      ensures ok ==> final.root.Some? && Matches(final, final.root.value, t)
      ensures forall k | 0 <= k < |asked| ::
        0 < asked[k].time < clock && Opens(world(asked[k].time - 1), asked[k].fd)
      ensures ok ==> Answered(world, asked)
      ensures !ok ==> nodes == [] && (open == [] <==> Answered(world, asked))
      ensures !ok && open != [] ==> asked != [] && open == [asked[|asked| - 1].fd]
      ensures !RootAnswers(world, old(clock)) ==> !ok && open == [world(old(clock)).root.value]
      ensures final.root.Some? && Capturable(world, final, final.root.value, expected, 0, 0) ==> ok && t == expected
    {
      ghost var planned := final.root.Some? && Capturable(world, final, final.root.value, expected, 0, 0);
      ok, t := CaptureRoot(world, planned, final, expected);
      if ok { ok := Certify(final, t); }
      if !ok { Refuse(world); }
    }
  }

  /** A path that keeps opening and whose `fstat` fails: the guard refuses and keeps a descriptor. */
  method UnstampedRoot() returns (ok: bool, nodes: seq<Node>, left: seq<Inode>)
    ensures !ok && nodes == [] && left == [7]
  {
    var fs := FileSystem(map[], Some(7));
    var guard := new Guard();
    ghost var t;
    ok, t := guard.Admit(n => fs, fs, Tree(Stamp(7, Regular, 0), None, []));
    nodes, left := guard.nodes, guard.open;
  }

  lemma FlattenLength(t: Tree, p: Option<Inode>, q: Option<Inode>, m: Name, n: Name)
    requires t.names.Some? ==> |t.subtrees| == |t.names.value|
    requires t.names.None? ==> t.subtrees == []
    ensures |Flatten(t, p, m)| == |Flatten(t, q, n)|
  {
  }

  lemma {:induction false} FlattenPrefix(ts: seq<Tree>, parent: Inode, names: seq<Name>, i: nat)
    requires i <= |ts| == |names|
    ensures |FlattenAll(ts[..i], parent, names[..i])| <= |FlattenAll(ts, parent, names)|
    decreases |ts|
  {
    if i == |ts| {
      assert ts[..i] == ts && names[..i] == names;
    } else {
      var last := |ts| - 1;
      FlattenPrefix(ts[..last], parent, names[..last], i);
      assert ts[..last][..i] == ts[..i] && names[..last][..i] == names[..i];
    }
  }

  lemma NextLength(ts: seq<Tree>, parent: Inode, names: seq<Name>, i: nat)
    requires i < |ts| == |names|
    requires (ts[i].names.Some? && |ts[i].subtrees| == |ts[i].names.value|) ||
      (ts[i].names.None? && ts[i].subtrees == [])
    ensures |FlattenAll(ts[..i], parent, names[..i])| + |Flatten(ts[i], None, [])| <= |FlattenAll(ts, parent, names)|
  {
    FlattenPrefix(ts, parent, names, i + 1);
    assert ts[..i + 1] == ts[..i] + [ts[i]];
    FlattenStep(ts[..i], ts[i], parent, names, i);
    FlattenLength(ts[i], Some(parent), None, names[i], []);
  }

  lemma PrefixStep(ts: seq<Tree>, i: nat)
    requires i < |ts|
    ensures ts[..i + 1] == ts[..i] + [ts[i]]
  {
  }

  /** A capturable directory lists what is expected, and its children are capturable. */
  lemma ChildrenCapturable(world: World, fs: FileSystem, directory: Inode, t: Tree, names: Option<seq<Name>>,
                           depth: nat, count: nat)
    requires Capturable(world, fs, directory, t, depth, count) && t.stamp.kind.Dir?
    requires names == DirectoryNames(fs, directory)
    ensures names == t.names && names.Some?
    ensures AllCapturable(world, fs, directory, t.subtrees, names.value, depth + 1, count + 1)
  {
    assert t.stamp.inode == directory;
    FlattenFront([], t, None, []);
  }

  lemma NextCapturable(world: World, fs: FileSystem, directory: Inode, ts: seq<Tree>, names: seq<Name>,
                       depth: nat, count: nat, i: nat)
    requires AllCapturable(world, fs, directory, ts, names, depth, count) && i < |names|
    ensures i < |ts|
    ensures ChildCapturable(world, fs, directory, names[i], ts[i], depth,
      count + |FlattenAll(ts[..i], directory, names[..i])|)
  {
    assert WellShaped(ts[i], depth);
    NextLength(ts, directory, names, i);
  }

  lemma FlattenAppend(start: seq<Node>, ts: seq<Tree>, t: Tree, parent: Inode, names: seq<Name>, i: nat)
    requires i == |ts| < |names|
    requires (t.names.Some? && |t.subtrees| == |t.names.value|) || (t.names.None? && t.subtrees == [])
    ensures start + FlattenAll(ts + [t], parent, names[..i + 1])
         == (start + FlattenAll(ts, parent, names[..i])) + Flatten(t, Some(parent), names[i])
  {
    FlattenStep(ts, t, parent, names, i);
  }

  lemma FlattenFront(before: seq<Node>, t: Tree, parent: Option<Inode>, name: Name)
    requires t.names.Some? && |t.subtrees| == |t.names.value|
    ensures before + Flatten(t, parent, name)
         == before + [Node(t.stamp.inode, parent, name, t.stamp, t.names)]
            + FlattenAll(t.subtrees, t.stamp.inode, t.names.value)
  {
  }

  /** A directory's node and its children's trees make up its tree. */
  lemma DirectoryTree(before: seq<Node>, node: Node, names: seq<Name>, subtrees: seq<Tree>, depth: nat)
    requires node.identity.kind.Dir? && node.identity.inode == node.fd && depth <= MAX_DEPTH
    requires |subtrees| == |names| && forall k | 0 <= k < |names| :: WellShaped(subtrees[k], depth + 1)
    ensures var t := Tree(node.identity, Some(names), subtrees);
      && WellShaped(t, depth)
      && before + [node.(names := Some(names))] + FlattenAll(subtrees, node.fd, names)
         == before + Flatten(t, node.parent, node.name)
  {
    FlattenFront(before, Tree(node.identity, Some(names), subtrees), node.parent, node.name);
  }

  lemma DirectoryCaptured(world: World, before: seq<Node>, node: Node, names: seq<Name>, depth: nat,
                          nodes: seq<Node>, open: seq<Inode>, asked: seq<Query>, clock: nat, ok: bool, ts: seq<Tree>)
    requires node.identity.kind.Dir? && node.identity.inode == node.fd && depth <= MAX_DEPTH && |before| < MAX_FILES
    requires ChildrenCaptured(world, node.fd, names, depth, before + [node.(names := Some(names))],
      nodes, open, asked, clock, ok, ts)
    ensures Captured(world, node.fd, node.parent, node.name, depth, before, nodes, open, asked, clock, ok,
      Tree(node.identity, Some(names), ts))
  {
    if ok { DirectoryTree(before, node, names, ts, depth); }
  }

  lemma OneMoreChild(world: World, fd: Inode, names: seq<Name>, i: nat, depth: nat, start: seq<Node>, before: seq<Node>,
                     nodes: seq<Node>, open: seq<Inode>, asked: seq<Query>, clock: nat, ts: seq<Tree>, t: Tree)
    requires i == |ts| < |names| && start <= before <= nodes && before == start + FlattenAll(ts, fd, names[..i])
    requires forall k | 0 <= k < i :: WellShaped(ts[k], depth + 1)
    requires Accounted(world, nodes, open, asked, clock, true) && WellShaped(t, depth + 1) && |nodes| <= MAX_FILES
    requires nodes == before + Flatten(t, Some(fd), names[i])
    ensures ChildrenCaptured(world, fd, names[..i + 1], depth, start, nodes, open, asked, clock, true, ts + [t])
  {
    FlattenAppend(start, ts, t, fd, names, i);
  }

  lemma FlattenStep(ts: seq<Tree>, t: Tree, parent: Inode, names: seq<Name>, i: nat)
    requires i == |ts| < |names|
    requires (t.names.Some? && |t.subtrees| == |t.names.value|) || (t.names.None? && t.subtrees == [])
    ensures FlattenAll(ts + [t], parent, names[..i + 1])
         == FlattenAll(ts, parent, names[..i]) + Flatten(t, Some(parent), names[i])
  {
    assert (ts + [t])[..i] == ts && names[..i + 1][..i] == names[..i];
  }
}
