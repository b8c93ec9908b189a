/** The immutable installer as a step machine: any number of installers, one file-system operation
    at a time, any of them failing or crashing anywhere (scripts/install_shared_cass.py). */
module Installer {
  import opened Prelude
  import opened Framing

  type Digest = Bytes

  /** The directory entries an installer can meet. `Link` is the installed name and `Target(d)` its
      immutable `name.sha256-d`. Every installer stages under names of its own, as unique ids
      arrange; here they carry the installer's number. */
  datatype Name = Link | Target(digest: Digest) | Stage(process: nat) | StagedLink(process: nat) | Other(name: Bytes)

  datatype Dirent = Hard(inode: nat) | Symlink(target: Name)

  datatype File = File(bytes: Bytes, executable: bool)

  datatype Phase =
    | Start
    | KeepPrevious(previous: Digest)           // about to link the regular destination to its target name
    | HashSource
    | CheckTarget
    | CreateStage
    | Write
    | Verify
    | LinkTarget
    | DropStage(linked: bool)                  // the `finally` of the staging block
    | Recheck
    | CreateLink
    | Replace
    | DropStagedLink                           // the `finally` of the link block, after a failure
    | CheckPointer
    | CheckDigest
    | Installed
    | Failed
    | Crashed

  datatype Process = Process(phase: Phase, bootstrap: bool, converting: bool, source: Digest)

  datatype System = System(dir: map<Name, Dirent>, files: map<nat, File>, processes: seq<Process>, serial: nat)

  /** What the world contributes to one operation. */
  datatype Choice = Choice(
    succeeds: bool,     // the system call does not fail
    idle: bool,         // no process executes the regular destination
    bytes: Bytes,       // source bytes seen by a read, or the chunk being copied
    last: bool          // this was the last chunk
  )

  datatype Action =
    | Spawn(bootstrap: bool)
    | Advance(process: nat, choice: Choice)
    | Crash(process: nat)

  /** The file a name resolves to, through at most one link. */
  function Resolve(s: System, n: Name): Option<File> {
    if n !in s.dir then None
    else match s.dir[n]
      case Hard(i) => if i in s.files then Some(s.files[i]) else None
      case Symlink(t) =>
        if t in s.dir && s.dir[t].Hard? && s.dir[t].inode in s.files then Some(s.files[s.dir[t].inode]) else None
  }

  predicate Running(p: Process) {
    !p.phase.Installed? && !p.phase.Failed? && !p.phase.Crashed?
  }

  /** The one-time conversion of a regular destination runs alone. */
  predicate Enabled(s: System, a: Action) {
    match a
    case Spawn(_) => forall i | 0 <= i < |s.processes| :: !(Running(s.processes[i]) && s.processes[i].converting)
    case Crash(p) => p < |s.processes| && Running(s.processes[p])
    case Advance(p, _) =>
      && p < |s.processes| && Running(s.processes[p])
      && forall i | 0 <= i < |s.processes| && i != p :: !(Running(s.processes[i]) && s.processes[i].converting)
  }

  function Set(s: System, p: nat, phase: Phase): System
    requires p < |s.processes|
  {
    s.(processes := s.processes[p := s.processes[p].(phase := phase)])
  }

  function Begin(hash: Bytes -> Digest, s: System, p: nat, c: Choice): System
    requires p < |s.processes|
  {
    if Link !in s.dir then Set(s, p, HashSource)
    else match s.dir[Link]
      case Hard(i) =>
        if !s.processes[p].bootstrap || !c.idle || i !in s.files then Set(s, p, Failed)
        else
          var q := s.processes[p].(converting := true, phase := KeepPrevious(hash(s.files[i].bytes)));
          s.(processes := s.processes[p := q])
      case Symlink(_) =>
        if Resolve(s, Link).Some? then Set(s, p, HashSource) else Set(s, p, Failed)
  }

  /** `os.link(from, Target(d))`, accepting an existing entry only if its bytes have digest `d`. */
  function LinkOrAccept(hash: Bytes -> Digest, s: System, inode: nat, d: Digest): (System, bool) {
    if Target(d) !in s.dir then (s.(dir := s.dir[Target(d) := Hard(inode)]), true)
    else (s, Resolve(s, Target(d)).Some? && hash(Resolve(s, Target(d)).value.bytes) == d)
  }

  /** The file an installer is staging. */
  function Staged(s: System, p: nat): Option<File> {
    if Stage(p) in s.dir && s.dir[Stage(p)].Hard? && s.dir[Stage(p)].inode in s.files
    then Some(s.files[s.dir[Stage(p)].inode]) else None
  }

  /** One file-system operation of one installer, in the order of the source. */
  function Next(hash: Bytes -> Digest, s: System, p: nat, c: Choice): System
    requires p < |s.processes| && Running(s.processes[p])
  {
    var q := s.processes[p];
    match q.phase
    case Start => if c.succeeds then Begin(hash, s, p, c) else Set(s, p, Failed)
    case KeepPrevious(d) =>
      if !c.succeeds || Link !in s.dir || !s.dir[Link].Hard? then Set(s, p, Failed)
      else
        var (s1, ok) := LinkOrAccept(hash, s, s.dir[Link].inode, d);
        Set(s1, p, if ok && s1.dir[Target(d)].Hard? then HashSource else Failed)
    case HashSource =>
      if !c.succeeds then Set(s, p, Failed)
      else s.(processes := s.processes[p := q.(phase := CheckTarget, source := hash(c.bytes))])
    case CheckTarget =>
      if !c.succeeds then Set(s, p, Failed)
      else if Resolve(s, Target(q.source)).None? then Set(s, p, CreateStage)
      else
        var f := Resolve(s, Target(q.source)).value;
        var accepted := s.dir[Target(q.source)].Hard? && hash(f.bytes) == q.source && f.executable;
        Set(s, p, if accepted then Recheck else Failed)
    case CreateStage =>
      if !c.succeeds then Set(s, p, Failed)
      else Set(s.(dir := s.dir[Stage(p) := Hard(s.serial)], files := s.files[s.serial := File([], false)],
                  serial := s.serial + 1), p, Write)
    case Write =>
      if !c.succeeds || Staged(s, p).None? then Set(s, p, DropStage(false))
      else Set(s.(files := s.files[s.dir[Stage(p)].inode := File(Staged(s, p).value.bytes + c.bytes, c.last)]), p,
               if c.last then Verify else Write)
    case Verify =>
      Set(s, p, if c.succeeds && Staged(s, p).Some? && hash(Staged(s, p).value.bytes) == q.source
                then LinkTarget else DropStage(false))
    case LinkTarget =>
      if !c.succeeds || Staged(s, p).None? then Set(s, p, DropStage(false))
      else
        var (s1, ok) := LinkOrAccept(hash, s, s.dir[Stage(p)].inode, q.source);
        Set(s1, p, DropStage(ok))
    case DropStage(linked) =>
      if !c.succeeds then Set(s, p, Failed)
      else Set(s.(dir := s.dir - {Stage(p)}), p, if linked then Recheck else Failed)
    case Recheck =>
      Set(s, p, if c.succeeds && (q.converting ==> c.idle) then CreateLink else Failed)
    case CreateLink =>
      if !c.succeeds then Set(s, p, Failed)
      else Set(s.(dir := s.dir[StagedLink(p) := Symlink(Target(q.source))]), p, Replace)
    case Replace =>
      if !c.succeeds || StagedLink(p) !in s.dir then Set(s, p, DropStagedLink)
      else Set(s.(dir := (s.dir - {StagedLink(p)})[Link := s.dir[StagedLink(p)]]), p, CheckPointer)
    case DropStagedLink => Set(if c.succeeds then s.(dir := s.dir - {StagedLink(p)}) else s, p, Failed)
    case CheckPointer =>
      Set(s, p, if c.succeeds && Link in s.dir && s.dir[Link] == Symlink(Target(q.source)) then CheckDigest else Failed)
    case CheckDigest =>
      Set(s, p, if c.succeeds && Resolve(s, Link).Some? && hash(Resolve(s, Link).value.bytes) == q.source
                then Installed else Failed)
  }

  function Perform(hash: Bytes -> Digest, s: System, a: Action): System
    requires Enabled(s, a)
  {
    match a
    case Spawn(bootstrap) => s.(processes := s.processes + [Process(Start, bootstrap, false, [])])
    case Advance(p, c) => Next(hash, s, p, c)
    case Crash(p) => Set(s, p, Crashed)
  }

  // ---------- The invariant ----------

  /** Entry `d` is a hard link to a file with that digest. */
  predicate Genuine(hash: Bytes -> Digest, s: System, d: Digest) {
    && Target(d) in s.dir && s.dir[Target(d)].Hard?
    && s.dir[Target(d)].inode in s.files && hash(s.files[s.dir[Target(d)].inode].bytes) == d
  }

  /** What the installed name was when the run began: absent, or a file with these contents,
      reached directly (`regular`) or through a link. */
  datatype Origin = Absent | Present(file: File, regular: bool)

  predicate Retained(hash: Bytes -> Digest, s: System, origin: Origin) {
    origin.Present? && origin.regular ==> Target(hash(origin.file.bytes)) in s.dir
  }

  /** Every entry points at a file, every target entry is genuine, and the installed name either is
      what it was or points at a target. */
  ghost predicate DiskSound(hash: Bytes -> Digest, s: System, origin: Origin) {
    && (forall n | n in s.dir && s.dir[n].Hard? :: s.dir[n].inode in s.files)
    && (forall i | i in s.files :: i < s.serial)
    && (forall d | Target(d) in s.dir :: Genuine(hash, s, d))
    && LinkSound(hash, s, origin)
  }

  predicate LinkSound(hash: Bytes -> Digest, s: System, origin: Origin) {
    if Link !in s.dir then origin.Absent?
    else match s.dir[Link]
      case Hard(_) => origin.Present? && origin.regular && Resolve(s, Link) == Some(origin.file)
      case Symlink(Target(d)) => Target(d) in s.dir && Retained(hash, s, origin)
      case Symlink(Other(_)) => origin.Present? && !origin.regular && Resolve(s, Link) == Some(origin.file)
      case _ => false
  }

  predicate PastKeep(p: Process) {
    Running(p) && !p.phase.Start? && !p.phase.KeepPrevious?
  }

  predicate PastPublish(p: Process) {
    p.phase.Recheck? || p.phase.CreateLink? || p.phase.Replace? || p.phase.CheckPointer? || p.phase.CheckDigest?
    || (p.phase.DropStage? && p.phase.linked)
  }

  /** No entry but the installer's own staging name refers to the file it is writing. */
  ghost predicate Private(s: System, p: nat) {
    Staged(s, p).Some? && forall n | n in s.dir && n != Stage(p) && s.dir[n].Hard? ::
      s.dir[n].inode != s.dir[Stage(p)].inode
  }

  /** What an installer's progress says about the disk. */
  ghost predicate ProcessSound(hash: Bytes -> Digest, s: System, origin: Origin, p: nat)
    requires p < |s.processes|
  {
    var q := s.processes[p];
    && (PastPublish(q) ==> Target(q.source) in s.dir)
    && (PastKeep(q) && q.converting ==> Retained(hash, s, origin))
    && (PastKeep(q) && Link in s.dir && s.dir[Link].Hard? ==> q.converting)
    && (q.phase.KeepPrevious? ==>
          q.converting && Link in s.dir && s.dir[Link].Hard? && Resolve(s, Link).Some? &&
          hash(Resolve(s, Link).value.bytes) == q.phase.previous)
    && (q.phase.Write? ==> Private(s, p))
    && (q.phase.Verify? || q.phase.LinkTarget? ==> Staged(s, p).Some?)
    && (q.phase.LinkTarget? ==> hash(Staged(s, p).value.bytes) == q.source)
    && (q.phase.Replace? ==> StagedLink(p) in s.dir && s.dir[StagedLink(p)] == Symlink(Target(q.source)))
  }

  ghost predicate Sound(hash: Bytes -> Digest, s: System, origin: Origin) {
    DiskSound(hash, s, origin) && forall p | 0 <= p < |s.processes| :: ProcessSound(hash, s, origin, p)
  }

  // ---------- One operation, as seen by everybody else ----------

  /** Nothing but the installer's own names, the installed name and new targets changes; no file
      changes but the one it is privately writing; a new entry refers to a new file, to the
      installer's staged file or to the file the installed name is. */
  ghost predicate Confined(s: System, t: System, p: nat) {
    && s.serial <= t.serial && |t.processes| == |s.processes| && p < |s.processes|
    && (forall q | 0 <= q < |s.processes| && q != p :: t.processes[q] == s.processes[q])
    && (forall n | n in s.dir && n != Link && n != Stage(p) && n != StagedLink(p) :: n in t.dir && t.dir[n] == s.dir[n])
    && (Link in t.dir && t.dir[Link].Hard? ==> Link in s.dir && t.dir[Link] == s.dir[Link])
    && (forall n | n in t.dir && t.dir[n].Hard? :: OldEntry(s, t, p, n))
    && (forall i | i in s.files :: i in t.files && (t.files[i] == s.files[i] || Writes(s, p, i)))
  }

  predicate OldEntry(s: System, t: System, p: nat, n: Name)
    requires n in t.dir && t.dir[n].Hard?
  {
    || (n in s.dir && t.dir[n] == s.dir[n])
    || t.dir[n].inode == s.serial
    || (Stage(p) in s.dir && t.dir[n] == s.dir[Stage(p)])
    || (Link in s.dir && t.dir[n] == s.dir[Link])
  }

  predicate Early(phase: Phase) {
    phase.Start? || phase.KeepPrevious? || phase.HashSource? || phase.CheckTarget?
  }

  predicate Staging(phase: Phase) {
    phase.CreateStage? || phase.Write? || phase.Verify?
  }

  predicate Publishing(phase: Phase) {
    phase.LinkTarget? || phase.DropStage?
  }

  predicate Linking(phase: Phase) {
    !Early(phase) && !Staging(phase) && !Publishing(phase)
  }

  predicate Writes(s: System, p: nat, i: nat)
    requires p < |s.processes|
  {
    s.processes[p].phase.Write? && Stage(p) in s.dir && s.dir[Stage(p)] == Hard(i)
  }

  lemma NextConfinedEarly(hash: Bytes -> Digest, s: System, origin: Origin, p: nat, c: Choice)
    requires p < |s.processes| && Running(s.processes[p]) && Early(s.processes[p].phase)
    requires ProcessSound(hash, s, origin, p)
    requires forall i | i in s.files :: i < s.serial
    ensures Confined(s, Next(hash, s, p, c), p)
  {
  }

  lemma NextConfinedStaging(hash: Bytes -> Digest, s: System, origin: Origin, p: nat, c: Choice)
    requires p < |s.processes| && Running(s.processes[p]) && Staging(s.processes[p].phase)
    requires ProcessSound(hash, s, origin, p)
    requires forall i | i in s.files :: i < s.serial
    ensures Confined(s, Next(hash, s, p, c), p)
  {
  }

  lemma NextConfinedPublishing(hash: Bytes -> Digest, s: System, origin: Origin, p: nat, c: Choice)
    requires p < |s.processes| && Running(s.processes[p]) && Publishing(s.processes[p].phase)
    requires ProcessSound(hash, s, origin, p)
    requires forall i | i in s.files :: i < s.serial
    ensures Confined(s, Next(hash, s, p, c), p)
  {
  }

  lemma NextConfinedLinking(hash: Bytes -> Digest, s: System, origin: Origin, p: nat, c: Choice)
    requires p < |s.processes| && Running(s.processes[p]) && Linking(s.processes[p].phase)
    requires ProcessSound(hash, s, origin, p)
    requires forall i | i in s.files :: i < s.serial
    ensures Confined(s, Next(hash, s, p, c), p)
  {
  }

  lemma NextConfined(hash: Bytes -> Digest, s: System, origin: Origin, p: nat, c: Choice)
    requires p < |s.processes| && Running(s.processes[p]) && ProcessSound(hash, s, origin, p)
    requires forall i | i in s.files :: i < s.serial
    ensures Confined(s, Next(hash, s, p, c), p)
  {
    if Early(s.processes[p].phase) {
      NextConfinedEarly(hash, s, origin, p, c);
    } else if Staging(s.processes[p].phase) {
      NextConfinedStaging(hash, s, origin, p, c);
    } else if Publishing(s.processes[p].phase) {
      NextConfinedPublishing(hash, s, origin, p, c);
    } else {
      NextConfinedLinking(hash, s, origin, p, c);
    }
  }

  predicate Alone(s: System, p: nat) {
    forall q | 0 <= q < |s.processes| && q != p :: !(Running(s.processes[q]) && s.processes[q].converting)
  }

  /** Another installer's operation cannot disturb this one. */
  lemma OthersStaySound(hash: Bytes -> Digest, s: System, t: System, origin: Origin, p: nat, q: nat)
    requires Confined(s, t, p) && Alone(s, p) && q < |s.processes| && q != p
    requires DiskSound(hash, s, origin) && ProcessSound(hash, s, origin, p) && ProcessSound(hash, s, origin, q)
    ensures ProcessSound(hash, t, origin, q)
  {
    if s.processes[q].phase.Write? || s.processes[q].phase.Verify? || s.processes[q].phase.LinkTarget? {
      StagedUntouched(s, t, p, q);
    }
    if s.processes[q].phase.Write? {
      forall n | n in t.dir && n != Stage(q) && t.dir[n].Hard? ensures t.dir[n].inode != t.dir[Stage(q)].inode {
        assert OldEntry(s, t, p, n);
      }
    }
  }

  lemma StagedUntouched(s: System, t: System, p: nat, q: nat)
    requires Confined(s, t, p) && q < |s.processes| && q != p
    requires s.processes[p].phase.Write? ==> Private(s, p)
    requires Staged(s, q).Some?
    ensures Staged(t, q) == Staged(s, q) && Stage(q) in t.dir && t.dir[Stage(q)] == s.dir[Stage(q)]
  {
  }

  // ---------- The disk ----------

  /** A file somebody is privately writing is not what any other name resolves to. */
  lemma ResolveUntouched(s: System, t: System, p: nat, n: Name)
    requires Confined(s, t, p) && (s.processes[p].phase.Write? ==> Private(s, p))
    requires n in s.dir && n in t.dir && t.dir[n] == s.dir[n] && !n.Stage? && !n.StagedLink?
    requires s.dir[n].Symlink? ==> s.dir[n].target.Target? || s.dir[n].target.Other?
    requires Resolve(s, n).Some?
    ensures Resolve(t, n) == Resolve(s, n)
  {
  }

  lemma TargetsStayGenuine(hash: Bytes -> Digest, s: System, t: System, origin: Origin, p: nat, d: Digest)
    requires Confined(s, t, p) && DiskSound(hash, s, origin) && ProcessSound(hash, s, origin, p)
    requires Target(d) in s.dir
    ensures Target(d) in t.dir && t.dir[Target(d)] == s.dir[Target(d)] && Genuine(hash, t, d)
    ensures Resolve(t, Target(d)) == Resolve(s, Target(d))
  {
    assert Genuine(hash, s, d);
    ResolveUntouched(s, t, p, Target(d));
  }

  lemma LinkStaysSound(hash: Bytes -> Digest, s: System, t: System, origin: Origin, p: nat)
    requires Confined(s, t, p) && DiskSound(hash, s, origin) && ProcessSound(hash, s, origin, p)
    requires (Link in t.dir <==> Link in s.dir) && (Link in s.dir ==> t.dir[Link] == s.dir[Link])
    ensures LinkSound(hash, t, origin)
  {
    if Link in s.dir {
      match s.dir[Link] {
        case Hard(_) => ResolveUntouched(s, t, p, Link);
        case Symlink(Target(d)) => TargetsStayGenuine(hash, s, t, origin, p, d);
        case Symlink(Other(_)) => ResolveUntouched(s, t, p, Link);
      }
    }
  }

  /** A new target entry is a link to a file whose digest has just been checked. */
  ghost predicate NewTargetsGenuine(hash: Bytes -> Digest, s: System, t: System) {
    forall d | Target(d) in t.dir && Target(d) !in s.dir :: Genuine(hash, t, d)
  }

  lemma DiskStaysSound(hash: Bytes -> Digest, s: System, t: System, origin: Origin, p: nat)
    requires Confined(s, t, p) && DiskSound(hash, s, origin) && ProcessSound(hash, s, origin, p)
    requires NewTargetsGenuine(hash, s, t) && LinkSound(hash, t, origin)
    requires forall n | n in t.dir && t.dir[n].Hard? :: t.dir[n].inode in t.files
    requires forall i | i in t.files :: i < t.serial
    ensures DiskSound(hash, t, origin)
  {
    forall d | Target(d) in t.dir ensures Genuine(hash, t, d) {
      if Target(d) in s.dir { TargetsStayGenuine(hash, s, t, origin, p, d); }
    }
  }

  lemma NextTargets(hash: Bytes -> Digest, s: System, origin: Origin, p: nat, c: Choice)
    requires p < |s.processes| && Running(s.processes[p])
    requires DiskSound(hash, s, origin) && ProcessSound(hash, s, origin, p)
    ensures NewTargetsGenuine(hash, s, Next(hash, s, p, c))
  {
  }

  lemma NextFiles(hash: Bytes -> Digest, s: System, origin: Origin, p: nat, c: Choice)
    requires p < |s.processes| && Running(s.processes[p])
    requires DiskSound(hash, s, origin) && ProcessSound(hash, s, origin, p)
    ensures var t := Next(hash, s, p, c);
      (forall n | n in t.dir && t.dir[n].Hard? :: t.dir[n].inode in t.files) &&
        (forall i | i in t.files :: i < t.serial)
  {
  }

  lemma LinkUnlessReplaced(hash: Bytes -> Digest, s: System, p: nat, c: Choice)
    requires p < |s.processes| && Running(s.processes[p]) && !(s.processes[p].phase.Replace? && c.succeeds)
    ensures var t := Next(hash, s, p, c);
      (Link in t.dir <==> Link in s.dir) && (Link in s.dir ==> t.dir[Link] == s.dir[Link])
  {
  }

  lemma LinkReplaced(hash: Bytes -> Digest, s: System, origin: Origin, p: nat, c: Choice)
    requires p < |s.processes| && s.processes[p].phase.Replace? && c.succeeds
    requires DiskSound(hash, s, origin) && ProcessSound(hash, s, origin, p)
    ensures LinkSound(hash, Next(hash, s, p, c), origin)
  {
    assert Next(hash, s, p, c).dir[Link] == Symlink(Target(s.processes[p].source));
  }

  lemma NextDisk(hash: Bytes -> Digest, s: System, origin: Origin, p: nat, c: Choice)
    requires p < |s.processes| && Running(s.processes[p])
    requires DiskSound(hash, s, origin) && ProcessSound(hash, s, origin, p)
    ensures DiskSound(hash, Next(hash, s, p, c), origin)
  {
    NextConfined(hash, s, origin, p, c);
    NextTargets(hash, s, origin, p, c);
    NextFiles(hash, s, origin, p, c);
    if s.processes[p].phase.Replace? && c.succeeds {
      LinkReplaced(hash, s, origin, p, c);
    } else {
      LinkUnlessReplaced(hash, s, p, c);
      LinkStaysSound(hash, s, Next(hash, s, p, c), origin, p);
    }
    DiskStaysSound(hash, s, Next(hash, s, p, c), origin, p);
  }

  // ---------- One operation, as seen by the installer itself, phase by phase ----------

  lemma NextSelfStart(hash: Bytes -> Digest, s: System, origin: Origin, p: nat, c: Choice)
    requires p < |s.processes| && s.processes[p].phase.Start?
    requires DiskSound(hash, s, origin) && ProcessSound(hash, s, origin, p)
    ensures ProcessSound(hash, Next(hash, s, p, c), origin, p)
  {
  }

  lemma NextSelfKeepPrevious(hash: Bytes -> Digest, s: System, origin: Origin, p: nat, c: Choice)
    requires p < |s.processes| && s.processes[p].phase.KeepPrevious?
    requires DiskSound(hash, s, origin) && ProcessSound(hash, s, origin, p)
    ensures ProcessSound(hash, Next(hash, s, p, c), origin, p)
  {
  }

  lemma NextSelfHashing(hash: Bytes -> Digest, s: System, origin: Origin, p: nat, c: Choice)
    requires p < |s.processes| && (s.processes[p].phase.HashSource? || s.processes[p].phase.CheckTarget?)
    requires DiskSound(hash, s, origin) && ProcessSound(hash, s, origin, p)
    ensures ProcessSound(hash, Next(hash, s, p, c), origin, p)
  {
  }

  lemma NextSelfCreateStage(hash: Bytes -> Digest, s: System, origin: Origin, p: nat, c: Choice)
    requires p < |s.processes| && s.processes[p].phase.CreateStage?
    requires DiskSound(hash, s, origin) && ProcessSound(hash, s, origin, p)
    ensures ProcessSound(hash, Next(hash, s, p, c), origin, p)
  {
  }

  lemma NextSelfWrite(hash: Bytes -> Digest, s: System, origin: Origin, p: nat, c: Choice)
    requires p < |s.processes| && s.processes[p].phase.Write?
    requires DiskSound(hash, s, origin) && ProcessSound(hash, s, origin, p)
    ensures ProcessSound(hash, Next(hash, s, p, c), origin, p)
  {
  }

  lemma NextSelfVerify(hash: Bytes -> Digest, s: System, origin: Origin, p: nat, c: Choice)
    requires p < |s.processes| && s.processes[p].phase.Verify?
    requires DiskSound(hash, s, origin) && ProcessSound(hash, s, origin, p)
    ensures ProcessSound(hash, Next(hash, s, p, c), origin, p)
  {
  }

  lemma NextSelfLinkTarget(hash: Bytes -> Digest, s: System, origin: Origin, p: nat, c: Choice)
    requires p < |s.processes| && s.processes[p].phase.LinkTarget?
    requires DiskSound(hash, s, origin) && ProcessSound(hash, s, origin, p)
    ensures ProcessSound(hash, Next(hash, s, p, c), origin, p)
  {
  }

  lemma NextSelfDropStage(hash: Bytes -> Digest, s: System, origin: Origin, p: nat, c: Choice)
    requires p < |s.processes| && s.processes[p].phase.DropStage?
    requires DiskSound(hash, s, origin) && ProcessSound(hash, s, origin, p)
    ensures ProcessSound(hash, Next(hash, s, p, c), origin, p)
  {
  }

  lemma NextSelfRecheck(hash: Bytes -> Digest, s: System, origin: Origin, p: nat, c: Choice)
    requires p < |s.processes| && s.processes[p].phase.Recheck?
    requires DiskSound(hash, s, origin) && ProcessSound(hash, s, origin, p)
    ensures ProcessSound(hash, Next(hash, s, p, c), origin, p)
  {
  }

  lemma NextSelfCreateLink(hash: Bytes -> Digest, s: System, origin: Origin, p: nat, c: Choice)
    requires p < |s.processes| && s.processes[p].phase.CreateLink?
    requires DiskSound(hash, s, origin) && ProcessSound(hash, s, origin, p)
    ensures ProcessSound(hash, Next(hash, s, p, c), origin, p)
  {
  }

  lemma NextSelfReplace(hash: Bytes -> Digest, s: System, origin: Origin, p: nat, c: Choice)
    requires p < |s.processes| && s.processes[p].phase.Replace?
    requires DiskSound(hash, s, origin) && ProcessSound(hash, s, origin, p)
    ensures ProcessSound(hash, Next(hash, s, p, c), origin, p)
  {
  }

  lemma NextSelfDropStagedLink(hash: Bytes -> Digest, s: System, origin: Origin, p: nat, c: Choice)
    requires p < |s.processes| && s.processes[p].phase.DropStagedLink?
    requires DiskSound(hash, s, origin) && ProcessSound(hash, s, origin, p)
    ensures ProcessSound(hash, Next(hash, s, p, c), origin, p)
  {
  }

  lemma NextSelfChecking(hash: Bytes -> Digest, s: System, origin: Origin, p: nat, c: Choice)
    requires p < |s.processes| && (s.processes[p].phase.CheckPointer? || s.processes[p].phase.CheckDigest?)
    requires DiskSound(hash, s, origin) && ProcessSound(hash, s, origin, p)
    ensures ProcessSound(hash, Next(hash, s, p, c), origin, p)
  {
  }

  lemma NextSelf(hash: Bytes -> Digest, s: System, origin: Origin, p: nat, c: Choice)
    requires p < |s.processes| && Running(s.processes[p])
    requires DiskSound(hash, s, origin) && ProcessSound(hash, s, origin, p)
    ensures ProcessSound(hash, Next(hash, s, p, c), origin, p)
  {
    match s.processes[p].phase {
      case Start => NextSelfStart(hash, s, origin, p, c);
      case KeepPrevious(_) => NextSelfKeepPrevious(hash, s, origin, p, c);
      case HashSource => NextSelfHashing(hash, s, origin, p, c);
      case CheckTarget => NextSelfHashing(hash, s, origin, p, c);
      case CreateStage => NextSelfCreateStage(hash, s, origin, p, c);
      case Write => NextSelfWrite(hash, s, origin, p, c);
      case Verify => NextSelfVerify(hash, s, origin, p, c);
      case LinkTarget => NextSelfLinkTarget(hash, s, origin, p, c);
      case DropStage(_) => NextSelfDropStage(hash, s, origin, p, c);
      case Recheck => NextSelfRecheck(hash, s, origin, p, c);
      case CreateLink => NextSelfCreateLink(hash, s, origin, p, c);
      case Replace => NextSelfReplace(hash, s, origin, p, c);
      case DropStagedLink => NextSelfDropStagedLink(hash, s, origin, p, c);
      case CheckPointer => NextSelfChecking(hash, s, origin, p, c);
      case CheckDigest => NextSelfChecking(hash, s, origin, p, c);
    }
  }

  /** Every operation of every installer, every crash and every new installer keeps the invariant. */
  lemma StepKeepsSound(hash: Bytes -> Digest, s: System, origin: Origin, a: Action)
    requires Sound(hash, s, origin) && Enabled(s, a)
    ensures Sound(hash, Perform(hash, s, a), origin)
  {
    var t := Perform(hash, s, a);
    match a {
      case Spawn(_) =>
        forall q | 0 <= q < |t.processes| ensures ProcessSound(hash, t, origin, q) {
          if q < |s.processes| { assert ProcessSound(hash, s, origin, q); }
        }
      case Crash(p) =>
        forall q | 0 <= q < |t.processes| ensures ProcessSound(hash, t, origin, q) {
          assert ProcessSound(hash, s, origin, q);
        }
      case Advance(p, c) =>
        NextConfined(hash, s, origin, p, c);
        NextDisk(hash, s, origin, p, c);
        NextSelf(hash, s, origin, p, c);
        forall q | 0 <= q < |t.processes| ensures ProcessSound(hash, t, origin, q) {
          if q != p { OthersStaySound(hash, s, t, origin, p, q); }
        }
    }
  }

  // ---------- Whole runs ----------

  /** A run: some directory, then one enabled action after another. */
  ghost predicate IsRun(hash: Bytes -> Digest, states: seq<System>, actions: seq<Action>, origin: Origin) {
    && |states| == |actions| + 1
    && states[0].processes == [] && DiskSound(hash, states[0], origin)
    && forall i | 0 <= i < |actions| ::
      Enabled(states[i], actions[i]) && states[i + 1] == Perform(hash, states[i], actions[i])
  }

  lemma {:induction false} RunStaysSound(hash: Bytes -> Digest, states: seq<System>, actions: seq<Action>,
                                         origin: Origin, i: nat)
    requires IsRun(hash, states, actions, origin) && i < |states|
    ensures Sound(hash, states[i], origin)
  {
    if i > 0 {
      RunStaysSound(hash, states, actions, origin, i - 1);
      StepKeepsSound(hash, states[i - 1], origin, actions[i - 1]);
    }
  }

  /** From one state to the next, every target entry and the file behind it stay exactly as they
      are; and the installed name, once there, resolves to what it resolved to or to a genuine
      target. */
  predicate Keeps(hash: Bytes -> Digest, s: System, t: System) {
    && (forall n | n in s.dir && n.Target? :: n in t.dir && Resolve(t, n) == Resolve(s, n))
    && (Link in s.dir ==> LinkSafe(hash, s, t))
  }

  lemma StepSafety(hash: Bytes -> Digest, s: System, origin: Origin, a: Action)
    requires Sound(hash, s, origin) && Enabled(s, a)
    ensures Keeps(hash, s, Perform(hash, s, a))
  {
    var t := Perform(hash, s, a);
    StepKeepsSound(hash, s, origin, a);
    if a.Advance? {
      var p, c := a.process, a.choice;
      NextConfined(hash, s, origin, p, c);
      forall n | n in s.dir && n.Target? ensures n in t.dir && Resolve(t, n) == Resolve(s, n) {
        TargetsStayGenuine(hash, s, t, origin, p, n.digest);
      }
      if Link in s.dir { LinkOnlyMovesToTargets(hash, s, origin, p, c); }
    } else {
      assert t.dir == s.dir && t.files == s.files;
      LinkResolves(hash, s, origin);
    }
  }

  /** What the installed name resolves to stays the same or becomes a genuine target. */
  predicate LinkSafe(hash: Bytes -> Digest, s: System, t: System) {
    Resolve(s, Link).Some? && Resolve(t, Link).Some? &&
      (Resolve(t, Link) == Resolve(s, Link) || PointsAtTarget(hash, t))
  }

  /** The installed name is a link to a complete file with the digest in its name. */
  predicate PointsAtTarget(hash: Bytes -> Digest, s: System) {
    Link in s.dir && s.dir[Link].Symlink? && s.dir[Link].target.Target? && Genuine(hash, s, s.dir[Link].target.digest)
  }

  lemma LinkOnlyMovesToTargets(hash: Bytes -> Digest, s: System, origin: Origin, p: nat, c: Choice)
    requires p < |s.processes| && Running(s.processes[p]) && Sound(hash, s, origin)
    requires Sound(hash, Next(hash, s, p, c), origin)
    requires Link in s.dir
    ensures var t := Next(hash, s, p, c);
      LinkSafe(hash, s, t)
  {
    var t := Next(hash, s, p, c);
    LinkResolves(hash, s, origin);
    if s.processes[p].phase.Replace? && c.succeeds {
      assert t.dir[Link] == Symlink(Target(s.processes[p].source));
    } else {
      NextConfined(hash, s, origin, p, c);
      LinkUnlessReplaced(hash, s, p, c);
      ResolveUntouched(s, t, p, Link);
    }
    LinkResolves(hash, t, origin);
  }

  lemma LinkResolves(hash: Bytes -> Digest, s: System, origin: Origin)
    requires DiskSound(hash, s, origin)
    ensures Link in s.dir <==> Resolve(s, Link).Some?
    ensures Link in s.dir ==> PointsAtTarget(hash, s) || (origin.Present? && Resolve(s, Link) == Some(origin.file))
  {
    if Link in s.dir && s.dir[Link].Symlink? && s.dir[Link].target.Target? {
      assert Genuine(hash, s, s.dir[Link].target.digest);
    }
  }

  /** A sequence of states in which every state is sound and every step is safe. */
  ghost predicate SafeHistory(hash: Bytes -> Digest, states: seq<System>, origin: Origin) {
    && (forall i | 0 <= i < |states| :: Sound(hash, states[i], origin))
    && (forall i | 0 < i < |states| :: Keeps(hash, states[i - 1], states[i]))
  }

  lemma RunIsSafe(hash: Bytes -> Digest, states: seq<System>, actions: seq<Action>, origin: Origin)
    requires IsRun(hash, states, actions, origin)
    ensures SafeHistory(hash, states, origin)
  {
    forall i | 0 <= i < |states| ensures Sound(hash, states[i], origin) {
      RunStaysSound(hash, states, actions, origin, i);
    }
    forall i | 0 < i < |states| ensures Keeps(hash, states[i - 1], states[i]) {
      StepSafety(hash, states[i - 1], origin, actions[i - 1]);
    }
  }

  lemma {:induction false} TargetsKept(hash: Bytes -> Digest, states: seq<System>, origin: Origin, i: nat, j: nat,
                                       d: Digest)
    requires SafeHistory(hash, states, origin) && i <= j < |states| && Target(d) in states[i].dir
    ensures Target(d) in states[j].dir && Resolve(states[j], Target(d)).Some?
    ensures Resolve(states[j], Target(d)) == Resolve(states[i], Target(d))
    ensures hash(Resolve(states[j], Target(d)).value.bytes) == d
    decreases j
  {
    if i < j {
      TargetsKept(hash, states, origin, i, j - 1, d);
      assert Keeps(hash, states[j - 1], states[j]);
    }
    assert Sound(hash, states[j], origin) && Genuine(hash, states[j], d);
  }

  /** Immutable targets, over any run: once there, an entry is never removed, always leads to the
      same file, and that file has the digest in its name. */
  lemma TargetsAreForever(hash: Bytes -> Digest, states: seq<System>, actions: seq<Action>, origin: Origin,
                          i: nat, j: nat, d: Digest)
    requires IsRun(hash, states, actions, origin) && i <= j < |states| && Target(d) in states[i].dir
    ensures Target(d) in states[j].dir && Resolve(states[j], Target(d)).Some?
    ensures Resolve(states[j], Target(d)) == Resolve(states[i], Target(d))
    ensures hash(Resolve(states[j], Target(d)).value.bytes) == d
  {
    RunIsSafe(hash, states, actions, origin);
    TargetsKept(hash, states, origin, i, j, d);
  }

  lemma {:induction false} LinkKept(hash: Bytes -> Digest, states: seq<System>, origin: Origin, i: nat, j: nat)
    requires SafeHistory(hash, states, origin) && i <= j < |states| && Link in states[i].dir
    ensures Link in states[j].dir && Resolve(states[j], Link).Some?
    ensures PointsAtTarget(hash, states[j]) || (origin.Present? && Resolve(states[j], Link) == Some(origin.file))
    ensures PointsAtTarget(hash, states[j]) ==> Retained(hash, states[j], origin)
    decreases j
  {
    assert Sound(hash, states[j], origin);
    LinkResolves(hash, states[j], origin);
    if i < j {
      LinkKept(hash, states, origin, i, j - 1);
      assert Keeps(hash, states[j - 1], states[j]);
    }
  }

  /** The installed name, over any run: it exists from the moment it first existed, and what it
      resolves to is always what it was before the run or a complete verified target. A regular
      destination is only ever replaced when its bytes have been retained under their digest. */
  lemma LinkAlwaysResolves(hash: Bytes -> Digest, states: seq<System>, actions: seq<Action>, origin: Origin, i: nat,
                           j: nat)
    requires IsRun(hash, states, actions, origin) && i <= j < |states| && Link in states[i].dir
    ensures Link in states[j].dir && Resolve(states[j], Link).Some?
    ensures PointsAtTarget(hash, states[j]) || (origin.Present? && Resolve(states[j], Link) == Some(origin.file))
    ensures PointsAtTarget(hash, states[j]) ==> Retained(hash, states[j], origin)
  {
    RunIsSafe(hash, states, actions, origin);
    LinkKept(hash, states, origin, i, j);
  }

  lemma NoEarlyReturn(hash: Bytes -> Digest, s: System, p: nat, c: Choice)
    requires p < |s.processes| && Running(s.processes[p]) && Early(s.processes[p].phase)
    ensures p < |Next(hash, s, p, c).processes| && !Next(hash, s, p, c).processes[p].phase.Installed?
  {
  }

  lemma NoReturnFromStaging(hash: Bytes -> Digest, s: System, p: nat, c: Choice)
    requires p < |s.processes| && Running(s.processes[p]) &&
      (Staging(s.processes[p].phase) || Publishing(s.processes[p].phase))
    ensures p < |Next(hash, s, p, c).processes| && !Next(hash, s, p, c).processes[p].phase.Installed?
  {
  }

  lemma OnlyTheLastCheckReturns(hash: Bytes -> Digest, s: System, p: nat, c: Choice)
    requires p < |s.processes| && Running(s.processes[p]) && !s.processes[p].phase.CheckDigest?
    ensures p < |Next(hash, s, p, c).processes| && !Next(hash, s, p, c).processes[p].phase.Installed?
  {
    if Early(s.processes[p].phase) {
      NoEarlyReturn(hash, s, p, c);
    } else if !Linking(s.processes[p].phase) {
      NoReturnFromStaging(hash, s, p, c);
    }
  }

  // ---------- An undisturbed installer succeeds ----------

  /** Steps left for an installer that meets no failure, the writing of chunks aside. */
  function Rank(phase: Phase): nat {
    match phase
    case Start => 14
    case KeepPrevious(_) => 13
    case HashSource => 12
    case CheckTarget => 11
    case CreateStage => 10
    case Write => 9
    case Verify => 8
    case LinkTarget => 7
    case DropStage(_) => 6
    case Recheck => 5
    case CreateLink => 4
    case Replace => 3
    case CheckPointer => 2
    case CheckDigest => 1
    case _ => 0
  }

  predicate Hashed(phase: Phase) {
    !phase.Start? && !phase.KeepPrevious? && !phase.HashSource?
  }

  /** Whatever already carries the source digest can be executed. */
  predicate ExecutableSource(hash: Bytes -> Digest, s: System, source: Bytes) {
    && (Target(hash(source)) in s.dir && Resolve(s, Target(hash(source))).Some? ==>
          Resolve(s, Target(hash(source))).value.executable)
    && (Link in s.dir && s.dir[Link].Hard? && Resolve(s, Link).Some? ==>
          (hash(Resolve(s, Link).value.bytes) == hash(source) ==> Resolve(s, Link).value.executable))
  }

  /** Nothing has gone wrong, and `written` has been staged so far. */
  ghost predicate OnTrack(hash: Bytes -> Digest, s: System, p: nat, source: Bytes, written: Bytes)
    requires p < |s.processes|
  {
    var q := s.processes[p];
    && (Rank(q.phase) > 0 || q.phase.Installed?)
    && (Hashed(q.phase) ==> q.source == hash(source))
    && (q.phase.Start? && Link in s.dir && s.dir[Link].Hard? ==> q.bootstrap)
    && (Rank(q.phase) >= 11 ==> ExecutableSource(hash, s, source))
    && (Rank(q.phase) >= 10 ==> written == [])
    && (q.phase.Write? ==> Staged(s, p).Some? && Staged(s, p).value.bytes == written)
    && (q.phase.Verify? || q.phase.LinkTarget? ==> Staged(s, p).Some? && Staged(s, p).value.bytes == source)
    && (q.phase.DropStage? ==> q.phase.linked)
    && (q.phase.CheckPointer? || q.phase.CheckDigest? || q.phase.Installed? ==>
          Link in s.dir && s.dir[Link] == Symlink(Target(q.source)))
  }

  /** One round of the copying loop. */
  lemma WriteOnTrack(hash: Bytes -> Digest, s: System, origin: Origin, p: nat, source: Bytes, written: Bytes,
                     chunk: Bytes, last: bool)
    requires p < |s.processes| && s.processes[p].phase.Write?
    requires ProcessSound(hash, s, origin, p) && OnTrack(hash, s, p, source, written)
    requires last ==> written + chunk == source
    ensures var t := Next(hash, s, p, Choice(true, true, chunk, last));
      OnTrack(hash, t, p, source, written + chunk) && t.processes[p].phase == if last then Verify else Write
  {
  }

  predicate Copying(phase: Phase) {
    phase.CreateStage? || phase.Verify?
  }

  lemma StartOnTrack(hash: Bytes -> Digest, s: System, origin: Origin, p: nat, source: Bytes, written: Bytes)
    requires p < |s.processes| && s.processes[p].phase.Start?
    requires DiskSound(hash, s, origin) && ProcessSound(hash, s, origin, p) && OnTrack(hash, s, p, source, written)
    ensures var t := Next(hash, s, p, Choice(true, true, source, true));
      OnTrack(hash, t, p, source, written) && Rank(t.processes[p].phase) < Rank(s.processes[p].phase)
  {
  }

  lemma KeepPreviousOnTrack(hash: Bytes -> Digest, s: System, origin: Origin, p: nat, source: Bytes, written: Bytes)
    requires p < |s.processes| && s.processes[p].phase.KeepPrevious?
    requires DiskSound(hash, s, origin) && ProcessSound(hash, s, origin, p) && OnTrack(hash, s, p, source, written)
    ensures var t := Next(hash, s, p, Choice(true, true, source, true));
      OnTrack(hash, t, p, source, written) && Rank(t.processes[p].phase) < Rank(s.processes[p].phase)
  {
    var previous := s.processes[p].phase.previous;
    if Target(previous) in s.dir { assert Genuine(hash, s, previous); }
  }

  lemma HashingOnTrack(hash: Bytes -> Digest, s: System, origin: Origin, p: nat, source: Bytes, written: Bytes)
    requires p < |s.processes| && (s.processes[p].phase.HashSource? || s.processes[p].phase.CheckTarget?)
    requires DiskSound(hash, s, origin) && ProcessSound(hash, s, origin, p) && OnTrack(hash, s, p, source, written)
    ensures var t := Next(hash, s, p, Choice(true, true, source, true));
      OnTrack(hash, t, p, source, written) && Rank(t.processes[p].phase) < Rank(s.processes[p].phase)
  {
    var q := s.processes[p];
    if Target(q.source) in s.dir { assert Genuine(hash, s, q.source); }
  }

  lemma CopyingOnTrack(hash: Bytes -> Digest, s: System, origin: Origin, p: nat, source: Bytes, written: Bytes)
    requires p < |s.processes| && Copying(s.processes[p].phase)
    requires DiskSound(hash, s, origin) && ProcessSound(hash, s, origin, p) && OnTrack(hash, s, p, source, written)
    ensures var t := Next(hash, s, p, Choice(true, true, source, true));
      OnTrack(hash, t, p, source, written) && Rank(t.processes[p].phase) < Rank(s.processes[p].phase)
  {
  }

  lemma PublishingOnTrack(hash: Bytes -> Digest, s: System, origin: Origin, p: nat, source: Bytes, written: Bytes)
    requires p < |s.processes| && Running(s.processes[p]) && Publishing(s.processes[p].phase)
    requires DiskSound(hash, s, origin) && ProcessSound(hash, s, origin, p) && OnTrack(hash, s, p, source, written)
    ensures var t := Next(hash, s, p, Choice(true, true, source, true));
      OnTrack(hash, t, p, source, written) && Rank(t.processes[p].phase) < Rank(s.processes[p].phase)
  {
    var q := s.processes[p];
    if Target(q.source) in s.dir { assert Genuine(hash, s, q.source); }
  }

  predicate Pointing(phase: Phase) {
    phase.Recheck? || phase.CreateLink? || phase.Replace?
  }

  lemma PointingOnTrack(hash: Bytes -> Digest, s: System, origin: Origin, p: nat, source: Bytes, written: Bytes)
    requires p < |s.processes| && Pointing(s.processes[p].phase)
    requires DiskSound(hash, s, origin) && ProcessSound(hash, s, origin, p) && OnTrack(hash, s, p, source, written)
    ensures var t := Next(hash, s, p, Choice(true, true, source, true));
      OnTrack(hash, t, p, source, written) && Rank(t.processes[p].phase) < Rank(s.processes[p].phase)
  {
  }

  lemma CheckingOnTrack(hash: Bytes -> Digest, s: System, origin: Origin, p: nat, source: Bytes, written: Bytes)
    requires p < |s.processes| && (s.processes[p].phase.CheckPointer? || s.processes[p].phase.CheckDigest?)
    requires DiskSound(hash, s, origin) && ProcessSound(hash, s, origin, p) && OnTrack(hash, s, p, source, written)
    ensures var t := Next(hash, s, p, Choice(true, true, source, true));
      OnTrack(hash, t, p, source, written) && Rank(t.processes[p].phase) < Rank(s.processes[p].phase)
  {
    assert Genuine(hash, s, s.processes[p].source);
  }

  lemma StaysOnTrack(hash: Bytes -> Digest, s: System, origin: Origin, p: nat, source: Bytes, written: Bytes)
    requires p < |s.processes| && Running(s.processes[p]) && !s.processes[p].phase.Write?
    requires Sound(hash, s, origin) && OnTrack(hash, s, p, source, written)
    ensures var t := Next(hash, s, p, Choice(true, true, source, true));
      OnTrack(hash, t, p, source, written) && Rank(t.processes[p].phase) < Rank(s.processes[p].phase)
  {
    assert ProcessSound(hash, s, origin, p);
    var phase := s.processes[p].phase;
    if phase.Start? {
      StartOnTrack(hash, s, origin, p, source, written);
    } else if phase.KeepPrevious? {
      KeepPreviousOnTrack(hash, s, origin, p, source, written);
    } else if Early(phase) {
      HashingOnTrack(hash, s, origin, p, source, written);
    } else if Copying(phase) {
      CopyingOnTrack(hash, s, origin, p, source, written);
    } else if Publishing(phase) {
      PublishingOnTrack(hash, s, origin, p, source, written);
    } else if Pointing(phase) {
      PointingOnTrack(hash, s, origin, p, source, written);
    } else {
      CheckingOnTrack(hash, s, origin, p, source, written);
    }
  }

  function Joined(chunks: seq<Bytes>): Bytes {
    if chunks == [] then [] else Joined(chunks[..|chunks| - 1]) + chunks[|chunks| - 1]
  }

  lemma JoinedStep(chunks: seq<Bytes>, i: nat)
    requires i < |chunks|
    ensures Joined(chunks[..i + 1]) == Joined(chunks[..i]) + chunks[i]
  {
    assert chunks[..i + 1][..i] == chunks[..i];
  }

  /** The installer goes on, the others being idle: everything is as it should be, with `i` chunks
      copied. */
  ghost predicate Undisturbed(hash: Bytes -> Digest, start: System, s: System, origin: Origin, p: nat,
                              source: Bytes, chunks: seq<Bytes>, i: nat) {
    && p < |s.processes| == |start.processes| && Sound(hash, s, origin) && Alone(s, p)
    && i <= |chunks| && OnTrack(hash, s, p, source, Joined(chunks[..i]))
    && (s.processes[p].phase.Write? ==> i < |chunks|)
    && (Rank(s.processes[p].phase) >= 10 ==> i == 0)
    && forall n | n in start.dir && n.Target? :: n in s.dir && Resolve(s, n) == Resolve(start, n)
  }

  /** One operation of such an installer. */
  method Proceed(hash: Bytes -> Digest, ghost start: System, s: System, ghost origin: Origin, p: nat,
                 source: Bytes, chunks: seq<Bytes>, i: nat)
    returns (t: System, j: nat)
    requires Undisturbed(hash, start, s, origin, p, source, chunks, i) && !s.processes[p].phase.Installed?
    requires chunks != [] && Joined(chunks) == source
    ensures Undisturbed(hash, start, t, origin, p, source, chunks, j)
    ensures j == if s.processes[p].phase.Write? then i + 1 else i
    ensures if j > i then Rank(t.processes[p].phase) <= Rank(s.processes[p].phase)
            else Rank(t.processes[p].phase) < Rank(s.processes[p].phase)
  {
    var c := Choice(true, true, source, true);
    j := i;
    assert chunks[..|chunks|] == chunks;
    if s.processes[p].phase.Write? {
      c := Choice(true, true, chunks[i], i == |chunks| - 1);
      JoinedStep(chunks, i);
      assert ProcessSound(hash, s, origin, p);
      WriteOnTrack(hash, s, origin, p, source, Joined(chunks[..i]), chunks[i], i == |chunks| - 1);
      j := i + 1;
    } else {
      StaysOnTrack(hash, s, origin, p, source, Joined(chunks[..i]));
    }
    UndisturbedStep(hash, s, origin, p, c);
    t := Next(hash, s, p, c);
  }

  /** An installer that runs undisturbed, whose calls all succeed, returns normally, however the source
      is cut into chunks: the installed name then points at the target of the source digest. */
  method InstallAlone(hash: Bytes -> Digest, start: System, ghost origin: Origin, p: nat, source: Bytes,
                      chunks: seq<Bytes>)
    returns (s: System)
    requires Sound(hash, start, origin) && p < |start.processes| && start.processes[p].phase.Start? && Alone(start, p)
    requires Link in start.dir && start.dir[Link].Hard? ==> start.processes[p].bootstrap
    requires ExecutableSource(hash, start, source)
    requires chunks != [] && Joined(chunks) == source
    ensures Sound(hash, s, origin) && |s.processes| == |start.processes| && s.processes[p].phase.Installed?
    ensures Link in s.dir && s.dir[Link] == Symlink(Target(hash(source))) && PointsAtTarget(hash, s)
    ensures forall n | n in start.dir && n.Target? :: n in s.dir && Resolve(s, n) == Resolve(start, n)
  {
    s := start;
    var i := 0;
    while !s.processes[p].phase.Installed?
      invariant Undisturbed(hash, start, s, origin, p, source, chunks, i)
      decreases Rank(s.processes[p].phase), |chunks| - i
    {
      s, i := Proceed(hash, start, s, origin, p, source, chunks, i);
    }
    LinkResolves(hash, s, origin);
  }

  lemma UndisturbedStep(hash: Bytes -> Digest, s: System, origin: Origin, p: nat, c: Choice)
    requires Sound(hash, s, origin) && p < |s.processes| && Running(s.processes[p]) && Alone(s, p)
    ensures var t := Next(hash, s, p, c);
      && |t.processes| == |s.processes| && Sound(hash, t, origin) && Alone(t, p)
      && forall n | n in s.dir && n.Target? :: n in t.dir && Resolve(t, n) == Resolve(s, n)
  {
    StepKeepsSound(hash, s, origin, Advance(p, c));
    StepSafety(hash, s, origin, Advance(p, c));
    NextConfined(hash, s, origin, p, c);
  }
}
