/** What a normal return of the installer leaves is executable, although a target that another
    installer published first is accepted without looking (scripts/install_shared_cass.py). */
module InstalledExecutable {
  import opened Framing
  import opened Installer

  /** The target of this digest can be executed. */
  predicate ExecutableTarget(s: System, d: Digest) {
    Resolve(s, Target(d)).Some? && Resolve(s, Target(d)).value.executable
  }

  /** Past the look at the target that found nothing, and not yet published. */
  predicate Unpublished(q: Process) {
    q.phase.CreateStage? || q.phase.Write? || q.phase.Verify? || q.phase.LinkTarget?
  }

  /** A staged file is executable once it is complete and not before; a target that has appeared since the
      installer found none is executable; so is the target it is about to point at, and what it points at is a
      target. */
  ghost predicate ProcessFit(s: System, p: nat)
    requires p < |s.processes|
  {
    var q := s.processes[p];
    && (q.phase.Write? ==> Staged(s, p).Some? && !Staged(s, p).value.executable)
    && (q.phase.Verify? || q.phase.LinkTarget? ==> Staged(s, p).Some? && Staged(s, p).value.executable)
    && (Unpublished(q) && Target(q.source) in s.dir ==> ExecutableTarget(s, q.source))
    && (PastPublish(q) ==> ExecutableTarget(s, q.source))
    && (q.phase.CheckDigest? ==> LinksToTarget(s))
  }

  predicate LinksToTarget(s: System) {
    Link in s.dir && s.dir[Link].Symlink? && s.dir[Link].target.Target?
  }

  ghost predicate Fit(s: System) {
    forall p | 0 <= p < |s.processes| :: ProcessFit(s, p)
  }

  // ---------- The installer's own step ----------

  lemma StartFit(hash: Bytes -> Digest, s: System, origin: Origin, p: nat, c: Choice)
    requires p < |s.processes| && s.processes[p].phase.Start?
    requires DiskSound(hash, s, origin) && ProcessSound(hash, s, origin, p) && ProcessFit(s, p)
    ensures |Next(hash, s, p, c).processes| == |s.processes| && ProcessFit(Next(hash, s, p, c), p)
  {
  }

  lemma KeepPreviousFit(hash: Bytes -> Digest, s: System, origin: Origin, p: nat, c: Choice)
    requires p < |s.processes| && s.processes[p].phase.KeepPrevious?
    requires DiskSound(hash, s, origin) && ProcessSound(hash, s, origin, p) && ProcessFit(s, p)
    ensures |Next(hash, s, p, c).processes| == |s.processes| && ProcessFit(Next(hash, s, p, c), p)
  {
  }

  lemma HashSourceFit(hash: Bytes -> Digest, s: System, origin: Origin, p: nat, c: Choice)
    requires p < |s.processes| && s.processes[p].phase.HashSource?
    requires DiskSound(hash, s, origin) && ProcessSound(hash, s, origin, p) && ProcessFit(s, p)
    ensures |Next(hash, s, p, c).processes| == |s.processes| && ProcessFit(Next(hash, s, p, c), p)
  {
  }

  lemma CheckTargetFit(hash: Bytes -> Digest, s: System, origin: Origin, p: nat, c: Choice)
    requires p < |s.processes| && s.processes[p].phase.CheckTarget?
    requires DiskSound(hash, s, origin) && ProcessSound(hash, s, origin, p) && ProcessFit(s, p)
    ensures |Next(hash, s, p, c).processes| == |s.processes| && ProcessFit(Next(hash, s, p, c), p)
  {
    if Target(s.processes[p].source) in s.dir { assert Genuine(hash, s, s.processes[p].source); }
  }

  lemma CreateStageFit(hash: Bytes -> Digest, s: System, origin: Origin, p: nat, c: Choice)
    requires p < |s.processes| && s.processes[p].phase.CreateStage?
    requires DiskSound(hash, s, origin) && ProcessSound(hash, s, origin, p) && ProcessFit(s, p)
    ensures |Next(hash, s, p, c).processes| == |s.processes| && ProcessFit(Next(hash, s, p, c), p)
  {
    if Target(s.processes[p].source) in s.dir {
      NextConfined(hash, s, origin, p, c);
      TargetsStayGenuine(hash, s, Next(hash, s, p, c), origin, p, s.processes[p].source);
    }
  }

  lemma WriteFit(hash: Bytes -> Digest, s: System, origin: Origin, p: nat, c: Choice)
    requires p < |s.processes| && s.processes[p].phase.Write?
    requires DiskSound(hash, s, origin) && ProcessSound(hash, s, origin, p) && ProcessFit(s, p)
    ensures |Next(hash, s, p, c).processes| == |s.processes| && ProcessFit(Next(hash, s, p, c), p)
  {
    if Target(s.processes[p].source) in s.dir {
      NextConfined(hash, s, origin, p, c);
      TargetsStayGenuine(hash, s, Next(hash, s, p, c), origin, p, s.processes[p].source);
    }
  }

  lemma VerifyFit(hash: Bytes -> Digest, s: System, origin: Origin, p: nat, c: Choice)
    requires p < |s.processes| && s.processes[p].phase.Verify?
    requires DiskSound(hash, s, origin) && ProcessSound(hash, s, origin, p) && ProcessFit(s, p)
    ensures |Next(hash, s, p, c).processes| == |s.processes| && ProcessFit(Next(hash, s, p, c), p)
  {
    if Target(s.processes[p].source) in s.dir {
      NextConfined(hash, s, origin, p, c);
      TargetsStayGenuine(hash, s, Next(hash, s, p, c), origin, p, s.processes[p].source);
    }
  }

  lemma LinkTargetFit(hash: Bytes -> Digest, s: System, origin: Origin, p: nat, c: Choice)
    requires p < |s.processes| && s.processes[p].phase.LinkTarget?
    requires DiskSound(hash, s, origin) && ProcessSound(hash, s, origin, p) && ProcessFit(s, p)
    ensures |Next(hash, s, p, c).processes| == |s.processes| && ProcessFit(Next(hash, s, p, c), p)
  {
  }

  lemma DropStageFit(hash: Bytes -> Digest, s: System, origin: Origin, p: nat, c: Choice)
    requires p < |s.processes| && s.processes[p].phase.DropStage?
    requires DiskSound(hash, s, origin) && ProcessSound(hash, s, origin, p) && ProcessFit(s, p)
    ensures |Next(hash, s, p, c).processes| == |s.processes| && ProcessFit(Next(hash, s, p, c), p)
  {
    if Target(s.processes[p].source) in s.dir {
      NextConfined(hash, s, origin, p, c);
      TargetsStayGenuine(hash, s, Next(hash, s, p, c), origin, p, s.processes[p].source);
    }
  }

  lemma RecheckFit(hash: Bytes -> Digest, s: System, origin: Origin, p: nat, c: Choice)
    requires p < |s.processes| && s.processes[p].phase.Recheck?
    requires DiskSound(hash, s, origin) && ProcessSound(hash, s, origin, p) && ProcessFit(s, p)
    ensures |Next(hash, s, p, c).processes| == |s.processes| && ProcessFit(Next(hash, s, p, c), p)
  {
    if Target(s.processes[p].source) in s.dir {
      NextConfined(hash, s, origin, p, c);
      TargetsStayGenuine(hash, s, Next(hash, s, p, c), origin, p, s.processes[p].source);
    }
  }

  lemma CreateLinkFit(hash: Bytes -> Digest, s: System, origin: Origin, p: nat, c: Choice)
    requires p < |s.processes| && s.processes[p].phase.CreateLink?
    requires DiskSound(hash, s, origin) && ProcessSound(hash, s, origin, p) && ProcessFit(s, p)
    ensures |Next(hash, s, p, c).processes| == |s.processes| && ProcessFit(Next(hash, s, p, c), p)
  {
    if Target(s.processes[p].source) in s.dir {
      NextConfined(hash, s, origin, p, c);
      TargetsStayGenuine(hash, s, Next(hash, s, p, c), origin, p, s.processes[p].source);
    }
  }

  lemma ReplaceFit(hash: Bytes -> Digest, s: System, origin: Origin, p: nat, c: Choice)
    requires p < |s.processes| && s.processes[p].phase.Replace?
    requires DiskSound(hash, s, origin) && ProcessSound(hash, s, origin, p) && ProcessFit(s, p)
    ensures |Next(hash, s, p, c).processes| == |s.processes| && ProcessFit(Next(hash, s, p, c), p)
  {
    if Target(s.processes[p].source) in s.dir {
      NextConfined(hash, s, origin, p, c);
      TargetsStayGenuine(hash, s, Next(hash, s, p, c), origin, p, s.processes[p].source);
    }
  }

  lemma DropStagedLinkFit(hash: Bytes -> Digest, s: System, origin: Origin, p: nat, c: Choice)
    requires p < |s.processes| && s.processes[p].phase.DropStagedLink?
    requires DiskSound(hash, s, origin) && ProcessSound(hash, s, origin, p) && ProcessFit(s, p)
    ensures |Next(hash, s, p, c).processes| == |s.processes| && ProcessFit(Next(hash, s, p, c), p)
  {
  }

  lemma CheckingFit(hash: Bytes -> Digest, s: System, origin: Origin, p: nat, c: Choice)
    requires p < |s.processes| && (s.processes[p].phase.CheckPointer? || s.processes[p].phase.CheckDigest?)
    requires DiskSound(hash, s, origin) && ProcessSound(hash, s, origin, p) && ProcessFit(s, p)
    ensures |Next(hash, s, p, c).processes| == |s.processes| && ProcessFit(Next(hash, s, p, c), p)
  {
    if Target(s.processes[p].source) in s.dir {
      NextConfined(hash, s, origin, p, c);
      TargetsStayGenuine(hash, s, Next(hash, s, p, c), origin, p, s.processes[p].source);
    }
  }

  lemma NextFit(hash: Bytes -> Digest, s: System, origin: Origin, p: nat, c: Choice)
    requires p < |s.processes| && Running(s.processes[p])
    requires DiskSound(hash, s, origin) && ProcessSound(hash, s, origin, p) && ProcessFit(s, p)
    ensures |Next(hash, s, p, c).processes| == |s.processes| && ProcessFit(Next(hash, s, p, c), p)
  {
    match s.processes[p].phase {
      case Start => StartFit(hash, s, origin, p, c);
      case KeepPrevious(_) => KeepPreviousFit(hash, s, origin, p, c);
      case HashSource => HashSourceFit(hash, s, origin, p, c);
      case CheckTarget => CheckTargetFit(hash, s, origin, p, c);
      case CreateStage => CreateStageFit(hash, s, origin, p, c);
      case Write => WriteFit(hash, s, origin, p, c);
      case Verify => VerifyFit(hash, s, origin, p, c);
      case LinkTarget => LinkTargetFit(hash, s, origin, p, c);
      case DropStage(_) => DropStageFit(hash, s, origin, p, c);
      case Recheck => RecheckFit(hash, s, origin, p, c);
      case CreateLink => CreateLinkFit(hash, s, origin, p, c);
      case Replace => ReplaceFit(hash, s, origin, p, c);
      case DropStagedLink => DropStagedLinkFit(hash, s, origin, p, c);
      case CheckPointer => CheckingFit(hash, s, origin, p, c);
      case CheckDigest => CheckingFit(hash, s, origin, p, c);
    }
  }

  // ---------- The others ----------

  /** A target that appears while another installer is past its look is an executable staged file:
      the conversion of a regular destination runs only while nobody is past his look. */
  lemma NewTargetExecutable(hash: Bytes -> Digest, s: System, origin: Origin, p: nat, q: nat, c: Choice, d: Digest)
    requires Sound(hash, s, origin) && Fit(s) && Alone(s, p)
    requires p < |s.processes| && Running(s.processes[p]) && q < |s.processes| && q != p && Unpublished(s.processes[q])
    requires Target(d) !in s.dir && Target(d) in Next(hash, s, p, c).dir
    ensures ExecutableTarget(Next(hash, s, p, c), d)
  {
    assert ProcessSound(hash, s, origin, p) && ProcessSound(hash, s, origin, q) && ProcessFit(s, p);
    assert !s.processes[p].phase.KeepPrevious?;
    OnlyPublishingAddsTargets(hash, s, p, c, d);
  }

  lemma OnlyPublishingAddsTargets(hash: Bytes -> Digest, s: System, p: nat, c: Choice, d: Digest)
    requires p < |s.processes| && Running(s.processes[p]) && !s.processes[p].phase.KeepPrevious?
    requires Target(d) !in s.dir && Target(d) in Next(hash, s, p, c).dir
    ensures s.processes[p].phase.LinkTarget? && d == s.processes[p].source
    ensures Staged(s, p).Some? && Resolve(Next(hash, s, p, c), Target(d)) == Staged(s, p)
  {
  }

  lemma OthersStayFit(hash: Bytes -> Digest, s: System, origin: Origin, p: nat, q: nat, c: Choice)
    requires Sound(hash, s, origin) && Fit(s) && Alone(s, p)
    requires p < |s.processes| && Running(s.processes[p]) && q < |s.processes| && q != p
    ensures |Next(hash, s, p, c).processes| == |s.processes| && ProcessFit(Next(hash, s, p, c), q)
  {
    var t, other := Next(hash, s, p, c), s.processes[q];
    assert ProcessSound(hash, s, origin, p) && ProcessSound(hash, s, origin, q) && ProcessFit(s, q);
    NextConfined(hash, s, origin, p, c);
    if other.phase.Write? || other.phase.Verify? || other.phase.LinkTarget? { StagedUntouched(s, t, p, q); }
    if Target(other.source) in s.dir {
      TargetsStayGenuine(hash, s, t, origin, p, other.source);
    } else if Unpublished(other) && Target(other.source) in t.dir {
      NewTargetExecutable(hash, s, origin, p, q, c, other.source);
    }
    if other.phase.CheckDigest? { LinkStaysOnTarget(hash, s, origin, p, c); }
  }

  lemma LinkStaysOnTarget(hash: Bytes -> Digest, s: System, origin: Origin, p: nat, c: Choice)
    requires p < |s.processes| && Running(s.processes[p]) && ProcessSound(hash, s, origin, p) && LinksToTarget(s)
    ensures LinksToTarget(Next(hash, s, p, c))
  {
    if !(s.processes[p].phase.Replace? && c.succeeds) { LinkUnlessReplaced(hash, s, p, c); }
  }

  lemma StepKeepsFit(hash: Bytes -> Digest, s: System, origin: Origin, a: Action)
    requires Sound(hash, s, origin) && Fit(s) && Enabled(s, a)
    ensures Fit(Perform(hash, s, a))
  {
    var t := Perform(hash, s, a);
    match a {
      case Spawn(_) =>
        forall q | 0 <= q < |t.processes| ensures ProcessFit(t, q) {
          if q < |s.processes| { assert ProcessFit(s, q); }
        }
      case Crash(p) =>
        forall q | 0 <= q < |t.processes| ensures ProcessFit(t, q) { assert ProcessFit(s, q); }
      case Advance(p, c) =>
        assert ProcessSound(hash, s, origin, p) && ProcessFit(s, p);
        NextFit(hash, s, origin, p, c);
        forall q | 0 <= q < |t.processes| ensures ProcessFit(t, q) {
          if q != p { OthersStayFit(hash, s, origin, p, q, c); }
        }
    }
  }

  lemma {:induction false} RunStaysFit(hash: Bytes -> Digest, states: seq<System>, actions: seq<Action>,
                                       origin: Origin, i: nat)
    requires IsRun(hash, states, actions, origin) && i < |states|
    ensures Fit(states[i])
  {
    if i > 0 {
      RunStaysFit(hash, states, actions, origin, i - 1);
      RunStaysSound(hash, states, actions, origin, i - 1);
      StepKeepsFit(hash, states[i - 1], origin, actions[i - 1]);
    }
  }

  /** No incomplete copy can be executed, in any state of any run. */
  lemma IncompleteIsNotExecutable(hash: Bytes -> Digest, states: seq<System>, actions: seq<Action>, origin: Origin,
                                  i: nat, p: nat)
    requires IsRun(hash, states, actions, origin) && i < |states|
    requires p < |states[i].processes| && states[i].processes[p].phase.Write?
    ensures Staged(states[i], p).Some? && !Staged(states[i], p).value.executable
  {
    RunStaysFit(hash, states, actions, origin, i);
    assert ProcessFit(states[i], p);
  }

  // ---------- The return ----------

  lemma LastCheckFindsTarget(hash: Bytes -> Digest, s: System, origin: Origin, p: nat, c: Choice)
    requires Sound(hash, s, origin) && p < |s.processes| && s.processes[p].phase.CheckDigest? && ProcessFit(s, p)
    requires Next(hash, s, p, c).processes[p].phase.Installed?
    ensures var t := Next(hash, s, p, c);
      Resolve(t, Link).Some? && Resolve(t, Link).value.executable &&
        hash(Resolve(t, Link).value.bytes) == t.processes[p].source
  {
    assert ProcessSound(hash, s, origin, p);
    assert Genuine(hash, s, s.dir[Link].target.digest);
  }

  /** At a normal return, in any run, the installed name resolves to an executable file with the source
      digest. */
  lemma ReturnMeansExecutable(hash: Bytes -> Digest, states: seq<System>, actions: seq<Action>, origin: Origin, i: nat,
                              p: nat)
    requires IsRun(hash, states, actions, origin) && i < |actions|
    requires p < |states[i].processes| && !states[i].processes[p].phase.Installed?
    requires p < |states[i + 1].processes| && states[i + 1].processes[p].phase.Installed?
    ensures var t := states[i + 1];
      Resolve(t, Link).Some? && Resolve(t, Link).value.executable &&
        hash(Resolve(t, Link).value.bytes) == t.processes[p].source
  {
    var s, a := states[i], actions[i];
    RunStaysSound(hash, states, actions, origin, i);
    RunStaysFit(hash, states, actions, origin, i);
    assert Enabled(s, a) && states[i + 1] == Perform(hash, s, a) && ProcessFit(s, p);
    if a.Advance? {
      assert ProcessSound(hash, s, origin, a.process);
      NextConfined(hash, s, origin, a.process, a.choice);
      assert a.process == p;
      if !s.processes[p].phase.CheckDigest? { OnlyTheLastCheckReturns(hash, s, p, a.choice); }
      LastCheckFindsTarget(hash, s, origin, p, a.choice);
    }
  }
}
