/** The one-time conversion of a regular destination, and what an installer leaves behind, over whole runs
    (scripts/install_shared_cass.py). */
module Conversion {
  import opened Prelude
  import opened Framing
  import opened Installer

  // ---------- What is refused at the start ----------

  /** The first operation goes on to hash the source when there is nothing to keep, on to keep the regular
      destination only with consent and while nothing executes it, and otherwise fails, leaving all entries
      and files alone. */
  lemma StartExactly(hash: Bytes -> Digest, s: System, p: nat, c: Choice)
    requires p < |s.processes| && s.processes[p].phase.Start?
    ensures var t := Next(hash, s, p, c);
      var phase := t.processes[p].phase;
      && t.dir == s.dir && t.files == s.files && (phase.HashSource? || phase.KeepPrevious? || phase.Failed?)
      && (phase.KeepPrevious? <==>
            && c.succeeds && Link in s.dir && s.dir[Link].Hard? && s.dir[Link].inode in s.files
            && s.processes[p].bootstrap && c.idle)
      && (phase.KeepPrevious? ==> phase.previous == hash(s.files[s.dir[Link].inode].bytes) && t.processes[p].converting)
      && (phase.HashSource? <==> c.succeeds && (Link !in s.dir || (s.dir[Link].Symlink? && Resolve(s, Link).Some?)))
  {
  }

  /** An entry that is already where a target should be is accepted only if it is a file with the digest in its
      name: before copying also only if it can be executed, and for the retained previous file only if it is
      no link. Otherwise the directory stays as it is and the installation comes to nothing. */
  lemma WrongTargetsAreRefused(hash: Bytes -> Digest, s: System, p: nat, c: Choice)
    requires p < |s.processes| && Running(s.processes[p])
    ensures var q, t := s.processes[p], Next(hash, s, p, c);
      && (q.phase.KeepPrevious? && Target(q.phase.previous) in s.dir
          && !(Resolve(s, Target(q.phase.previous)).Some? && s.dir[Target(q.phase.previous)].Hard?
               && hash(Resolve(s, Target(q.phase.previous)).value.bytes) == q.phase.previous) ==>
            t.processes[p].phase.Failed? && t.dir == s.dir)
      && (q.phase.CheckTarget? && Resolve(s, Target(q.source)).Some?
          && !(s.dir[Target(q.source)].Hard? && hash(Resolve(s, Target(q.source)).value.bytes) == q.source
               && Resolve(s, Target(q.source)).value.executable) ==>
            t.processes[p].phase.Failed? && t.dir == s.dir)
      && (q.phase.LinkTarget? && Target(q.source) in s.dir
          && !(Resolve(s, Target(q.source)).Some? && hash(Resolve(s, Target(q.source)).value.bytes) == q.source) ==>
            t.processes[p].phase == DropStage(false) && t.dir == s.dir)
  {
    match s.processes[p].phase {
      case KeepPrevious(_) =>
      case CheckTarget =>
      case LinkTarget =>
      case _ =>
    }
  }

  // ---------- Conversion needs consent ----------

  predicate AfterRecheck(phase: Phase) {
    phase.CreateLink? || phase.Replace? || phase.DropStagedLink? || phase.CheckPointer? || phase.CheckDigest?
    || phase.Installed?
  }

  /** From `s` to `t` a process keeps its consent, becomes converting only by an idle start with consent, and
      goes past the second check only if it is idle too. */
  predicate Carries(s: Process, t: Process, idle: bool) {
    && t.bootstrap == s.bootstrap && !t.phase.Start?
    && (t.converting ==> s.converting || (s.phase.Start? && idle && s.bootstrap))
    && (t.converting && AfterRecheck(t.phase) ==>
          s.converting && (AfterRecheck(s.phase) || (s.phase.Recheck? && idle)))
  }

  lemma EarlyCarries(hash: Bytes -> Digest, s: System, p: nat, c: Choice)
    requires p < |s.processes| && Running(s.processes[p]) && Early(s.processes[p].phase)
    ensures |Next(hash, s, p, c).processes| == |s.processes|
    ensures Carries(s.processes[p], Next(hash, s, p, c).processes[p], c.idle)
  {
  }

  lemma StagingCarries(hash: Bytes -> Digest, s: System, p: nat, c: Choice)
    requires p < |s.processes| && Running(s.processes[p]) && Staging(s.processes[p].phase)
    ensures |Next(hash, s, p, c).processes| == |s.processes|
    ensures Carries(s.processes[p], Next(hash, s, p, c).processes[p], c.idle)
  {
  }

  lemma PublishingCarries(hash: Bytes -> Digest, s: System, p: nat, c: Choice)
    requires p < |s.processes| && Running(s.processes[p]) && Publishing(s.processes[p].phase)
    ensures |Next(hash, s, p, c).processes| == |s.processes|
    ensures Carries(s.processes[p], Next(hash, s, p, c).processes[p], c.idle)
  {
  }

  lemma LinkingCarries(hash: Bytes -> Digest, s: System, p: nat, c: Choice)
    requires p < |s.processes| && Running(s.processes[p]) && Linking(s.processes[p].phase)
    ensures |Next(hash, s, p, c).processes| == |s.processes|
    ensures Carries(s.processes[p], Next(hash, s, p, c).processes[p], c.idle)
  {
  }

  lemma NextCarries(hash: Bytes -> Digest, s: System, p: nat, c: Choice)
    requires p < |s.processes| && Running(s.processes[p])
    ensures |Next(hash, s, p, c).processes| == |s.processes|
    ensures Carries(s.processes[p], Next(hash, s, p, c).processes[p], c.idle)
  {
    if Early(s.processes[p].phase) {
      EarlyCarries(hash, s, p, c);
    } else if Staging(s.processes[p].phase) {
      StagingCarries(hash, s, p, c);
    } else if Publishing(s.processes[p].phase) {
      PublishingCarries(hash, s, p, c);
    } else {
      LinkingCarries(hash, s, p, c);
    }
  }

  /** Step `i` is process `p`'s operation in phase `phase`, with consent and nothing executing the destination. */
  ghost predicate ChecksIdle(states: seq<System>, actions: seq<Action>, i: nat, p: nat, phase: Phase)
    requires |states| == |actions| + 1
  {
    && i < |actions| && actions[i].Advance? && actions[i].process == p && actions[i].choice.idle
    && p < |states[i].processes| && states[i].processes[p].phase == phase && states[i].processes[p].bootstrap
  }

  ghost predicate CheckedOnce(states: seq<System>, actions: seq<Action>, k: nat, p: nat)
    requires |states| == |actions| + 1
  {
    exists i: nat :: i < k && ChecksIdle(states, actions, i, p, Start)
  }

  /** Nothing executed the destination at the start nor again, later, before the link was made. */
  ghost predicate CheckedTwice(states: seq<System>, actions: seq<Action>, k: nat, p: nat)
    requires |states| == |actions| + 1
  {
    exists j: nat :: j < k && ChecksIdle(states, actions, j, p, Recheck) && CheckedOnce(states, actions, j, p)
  }

  /** What has been checked on the way to where process `p` is after `k` steps. */
  ghost predicate Consented(states: seq<System>, actions: seq<Action>, k: nat, p: nat)
    requires |states| == |actions| + 1 && k < |states|
  {
    p < |states[k].processes| && states[k].processes[p].converting ==>
      && states[k].processes[p].bootstrap && CheckedOnce(states, actions, k, p)
      && (AfterRecheck(states[k].processes[p].phase) ==> CheckedTwice(states, actions, k, p))
  }

  lemma ConsentGrows(states: seq<System>, actions: seq<Action>, k: nat, p: nat)
    requires |states| == |actions| + 1
    ensures CheckedOnce(states, actions, k, p) ==> CheckedOnce(states, actions, k + 1, p)
    ensures CheckedTwice(states, actions, k, p) ==> CheckedTwice(states, actions, k + 1, p)
  {
    if CheckedOnce(states, actions, k, p) {
      var i: nat :| i < k && ChecksIdle(states, actions, i, p, Start);
      assert i < k + 1 && ChecksIdle(states, actions, i, p, Start);
    }
    if CheckedTwice(states, actions, k, p) {
      var j: nat :| j < k && ChecksIdle(states, actions, j, p, Recheck) && CheckedOnce(states, actions, j, p);
      assert j < k + 1 && ChecksIdle(states, actions, j, p, Recheck) && CheckedOnce(states, actions, j, p);
    }
  }

  lemma OthersUnmoved(hash: Bytes -> Digest, s: System, p: nat, c: Choice, q: nat)
    requires p < |s.processes| && Running(s.processes[p]) && q < |s.processes| && q != p
    ensures |Next(hash, s, p, c).processes| == |s.processes|
    ensures Next(hash, s, p, c).processes[q] == s.processes[q]
  {
  }

  /** What one action does to the processes. */
  ghost predicate Moves(s: System, t: System, a: Action) {
    match a
    case Spawn(bootstrap) => t.processes == s.processes + [Process(Start, bootstrap, false, [])]
    case Crash(p) => p < |s.processes| && t.processes == s.processes[p := s.processes[p].(phase := Crashed)]
    case Advance(p, c) =>
      && p < |s.processes| == |t.processes| && Carries(s.processes[p], t.processes[p], c.idle)
      && forall q | 0 <= q < |s.processes| && q != p :: t.processes[q] == s.processes[q]
  }

  lemma StepMoves(hash: Bytes -> Digest, s: System, a: Action)
    requires Enabled(s, a)
    ensures Moves(s, Perform(hash, s, a), a)
  {
    if a.Advance? {
      NextCarries(hash, s, a.process, a.choice);
      forall q | 0 <= q < |s.processes| && q != a.process
        ensures Next(hash, s, a.process, a.choice).processes[q] == s.processes[q]
      {
        OthersUnmoved(hash, s, a.process, a.choice, q);
      }
    }
  }

  /** A history as far as the processes are concerned. */
  ghost predicate Moving(states: seq<System>, actions: seq<Action>) {
    |states| == |actions| + 1 && states[0].processes == []
    && forall i | 0 <= i < |actions| :: Moves(states[i], states[i + 1], actions[i])
  }

  lemma RunMoves(hash: Bytes -> Digest, states: seq<System>, actions: seq<Action>, origin: Origin)
    requires IsRun(hash, states, actions, origin)
    ensures Moving(states, actions)
  {
    forall i | 0 <= i < |actions| ensures Moves(states[i], states[i + 1], actions[i]) {
      StepMoves(hash, states[i], actions[i]);
    }
  }

  lemma ConsentStep(states: seq<System>, actions: seq<Action>, k: nat, p: nat)
    requires Moving(states, actions) && k < |actions| && Consented(states, actions, k, p)
    ensures Consented(states, actions, k + 1, p)
  {
    assert Moves(states[k], states[k + 1], actions[k]);
    ConsentGrows(states, actions, k, p);
    if actions[k].Advance? && actions[k].process == p && actions[k].choice.idle && states[k].processes[p].bootstrap {
      if states[k].processes[p].phase.Start? { assert ChecksIdle(states, actions, k, p, Start); }
      if states[k].processes[p].phase.Recheck? { assert ChecksIdle(states, actions, k, p, Recheck); }
    }
  }

  lemma {:induction false} RunConsents(states: seq<System>, actions: seq<Action>, k: nat, p: nat)
    requires Moving(states, actions) && k < |states|
    ensures Consented(states, actions, k, p)
  {
    if k > 0 {
      RunConsents(states, actions, k - 1, p);
      ConsentStep(states, actions, k - 1, p);
    }
  }

  /** A hard destination gives way only to a converting process about to replace it. */
  lemma HardGivesWay(hash: Bytes -> Digest, s: System, origin: Origin, a: Action)
    requires Sound(hash, s, origin) && Enabled(s, a) && Link in s.dir && s.dir[Link].Hard?
    ensures var t := Perform(hash, s, a);
      Link in t.dir && (t.dir[Link] == s.dir[Link] ||
        (a.Advance? && s.processes[a.process].phase.Replace? && s.processes[a.process].converting))
  {
    if a.Advance? {
      assert ProcessSound(hash, s, origin, a.process);
      if !(s.processes[a.process].phase.Replace? && a.choice.succeeds) {
        LinkUnlessReplaced(hash, s, a.process, a.choice);
      }
    }
  }

  /** Some installer with consent has found the destination idle twice. */
  ghost predicate Converted(states: seq<System>, actions: seq<Action>, k: nat)
    requires |states| == |actions| + 1
  {
    exists p: nat :: CheckedTwice(states, actions, k, p)
  }

  lemma HardStep(hash: Bytes -> Digest, states: seq<System>, actions: seq<Action>, origin: Origin, k: nat)
    requires Moving(states, actions) && k < |actions| && Sound(hash, states[k], origin)
    requires Enabled(states[k], actions[k]) && states[k + 1] == Perform(hash, states[k], actions[k])
    requires Link in states[k].dir && states[k].dir[Link].Hard?
    ensures (Link in states[k + 1].dir && states[k + 1].dir[Link] == states[k].dir[Link])
      || Converted(states, actions, k + 1)
  {
    HardGivesWay(hash, states[k], origin, actions[k]);
    var a := actions[k];
    if a.Advance? && states[k].processes[a.process].phase.Replace? && states[k].processes[a.process].converting {
      RunConsents(states, actions, k, a.process);
      ConsentGrows(states, actions, k, a.process);
      assert CheckedTwice(states, actions, k + 1, a.process);
    }
  }

  lemma ConvertedGrows(states: seq<System>, actions: seq<Action>, k: nat)
    requires |states| == |actions| + 1 && Converted(states, actions, k)
    ensures Converted(states, actions, k + 1)
  {
    var p: nat :| CheckedTwice(states, actions, k, p);
    ConsentGrows(states, actions, k, p);
  }

  lemma {:induction false} HardUnlessConverted(hash: Bytes -> Digest, states: seq<System>, actions: seq<Action>,
                                               origin: Origin, k: nat)
    requires IsRun(hash, states, actions, origin) && SafeHistory(hash, states, origin) && Moving(states, actions)
    requires k < |states| && Link in states[0].dir && states[0].dir[Link].Hard?
    ensures (Link in states[k].dir && states[k].dir[Link] == states[0].dir[Link]) || Converted(states, actions, k)
  {
    if k > 0 {
      HardUnlessConverted(hash, states, actions, origin, k - 1);
      if Converted(states, actions, k - 1) {
        ConvertedGrows(states, actions, k - 1);
      } else {
        HardStep(hash, states, actions, origin, k - 1);
      }
    }
  }

  /** A regular destination stays what it was, over any run, until an installer started with consent has
      found it idle at its start and again just before it made the link. */
  lemma ConversionNeedsConsent(hash: Bytes -> Digest, states: seq<System>, actions: seq<Action>, origin: Origin, k: nat)
    requires IsRun(hash, states, actions, origin) && k < |states| && Link in states[0].dir && states[0].dir[Link].Hard?
    ensures (Link in states[k].dir && states[k].dir[Link] == states[0].dir[Link]
             && Resolve(states[k], Link) == Some(origin.file)) || Converted(states, actions, k)
  {
    RunIsSafe(hash, states, actions, origin);
    RunMoves(hash, states, actions, origin);
    HardUnlessConverted(hash, states, actions, origin, k);
    assert Sound(hash, states[k], origin);
  }

  lemma {:induction false} NobodyConsents(states: seq<System>, actions: seq<Action>, k: nat, p: nat)
    requires Moving(states, actions) && k < |states| && p < |states[k].processes|
    requires forall i | 0 <= i < |actions| :: actions[i] != Spawn(true)
    ensures !states[k].processes[p].bootstrap && !states[k].processes[p].converting
  {
    if k > 0 {
      assert Moves(states[k - 1], states[k], actions[k - 1]);
      if p < |states[k - 1].processes| { NobodyConsents(states, actions, k - 1, p); }
    }
  }

  /** Without `--bootstrap-regular`, no run ever touches a regular destination. */
  lemma NoConsentNoConversion(hash: Bytes -> Digest, states: seq<System>, actions: seq<Action>, origin: Origin, k: nat)
    requires IsRun(hash, states, actions, origin) && k < |states| && Link in states[0].dir && states[0].dir[Link].Hard?
    requires forall i | 0 <= i < |actions| :: actions[i] != Spawn(true)
    ensures Link in states[k].dir && states[k].dir[Link] == states[0].dir[Link]
    ensures Resolve(states[k], Link) == Some(origin.file)
    ensures forall p | 0 <= p < |states[k].processes| :: !states[k].processes[p].converting
  {
    ConversionNeedsConsent(hash, states, actions, origin, k);
    RunMoves(hash, states, actions, origin);
    forall p | 0 <= p < |states[k].processes| ensures !states[k].processes[p].converting {
      NobodyConsents(states, actions, k, p);
    }
    if Converted(states, actions, k) {
      var p: nat :| CheckedTwice(states, actions, k, p);
      var j: nat :| j < k && ChecksIdle(states, actions, j, p, Recheck);
      NobodyConsents(states, actions, j, p);
    }
  }
}
