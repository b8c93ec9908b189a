/** What an installer leaves behind in the directory (scripts/install_shared_cass.py). */
module Leftovers {
  import opened Framing
  import opened Installer

  /** A system call that fails changes nothing on disk, and the installer gives up: at once, or after removing
      its staged file or link. */
  lemma FailureGivesUp(hash: Bytes -> Digest, s: System, p: nat, c: Choice)
    requires p < |s.processes| && Running(s.processes[p]) && !c.succeeds
    ensures var t, phase := Next(hash, s, p, c), s.processes[p].phase;
      && t.dir == s.dir && t.files == s.files
      && t.processes[p].phase ==
           if phase.Write? || phase.Verify? || phase.LinkTarget? then DropStage(false)
           else if phase.Replace? then DropStagedLink
           else Failed
  {
  }

  /** The staging names of installer `p` are there only while it needs them. */
  predicate Tidy(s: System, p: nat) {
    && (Stage(p) in s.dir ==> p < |s.processes| && HoldsStage(s.processes[p].phase))
    && (StagedLink(p) in s.dir ==> p < |s.processes| && HoldsLink(s.processes[p].phase))
  }

  predicate HoldsStage(phase: Phase) {
    phase.Write? || phase.Verify? || phase.LinkTarget? || phase.DropStage?
  }

  predicate HoldsLink(phase: Phase) {
    phase.Replace? || phase.DropStagedLink?
  }

  /** Removing a staging name does not fail. */
  predicate Removes(s: System, a: Action)
    requires Enabled(s, a)
  {
    a.Advance? && (s.processes[a.process].phase.DropStage? || s.processes[a.process].phase.DropStagedLink?) ==>
      a.choice.succeeds
  }

  lemma EarlyTidies(hash: Bytes -> Digest, s: System, p: nat, c: Choice)
    requires p < |s.processes| && Running(s.processes[p]) && Early(s.processes[p].phase) && Tidy(s, p)
    ensures Tidy(Next(hash, s, p, c), p)
  {
  }

  lemma StagingTidies(hash: Bytes -> Digest, s: System, p: nat, c: Choice)
    requires p < |s.processes| && Running(s.processes[p]) && Staging(s.processes[p].phase) && Tidy(s, p)
    ensures Tidy(Next(hash, s, p, c), p)
  {
  }

  lemma PublishingTidies(hash: Bytes -> Digest, s: System, p: nat, c: Choice)
    requires p < |s.processes| && Running(s.processes[p]) && Publishing(s.processes[p].phase) && Tidy(s, p)
    requires s.processes[p].phase.DropStage? ==> c.succeeds
    ensures Tidy(Next(hash, s, p, c), p)
  {
  }

  lemma LinkingTidies(hash: Bytes -> Digest, s: System, p: nat, c: Choice)
    requires p < |s.processes| && Running(s.processes[p]) && Linking(s.processes[p].phase) && Tidy(s, p)
    requires s.processes[p].phase.DropStagedLink? ==> c.succeeds
    ensures Tidy(Next(hash, s, p, c), p)
  {
  }

  lemma OtherEarlyTidy(hash: Bytes -> Digest, s: System, q: nat, c: Choice, p: nat)
    requires q < |s.processes| && Running(s.processes[q]) && Early(s.processes[q].phase) && q != p && Tidy(s, p)
    ensures Tidy(Next(hash, s, q, c), p)
  {
  }

  lemma OtherStagingTidy(hash: Bytes -> Digest, s: System, q: nat, c: Choice, p: nat)
    requires q < |s.processes| && Running(s.processes[q]) && Staging(s.processes[q].phase) && q != p && Tidy(s, p)
    ensures Tidy(Next(hash, s, q, c), p)
  {
  }

  lemma OtherPublishingTidy(hash: Bytes -> Digest, s: System, q: nat, c: Choice, p: nat)
    requires q < |s.processes| && Running(s.processes[q]) && Publishing(s.processes[q].phase) && q != p && Tidy(s, p)
    ensures Tidy(Next(hash, s, q, c), p)
  {
  }

  lemma OtherLinkingTidy(hash: Bytes -> Digest, s: System, q: nat, c: Choice, p: nat)
    requires q < |s.processes| && Running(s.processes[q]) && Linking(s.processes[q].phase) && q != p && Tidy(s, p)
    ensures Tidy(Next(hash, s, q, c), p)
  {
  }

  lemma OthersTidy(hash: Bytes -> Digest, s: System, q: nat, c: Choice, p: nat)
    requires q < |s.processes| && Running(s.processes[q]) && q != p && Tidy(s, p)
    ensures Tidy(Next(hash, s, q, c), p)
  {
    if Early(s.processes[q].phase) {
      OtherEarlyTidy(hash, s, q, c, p);
    } else if Staging(s.processes[q].phase) {
      OtherStagingTidy(hash, s, q, c, p);
    } else if Publishing(s.processes[q].phase) {
      OtherPublishingTidy(hash, s, q, c, p);
    } else {
      OtherLinkingTidy(hash, s, q, c, p);
    }
  }

  /** Unless installer `p` is killed or a removal fails, one more action keeps its names tidy. */
  lemma StepTidies(hash: Bytes -> Digest, s: System, a: Action, p: nat)
    requires Enabled(s, a) && Removes(s, a) && a != Crash(p) && Tidy(s, p)
    ensures Tidy(Perform(hash, s, a), p)
  {
    if a.Advance? {
      var q, c := a.process, a.choice;
      if q != p {
        OthersTidy(hash, s, q, c, p);
      } else if Early(s.processes[p].phase) {
        EarlyTidies(hash, s, p, c);
      } else if Staging(s.processes[p].phase) {
        StagingTidies(hash, s, p, c);
      } else if Publishing(s.processes[p].phase) {
        PublishingTidies(hash, s, p, c);
      } else {
        LinkingTidies(hash, s, p, c);
      }
    }
  }

  /** Over any run in which it is not killed and nothing fails to be removed, an installer that has returned
      or raised has left none of its staging names behind. */
  lemma {:induction false} NothingStaysBehind(hash: Bytes -> Digest, states: seq<System>, actions: seq<Action>,
                                              origin: Origin, k: nat, p: nat)
    requires IsRun(hash, states, actions, origin) && k < |states|
    requires Stage(p) !in states[0].dir && StagedLink(p) !in states[0].dir
    requires forall i | 0 <= i < k :: actions[i] != Crash(p) && Removes(states[i], actions[i])
    ensures Tidy(states[k], p)
    ensures p < |states[k].processes| && !Running(states[k].processes[p]) ==>
      Stage(p) !in states[k].dir && StagedLink(p) !in states[k].dir
  {
    if k > 0 {
      NothingStaysBehind(hash, states, actions, origin, k - 1, p);
      StepTidies(hash, states[k - 1], actions[k - 1], p);
    }
  }
}
