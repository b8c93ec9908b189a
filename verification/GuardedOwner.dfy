/** The lexical owner together with the index tree that its guard has captured
    (scripts/cass_lexical_ipc.py). */
module GuardedOwner {
  import opened Prelude
  import opened Protocol
  import opened LexicalOwner
  import Index = IndexGuard

  /** A successful admission: the captured tree, and the file system at the final check. */
  datatype Admission = Admission(tree: Index.Tree, seen: Index.FileSystem)

  /** What one request meets. The index decides whether the guarded tree allows reuse, whether a guard
      can be admitted and whether the tree held still; `rest` decides everything else. */
  datatype Scene = Scene(
    rest: World,
    mounted: bool,                  // local reuse eligibility before the query
    before: Index.FileSystem,       // at the check for reuse
    admission: Option<Admission>,   // if a guard can be admitted
    after: Index.FileSystem         // at the check after the exchange
  )

  datatype Event = Ask(request: Option<Request>, scene: Scene) | Shut(reaped: bool)

  /** The owner's state with the tree its guard has captured. */
  datatype Guarded = Guarded(owner: State, tree: Option<Index.Tree>)

  /** The tree at the guarded path is `t`, at every depth. */
  ghost predicate Shows(fs: Index.FileSystem, t: Index.Tree) {
    fs.root.Some? && Index.Matches(fs, fs.root.value, t)
  }

  /** What admission guarantees: a bounded tree that was there at the final check. */
  ghost predicate Admitted(a: Admission) {
    Index.WellShaped(a.tree, 0) && Shows(a.seen, a.tree)
  }

  ghost function TreeOf(admission: Option<Admission>): Option<Index.Tree> {
    if admission.Some? then Some(admission.value.tree) else None
  }

  ghost predicate Proper(e: Event) {
    e.Ask? ==>
      && Index.Consistent(e.scene.before) && Index.Consistent(e.scene.after)
      && (e.scene.admission.Some? ==> Admitted(e.scene.admission.value))
  }

  ghost predicate AllProper(events: seq<Event>) {
    forall i | 0 <= i < |events| :: Proper(events[i])
  }

  ghost predicate Valid(g: Guarded) {
    && GuardPresent(g.owner) && (g.owner.guard <==> g.tree.Some?)
    && (g.tree.Some? ==> Index.WellShaped(g.tree.value, 0))
  }

  /** The guard's own check, over its flat list of nodes. */
  ghost predicate Passes(fs: Index.FileSystem, tree: Option<Index.Tree>) {
    tree.Some? && Index.FlatUnchanged(fs, Index.FlattenChecked(tree.value, None, []))
  }

  lemma PassingShows(fs: Index.FileSystem, tree: Option<Index.Tree>)
    requires Index.Consistent(fs) && tree.Some? && Index.WellShaped(tree.value, 0)
    ensures Passes(fs, tree) <==> Shows(fs, tree.value)
  {
    Index.FlatCheckSeesTheTree(fs, tree.value);
  }

  ghost predicate Keeps(g: Guarded, r: Request, scene: Scene)
    requires GuardPresent(g.owner)
  {
    Reuses(g.owner, r, scene.rest.(reusable := scene.mounted && Passes(scene.before, g.tree)))
  }

  /** The tree guarded while the request is exchanged. */
  ghost function Current(g: Guarded, r: Request, scene: Scene): Option<Index.Tree>
    requires GuardPresent(g.owner)
  {
    if Keeps(g, r, scene) then g.tree
    else match scene.admission
      case Some(a) => Some(a.tree)
      case None => None
  }

  /** The owner's world, with every question about the index answered by the flat check. */
  ghost function Answers(g: Guarded, r: Request, scene: Scene): World
    requires GuardPresent(g.owner)
  {
    scene.rest.(reusable := scene.mounted && Passes(scene.before, g.tree),
                admitted := scene.admission.Some?,
                steady := Passes(scene.after, Current(g, r, scene)))
  }

  /** The same event as the owner alone sees it. */
  ghost function Plain(g: Guarded, e: Event): Action
    requires GuardPresent(g.owner)
  {
    match e
    case Ask(Some(r), scene) => Request'(Some(r), Answers(g, r, scene))
    case Ask(None, scene) => Request'(None, scene.rest)
    case Shut(reaped) => Close'(reaped)
  }

  ghost function Next(g: Guarded, e: Event): (Guarded, Outcome)
    requires GuardPresent(g.owner)
  {
    var (s, outcome) := Step(g.owner, Plain(g, e));
    var tree := if e.Ask? && e.request.Some? then Current(g, e.request.value, e.scene) else g.tree;
    (Guarded(s, if s.guard then tree else None), outcome)
  }

  lemma OwnerGuard(s: State, r: Request, w: World)
    requires GuardPresent(s) && Search(s, Some(r), w).0.guard
    ensures if Reuses(s, r, w) then s.guard else w.admitted
  {
  }

  lemma NextValid(g: Guarded, e: Event)
    requires Valid(g) && Proper(e)
    ensures Valid(Next(g, e).0)
  {
    StepGuard(g.owner, Plain(g, e));
    if e.Ask? && e.request.Some? && Next(g, e).0.owner.guard {
      OwnerGuard(g.owner, e.request.value, Answers(g, e.request.value, e.scene));
    }
  }

  // ---------- One event ----------

  /** The event starts a worker under a guard that has just captured its tree. */
  ghost predicate Starts(g: Guarded, e: Event, g': Guarded) {
    && e.Ask? && e.scene.admission.Some? && g'.tree == Some(e.scene.admission.value.tree)
    && g'.owner.process == Some(g.owner.spawned) && g'.owner.spawned == g.owner.spawned + 1
  }

  /** A live worker is the one that was there, with its tree, or has just been started; and an answer
      comes from a live worker whose tree is at the guarded path after the exchange. */
  ghost predicate StepFacts(g: Guarded, e: Event, g': Guarded, o: Outcome) {
    && (g'.owner.process.Some? ==>
          g'.tree.Some? && (Starts(g, e, g') || (g'.owner.process == g.owner.process && g'.tree == g.tree)))
    && (o.Answered? ==>
          e.Ask? && g'.owner.process == Some(o.worker) && g'.tree.Some? && Shows(e.scene.after, g'.tree.value))
  }

  lemma OwnerWorker(s: State, r: Request, w: World)
    requires GuardPresent(s) && Search(s, Some(r), w).0.process.Some?
    ensures var s' := Search(s, Some(r), w).0;
      if Reuses(s, r, w) then s'.process == s.process
      else w.admitted && s'.process == Some(s.spawned) && s'.spawned == s.spawned + 1
  {
  }

  lemma AnswerNeedsSteadiness(s: State, r: Request, w: World)
    requires GuardPresent(s) && Search(s, Some(r), w).1.Answered?
    ensures w.steady && Search(s, Some(r), w).0.process == Some(Search(s, Some(r), w).1.worker)
  {
    AnswerShape(s, r, w);
  }

  /** An answer leaves the tree that is guarded at the guarded path. */
  lemma AnsweredTreeShows(g: Guarded, e: Event)
    requires Valid(g) && Proper(e) && Next(g, e).1.Answered?
    ensures var (g', outcome) := Next(g, e);
      e.Ask? && g'.owner.process == Some(outcome.worker) && g'.tree.Some? && Shows(e.scene.after, g'.tree.value)
  {
    NextValid(g, e);
    AnswerNeedsSteadiness(g.owner, e.request.value, Answers(g, e.request.value, e.scene));
    PassingShows(e.scene.after, Next(g, e).0.tree);
  }

  lemma LiveWorkerTree(g: Guarded, e: Event)
    requires Valid(g) && Proper(e) && Next(g, e).0.owner.process.Some?
    ensures var g' := Next(g, e).0;
      g'.tree.Some? && (Starts(g, e, g') || (g'.owner.process == g.owner.process && g'.tree == g.tree))
  {
    NextValid(g, e);
    if e.Ask? && e.request.Some? { OwnerWorker(g.owner, e.request.value, Answers(g, e.request.value, e.scene)); }
  }

  lemma NextFacts(g: Guarded, e: Event, g': Guarded, o: Outcome)
    requires Valid(g) && Proper(e) && Next(g, e) == (g', o)
    ensures Valid(g') && StepFacts(g, e, g', o)
  {
    NextValid(g, e);
    if g'.owner.process.Some? { LiveWorkerTree(g, e); }
    if o.Answered? { AnsweredTreeShows(g, e); }
  }

  // ---------- When an answer comes ----------

  /** A request that does not insist on a fresh worker finds a live one, with its tree at the guarded path
      and local mounts that allow reuse. */
  ghost predicate FindsGuarded(g: Guarded, r: Request, scene: Scene) {
    && !r.full && g.owner.process.Some? && scene.rest.alive
    && scene.mounted && g.tree.Some? && Shows(scene.before, g.tree.value)
  }

  /** The tree in question after the exchange: the one held, or else the one admitted. */
  ghost function TreeAsked(g: Guarded, r: Request, scene: Scene): Option<Index.Tree> {
    if FindsGuarded(g, r, scene) then g.tree else TreeOf(scene.admission)
  }

  /** The worker replies in time and the tree has not moved. */
  ghost predicate RepliesUnmoved(g: Guarded, r: Request, scene: Scene) {
    && scene.rest.reply.Some? && ValidNative(scene.rest.reply.value, g.owner.sequence + 1) && scene.rest.timelyReply
    && TreeAsked(g, r, scene).Some? && Shows(scene.after, TreeAsked(g, r, scene).value)
  }

  lemma GuardedConditions(g: Guarded, r: Request, scene: Scene)
    requires Valid(g) && Proper(Ask(Some(r), scene))
    ensures var w := Answers(g, r, scene);
      && (FindsWorker(g.owner, r, w) <==> FindsGuarded(g, r, scene))
      && Current(g, r, scene) == TreeAsked(g, r, scene)
      && (Replies(g.owner, w) <==> RepliesUnmoved(g, r, scene))
  {
    if g.tree.Some? { PassingShows(scene.before, g.tree); }
    if TreeAsked(g, r, scene).Some? { PassingShows(scene.after, TreeAsked(g, r, scene)); }
  }

  /** A guarded request is answered from the reader that is there exactly when it finds its worker, the tree
      is at the guarded path before and after, and the reply says so in time; the same tree stays guarded. */
  lemma RetainedGuardedExactly(g: Guarded, r: Request, scene: Scene)
    requires Valid(g) && Proper(Ask(Some(r), scene))
    ensures var (g', o) := Next(g, Ask(Some(r), scene));
      && (Retained(o) <==>
            && FindsGuarded(g, r, scene) && RepliesUnmoved(g, r, scene) && scene.rest.mounted && scene.rest.fits
            && 0 < g.owner.epoch < U64 && scene.rest.reply.value["ok"].flag && ReusedReader(scene.rest.reply.value))
      && (Retained(o) ==>
            && Delivers(o, scene.rest.reply.value, r, g.owner.process.value, g.owner.epoch)
            && g' == Guarded(g.owner.(sequence := g.owner.sequence + 1), g.tree))
  {
    GuardedConditions(g, r, scene);
    RetainedExactly(g.owner, r, Answers(g, r, scene));
  }

  /** It is answered strictly exactly when a worker, found or started under a newly admitted guard, replies
      without a reused reader while its tree is at the guarded path; that tree is then guarded. */
  lemma StrictGuardedExactly(g: Guarded, r: Request, scene: Scene)
    requires Valid(g) && Proper(Ask(Some(r), scene))
    ensures var (g', o) := Next(g, Ask(Some(r), scene));
      var found := FindsGuarded(g, r, scene);
      && (Strict(o) <==>
            && (if found then scene.rest.mounted else
                  && (g.owner.process.Some? ==> scene.rest.closedBeforeOpen) && scene.rest.timelyOpen
                  && scene.rest.spawned && scene.rest.configured)
            && RepliesUnmoved(g, r, scene) && scene.rest.fits && g.owner.epoch + 1 < U64
            && scene.rest.reply.value["ok"].flag && !ReusedReader(scene.rest.reply.value))
      && (Strict(o) ==> var worker := if found then g.owner.process.value else g.owner.spawned;
            && Delivers(o, scene.rest.reply.value, r, worker, g.owner.epoch + 1)
            && g'.owner.process == Some(worker) && g'.tree == TreeAsked(g, r, scene))
  {
    GuardedConditions(g, r, scene);
    StrictExactly(g.owner, r, Answers(g, r, scene));
  }

  // ---------- One request over the guard's own code ----------

  /** What the guard has captured: its nodes are the tree laid out flat, and own all its descriptors. A
      guard that was refused or closed has no nodes left. */
  ghost predicate Holds(guard: Index.Guard, tree: Option<Index.Tree>)
    reads guard
  {
    if tree.None? then guard.nodes == [] else
      && Index.WellShaped(tree.value, 0) && guard.nodes == Index.Flatten(tree.value, None, [])
      && Index.Owns(guard.nodes, guard.open) && |guard.nodes| == |guard.open|
  }

  /** The guard's own capture and check yield what a scene calls an admission. */
  method AdmitIndex(world: Index.World, final: Index.FileSystem)
    returns (guard: Index.Guard, ok: bool, ghost admission: Option<Admission>)
    requires Index.Consistent(final)
    ensures fresh(guard) && Holds(guard, TreeOf(admission)) && (ok <==> admission.Some?)
    ensures admission.Some? ==> Admitted(admission.value) && admission.value.seen == final
  {
    guard := new Index.Guard();
    ghost var expected := Index.Tree(Index.Stamp(0, Index.Regular, 0), None, []);
    ghost var t;
    ok, t := guard.Admit(world, final, expected);
    admission := if ok then Some(Admission(t, final)) else None;
  }

  /** The guard's own check answers what a scene asks of the index. */
  method CheckIndex(guard: Index.Guard, fs: Index.FileSystem, ghost tree: Option<Index.Tree>) returns (same: bool)
    requires Holds(guard, tree)
    ensures same <==> Passes(fs, tree)
  {
    same := guard.Unchanged(fs);
  }

  method CloseGuard(guard: Index.Guard, ghost tree: Option<Index.Tree>)
    requires Holds(guard, tree)
    modifies guard
    ensures Holds(guard, None)
  {
    if guard.nodes != [] { guard.Close(); }
  }

  /** The tree that is guarded once the guard was kept or replaced. */
  ghost function Held(reused: bool, tree: Option<Index.Tree>, admission: Option<Admission>): Option<Index.Tree> {
    if reused then tree else TreeOf(admission)
  }

  /** Keep the guard, or replace it by a newly admitted one. */
  method ReadyGuard(reused: bool, guard: Index.Guard, ghost tree: Option<Index.Tree>,
                    world: Index.World, final: Index.FileSystem)
    returns (guard': Index.Guard, ok: bool, ghost admission: Option<Admission>)
    requires Holds(guard, tree) && Index.Consistent(final)
    modifies guard
    ensures (ok <==> admission.Some?) && (guard' == guard || fresh(guard'))
    ensures admission.Some? ==> Admitted(admission.value) && admission.value.seen == final
    ensures Holds(guard', Held(reused, tree, admission))
  {
    guard', ok, admission := guard, false, None;
    if !reused {
      CloseGuard(guard, tree);
      guard', ok, admission := AdmitIndex(world, final);
    }
  }

  /** Everything the guard is asked during one request: whether it allows reuse, whether it can be
      replaced otherwise, and whether its tree is still there after the exchange. */
  method AskIndex(eligible: bool, mounted: bool, guard: Index.Guard, ghost tree: Option<Index.Tree>,
                  before: Index.FileSystem, world: Index.World, final: Index.FileSystem, after: Index.FileSystem)
    returns (reusable: bool, admitted: bool, steady: bool, guard': Index.Guard, ghost admission: Option<Admission>)
    requires Holds(guard, tree) && Index.Consistent(final)
    modifies guard
    ensures reusable <==> mounted && Passes(before, tree)
    ensures (admitted <==> admission.Some?) && (guard' == guard || fresh(guard'))
    ensures admission.Some? ==> Admitted(admission.value) && admission.value.seen == final
    ensures Holds(guard', Held(eligible && reusable, tree, admission))
    ensures steady <==> Passes(after, Held(eligible && reusable, tree, admission))
  {
    reusable := CheckIndex(guard, before, tree);
    reusable := mounted && reusable;
    guard', admitted, admission := ReadyGuard(eligible && reusable, guard, tree, world, final);
    steady := CheckIndex(guard', after, Held(eligible && reusable, tree, admission));
  }

  /** Reuse is possible but for the index. */
  predicate Eligible(s: State, r: Request, rest: World) {
    !r.full && s.process.Some? && rest.alive && s.guard
  }

  lemma AnswersSuffice(g: Guarded, r: Request, scene: Scene, w: World, s: State, outcome: Outcome)
    requires GuardPresent(g.owner) && Search(g.owner, Some(r), w) == (s, outcome)
    requires w == scene.rest.(reusable := w.reusable, admitted := scene.admission.Some?, steady := w.steady)
    requires w.reusable <==> scene.mounted && Passes(scene.before, g.tree)
    requires w.steady <==>
      Passes(scene.after, Held(Eligible(g.owner, r, scene.rest) && w.reusable, g.tree, scene.admission))
    ensures Current(g, r, scene) == Held(Eligible(g.owner, r, scene.rest) && w.reusable, g.tree, scene.admission)
    ensures Next(g, Ask(Some(r), scene)) == (Guarded(s, if s.guard then Current(g, r, scene) else None), outcome)
  {
  }

  /** One request over the owner's and the guard's own code: what the guard answers is what a proper scene
      answers, and state, guard and outcome are those of `Next`. */
  method AskGuarded(owner: Owner, guard: Index.Guard, r: Request, rest: World, mounted: bool,
                    before: Index.FileSystem, world: Index.World, final: Index.FileSystem, after: Index.FileSystem,
                    ghost g: Guarded)
    returns (outcome: Outcome, guard': Index.Guard, ghost scene: Scene, ghost g': Guarded)
    requires GuardPresent(g.owner) && g.owner == owner.Now() && Holds(guard, g.tree)
    requires Index.Consistent(before) && Index.Consistent(final) && Index.Consistent(after)
    modifies owner, guard
    ensures scene == Scene(rest, mounted, before, scene.admission, after) && Proper(Ask(Some(r), scene))
    ensures scene.admission.Some? ==> scene.admission.value.seen == final
    ensures Next(g, Ask(Some(r), scene)) == (g', outcome) && g'.owner == owner.Now() && Holds(guard', g'.tree)
  {
    var eligible := Eligible(owner.Now(), r, rest);
    var reusable, admitted, steady;
    ghost var admission;
    reusable, admitted, steady, guard', admission :=
      AskIndex(eligible, mounted, guard, g.tree, before, world, final, after);
    scene := Scene(rest, mounted, before, admission, after);
    ghost var held := Held(eligible && reusable, g.tree, admission);
    var w := rest.(reusable := reusable, admitted := admitted, steady := steady);
    outcome := owner.Serve(Some(r), w);
    AnswersSuffice(g, r, scene, w, owner.Now(), outcome);
    g' := Guarded(owner.Now(), if owner.guard then held else None);
    if !owner.guard { CloseGuard(guard', held); }
  }

  // ---------- Whole runs ----------

  ghost predicate Follows(events: seq<Event>, states: seq<Guarded>, outcomes: seq<Outcome>, i: nat)
    requires i < |events| == |outcomes| < |states|
  {
    Valid(states[i]) && Next(states[i], events[i]) == (states[i + 1], outcomes[i])
  }

  /** States and outcomes of a run, event after event. */
  ghost predicate History(events: seq<Event>, states: seq<Guarded>, outcomes: seq<Outcome>) {
    && |states| == |events| + 1 && |outcomes| == |events| && AllProper(events)
    && states[0] == Guarded(INITIAL, None)
    && (forall i | 0 <= i < |states| :: Valid(states[i]))
    && forall i | 0 <= i < |events| :: Follows(events, states, outcomes, i)
  }

  /** Every run goes through valid states, to its end. */
  lemma {:induction false} HistoryExists(events: seq<Event>) returns (states: seq<Guarded>, outcomes: seq<Outcome>)
    requires AllProper(events)
    ensures History(events, states, outcomes)
  {
    if events == [] {
      states, outcomes := [Guarded(INITIAL, None)], [];
    } else {
      var n := |events| - 1;
      states, outcomes := HistoryExists(events[..n]);
      var (g', outcome) := Next(states[n], events[n]);
      NextValid(states[n], events[n]);
      HistoryStep(events, states, outcomes, g', outcome);
      states, outcomes := states + [g'], outcomes + [outcome];
    }
  }

  lemma HistoryStep(events: seq<Event>, states: seq<Guarded>, outcomes: seq<Outcome>, g': Guarded, outcome: Outcome)
    requires events != [] && AllProper(events)
    requires History(events[..|events| - 1], states, outcomes) && Valid(g')
    requires Next(states[|events| - 1], events[|events| - 1]) == (g', outcome)
    ensures History(events, states + [g'], outcomes + [outcome])
  {
    var n := |events| - 1;
    forall i | 0 <= i < n ensures Follows(events, states + [g'], outcomes + [outcome], i) {
      assert Follows(events[..n], states, outcomes, i);
    }
    assert Follows(events, states + [g'], outcomes + [outcome], n);
  }

  /** The events as the owner alone sees them. */
  ghost function PlainRun(events: seq<Event>, states: seq<Guarded>): (r: seq<Action>)
    requires |states| >= |events| && forall i | 0 <= i < |states| :: Valid(states[i])
    ensures |r| == |events|
  {
    seq(|events|, i requires 0 <= i < |events| =>
      assert Valid(states[i]);
      Plain(states[i], events[i]))
  }

  lemma FollowsIsStep(events: seq<Event>, states: seq<Guarded>, outcomes: seq<Outcome>, i: nat)
    requires History(events, states, outcomes) && i < |events|
    ensures Valid(states[i]) && Step(states[i].owner, Plain(states[i], events[i])) == (states[i + 1].owner, outcomes[i])
  {
    assert Follows(events, states, outcomes, i);
  }

  lemma PlainRunSnoc(events: seq<Event>, states: seq<Guarded>, outcomes: seq<Outcome>, n: nat)
    requires History(events, states, outcomes) && 0 < n <= |events|
    ensures Valid(states[n - 1])
    ensures PlainRun(events[..n], states) == PlainRun(events[..n - 1], states) + [Plain(states[n - 1], events[n - 1])]
  {
    assert events[..n] == events[..n - 1] + [events[n - 1]];
  }

  lemma RunFollows(events: seq<Event>, states: seq<Guarded>, outcomes: seq<Outcome>, n: nat)
    requires History(events, states, outcomes) && 0 < n <= |events|
    requires Run(PlainRun(events[..n - 1], states)) == (states[n - 1].owner, outcomes[..n - 1])
    ensures Valid(states[n - 1])
    ensures Run(PlainRun(events[..n - 1], states) + [Plain(states[n - 1], events[n - 1])])
         == (states[n].owner, outcomes[..n - 1] + [outcomes[n - 1]])
  {
    FollowsIsStep(events, states, outcomes, n - 1);
    RunSnoc(PlainRun(events[..n - 1], states), Plain(states[n - 1], events[n - 1]), states[n].owner, outcomes[n - 1]);
  }

  /** A guarded run is a run of the owner: everything proved about those holds of it. */
  lemma {:induction false} GuardedRunsAreRuns(events: seq<Event>, states: seq<Guarded>, outcomes: seq<Outcome>, n: nat)
    requires History(events, states, outcomes) && n <= |events|
    ensures Run(PlainRun(events[..n], states)) == (states[n].owner, outcomes[..n])
  {
    if n > 0 {
      GuardedRunsAreRuns(events, states, outcomes, n - 1);
      PlainRunSnoc(events, states, outcomes, n);
      RunFollows(events, states, outcomes, n);
      assert outcomes[..n] == outcomes[..n - 1] + [outcomes[n - 1]];
    }
  }

  lemma HistoryFacts(events: seq<Event>, states: seq<Guarded>, outcomes: seq<Outcome>, i: nat)
    requires History(events, states, outcomes) && i < |events|
    ensures StepFacts(states[i], events[i], states[i + 1], outcomes[i])
  {
    assert Follows(events, states, outcomes, i);
    NextFacts(states[i], events[i], states[i + 1], outcomes[i]);
  }

  /** Event `m` started worker `p` under a guard that had captured `t`. */
  ghost predicate StartedUnder(events: seq<Event>, states: seq<Guarded>, m: nat, p: nat, t: Index.Tree)
    requires m < |events| < |states|
  {
    Starts(states[m], events[m], states[m + 1]) && states[m].owner.spawned == p && states[m + 1].tree == Some(t)
  }

  /** A live worker was started under a guard that had captured the tree now guarded. */
  lemma {:induction false} WorkerWasStarted(events: seq<Event>, states: seq<Guarded>, outcomes: seq<Outcome>, n: nat)
    returns (m: nat)
    requires |states| == |events| + 1 && |outcomes| == |events| && states[0] == Guarded(INITIAL, None) && n <= |events|
    requires forall i | 0 <= i < |events| :: StepFacts(states[i], events[i], states[i + 1], outcomes[i])
    requires states[n].owner.process.Some?
    ensures m < n && states[n].tree.Some?
    ensures StartedUnder(events, states, m, states[n].owner.process.value, states[n].tree.value)
  {
    assert n > 0;
    assert StepFacts(states[n - 1], events[n - 1], states[n], outcomes[n - 1]);
    if Starts(states[n - 1], events[n - 1], states[n]) {
      m := n - 1;
    } else {
      m := WorkerWasStarted(events, states, outcomes, n - 1);
    }
  }

  /** The worker that answered event `n` was started by event `m` under a guard of tree `t`, which was
      at the guarded path when the guard was admitted, and again after the answer. */
  ghost predicate CheckedSince(events: seq<Event>, states: seq<Guarded>, outcomes: seq<Outcome>, m: nat, n: nat,
                               t: Index.Tree)
    requires n < |events| == |outcomes| < |states|
  {
    && m <= n && outcomes[n].Answered? && events[n].Ask? && StartedUnder(events, states, m, outcomes[n].worker, t)
    && Shows(events[m].scene.admission.value.seen, t) && Shows(events[n].scene.after, t)
  }

  lemma AnswerWasChecked(events: seq<Event>, states: seq<Guarded>, outcomes: seq<Outcome>, n: nat)
    returns (m: nat, t: Index.Tree)
    requires |states| == |events| + 1 && |outcomes| == |events| && states[0] == Guarded(INITIAL, None)
    requires AllProper(events)
    requires forall i | 0 <= i < |events| :: StepFacts(states[i], events[i], states[i + 1], outcomes[i])
    requires n < |events| && outcomes[n].Answered?
    ensures CheckedSince(events, states, outcomes, m, n, t)
  {
    assert StepFacts(states[n], events[n], states[n + 1], outcomes[n]);
    t := states[n + 1].tree.value;
    m := WorkerWasStarted(events, states, outcomes, n + 1);
    assert Proper(events[m]);
  }

  /** Every answer of every run, retained or strict, was checked: after its exchange, the tree at the
      guarded path was the very tree captured when its worker was started. */
  lemma EveryAnswerWasChecked(events: seq<Event>, states: seq<Guarded>, outcomes: seq<Outcome>, n: nat)
    requires History(events, states, outcomes) && n < |events| && outcomes[n].Answered?
    ensures exists m, t :: CheckedSince(events, states, outcomes, m, n, t)
  {
    forall i | 0 <= i < |events| ensures StepFacts(states[i], events[i], states[i + 1], outcomes[i]) {
      HistoryFacts(events, states, outcomes, i);
    }
    var m, t := AnswerWasChecked(events, states, outcomes, n);
  }
}
