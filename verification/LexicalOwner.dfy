/** The lexical owner as a state machine: one worker process, one guard, one epoch counter, and a
    failure exit after every step (scripts/cass_lexical_ipc.py). */
module LexicalOwner {
  import opened Prelude
  import opened Protocol

  /** `process` is the live worker, identified by when it was spawned. */
  datatype State = State(process: Option<nat>, guard: bool, epoch: nat, sequence: nat, spawned: nat)

  const INITIAL := State(None, false, 0, 0, 0)

  /** A request that `validate` accepted. */
  datatype Request = Request(id: int, full: bool)

  /** Everything the world decides during one request, in the order it is consulted. */
  datatype World = World(
    alive: bool,              // the worker has not exited
    reusable: bool,           // local mounts and the guarded tree are unchanged
    closedBeforeOpen: bool,   // the old worker was reaped in time
    admitted: bool,           // a guard could be captured
    timelyOpen: bool,         // the deadline has not passed
    spawned: bool,            // the worker could be started
    configured: bool,         // its pipes could be made non-blocking
    reply: Option<Message>,   // what the exchange returned, if it returned
    timelyReply: bool,
    steady: bool,             // the guarded tree after the query
    mounted: bool,            // local reuse eligibility after the query
    fits: bool,               // the answer fits the frame limit
    closedAfterError: bool,   // the worker was reaped in time after an error reply
    closedOnAbort: bool       // ... and in the exception handler
  )

  datatype Outcome =
    | Rejected                                  // by `validate`; nothing else happened
    | Failed                                    // an exception reached the caller
    | ErrorReply(reply: Message)
    | Answered(answer: Message, worker: nat)

  /** `close()`: false when reaping the worker timed out, which leaves the guard in place. */
  function Close(s: State, reaped: bool): (State, bool) {
    if s.process.Some? && !reaped then (s.(process := None), false)
    else (s.(process := None, guard := false), true)
  }

  /** The exception handler of `search`. */
  function Abort(s: State, w: World): (State, Outcome) {
    (Close(s, w.closedOnAbort).0, Failed)
  }

  /** Replace the worker and its guard; false on any failure along the way. */
  function Open(s: State, w: World): (State, bool) {
    var (s1, closed) := Close(s, w.closedBeforeOpen);
    if !closed || !w.admitted then (s1, false) else
      var s2 := s1.(guard := true);
      if !w.timelyOpen || !w.spawned then (s2, false) else
        (s2.(process := Some(s2.spawned), spawned := s2.spawned + 1), w.configured)
  }

  /** The guard is only ever consulted beside a live worker, so it must be there then. */
  predicate GuardPresent(s: State) {
    s.process.Some? ==> s.guard
  }

  predicate Reuses(s: State, r: Request, w: World)
    requires GuardPresent(s)
  {
    !r.full && s.process.Some? && w.alive && s.guard && w.reusable
  }

  function Exchange(s: State, r: Request, reused: bool, w: World): (State, Outcome)
    requires s.process.Some?
  {
    var s1 := s.(sequence := s.sequence + 1);
    if w.reply.None? || !ValidNative(w.reply.value, s1.sequence) || !w.timelyReply || !w.steady ||
      (reused && !w.mounted)
    then Abort(s1, w)
    else Conclude(s1, r, reused, w.reply.value, w)
  }

  /** What is made of a well-formed native reply. */
  function Conclude(s: State, r: Request, reused: bool, m: Message, w: World): (State, Outcome)
    requires s.process.Some? && ValidNative(m, s.sequence)
  {
    if !m["ok"].flag then
      var (s1, closed) := Close(s, w.closedAfterError);
      if closed then (s1, ErrorReply(m["id" := Int(r.id)])) else Abort(s1, w)
    else if ReusedReader(m) && !reused then Abort(s, w)
    else
      var s1 := if ReusedReader(m) then s else s.(epoch := s.epoch + 1);
      var answer := Augment(m, r.id, r.full, s1.epoch);
      if ValidClient(answer, r.id, r.full) && w.fits then (s1, Answered(answer, s1.process.value))
      else Abort(s1, w)
  }

  function Search(s: State, request: Option<Request>, w: World): (State, Outcome)
    requires GuardPresent(s)
  {
    match request
    case None => (s, Rejected)
    case Some(r) =>
      var reused := Reuses(s, r, w);
      var (s1, ready) := if reused then (s, true) else Open(s, w);
      if ready then Exchange(s1, r, reused, w) else Abort(s1, w)
  }

  // ---------- The object ----------

  /** The owner with its fields updated one by one, as the source does. */
  class Owner {
    var process: Option<nat>
    var guard: bool
    var epoch: nat
    var sequence: nat
    var spawned: nat

    constructor ()
      ensures Now() == INITIAL
    {
      process, guard, epoch, sequence, spawned := None, false, 0, 0, 0;
    }

    function Now(): State
      reads this
    {
      State(process, guard, epoch, sequence, spawned)
    }

    method CloseWorker(reaped: bool) returns (ok: bool)
      modifies this
      ensures (Now(), ok) == Close(old(Now()), reaped)
    {
      var worker := process;
      process := None;
      if worker.Some? && !reaped { return false; }
      if guard { guard := false; }
      ok := true;
    }

    /** One request: reuse or replace the worker, exchange, check, answer; every early exit goes
        through the handler that closes the worker. */
    method Serve(request: Option<Request>, w: World) returns (outcome: Outcome)
      requires GuardPresent(Now())
      modifies this
      ensures (Now(), outcome) == Search(old(Now()), request, w)
    {
      if request.None? { return Rejected; }
      var r := request.value;
      var reused := !r.full && process.Some? && w.alive && guard && w.reusable;
      if !reused {
        var ready := OpenWorker(w);
        if !ready {
          var _ := CloseWorker(w.closedOnAbort);
          return Failed;
        }
      }
      outcome := ExchangeReply(r, reused, w);
    }

    method ExchangeReply(r: Request, reused: bool, w: World) returns (outcome: Outcome)
      requires process.Some? && guard
      modifies this
      ensures (Now(), outcome) == Exchange(old(Now()), r, reused, w)
    {
      sequence := sequence + 1;
      outcome := Failed;
      if w.reply.Some? && ValidNative(w.reply.value, sequence) && w.timelyReply && w.steady && (reused ==> w.mounted) {
        outcome := ConcludeReply(r, reused, w.reply.value, w);
      }
      if outcome == Failed {
        var _ := CloseWorker(w.closedOnAbort);
      }
    }

    method OpenWorker(w: World) returns (ok: bool)
      requires GuardPresent(Now())
      modifies this
      ensures (Now(), ok) == Open(old(Now()), w)
    {
      ok := CloseWorker(w.closedBeforeOpen);
      if !ok || !w.admitted { return false; }
      guard := true;
      if !w.timelyOpen || !w.spawned { return false; }
      process := Some(spawned);
      spawned := spawned + 1;
      ok := w.configured;
    }

    /** What is made of a well-formed native reply; `Failed` still has to go through the handler. */
    method ConcludeReply(r: Request, reused: bool, m: Message, w: World) returns (outcome: Outcome)
      requires process.Some? && guard && ValidNative(m, sequence)
      modifies this
      ensures (if outcome == Failed then Abort(Now(), w) else (Now(), outcome)) == Conclude(old(Now()), r, reused, m, w)
    {
      if !m["ok"].flag {
        var closed := CloseWorker(w.closedAfterError);
        if !closed { return Failed; }
        return ErrorReply(m["id" := Int(r.id)]);
      }
      var native := ReusedReader(m);
      if native && !reused { return Failed; }
      if !native { epoch := epoch + 1; }
      var answer := Augment(m, r.id, r.full, epoch);
      if !ValidClient(answer, r.id, r.full) || !w.fits { return Failed; }
      outcome := Answered(answer, process.value);
    }

    /** A whole run of the serving loop. */
    method ServeAll(actions: seq<Action>) returns (outcomes: seq<Outcome>)
      requires Now() == INITIAL
      modifies this
      ensures (Now(), outcomes) == Run(actions)
    {
      outcomes := [];
      var i := 0;
      while i < |actions|
        invariant 0 <= i <= |actions| && (Now(), outcomes) == Run(actions[..i])
      {
        assert actions[..i + 1][..i] == actions[..i];
        var outcome := Failed;
        match actions[i] {
          case Request'(request, world) => outcome := Serve(request, world);
          case Close'(reaped) => var _ := CloseWorker(reaped);
        }
        outcomes := outcomes + [outcome];
        i := i + 1;
      }
      assert actions[..i] == actions;
    }
  }

  // ---------- Whole runs ----------

  /** A call of `search`, or the serving loop closing the owner after a failed operation. */
  datatype Action = Request'(request: Option<Request>, world: World) | Close'(reaped: bool)

  function Step(s: State, a: Action): (State, Outcome)
    requires GuardPresent(s)
  {
    match a
    case Request'(r, w) => Search(s, r, w)
    case Close'(reaped) => (Close(s, reaped).0, Failed)
  }

  /** The final state and the outcomes, oldest first. That this is a total function is the claim
      that a missing guard is never consulted. */
  function Run(actions: seq<Action>): (r: (State, seq<Outcome>))
    ensures GuardPresent(r.0) && |r.1| == |actions|
  {
    if actions == [] then (INITIAL, []) else
      var (s, outcomes) := Run(actions[..|actions| - 1]);
      StepGuard(s, actions[|actions| - 1]);
      var (s', outcome) := Step(s, actions[|actions| - 1]);
      (s', outcomes + [outcome])
  }

  lemma RunSnoc(actions: seq<Action>, a: Action, s: State, outcome: Outcome)
    requires Step(Run(actions).0, a) == (s, outcome)
    ensures Run(actions + [a]) == (s, Run(actions).1 + [outcome])
  {
    assert (actions + [a])[..|actions|] == actions;
  }

  lemma StepGuard(s: State, a: Action)
    requires GuardPresent(s)
    ensures GuardPresent(Step(s, a).0)
  {
  }

  /** The history of a run up to and including its `n`-th action. */
  function Outcomes(actions: seq<Action>): seq<Outcome> { Run(actions).1 }

  predicate Strict(o: Outcome) {
    o.Answered? && Mode(o.answer) == STRICT
  }

  predicate Retained(o: Outcome) {
    o.Answered? && Mode(o.answer) == RETAINED
  }

  /** The last outcome that was not a rejection. */
  function Latest(h: seq<Outcome>): Option<Outcome> {
    if h == [] then None
    else if h[|h| - 1].Rejected? then Latest(h[..|h| - 1])
    else Some(h[|h| - 1])
  }

  lemma OpenShape(s: State, w: World)
    ensures var (s1, ready) := Open(s, w);
      && s1.epoch == s.epoch && s1.sequence == s.sequence && s1.spawned >= s.spawned
      && (ready ==> s1.process == Some(s.spawned) && s1.guard && s1.spawned == s.spawned + 1)
  {
  }

  lemma AnswerFromReply(s: State, r: Request, reused: bool, m: Message, w: World)
    requires s.process.Some? && ValidNative(m, s.sequence) && Conclude(s, r, reused, m, w).1.Answered?
    ensures var (s', o) := Conclude(s, r, reused, m, w);
      && ValidClient(o.answer, r.id, r.full) && Epoch(o.answer) == s'.epoch
      && s' == s.(epoch := s'.epoch) && o.worker == s.process.value
      && (if ReusedReader(m) then reused && Retained(o) && !Strict(o) && s'.epoch == s.epoch
          else Strict(o) && !Retained(o) && s'.epoch == s.epoch + 1)
      && (r.full ==> !ReusedReader(m))
  {
    var epoch := if ReusedReader(m) then s.epoch else s.epoch + 1;
    AugmentedIsValid(m, s.sequence, r.id, r.full, epoch);
    assert |"strict_full"| != |"retained_guarded"|;
    assert STRICT != RETAINED;
  }

  /** What one answer says, whatever the worker claimed: its mode is one of two, its epoch is the
      owner's, a retained answer came from the worker that was already there, a strict one raised
      the epoch, and a full verification was strict and from a new worker. */
  lemma AnswerShape(s: State, r: Request, w: World)
    requires GuardPresent(s) && Search(s, Some(r), w).1.Answered?
    ensures var (s', o) := Search(s, Some(r), w);
      && ValidClient(o.answer, r.id, r.full)
      && Epoch(o.answer) == s'.epoch && s'.process == Some(o.worker) && s'.guard
      && (Strict(o) || Retained(o)) && !(Strict(o) && Retained(o))
      && (Retained(o) ==> s.process == Some(o.worker) && s'.epoch == s.epoch)
      && (Strict(o) ==> s'.epoch == s.epoch + 1)
      && ((s.process == Some(o.worker) && s'.spawned == s.spawned) ||
        (o.worker == s.spawned && s'.spawned == s.spawned + 1))
      && (r.full ==> Strict(o) && o.worker == s.spawned)
  {
    var reused := Reuses(s, r, w);
    OpenShape(s, w);
    var s1 := if reused then s else Open(s, w).0;
    AnswerFromReply(s1.(sequence := s1.sequence + 1), r, reused, w.reply.value, w);
  }

  /** The invariant of every run. */
  ghost predicate RunInvariant(s: State, h: seq<Outcome>) {
    && (s.process.Some? ==> s.guard && s.process.value < s.spawned)
    && (s.process.Some? ==>
          && Latest(h).Some? && Latest(h).value.Answered?
          && Latest(h).value.worker == s.process.value && Epoch(Latest(h).value.answer) == s.epoch
          && exists i | 0 <= i < |h| :: Strict(h[i]) && h[i].worker == s.process.value)
    && (forall i | 0 <= i < |h| && h[i].Answered? :: h[i].worker < s.spawned && Epoch(h[i].answer) <= s.epoch)
  }

  lemma NotConcluded(s: State, r: Request, reused: bool, m: Message, w: World)
    requires s.process.Some? && ValidNative(m, s.sequence) && !Conclude(s, r, reused, m, w).1.Answered?
    ensures var (s', o) := Conclude(s, r, reused, m, w);
      !o.Rejected? && s'.process.None? && s'.epoch >= s.epoch && s'.spawned == s.spawned
  {
  }

  lemma NotExchanged(s: State, r: Request, reused: bool, w: World)
    requires s.process.Some? && !Exchange(s, r, reused, w).1.Answered?
    ensures var (s', o) := Exchange(s, r, reused, w);
      !o.Rejected? && s'.process.None? && s'.epoch >= s.epoch && s'.spawned == s.spawned
  {
    var s1 := s.(sequence := s.sequence + 1);
    if w.reply.Some? && ValidNative(w.reply.value, s1.sequence) &&
      !Conclude(s1, r, reused, w.reply.value, w).1.Answered? {
      NotConcluded(s1, r, reused, w.reply.value, w);
    }
  }

  lemma NotAnswered(s: State, request: Option<Request>, w: World)
    requires GuardPresent(s) && !Search(s, request, w).1.Answered?
    ensures var (s', o) := Search(s, request, w);
      && s'.epoch >= s.epoch && s'.spawned >= s.spawned
      && (if o.Rejected? then s' == s else s'.process.None?)
  {
    if request.Some? {
      var reused := Reuses(s, request.value, w);
      OpenShape(s, w);
      var (s1, ready) := if reused then (s, true) else Open(s, w);
      if ready { NotExchanged(s1, request.value, reused, w); }
    }
  }

  /** All that a history needs to know of one step. */
  ghost predicate StepFacts(s: State, s': State, o: Outcome) {
    && s'.epoch >= s.epoch && s'.spawned >= s.spawned
    && (o.Answered? ==>
          && s'.process == Some(o.worker) && s'.guard && o.worker < s'.spawned && Epoch(o.answer) == s'.epoch
          && (Strict(o) || Retained(o))
          && (!Strict(o) ==> s.process == Some(o.worker)))
    && (o.Rejected? ==> s' == s)
    && (o.Failed? || o.ErrorReply? ==> s'.process.None?)
  }

  lemma StepShape(s: State, a: Action)
    requires GuardPresent(s) && (s.process.Some? ==> s.process.value < s.spawned)
    ensures var (s', o) := Step(s, a); StepFacts(s, s', o)
  {
    if a.Request'? {
      if Step(s, a).1.Answered? {
        AnswerShape(s, a.request.value, a.world);
      } else {
        NotAnswered(s, a.request, a.world);
      }
    }
  }

  lemma {:induction false} RunKeepsInvariant(actions: seq<Action>)
    ensures RunInvariant(Run(actions).0, Outcomes(actions))
  {
    if actions != [] {
      var n := |actions| - 1;
      RunKeepsInvariant(actions[..n]);
      var (s, h) := Run(actions[..n]);
      StepShape(s, actions[n]);
      var (s', o) := Step(s, actions[n]);
      FactsKeepInvariant(s, h, s', o);
    }
  }

  lemma FactsKeepInvariant(s: State, h: seq<Outcome>, s': State, o: Outcome)
    requires RunInvariant(s, h) && StepFacts(s, s', o)
    ensures RunInvariant(s', h + [o])
  {
    var h' := h + [o];
    assert h'[..|h|] == h && h'[|h|] == o;
    if s'.process.Some? && !Strict(o) {
      var i :| 0 <= i < |h| && Strict(h[i]) && h[i].worker == s.process.value;
      assert h'[i] == h[i];
    }
  }

  // ---------- What the invariant means for a history ----------

  /** A live worker always has its guard, and has itself given a strict answer before; the latest
      outcome that was not a rejection is its answer under the current epoch. */
  lemma LiveWorkerIsVouchedFor(actions: seq<Action>)
    requires Run(actions).0.process.Some?
    ensures var (s, h) := Run(actions);
      && s.guard
      && Latest(h).Some? && Latest(h).value.Answered? && Latest(h).value.worker == s.process.value
      && Epoch(Latest(h).value.answer) == s.epoch
      && exists i | 0 <= i < |h| :: Strict(h[i]) && h[i].worker == s.process.value
  {
    RunKeepsInvariant(actions);
  }

  lemma {:induction false} OutcomesPrefix(actions: seq<Action>, n: nat)
    requires n <= |actions|
    ensures Outcomes(actions[..n]) == Outcomes(actions)[..n]
  {
    if n == |actions| {
      assert actions[..n] == actions;
    } else {
      var m := |actions| - 1;
      OutcomesPrefix(actions[..m], n);
      assert actions[..m][..n] == actions[..n];
      assert Outcomes(actions)[..m] == Outcomes(actions[..m]);
    }
  }

  lemma OutcomeOfStep(actions: seq<Action>, n: nat)
    requires n < |actions|
    ensures GuardPresent(Run(actions[..n]).0)
    ensures Outcomes(actions)[n] == Step(Run(actions[..n]).0, actions[n]).1
    ensures Run(actions[..n + 1]).0 == Step(Run(actions[..n]).0, actions[n]).0
    ensures Outcomes(actions)[..n] == Outcomes(actions[..n])
  {
    OutcomesPrefix(actions, n + 1);
    OutcomesPrefix(actions, n);
    var (s, outcome) := Step(Run(actions[..n]).0, actions[n]);
    RunSnoc(actions[..n], actions[n], s, outcome);
    assert actions[..n + 1] == actions[..n] + [actions[n]];
  }

  /** Strict answers carry strictly increasing epochs over any run. */
  lemma StrictEpochsIncrease(actions: seq<Action>, i: nat, j: nat)
    requires i < j < |actions|
    requires Strict(Outcomes(actions)[i]) && Strict(Outcomes(actions)[j])
    ensures Epoch(Outcomes(actions)[i].answer) < Epoch(Outcomes(actions)[j].answer)
  {
    OutcomeOfStep(actions, j);
    RunKeepsInvariant(actions[..j]);
    var s := Run(actions[..j]).0;
    assert Outcomes(actions)[i] == Outcomes(actions[..j])[i];
    AnswerShape(s, actions[j].request.value, actions[j].world);
  }

  /** A retained answer repeats the epoch, and the worker, of the immediately preceding outcome that
      was not a rejected request, and that outcome was itself an answer. */
  lemma RetainedContinues(actions: seq<Action>, n: nat)
    requires n < |actions| && Retained(Outcomes(actions)[n])
    ensures var before := Latest(Outcomes(actions)[..n]);
      && before.Some? && before.value.Answered?
      && Epoch(before.value.answer) == Epoch(Outcomes(actions)[n].answer)
      && before.value.worker == Outcomes(actions)[n].worker
  {
    OutcomeOfStep(actions, n);
    RunKeepsInvariant(actions[..n]);
    AnswerShape(Run(actions[..n]).0, actions[n].request.value, actions[n].world);
  }

  /** The first answer of every worker is strict: a new process never yields a retained answer. */
  lemma FirstAnswerIsStrict(actions: seq<Action>, n: nat)
    requires n < |actions| && Outcomes(actions)[n].Answered?
    requires forall i | 0 <= i < n && Outcomes(actions)[i].Answered? ::
      Outcomes(actions)[i].worker != Outcomes(actions)[n].worker
    ensures Strict(Outcomes(actions)[n])
  {
    OutcomeOfStep(actions, n);
    RunKeepsInvariant(actions[..n]);
    var (s, h) := Run(actions[..n]);
    AnswerShape(s, actions[n].request.value, actions[n].world);
    assert forall i | 0 <= i < |h| :: Outcomes(actions)[i] == h[i];
  }

  /** A full verification is never answered from a reused reader, nor by a worker that has
      answered before. */
  lemma FullVerificationIsFresh(actions: seq<Action>, n: nat)
    requires n < |actions| && actions[n].Request'? && actions[n].request.Some? && actions[n].request.value.full
    requires Outcomes(actions)[n].Answered?
    ensures Strict(Outcomes(actions)[n]) && !ReusedReader(Outcomes(actions)[n].answer)
    ensures forall i | 0 <= i < n && Outcomes(actions)[i].Answered? ::
      Outcomes(actions)[i].worker != Outcomes(actions)[n].worker
  {
    OutcomeOfStep(actions, n);
    RunKeepsInvariant(actions[..n]);
    var (s, h) := Run(actions[..n]);
    var r := actions[n].request.value;
    AnswerShape(s, r, actions[n].world);
    AcceptedAnswer(Outcomes(actions)[n].answer, r.id, r.full);
    forall i | 0 <= i < n && Outcomes(actions)[i].Answered?
      ensures Outcomes(actions)[i].worker != Outcomes(actions)[n].worker
    {
      assert Outcomes(actions)[i] == h[i];
    }
  }

  // ---------- When an answer comes ----------

  /** The exchange brings back a well-formed reply in time, and the guarded tree has not moved. */
  predicate Replies(s: State, w: World) {
    w.reply.Some? && ValidNative(w.reply.value, s.sequence + 1) && w.timelyReply && w.steady
  }

  /** A request that does not insist on a fresh worker finds a live one, whose index allows reuse. */
  predicate FindsWorker(s: State, r: Request, w: World) {
    !r.full && s.process.Some? && w.alive && w.reusable
  }

  /** A new worker can be started: the old one, if any, is reaped, and every step after that succeeds. */
  predicate StartsWorker(s: State, w: World) {
    (s.process.Some? ==> w.closedBeforeOpen) && w.admitted && w.timelyOpen && w.spawned && w.configured
  }

  /** A well-formed error reply is passed on under the client's id. */
  lemma ErrorConcluded(s: State, r: Request, reused: bool, w: World)
    requires s.process.Some? && s.guard && Replies(s, w) && (reused ==> w.mounted) && !w.reply.value["ok"].flag
    ensures var (s', o) := Exchange(s, r, reused, w);
      if w.closedAfterError then
        && o.ErrorReply? && ValidClient(o.reply, r.id, r.full) && !o.reply["ok"].flag
        && Get(o.reply, "error") == Get(w.reply.value, "error")
        && s' == s.(process := None, guard := false, sequence := s.sequence + 1)
      else o.Failed?
  {
    ErrorIsValid(w.reply.value, s.sequence + 1, r.id, r.full);
  }

  /** `o` hands the worker's result to the client, under its id and `epoch`. */
  ghost predicate Delivers(o: Outcome, m: Message, r: Request, worker: nat, epoch: nat) {
    && o.Answered? && o.worker == worker && ValidClient(o.answer, r.id, r.full)
    && Epoch(o.answer) == epoch && Get(o.answer, "result") == Get(m, "result")
  }

  lemma AugmentDelivers(m: Message, r: Request, sequence: nat, epoch: nat, worker: nat)
    requires ValidNative(m, sequence) && m["ok"].flag
    ensures var answer := Augment(m, r.id, r.full, epoch);
      && (ValidClient(answer, r.id, r.full) <==> 0 < epoch < U64 && !(r.full && ReusedReader(m)))
      && (ValidClient(answer, r.id, r.full) ==> Delivers(Answered(answer, worker), m, r, worker, epoch))
      && Mode(answer) == if ReusedReader(m) then RETAINED else STRICT
  {
    AugmentedIsValid(m, sequence, r.id, r.full, epoch);
  }

  lemma ResultAugmented(s: State, r: Request, reused: bool, m: Message, w: World)
    requires s.process.Some? && s.guard && ValidNative(m, s.sequence) && m["ok"].flag
    ensures var (s', o) := Conclude(s, r, reused, m, w);
      var epoch := if ReusedReader(m) then s.epoch else s.epoch + 1;
      if w.fits && 0 < epoch < U64 && (ReusedReader(m) ==> reused && !r.full) then
        && Delivers(o, m, r, s.process.value, epoch) && s' == s.(epoch := epoch)
        && Mode(o.answer) == if ReusedReader(m) then RETAINED else STRICT
      else o.Failed?
  {
    var epoch := if ReusedReader(m) then s.epoch else s.epoch + 1;
    AugmentDelivers(m, r, s.sequence, epoch, s.process.value);
  }

  lemma ResultConcluded(s: State, r: Request, reused: bool, w: World)
    requires s.process.Some? && s.guard && Replies(s, w) && (reused ==> w.mounted) && w.reply.value["ok"].flag
    ensures var m := w.reply.value;
      var (s', o) := Exchange(s, r, reused, w);
      var epoch := if ReusedReader(m) then s.epoch else s.epoch + 1;
      if w.fits && 0 < epoch < U64 && (ReusedReader(m) ==> reused && !r.full) then
        && Delivers(o, m, r, s.process.value, epoch)
        && s' == s.(sequence := s.sequence + 1, epoch := epoch)
        && Mode(o.answer) == if ReusedReader(m) then RETAINED else STRICT
      else o.Failed?
  {
    var s1 := s.(sequence := s.sequence + 1);
    assert Exchange(s, r, reused, w) == Conclude(s1, r, reused, w.reply.value, w);
    ResultAugmented(s1, r, reused, w.reply.value, w);
  }

  lemma NoReplyNoAnswer(s: State, r: Request, reused: bool, w: World)
    requires s.process.Some? && !(Replies(s, w) && (reused ==> w.mounted))
    ensures Exchange(s, r, reused, w).1 == Failed
  {
  }

  lemma ModesDiffer()
    ensures STRICT != RETAINED
  {
    assert |"strict_full"| != |"retained_guarded"|;
  }

  /** The worker that will exchange the request, if any, and the state in which it does. */
  lemma ExchangeOutcome(s: State, r: Request, w: World) returns (reused: bool, s1: State)
    requires GuardPresent(s)
    ensures reused <==> FindsWorker(s, r, w)
    ensures s1 == if reused then s else s.(process := Some(s.spawned), guard := true, spawned := s.spawned + 1)
    ensures reused || StartsWorker(s, w) ==> Search(s, Some(r), w) == Exchange(s1, r, reused, w)
    ensures !reused && !StartsWorker(s, w) ==> Search(s, Some(r), w).1 == Failed
  {
    reused := FindsWorker(s, r, w);
    s1 := if reused then s else s.(process := Some(s.spawned), guard := true, spawned := s.spawned + 1);
  }

  /** A request is answered from the reader that is already there exactly when it finds a live worker
      whose reply says so and everything is in time and in place; then nothing but the sequence number changes. */
  lemma RetainedExactly(s: State, r: Request, w: World)
    requires GuardPresent(s)
    ensures var (s', o) := Search(s, Some(r), w);
      && (Retained(o) <==>
            && FindsWorker(s, r, w) && Replies(s, w) && w.mounted && w.fits && 0 < s.epoch < U64
            && w.reply.value["ok"].flag && ReusedReader(w.reply.value))
      && (Retained(o) ==>
            Delivers(o, w.reply.value, r, s.process.value, s.epoch) && s' == s.(sequence := s.sequence + 1))
  {
    ModesDiffer();
    var reused, s1 := ExchangeOutcome(s, r, w);
    if reused || StartsWorker(s, w) {
      if !(Replies(s1, w) && (reused ==> w.mounted)) {
        NoReplyNoAnswer(s1, r, reused, w);
      } else if w.reply.value["ok"].flag {
        ResultConcluded(s1, r, reused, w);
      } else {
        ErrorConcluded(s1, r, reused, w);
      }
    }
  }

  /** A request is answered strictly exactly when a worker, found or started, replies without a reused reader
      and everything is in time and in place. */
  lemma StrictExactly(s: State, r: Request, w: World)
    requires GuardPresent(s)
    ensures var (s', o) := Search(s, Some(r), w);
      && (Strict(o) <==>
            && (if FindsWorker(s, r, w) then w.mounted else StartsWorker(s, w))
            && Replies(s, w) && w.fits && s.epoch + 1 < U64
            && w.reply.value["ok"].flag && !ReusedReader(w.reply.value))
      && (Strict(o) ==> var worker := if FindsWorker(s, r, w) then s.process.value else s.spawned;
            && Delivers(o, w.reply.value, r, worker, s.epoch + 1)
            && s' == State(Some(worker), true, s.epoch + 1, s.sequence + 1,
                           if FindsWorker(s, r, w) then s.spawned else s.spawned + 1))
  {
    ModesDiffer();
    var reused, s1 := ExchangeOutcome(s, r, w);
    if reused || StartsWorker(s, w) {
      if !(Replies(s1, w) && (reused ==> w.mounted)) {
        NoReplyNoAnswer(s1, r, reused, w);
      } else if w.reply.value["ok"].flag {
        ResultConcluded(s1, r, reused, w);
      } else {
        ErrorConcluded(s1, r, reused, w);
      }
    }
  }

  /** An error reply reaches the client exactly when a worker, found or started, sent one and could be closed;
      it is valid for the client's request, and no worker is left. */
  lemma ErrorReplyExactly(s: State, r: Request, w: World)
    requires GuardPresent(s)
    ensures var (s', o) := Search(s, Some(r), w);
      && (o.ErrorReply? <==>
            && (if FindsWorker(s, r, w) then w.mounted else StartsWorker(s, w))
            && Replies(s, w) && !w.reply.value["ok"].flag && w.closedAfterError)
      && (o.ErrorReply? ==>
            && ValidClient(o.reply, r.id, r.full) && !o.reply["ok"].flag
            && Get(o.reply, "error") == Get(w.reply.value, "error")
            && s' == State(None, false, s.epoch, s.sequence + 1,
                           if FindsWorker(s, r, w) then s.spawned else s.spawned + 1))
  {
    var reused, s1 := ExchangeOutcome(s, r, w);
    if reused || StartsWorker(s, w) {
      if !(Replies(s1, w) && (reused ==> w.mounted)) {
        NoReplyNoAnswer(s1, r, reused, w);
      } else if w.reply.value["ok"].flag {
        ResultConcluded(s1, r, reused, w);
      } else {
        ErrorConcluded(s1, r, reused, w);
      }
    }
  }

  lemma FailedExchangeLeaves(s: State, r: Request, reused: bool, w: World)
    requires s.process.Some? && Exchange(s, r, reused, w).1.Failed?
    ensures var s' := Exchange(s, r, reused, w).0;
      s'.process.None? && s'.epoch <= s.epoch + 1 && s'.sequence == s.sequence + 1 && (w.closedOnAbort ==> !s'.guard)
    ensures !(Replies(s, w) && (reused ==> w.mounted)) ==>
      Exchange(s, r, reused, w).0
        == s.(process := None, guard := s.guard && !w.closedOnAbort, sequence := s.sequence + 1)
  {
  }

  lemma FailedStartLeaves(s: State, r: Request, w: World)
    requires GuardPresent(s) && !FindsWorker(s, r, w) && !StartsWorker(s, w)
    ensures var s' := Search(s, Some(r), w).0;
      s'.process.None? && s'.epoch == s.epoch && s'.sequence == s.sequence && (w.closedOnAbort ==> !s'.guard)
  {
  }

  /** A failed request leaves no worker, and its guard only if a worker could not be reaped in time at the end;
      when no proper reply came, exactly then. */
  lemma FailureLeaves(s: State, r: Request, w: World)
    requires GuardPresent(s) && Search(s, Some(r), w).1.Failed?
    ensures var s' := Search(s, Some(r), w).0;
      && s'.process.None? && s'.epoch <= s.epoch + 1 && s'.sequence <= s.sequence + 1
      && (w.closedOnAbort ==> !s'.guard)
      && ((FindsWorker(s, r, w) || StartsWorker(s, w)) && !Replies(s, w) ==> (s'.guard <==> !w.closedOnAbort))
  {
    var reused, s1 := ExchangeOutcome(s, r, w);
    if reused || StartsWorker(s, w) {
      FailedExchangeLeaves(s1, r, reused, w);
    } else {
      FailedStartLeaves(s, r, w);
    }
  }

  // ---------- An undisturbed run ----------

  /** Nothing goes wrong in request `n`, and the reader is reused by all but the first. */
  ghost predicate Undisturbed(a: Action, n: nat) {
    && a.Request'? && a.request.Some? && !a.request.value.full
    && var w := a.world;
    && w.alive && w.reusable && w.closedBeforeOpen && w.admitted && w.timelyOpen && w.spawned && w.configured
    && w.reply.Some? && ValidNative(w.reply.value, n + 1) && w.reply.value["ok"].flag
    && w.timelyReply && w.steady && w.mounted && w.fits && (ReusedReader(w.reply.value) <==> n > 0)
  }

  /** Request `n` got its result from the first worker under the first epoch; only request 0 was admitted. */
  ghost predicate ServedInPlace(o: Outcome, a: Action, n: nat) {
    && a.Request'? && a.request.Some? && a.world.reply.Some?
    && Delivers(o, a.world.reply.value, a.request.value, 0, 1)
    && (if n == 0 then Strict(o) else Retained(o))
  }

  lemma NextInPlace(s: State, a: Action, n: nat) returns (s': State, o: Outcome)
    requires Undisturbed(a, n) && s == if n == 0 then INITIAL else State(Some(0), true, 1, n, 1)
    ensures Step(s, a) == (s', o) && s' == State(Some(0), true, 1, n + 1, 1) && ServedInPlace(o, a, n)
  {
    s', o := Step(s, a).0, Step(s, a).1;
    if n == 0 {
      StrictExactly(s, a.request.value, a.world);
    } else {
      RetainedExactly(s, a.request.value, a.world);
    }
  }

  ghost predicate AllInPlace(h: seq<Outcome>, actions: seq<Action>) {
    |h| == |actions| && forall n | 0 <= n < |actions| :: ServedInPlace(h[n], actions[n], n)
  }

  ghost predicate AllUndisturbed(actions: seq<Action>) {
    forall n | 0 <= n < |actions| :: Undisturbed(actions[n], n)
  }

  ghost predicate RunsInPlace(actions: seq<Action>, h: seq<Outcome>) {
    Run(actions) == (if actions == [] then INITIAL else State(Some(0), true, 1, |actions|, 1), h)
  }

  lemma RunsOn(front: seq<Action>, a: Action, s: State, h: seq<Outcome>, s': State, o: Outcome)
    requires GuardPresent(s) && Run(front) == (s, h) && Step(s, a) == (s', o)
    ensures Run(front + [a]) == (s', h + [o])
  {
    RunSnoc(front, a, s', o);
  }

  lemma OneMoreInPlace(actions: seq<Action>, h: seq<Outcome>) returns (o: Outcome)
    requires actions != [] && Undisturbed(actions[|actions| - 1], |actions| - 1)
    requires RunsInPlace(actions[..|actions| - 1], h) && AllInPlace(h, actions[..|actions| - 1])
    ensures RunsInPlace(actions, h + [o]) && AllInPlace(h + [o], actions)
  {
    var n := |actions| - 1;
    var front, s := actions[..n], if n == 0 then INITIAL else State(Some(0), true, 1, n, 1);
    var s';
    s', o := NextInPlace(s, actions[n], n);
    RunsOn(front, actions[n], s, h, s', o);
    assert actions == front + [actions[n]];
  }

  lemma UndisturbedFront(actions: seq<Action>)
    requires actions != [] && AllUndisturbed(actions)
    ensures AllUndisturbed(actions[..|actions| - 1]) && Undisturbed(actions[|actions| - 1], |actions| - 1)
  {
  }

  /** An undisturbed owner starts one worker, admits the index once, and answers every later request from
      that worker's reader under the same epoch. */
  lemma {:induction false} UndisturbedRun(actions: seq<Action>) returns (h: seq<Outcome>)
    requires AllUndisturbed(actions)
    ensures RunsInPlace(actions, h) && AllInPlace(h, actions)
  {
    if actions == [] {
      h := [];
    } else {
      UndisturbedFront(actions);
      var before := UndisturbedRun(actions[..|actions| - 1]);
      var o := OneMoreInPlace(actions, before);
      h := before + [o];
    }
  }
}
