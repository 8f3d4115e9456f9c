/** What single steps of embedded mode do, and what that makes of runs: the health flag, failures, and
    whether shutdown is tried. */
module EmbeddedEffects {
  import opened Abi
  import opened CallbackGeneration
  import opened EmbeddedSystem
  import opened NativeDiscipline
  import opened EmbeddedRuns

  // ---------------------------------------------------------------- the health poller

  /** A status poll comes back; `up` is whether it returned 1. */
  predicate PollReturns(x: Embedded, e: Event, up: bool) {
    x.health.Polling? && e.Poll? && e.ok == up
  }

  /** The poller without a thread, or once a context is cancelled, stops; otherwise it polls, sleeps
      and polls again until a poll succeeds. */
  lemma PollMoves(x: Embedded, ok: bool)
    requires PollEnabled(x)
    ensures var health, stop := PollStep(x, ok).health, x.sig.canceled || x.sig.healthCancelled;
      match x.health
      case Attaching => health == if ok then Deciding else Done
      case Deciding => health == if stop then Detaching else Polling
      case Polling => health == if ok then Detaching else Sleeping
      case Sleeping => health == if ok then Deciding else Detaching
      case _ => health == Done
    ensures PollCall(x, ok).Some? && PollCall(x, ok).value.Status? <==>
      x.health.Deciding? && !x.sig.canceled && !x.sig.healthCancelled
  {
  }

  /** Only a successful poll raises the flag, and nothing else of the state is touched. */
  lemma PollFlag(x: Embedded, ok: bool)
    requires PollEnabled(x)
    ensures var y := PollStep(x, ok);
      && y.iso == x.iso && y.sup == x.sup && y.gate == x.gate && y.roots == x.roots && y.tasks == x.tasks
      && y.sig == x.sig.(healthy := x.sig.healthy || PollReturns(x, Poll(ok), true))
  {
  }

  /** The supervisor never raises the flag, and takes it down only when it finishes. */
  predicate FlagFalls(x: Embedded, y: Embedded) {
    (y.sig.healthy ==> x.sig.healthy) && (x.sig.healthy && !y.sig.healthy ==> y.sup.Finished?)
  }

  lemma SupFlag(x: Embedded, pick: Pick)
    ensures FlagFalls(x, SupStep(x, pick))
  {
    if x.sup.Stopping? {
      StopLeaves(x, x.sup.stop, pick == Succeeds);
      hide StopStep;
    } else {
      GoingFlag(x, pick);
    }
  }

  lemma GoingFlag(x: Embedded, pick: Pick)
    requires !x.sup.Stopping?
    ensures FlagFalls(x, SupStep(x, pick))
  {
    if x.sup.JoiningTearDown? {
      assert SupStep(x, pick) == x.(sup := Finished, sig := x.sig.(healthy := false));
    } else if x.sup.Watching? {
      assert SupStep(x, pick).sig == x.sig.(runExited := pick == Exited, runDone := x.sig.runDone && pick != Exited);
    } else {
      OrdinaryFlag(x, pick);
    }
    hide SupStep;
  }

  lemma OrdinaryFlag(x: Embedded, pick: Pick)
    requires !x.sup.Stopping? && !x.sup.JoiningTearDown? && !x.sup.Watching?
    ensures SupStep(x, pick).sig.healthy == x.sig.healthy
  {
    hide StopStep, CloseGate;
    if x.sup.Shutting? || x.sup.ShuttingDown? || x.sup.JoiningRun? || x.sup.Releasing? { LateFlag(x, pick); hide SupStep; }
  }

  lemma LateFlag(x: Embedded, pick: Pick)
    requires x.sup.Shutting? || x.sup.ShuttingDown? || x.sup.JoiningRun? || x.sup.Releasing?
    ensures SupStep(x, pick).sig.healthy == x.sig.healthy
  {
    hide StopStep, CloseGate;
  }

  lemma IsoFlag(x: Embedded, ok: bool)
    requires IsoEnabled(x, ok)
    ensures Touches(x, IsoStep(x, ok), ok)
  {
    if x.iso.Stopping? { StopTouches(x, ok); } else { MoveTouches(x, ok); }
  }

  lemma TaskFlag(x: Embedded, id: nat, ok: bool)
    requires id in x.tasks
    ensures var y := TaskMoves(x, id, ok); y.sig.healthy == x.sig.healthy && y.sig.runExited == x.sig.runExited && y.sup == x.sup
  {
  }

  lemma FlagMoves(x: Embedded, e: Event)
    requires Enabled(x, e)
    ensures Next(x, e).sig.healthy ==> x.sig.healthy || PollReturns(x, e, true)
    ensures (x.sig.healthy || PollReturns(x, e, true)) && !Next(x, e).sig.healthy ==> Next(x, e).sup.Finished?
  {
    hide IsoStep, SupStep, PollStep, TaskMoves, IsoEnabled, SupEnabled;
    match e
    case Iso(ok) => IsoFlag(x, ok);
    case Sup(pick) => SupFlag(x, pick);
    case Poll(ok) => PollFlag(x, ok);
    case TaskStep(id, ok) => TaskFlag(x, id, ok);
    case _ =>
  }

  lemma FinishedStep(x: Embedded, e: Event)
    requires Enabled(x, e) && x.sup.Finished?
    ensures Next(x, e).sup.Finished?
  {
    hide IsoStep, PollStep, TaskMoves, IsoEnabled;
    match e
    case Iso(ok) => HandingNeedsSupervisor(x, ok); IsoFlag(x, ok);
    case Poll(ok) => PollFlag(x, ok);
    case TaskStep(id, ok) => TaskFlag(x, id, ok);
    case _ =>
  }

  lemma HandingNeedsSupervisor(x: Embedded, ok: bool)
    requires IsoEnabled(x, ok) && !x.sup.Awaiting?
    ensures !(x.iso == Handing && ok)
  {
  }

  ghost predicate PolledUp(states: seq<Embedded>, events: seq<Event>, n: int) {
    exists k :: 0 <= k < n && k < |states| && k < |events| && PollReturns(states[k], events[k], true)
  }

  /** The health flag is up exactly while the supervisor has not finished and some status poll of
      this run has succeeded. */
  lemma {:induction false} HealthyIff(states: seq<Embedded>, events: seq<Event>, n: nat)
    requires Run(states, events) && n <= |events|
    ensures states[n].sig.healthy <==> !states[n].sup.Finished? && PolledUp(states, events, n)
  {
    hide Next, Enabled, PollReturns;
    if n > 0 {
      var x, e := states[n - 1], events[n - 1];
      HealthyIff(states, events, n - 1);
      assert states[n] == Next(x, e);
      FlagMoves(x, e);
      HealthyOnlyWhileSupervised(states, events, n);
      if x.sup.Finished? { FinishedStep(x, e); }
      assert PolledUp(states, events, n) <==> PolledUp(states, events, n - 1) || PollReturns(x, e, true);
    } else {
      BegunDark(states[0]);
    }
  }

  lemma BegunDark(x: Embedded)
    requires Begun(x)
    ensures !x.sig.healthy
  {
  }

  // ---------------------------------------------------------------- why the supervisor moves on

  /** The supervisor has stopped watching a running isolate. */
  predicate PastWatching(sup: Supervisor) {
    sup.ClosingGate? || sup.Stopping? || sup.CancellingHealth? || sup.JoiningHealth? || AtShutdown(sup) || PastShutdown(sup)
  }

  /** What the goroutine's channels say is so: no isolate came of the start, or run has returned. */
  predicate Truthful(x: Embedded) {
    (x.sig.createErr ==> x.iso.Failed?) && (x.sig.runDone || x.sig.runExited ==> x.iso.AwaitingRelease? || x.iso.Ended?)
  }

  predicate Motivated(x: Embedded) {
    && (x.sup.Left? ==> x.sig.createErr || x.sig.canceled)
    && (PastWatching(x.sup) ==> x.gate.fatal.Some? || x.sig.runExited || x.sig.canceled)
  }

  /** A supervisor that returned at the start had a failed start or a cancelled context; one that
      ends a running isolate met a failure, the return of run, or a cancelled context. */
  lemma {:induction false} EndsForAReason(states: seq<Embedded>, events: seq<Event>, n: nat)
    requires Run(states, events) && n <= |events|
    ensures states[n].sup.Left? ==> states[n].iso.Failed? || states[n].sig.canceled
    ensures PastWatching(states[n].sup) ==>
      || states[n].gate.fatal.Some? || states[n].sig.canceled || states[n].iso.AwaitingRelease? || states[n].iso.Ended?
  {
    Reasons(states, events, n);
  }

  lemma {:induction false} Reasons(states: seq<Embedded>, events: seq<Event>, n: nat)
    requires Run(states, events) && n <= |events|
    ensures Truthful(states[n]) && Motivated(states[n])
  {
    hide Next, Enabled, Truthful, Motivated;
    if n > 0 {
      Reasons(states, events, n - 1);
      assert states[n] == Next(states[n - 1], events[n - 1]);
      ReasonStep(states[n - 1], events[n - 1]);
    } else {
      BegunReasons(states[0]);
    }
  }

  lemma BegunReasons(x: Embedded)
    requires Begun(x)
    ensures Truthful(x) && Motivated(x)
  {
  }

  lemma ReasonStep(x: Embedded, e: Event)
    requires Enabled(x, e) && Truthful(x) && Motivated(x)
    ensures Truthful(Next(x, e)) && Motivated(Next(x, e))
  {
    if e.Iso? {
      IsoReasons(x, e.ok);
      hide IsoStep, IsoEnabled, Truthful, Motivated;
    } else if e.Sup? {
      SupReasons(x, e.pick);
      hide SupStep, SupEnabled, Truthful, Motivated;
    } else if e.Poll? {
      PollFlag(x, e.ok);
      hide PollStep;
    } else {
      hide NextTask, CloseGate;
    }
  }

  lemma IsoReasons(x: Embedded, ok: bool)
    requires IsoEnabled(x, ok) && Truthful(x) && Motivated(x)
    ensures Truthful(IsoStep(x, ok)) && Motivated(IsoStep(x, ok))
  {
    if x.iso.Stopping? {
      IsoStopReasons(x, ok);
    } else if x.iso.Losing? || x.iso.Unwinding? {
      AbortReasons(x, ok);
    } else {
      StartReasons(x, ok);
    }
    hide IsoStep, IsoEnabled, Truthful, Motivated;
  }

  lemma StartReasons(x: Embedded, ok: bool)
    requires IsoEnabled(x, ok) && Truthful(x) && Motivated(x) && !x.iso.Stopping? && !x.iso.Losing? && !x.iso.Unwinding?
    ensures Truthful(IsoStep(x, ok)) && Motivated(IsoStep(x, ok))
  {
    hide StopStep, StopEnabled, Vacated, CloseGate;
  }

  lemma AbortReasons(x: Embedded, ok: bool)
    requires Truthful(x) && Motivated(x) && (x.iso.Losing? || x.iso.Unwinding?)
    ensures Truthful(IsoStep(x, ok)) && Motivated(IsoStep(x, ok))
  {
    hide StopStep, StopEnabled, Vacated;
  }

  lemma IsoStopReasons(x: Embedded, ok: bool)
    requires x.iso.Stopping? && Truthful(x) && Motivated(x)
    ensures Truthful(IsoStep(x, ok)) && Motivated(IsoStep(x, ok))
  {
    hide StopEnabled, Vacated;
  }

  lemma SupReasons(x: Embedded, pick: Pick)
    requires SupEnabled(x, pick) && Truthful(x) && Motivated(x)
    ensures Truthful(SupStep(x, pick)) && Motivated(SupStep(x, pick))
  {
    if x.sup.Stopping? {
      SupStopReasons(x, pick);
    } else if AtShutdown(x.sup) || PastShutdown(x.sup) {
      EndingReasons(x, pick);
    } else {
      WatchingReasons(x, pick);
    }
    hide SupStep, SupEnabled, Truthful, Motivated;
  }

  lemma WatchingReasons(x: Embedded, pick: Pick)
    requires SupEnabled(x, pick) && Truthful(x) && Motivated(x)
    requires !x.sup.Stopping? && !AtShutdown(x.sup) && !PastShutdown(x.sup)
    ensures Truthful(SupStep(x, pick)) && Motivated(SupStep(x, pick))
  {
    if x.sup.Watching? {
      assert SupStep(x, pick).sig == x.sig.(runExited := pick == Exited, runDone := x.sig.runDone && pick != Exited);
    }
    hide StopStep, StopEnabled, Vacated;
  }

  lemma EndingReasons(x: Embedded, pick: Pick)
    requires Truthful(x) && Motivated(x) && (AtShutdown(x.sup) || PastShutdown(x.sup))
    ensures Truthful(SupStep(x, pick)) && Motivated(SupStep(x, pick))
  {
    var y := SupStep(x, pick);
    assert y.iso == x.iso && y.gate == x.gate && PastWatching(y.sup) && !y.sup.Left? by {
      hide StopStep, Vacated, CloseGate, Truthful, Motivated;
    }
    EndingSignalsHold(x, pick);
    hide SupStep;
  }

  predicate SignalsHold(s: Signals, u: Signals) {
    u.createErr == s.createErr && u.canceled == s.canceled && u.runExited == s.runExited && (u.runDone ==> s.runDone)
  }

  lemma EndingSignalsHold(x: Embedded, pick: Pick)
    requires AtShutdown(x.sup) || PastShutdown(x.sup)
    ensures SignalsHold(x.sig, SupStep(x, pick).sig)
  {
    if x.sup.Releasing? {
      assert SupStep(x, pick).sig == x.sig.(released := true);
    } else if x.sup.JoiningRun? {
      assert SupStep(x, pick).sig == x.sig.(runDone := false);
    } else {
      OuterSignalsHold(x, pick);
    }
    hide SupStep;
  }

  lemma OuterSignalsHold(x: Embedded, pick: Pick)
    requires AtShutdown(x.sup) || x.sup.JoiningTearDown? || x.sup.Finished?
    ensures SignalsHold(x.sig, SupStep(x, pick).sig)
  {
    if x.sup.JoiningTearDown? {
      assert SupStep(x, pick).sig == x.sig.(healthy := false);
    } else if x.sup.ShuttingDown? {
      assert SupStep(x, pick).sig == x.sig.(toDetach := x.sig.toDetach + 1);
    } else {
      assert SupStep(x, pick).sig == x.sig;
    }
    hide SupStep;
  }

  lemma SupStopReasons(x: Embedded, pick: Pick)
    requires x.sup.Stopping? && Truthful(x) && Motivated(x)
    ensures Truthful(SupStep(x, pick)) && Motivated(SupStep(x, pick))
  {
    hide StopEnabled, Vacated;
  }

  // ---------------------------------------------------------------- failures

  /** A failure closes the gate and wakes the supervisor; the first error is kept. */
  lemma FatalEffect(x: Embedded, error: IngressError)
    ensures var y := Next(x, Fatal(error));
      && y == x.(gate := y.gate) && y.gate.fatal.Some? && y.gate.inFlight == x.gate.inFlight
      && (x.gate.fatal.Some? ==> y.gate == x.gate)
      && (x.gate.fatal.None? ==> !y.gate.accepting && y.gate.fatal == Some(error))
      && (x.sup.Watching? ==> SupEnabled(y, Woken))
  {
  }

  // ---------------------------------------------------------------- shutdown

  predicate ShutdownTried(trace: seq<Native>) {
    Shutdown in trace || Attach(ForShutdown, false) in trace
  }

  /** The call that counts as trying: shutdown, or the attach for it that failed. */
  predicate Tries(c: Option<Native>) {
    c.Some? && (c.value.Shutdown? || (c.value.Attach? && c.value.purpose.ForShutdown? && !c.value.ok))
  }

  /** The supervisor has passed its attempt at shutdown. */
  predicate PastShutdown(sup: Supervisor) {
    sup.JoiningRun? || sup.Releasing? || sup.JoiningTearDown? || sup.Finished?
  }

  predicate AtShutdown(sup: Supervisor) {
    sup.Shutting? || sup.ShuttingDown?
  }

  lemma StopNeverTries(stop: Stop, ok: bool)
    ensures !Tries(StopCall(stop, ok))
  {
  }

  lemma OnlySupTries(x: Embedded, e: Event)
    requires !e.Sup?
    ensures !Tries(NativeCall(x, e))
  {
    if e.Iso? && x.iso.Stopping? { StopNeverTries(x.iso.stop, e.ok); hide StopCall; }
  }

  predicate TriesOnce(x: Embedded, y: Embedded, c: Option<Native>) {
    && ((PastShutdown(x.sup) && !x.sig.runExited) || Tries(c) <==> PastShutdown(y.sup) && !y.sig.runExited)
    && (AtShutdown(y.sup) ==> !y.sig.runExited)
  }

  lemma StoppingTries(x: Embedded, pick: Pick)
    requires x.sup.Stopping?
    ensures TriesOnce(x, SupStep(x, pick), SupCall(x, pick))
  {
    StopLeaves(x, x.sup.stop, pick == Succeeds);
    StopNeverTries(x.sup.stop, pick == Succeeds);
    hide StopStep, StopCall;
  }

  lemma GoingTries(x: Embedded, pick: Pick)
    requires (AtShutdown(x.sup) ==> !x.sig.runExited) && SupEnabled(x, pick) && !x.sup.Stopping?
    ensures TriesOnce(x, SupStep(x, pick), SupCall(x, pick))
  {
    if AtShutdown(x.sup) || PastShutdown(x.sup) {
      EndingTries(x, pick);
      hide SupStep, SupCall, SupEnabled;
    } else {
      hide StopStep, StopCall, CloseGate, StopEnabled;
    }
  }

  lemma EndingTries(x: Embedded, pick: Pick)
    requires AtShutdown(x.sup) ==> !x.sig.runExited
    requires SupEnabled(x, pick) && (AtShutdown(x.sup) || PastShutdown(x.sup))
    ensures TriesOnce(x, SupStep(x, pick), SupCall(x, pick))
  {
    hide StopStep, StopCall, CloseGate, StopEnabled;
  }

  lemma SupTries(x: Embedded, pick: Pick)
    requires (AtShutdown(x.sup) ==> !x.sig.runExited) && SupEnabled(x, pick)
    ensures TriesOnce(x, SupStep(x, pick), SupCall(x, pick))
  {
    if x.sup.Stopping? { StoppingTries(x, pick); } else { GoingTries(x, pick); }
  }

  lemma OthersKeepSup(x: Embedded, e: Event)
    requires Enabled(x, e) && !e.Sup?
    ensures var y := Next(x, e);
      y.sig.runExited == x.sig.runExited && (y.sup == x.sup || (x.sup.Awaiting? && y.sup.Launching?))
  {
    hide IsoStep, PollStep, TaskMoves, IsoEnabled;
    match e
    case Iso(ok) => if !x.sup.Awaiting? { HandingNeedsSupervisor(x, ok); } IsoFlag(x, ok);
    case Poll(ok) => PollFlag(x, ok);
    case TaskStep(id, ok) => TaskFlag(x, id, ok);
    case _ =>
  }

  lemma {:induction false} ShutdownSoFar(states: seq<Embedded>, events: seq<Event>, n: nat)
    requires Run(states, events) && n <= |events|
    ensures ShutdownTried(Trace(states, events, n)) <==> PastShutdown(states[n].sup) && !states[n].sig.runExited
    ensures AtShutdown(states[n].sup) ==> !states[n].sig.runExited
  {
    hide Next, Enabled, NativeCall;
    if n > 0 {
      ShutdownSoFar(states, events, n - 1);
      var x, e, trace := states[n - 1], events[n - 1], Trace(states, events, n - 1);
      assert states[n] == Next(x, e);
      ShutdownStep(x, e);
      TriedNow(trace, NativeCall(x, e));
    } else {
      BegunAwaiting(states[0]);
    }
  }

  lemma ShutdownStep(x: Embedded, e: Event)
    requires Enabled(x, e) && (AtShutdown(x.sup) ==> !x.sig.runExited)
    ensures TriesOnce(x, Next(x, e), NativeCall(x, e))
  {
    if e.Sup? {
      SupTries(x, e.pick);
      hide SupStep, SupCall, SupEnabled;
    } else {
      OnlySupTries(x, e);
      OthersKeepSup(x, e);
      hide Next, NativeCall, Enabled;
    }
  }

  lemma TriedNow(trace: seq<Native>, c: Option<Native>)
    ensures ShutdownTried(trace + if c.Some? then [c.value] else []) <==> ShutdownTried(trace) || Tries(c)
  {
  }

  lemma BegunAwaiting(x: Embedded)
    requires Begun(x)
    ensures x.sup.Awaiting?
  {
  }

  /** A supervisor that has finished with an isolate tried to shut it down exactly if run had not
      returned by itself. */
  lemma ShutdownTriedIff(states: seq<Embedded>, events: seq<Event>, n: nat)
    requires Run(states, events) && n <= |events| && states[n].sup.Finished?
    ensures ShutdownTried(Trace(states, events, n)) <==> !states[n].sig.runExited
    ensures states[n].sig.runExited ==> RunReturned in Trace(states, events, n)
  {
    ShutdownSoFar(states, events, n);
    RunIsLawful(states, events, n);
    HappenedMeans(Trace(states, events, n));
    hide Lawful, Happened, Run, Trace, TasksInv, EarlyInv, LateInv, ShutdownTried;
  }

  // ---------------------------------------------------------------- tasks

  /** A call or callback enters exactly while the gate is open, and counts from then until it
      leaves; only an assign call that has entered and attached calls native code. */
  lemma TaskEffect(x: Embedded, id: nat, ok: bool)
    requires id in x.tasks
    ensures var y, t := Next(x, TaskStep(id, ok)), x.tasks[id];
      && (t.Called? || t.Loaded? ==>
            if x.gate.accepting then id in y.tasks && y.gate.inFlight == x.gate.inFlight + 1
                                     && y.tasks[id] == if t.Called? then Entered else Inside
            else id !in y.tasks && y.gate == x.gate)
      && (t.Entered? && ok ==> y.gate == x.gate && id in y.tasks && y.tasks[id] == Attached)
      && (t.Attached? ==> y.gate == x.gate && id in y.tasks && y.tasks[id] == Calling)
      && ((t.Entered? && !ok) || t.Calling? || t.Inside? ==>
            id !in y.tasks && (x.gate.inFlight > 0 ==> y.gate == x.gate.(inFlight := x.gate.inFlight - 1)))
      && (NativeCall(x, TaskStep(id, ok)) ==
            if t.Entered? then Some(Attach(ForAssign, ok)) else if t.Attached? then Some(Assign) else None)
  {
  }

  // ---------------------------------------------------------------- the roots

  /** This generation never replaces or takes down another's publication, and publishes itself only
      over nobody's. */
  lemma OthersPublicationStands(x: Embedded, e: Event)
    requires Enabled(x, e)
    ensures x.roots.Another? && !e.RootsFreed? ==> Next(x, e).roots.Another?
    ensures Next(x, e).roots.This? && !x.roots.This? ==> x.roots.Nobody? && e.Iso? && x.iso.Publishing?
  {
    hide TaskGate, NextTask;
  }

  /** While the isolate goroutine registers, the roots publish its generation. */
  lemma {:induction false} RegistersOnlyPublished(states: seq<Embedded>, events: seq<Event>, n: nat)
    requires Run(states, events) && n <= |events| && states[n].iso.Registering?
    ensures states[n].roots.This?
  {
    hide Next, Enabled, EmbeddedInv;
    var x, e := states[n - 1], events[n - 1];
    assert states[n] == Next(x, e) by { assert n > 0 by { BegunCreates(states[0]); } }
    RunIsLawful(states, events, n - 1);
    if x.iso.Registering? { RegistersOnlyPublished(states, events, n - 1); }
    RegisteringStep(x, Happened(Trace(states, events, n - 1)), e);
  }

  lemma BegunCreates(x: Embedded)
    requires Begun(x)
    ensures x.iso.Creating?
  {
  }

  lemma RegisteringStep(x: Embedded, f: Flags, e: Event)
    requires EmbeddedInv(x, f) && Enabled(x, e) && Next(x, e).iso.Registering?
    requires x.iso.Registering? ==> x.roots.This?
    ensures Next(x, e).roots.This?
  {
    if e.Iso? {
      IsoReaches(x, e.ok);
      hide EmbeddedInv, IsoStep, IsoEnabled;
    } else if e.Sup? {
      SupKeepsRoots(x, f, e.pick);
      hide EmbeddedInv, SupStep;
    } else {
      hide EmbeddedInv, TaskGate, NextTask;
    }
  }

  lemma IsoReaches(x: Embedded, ok: bool)
    ensures IsoStep(x, ok).iso.Registering? && !x.iso.Registering? ==> IsoStep(x, ok).roots.This?
    ensures x.iso.Registering? ==> !IsoStep(x, ok).iso.Registering?
  {
    hide StopStep, CloseGate, Vacated;
    if x.iso.Stopping? { StoppingNeverRegisters(x, ok); hide IsoStep; }
  }

  lemma StoppingNeverRegisters(x: Embedded, ok: bool)
    requires x.iso.Stopping?
    ensures !IsoStep(x, ok).iso.Registering?
  {
    hide StopStep;
  }

  lemma SupKeepsRoots(x: Embedded, f: Flags, pick: Pick)
    requires EmbeddedInv(x, f) && SupEnabled(x, pick)
    ensures SupStep(x, pick).iso.Registering? ==> x.iso.Registering? && SupStep(x, pick).roots == x.roots
  {
    SupKeepsIso(x, pick);
    if x.iso.Registering? {
      assert Rank(x.sup) == 0;
      hide EmbeddedInv, StopStep;
    } else {
      hide SupStep;
    }
  }

  // ---------------------------------------------------------------- cancellation

  predicate BeforeInit(iso: Isolate) {
    iso.Creating? || iso.Created? || iso.TearingDown? || iso.Failed?
  }

  predicate BeforeRegistration(iso: Isolate) {
    iso.Initialising? || iso.Initialised? || BeforeInit(iso)
  }

  predicate BeforeHandOver(iso: Isolate) {
    iso.Activating? || iso.Publishing? || iso.Losing? || iso.Registering? || iso.Unwinding? || iso.Registered? || iso.Stopping?
    || BeforeRegistration(iso)
  }

  lemma CancelledStep(x: Embedded, e: Event)
    requires Enabled(x, e) && x.sig.canceled
    ensures Next(x, e).sig.canceled
    ensures BeforeInit(x.iso) ==> BeforeInit(Next(x, e).iso)
    ensures BeforeRegistration(x.iso) ==> BeforeRegistration(Next(x, e).iso)
    ensures BeforeHandOver(x.iso) ==> BeforeHandOver(Next(x, e).iso)
  {
    if e.Iso? {
      IsoCancelled(x, e.ok);
      hide IsoStep, IsoEnabled;
    } else {
      OthersKeepIso(x, e);
      hide Next, Enabled;
    }
  }

  lemma StopKeeps(x: Embedded, stop: Stop, ok: bool)
    ensures var y := StopStep(x, stop, ok).0; y.iso == x.iso && y.sig.canceled == x.sig.canceled
  {
  }

  /** The isolate goroutine does not get past where it is. */
  predicate HeldBack(iso: Isolate, next: Isolate) {
    && (BeforeInit(iso) ==> BeforeInit(next))
    && (BeforeRegistration(iso) ==> BeforeRegistration(next))
    && (BeforeHandOver(iso) ==> BeforeHandOver(next))
  }

  lemma IsoCancelled(x: Embedded, ok: bool)
    requires x.sig.canceled && IsoEnabled(x, ok)
    ensures IsoStep(x, ok).sig.canceled && HeldBack(x.iso, IsoStep(x, ok).iso)
  {
    if x.iso.Stopping? {
      StopKeeps(x, x.iso.stop, ok);
      hide StopStep, StopEnabled;
    } else if x.iso.Losing? || x.iso.Unwinding? {
      AbortCancelled(x, ok);
      hide IsoStep;
    } else {
      StartCancelled(x, ok);
      hide IsoStep;
    }
  }

  lemma AbortCancelled(x: Embedded, ok: bool)
    requires x.sig.canceled && (x.iso.Losing? || x.iso.Unwinding?)
    ensures IsoStep(x, ok).sig.canceled && HeldBack(x.iso, IsoStep(x, ok).iso)
  {
    hide StopStep, CloseGate, Vacated;
  }

  lemma StartCancelled(x: Embedded, ok: bool)
    requires x.sig.canceled && IsoEnabled(x, ok) && !x.iso.Stopping? && !x.iso.Losing? && !x.iso.Unwinding?
    ensures IsoStep(x, ok).sig.canceled && HeldBack(x.iso, IsoStep(x, ok).iso)
  {
    StartKeepsCancelled(x, ok);
    hide StopStep, StopEnabled, CloseGate, Vacated;
  }

  lemma StartKeepsCancelled(x: Embedded, ok: bool)
    requires x.sig.canceled && !x.iso.Stopping? && !x.iso.Losing? && !x.iso.Unwinding?
    ensures IsoStep(x, ok).sig.canceled
  {
    if x.iso.Creating? {
      assert IsoStep(x, ok).sig == x.sig.(createErr := !ok);
    } else if x.iso.TearingDown? {
      assert IsoStep(x, ok).sig == x.sig.(createErr := true);
    } else if x.iso.Running? {
      assert IsoStep(x, ok).sig == x.sig.(runDone := true);
    } else {
      assert IsoStep(x, ok).sig == x.sig;
    }
  }

  lemma OthersKeepIso(x: Embedded, e: Event)
    requires !e.Iso?
    ensures Next(x, e).iso == x.iso && (x.sig.canceled ==> Next(x, e).sig.canceled)
  {
    if e.Sup? {
      SupKeepsIso(x, e.pick);
      hide SupStep;
    } else {
      hide TaskGate, NextTask;
    }
  }

  lemma SupKeepsIso(x: Embedded, pick: Pick)
    ensures SupStep(x, pick).iso == x.iso && (x.sig.canceled ==> SupStep(x, pick).sig.canceled)
  {
    if x.sup.Stopping? {
      StopKeeps(x, x.sup.stop, pick == Succeeds);
      hide StopStep;
    } else if Ending(x.sup) {
      EndingKeepsIso(x, pick);
      hide SupStep;
    } else {
      hide StopStep, CloseGate;
    }
  }

  predicate Ending(sup: Supervisor) {
    sup.CancellingHealth? || sup.JoiningHealth? || AtShutdown(sup) || PastShutdown(sup)
  }

  lemma EndingKeepsIso(x: Embedded, pick: Pick)
    requires Ending(x.sup)
    ensures SupStep(x, pick).iso == x.iso && (x.sig.canceled ==> SupStep(x, pick).sig.canceled)
  {
    if x.sup.CancellingHealth? {
      assert SupStep(x, pick) == x.(sup := JoiningHealth, sig := x.sig.(healthCancelled := true));
    } else if x.sup.ShuttingDown? {
      assert SupStep(x, pick) == x.(sup := JoiningRun, sig := x.sig.(toDetach := x.sig.toDetach + 1));
    } else if x.sup.JoiningRun? {
      assert SupStep(x, pick) == x.(sup := Releasing, sig := x.sig.(runDone := false));
    } else if x.sup.Releasing? {
      assert SupStep(x, pick) == x.(sup := JoiningTearDown, sig := x.sig.(released := true));
    } else if x.sup.JoiningTearDown? {
      assert SupStep(x, pick) == x.(sup := Finished, sig := x.sig.(healthy := false));
    } else {
      assert SupStep(x, pick) == x.(sup := SupStep(x, pick).sup);
    }
  }

  /** Once the context is cancelled, an isolate not yet initialised never is, one not yet registered
      never is, and one still registering is never handed over: each is torn down instead. */
  lemma {:induction false} CancelledStops(states: seq<Embedded>, events: seq<Event>, n: nat, m: nat)
    requires Run(states, events) && n <= m <= |events| && states[n].sig.canceled
    ensures states[m].sig.canceled
    ensures BeforeInit(states[n].iso) ==> BeforeInit(states[m].iso)
    ensures BeforeRegistration(states[n].iso) ==> BeforeRegistration(states[m].iso)
    ensures BeforeHandOver(states[n].iso) ==> BeforeHandOver(states[m].iso)
    decreases m
  {
    hide Next, Enabled, BeforeInit, BeforeRegistration, BeforeHandOver;
    if n < m {
      CancelledStops(states, events, n, m - 1);
      assert states[m] == Next(states[m - 1], events[m - 1]);
      CancelledStep(states[m - 1], events[m - 1]);
    }
  }
}
