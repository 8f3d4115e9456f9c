/** Orderings that embedded mode does not promise, with a run that shows each failing and what does
    hold instead: unregistration may be skipped, run may be called after shutdown, and threads may
    detach after tear-down. */
module EmbeddedThreads {
  import opened Abi
  import opened CallbackGeneration
  import opened EmbeddedSystem
  import opened NativeDiscipline
  import opened EmbeddedRuns

  // ---------------------------------------------------------------- unregistration

  lemma NotBoth(trace: seq<Native>, m: nat, n: nat)
    requires Lawful(trace) && m < n < |trace|
    requires trace[m].Unregister? || trace[m] == Attach(ForUnregister, false)
    ensures !trace[n].Unregister? && trace[n] != Attach(ForUnregister, false)
  {
    hide Lawful, Happened;
    var _ := Before(trace, n);
    assert trace[..n][m] == trace[m];
  }

  /** When an isolate goroutine that called registration has finished, the native unregistration
      was called exactly if its thread could be attached. */
  lemma UnregisteredIff(states: seq<Embedded>, events: seq<Event>, n: nat)
    requires Run(states, events) && n <= |events| && (states[n].iso == Failed || states[n].iso == Ended)
    requires Register(true) in Trace(states, events, n) || Register(false) in Trace(states, events, n)
    ensures Unregister in Trace(states, events, n) <==> Attach(ForUnregister, false) !in Trace(states, events, n)
  {
    hide Lawful, Happened, Means, Sane, EmbeddedInv, UnregisterAttempted;
    RunIsLawful(states, events, n);
    var trace := Trace(states, events, n);
    hide Run, Trace;
    FinishedUnregistered(states[n], Happened(trace));
    AttemptedOnce(trace);
  }

  lemma AttemptedOnce(trace: seq<Native>)
    requires Lawful(trace) && (Register(true) in trace || Register(false) in trace)
    requires !Happened(trace).register.Untried? ==> Happened(trace).unregistered
    ensures Unregister in trace <==> Attach(ForUnregister, false) !in trace
  {
    hide Lawful, Happened;
    HappenedMeans(trace);
    if Unregister in trace && Attach(ForUnregister, false) in trace {
      var m :| 0 <= m < |trace| && trace[m] == Unregister;
      var k :| 0 <= k < |trace| && trace[k] == Attach(ForUnregister, false);
      NotBoth(trace, if m < k then m else k, if m < k then k else m);
      assert false;
    }
  }

  lemma FinishedUnregistered(x: Embedded, f: Flags)
    requires EmbeddedInv(x, f) && (x.iso == Failed || x.iso == Ended)
    ensures !f.register.Untried? ==> f.unregistered
  {
    hide TasksInv, SignalsInv;
  }

  // ---------------------------------------------------------------- run

  /** After the hand-over, run has been called exactly if the isolate goroutine has moved on: the
      supervisor, whatever it has reached, tells nothing, unless it went on because run returned. */
  lemma RunCalledIff(states: seq<Embedded>, events: seq<Event>, n: nat)
    requires Run(states, events) && n <= |events| && HandedOver(states[n].iso)
    ensures RunCalled in Trace(states, events, n) <==> states[n].iso != Starting
    ensures states[n].sig.runExited ==> RunReturned in Trace(states, events, n)
  {
    RunIsLawful(states, events, n);
    HappenedMeans(Trace(states, events, n));
    hide Lawful, Happened, Run, Trace, TasksInv, EarlyInv;
  }

  // ---------------------------------------------------------------- threads

  function Attaches(trace: seq<Native>): nat {
    if trace == [] then 0
    else Attaches(trace[..|trace| - 1]) + if trace[|trace| - 1].Attach? && trace[|trace| - 1].ok then 1 else 0
  }

  function Detaches(trace: seq<Native>): nat {
    if trace == [] then 0 else Detaches(trace[..|trace| - 1]) + if trace[|trace| - 1].Detach? then 1 else 0
  }

  predicate Holds(t: Task) {
    t.Attached? || t.Calling?
  }

  function AttachedTasks(tasks: map<nat, Task>): set<nat> {
    set id | id in tasks && Holds(tasks[id])
  }

  function One(b: bool): nat {
    if b then 1 else 0
  }

  function StopHolding(stop: Stop): nat {
    One(stop.Unregistering?)
  }

  function IsoHolding(iso: Isolate): nat {
    if iso.Stopping? then StopHolding(iso.stop) else 0
  }

  function SupHolding(sup: Supervisor): nat {
    if sup.Stopping? then StopHolding(sup.stop) else One(sup.ShuttingDown?)
  }

  function PollHolding(health: Health): nat {
    One(health.Deciding? || health.Polling? || health.Sleeping? || health.Detaching?)
  }

  /** The threads now attached: helpers that have reported and not yet detached, assign calls,
      the unregistering or shutting-down helper, and the poller's. */
  function Holding(x: Embedded): nat {
    x.sig.toDetach + |AttachedTasks(x.tasks)| + IsoHolding(x.iso) + SupHolding(x.sup) + PollHolding(x.health)
  }

  function Balance(c: Option<Native>): int {
    if c.Some? && c.value.Attach? && c.value.ok then 1 else if c.Some? && c.value.Detach? then -1 else 0
  }

  lemma AttachedMoved(tasks: map<nat, Task>, id: nat, next: Option<Task>)
    ensures AttachedTasks(Moved(tasks, id, next)) ==
      if next.Some? && Holds(next.value) then AttachedTasks(tasks) - {id} + {id} else AttachedTasks(tasks) - {id}
  {
  }

  lemma AttachedAfter(tasks: map<nat, Task>, id: nat, next: Option<Task>)
    requires id in tasks
    ensures |AttachedTasks(Moved(tasks, id, next))| + One(Holds(tasks[id]))
         == |AttachedTasks(tasks)| + One(next.Some? && Holds(next.value))
  {
    assert id in AttachedTasks(tasks) <==> Holds(tasks[id]);
    AttachedMoved(tasks, id, next);
    hide AttachedTasks, Moved;
  }

  lemma TaskHolds(x: Embedded, id: nat, ok: bool)
    requires id in x.tasks
    ensures |AttachedTasks(TaskMoves(x, id, ok).tasks)| + One(x.tasks[id].Calling?)
         == |AttachedTasks(x.tasks)| + One(x.tasks[id].Entered? && ok)
  {
    AttachedAfter(x.tasks, id, NextTask(x.gate, x.tasks[id], ok));
    hide AttachedTasks;
    assert TaskMoves(x, id, ok).tasks == Moved(x.tasks, id, NextTask(x.gate, x.tasks[id], ok));
    hide Moved;
  }

  lemma StopHolds(x: Embedded, stop: Stop, ok: bool)
    ensures var (y, next) := StopStep(x, stop, ok);
      && y.sig.toDetach + (if next.Some? then StopHolding(next.value) else 0)
         == x.sig.toDetach + StopHolding(stop) + Balance(StopCall(stop, ok))
      && y.tasks == x.tasks && y.iso == x.iso && y.sup == x.sup && y.health == x.health
  {
  }

  lemma IsoHolds(x: Embedded, ok: bool)
    requires IsoEnabled(x, ok)
    ensures Holding(IsoStep(x, ok)) == Holding(x) + Balance(IsoCall(x, ok))
  {
    hide AttachedTasks, StopStep, StopCall, PollHolding, StopEnabled, CloseGate, Vacated, SupHolding;
    if x.iso.Stopping? {
      StopHolds(x, x.iso.stop, ok);
    } else if x.iso == Handing {
      hide IsoHolding;
      HandingHolds(x, ok);
    }
  }

  lemma HandingHolds(x: Embedded, ok: bool)
    requires x.iso == Handing && IsoEnabled(x, ok)
    ensures IsoHolding(IsoStep(x, ok).iso) == IsoHolding(x.iso) && SupHolding(IsoStep(x, ok).sup) == SupHolding(x.sup)
  {
  }

  lemma SupHolds(x: Embedded, pick: Pick)
    requires SupEnabled(x, pick) && (x.sup == Launching ==> x.health == Unstarted)
    ensures Holding(SupStep(x, pick)) == Holding(x) + Balance(SupCall(x, pick))
  {
    hide AttachedTasks, StopStep, StopCall, IsoHolding, StopEnabled, CloseGate;
    if x.sup.Stopping? { StopHolds(x, x.sup.stop, pick == Succeeds); }
  }

  lemma PollThread(x: Embedded, ok: bool)
    requires PollEnabled(x)
    ensures var y := PollStep(x, ok);
      && PollHolding(y.health) == PollHolding(x.health) + Balance(PollCall(x, ok))
      && y.tasks == x.tasks && y.iso == x.iso && y.sup == x.sup && y.sig.toDetach == x.sig.toDetach
  {
  }

  lemma PollHolds(x: Embedded, ok: bool)
    requires PollEnabled(x)
    ensures Holding(PollStep(x, ok)) == Holding(x) + Balance(PollCall(x, ok))
  {
    PollThread(x, ok);
    hide AttachedTasks, IsoHolding, SupHolding, PollHolding, PollStep, PollCall, Balance;
  }

  lemma OtherHolds(x: Embedded, e: Event)
    requires Enabled(x, e) && !e.Iso? && !e.Sup? && !e.Poll? && !e.TaskStep?
    ensures Holding(Next(x, e)) == Holding(x) + Balance(NativeCall(x, e))
  {
    assert AttachedTasks(Next(x, e).tasks) == AttachedTasks(x.tasks);
    hide AttachedTasks, IsoHolding, SupHolding, PollHolding;
  }

  lemma StepHolds(x: Embedded, f: Flags, e: Event)
    requires EmbeddedInv(x, f) && Enabled(x, e)
    ensures Holding(Next(x, e)) == Holding(x) + Balance(NativeCall(x, e))
  {
    assert x.sup == Launching ==> x.health == Unstarted;
    hide EmbeddedInv, AttachedTasks, IsoHolding, SupHolding, PollHolding;
    match e
    case Iso(ok) => IsoHolds(x, ok); hide IsoStep, IsoCall, Holding;
    case Sup(pick) => SupHolds(x, pick); hide SupStep, SupCall, Holding;
    case TaskStep(id, ok) => TaskHolds(x, id, ok);
    case Poll(ok) => PollHolds(x, ok); hide PollStep, PollCall, Holding;
    case _ => OtherHolds(x, e); hide Next, NativeCall, Holding;
  }

  /** No thread is lost: at every moment of every run, the threads attached so far are those
      detached so far and those now held. */
  lemma {:induction false} ThreadBalance(states: seq<Embedded>, events: seq<Event>, n: nat)
    requires Run(states, events) && n <= |events|
    ensures Attaches(Trace(states, events, n)) == Detaches(Trace(states, events, n)) + Holding(states[n])
  {
    hide Next, Enabled, EmbeddedInv, Happened, Lawful, Holding, NativeCall, Begun;
    if n == 0 {
      BegunHolds(states[0]);
    } else {
      ThreadBalance(states, events, n - 1);
      RunIsLawful(states, events, n - 1);
      var x, e, trace := states[n - 1], events[n - 1], Trace(states, events, n - 1);
      assert states[n] == Next(x, e);
      StepHolds(x, Happened(trace), e);
      if NativeCall(x, e).Some? {
        var call := NativeCall(x, e).value;
        assert (trace + [call])[..|trace|] == trace;
      } else {
        assert trace + [] == trace;
      }
    }
  }

  lemma BegunHolds(x: Embedded)
    requires Begun(x)
    ensures Holding(x) == 0
  {
  }

  /** At tear-down the attached threads are exactly the helpers that have reported and not yet
      detached: none is attached if and only if no helper is left. */
  lemma AttachedAtTearDown(states: seq<Embedded>, events: seq<Event>, n: nat)
    requires Run(states, events) && n < |events| && NativeCall(states[n], events[n]) == Some(TearDown)
    ensures Attaches(Trace(states, events, n)) - Detaches(Trace(states, events, n)) == states[n].sig.toDetach
  {
    ThreadBalance(states, events, n);
    TearDownIsAlone(states, events, n);
    RunIsLawful(states, events, n);
    TearDownCaller(states[n], events[n]);
    SupElsewhere(states[n], Happened(Trace(states, events, n)));
    assert AttachedTasks(states[n].tasks) == {};
    hide AttachedTasks, Run, Trace, Happened, Lawful, EmbeddedInv, NativeCall;
  }

  lemma SupElsewhere(x: Embedded, f: Flags)
    requires EmbeddedInv(x, f) && (x.iso == TearingDown || (x.iso == AwaitingRelease && x.sig.released))
    ensures !x.sup.Stopping? && x.sup != ShuttingDown
  {
  }

  // ---------------------------------------------------------------- a run that does all of it late

  datatype Film = Film(states: seq<Embedded>, events: seq<Event>, trace: seq<Native>) {
    ghost predicate Valid() {
      Run(states, events) && trace == Trace(states, events, |events|)
    }

    function Last(): Embedded
      requires states != []
    {
      states[|states| - 1]
    }
  }

  lemma {:induction false} TracePrefix(states: seq<Embedded>, events: seq<Event>, x: Embedded, e: Event, n: nat)
    requires n <= |events| < |states|
    ensures Trace(states + [x], events + [e], n) == Trace(states, events, n)
  {
    if n > 0 { TracePrefix(states, events, x, e, n - 1); }
  }

  lemma Plays(film: Film, e: Event) returns (next: Film)
    requires film.Valid() && film.states != [] && Enabled(film.Last(), e)
    ensures next.Valid() && next.states != [] && next.Last() == Next(film.Last(), e)
    ensures next.trace == film.trace + (if NativeCall(film.Last(), e).Some? then [NativeCall(film.Last(), e).value] else [])
  {
    hide Next, Enabled, Begun, NativeCall;
    var x := film.Last();
    next := Film(film.states + [Next(x, e)], film.events + [e],
                 film.trace + if NativeCall(x, e).Some? then [NativeCall(x, e).value] else []);
    TracePrefix(film.states, film.events, Next(x, e), e, |film.events|);
  }

  const IDLE := Signals(false, false, false, false, false, false, false, 0)

  function Opening(): Embedded {
    Embedded(Creating, Awaiting, Unstarted, Gate(true, 0, None), Nobody, false, map[], IDLE)
  }

  function Handed(): Embedded {
    Opening().(iso := Starting, sup := Launching, roots := This, activated := true)
  }

  function Stopping(): Embedded {
    Handed().(sup := Supervisor.Stopping(Gating), health := Health.Attaching, gate := Gate(false, 0, None),
              sig := IDLE.(canceled := true))
  }

  function Stopped(): Embedded {
    Stopping().(sup := CancellingHealth, roots := Nobody, sig := IDLE.(canceled := true, toDetach := 1))
  }

  function ShutDown(): Embedded {
    Stopped().(sup := JoiningRun, health := Done, sig := IDLE.(canceled := true, healthCancelled := true, toDetach := 2))
  }

  lemma ReachActivation() returns (film: Film)
    ensures film.Valid() && film.states != [] && film.Last() == Opening().(iso := Activating)
    ensures film.trace == [Create(true), Init(true)]
  {
    film := Film([Opening()], [], []);
    assert film.Valid();
    hide Run, Trace, SupStep, PollStep, TaskMoves, StopStep;
    film := Plays(film, Iso(true));
    film := Plays(film, Iso(true));
    film := Plays(film, Iso(true));
    film := Plays(film, Iso(true));
  }

  lemma ReachHandOver() returns (film: Film)
    ensures film.Valid() && film.states != [] && film.Last() == Handed()
    ensures film.trace == [Create(true), Init(true), Register(true)]
  {
    film := ReachActivation();
    hide Run, Trace, SupStep, PollStep, TaskMoves, StopStep;
    film := Plays(film, Iso(true));
    film := Plays(film, Iso(true));
    film := Plays(film, Iso(true));
    film := Plays(film, Iso(true));
    film := Plays(film, Iso(true));
  }

  lemma ReachStopping(was: Film) returns (film: Film)
    requires was.Valid() && was.states != [] && was.Last() == Handed()
    ensures film.Valid() && film.states != [] && film.Last() == Stopping() && film.trace == was.trace
  {
    hide Run, Trace, IsoStep, PollStep, TaskMoves;
    film := Plays(was, Sup(Succeeds));
    film := Plays(film, Cancel);
    film := Plays(film, Sup(Cancelled));
    film := Plays(film, Sup(Succeeds));
  }

  lemma ReachStopped(was: Film) returns (film: Film)
    requires was.Valid() && was.states != [] && was.Last() == Stopping()
    ensures film.Valid() && film.states != [] && film.Last() == Stopped()
    ensures film.trace == was.trace + [Attach(ForUnregister, true), Unregister]
  {
    hide Run, Trace, IsoStep, PollStep, TaskMoves;
    film := Plays(was, Sup(Succeeds));
    film := Plays(film, Sup(Succeeds));
    film := Plays(film, Sup(Succeeds));
    film := Plays(film, Sup(Succeeds));
    film := Plays(film, Sup(Succeeds));
    film := Plays(film, Sup(Succeeds));
  }

  lemma ReachShutDown(was: Film) returns (film: Film)
    requires was.Valid() && was.states != [] && was.Last() == Stopped()
    ensures film.Valid() && film.states != [] && film.Last() == ShutDown()
    ensures film.trace == was.trace + [Attach(ForStatus, false), Attach(ForShutdown, true), Shutdown]
  {
    hide Run, Trace, IsoStep, TaskMoves;
    film := Plays(was, Sup(Succeeds));
    film := Plays(film, Poll(false));
    film := Plays(film, Sup(Succeeds));
    film := Plays(film, Sup(Succeeds));
    film := Plays(film, Sup(Succeeds));
  }

  lemma RunLate(was: Film) returns (film: Film)
    requires was.Valid() && was.states != [] && was.Last() == ShutDown()
    ensures film.Valid() && film.trace == was.trace + [RunCalled, RunReturned, TearDown, Detach]
  {
    hide Run, Trace, PollStep, TaskMoves, StopStep;
    film := Plays(was, Iso(true));
    film := Plays(film, Iso(true));
    film := Plays(film, Sup(Succeeds));
    film := Plays(film, Sup(Succeeds));
    film := TearDownThenDetach(film);
  }

  lemma TearDownThenDetach(was: Film) returns (film: Film)
    requires was.Valid() && was.states != [] && was.Last().iso == AwaitingRelease && was.Last().sig.released
    requires was.Last().sig.toDetach > 0
    ensures film.Valid() && film.trace == was.trace + [TearDown, Detach]
  {
    hide Run, Trace, SupStep, PollStep, TaskMoves, StopStep;
    film := Plays(was, Iso(true));
    film := Plays(film, HelperDetaches);
  }

  /** In this run the isolate goroutine stands still between hand-over and run while the supervisor
      unregisters and shuts down; then run is called, and returns, and after tear-down the thread
      that unregistered detaches. */
  lemma RunAfterShutdown() returns (states: seq<Embedded>, events: seq<Event>)
    ensures Run(states, events)
    ensures Trace(states, events, |events|) ==
      [Create(true), Init(true), Register(true), Attach(ForUnregister, true), Unregister, Attach(ForStatus, false),
       Attach(ForShutdown, true), Shutdown, RunCalled, RunReturned, TearDown, Detach]
  {
    hide Run, Trace, PollStep, TaskMoves;
    var film := ReachHandOver();
    film := ReachStopping(film);
    film := ReachStopped(film);
    film := ReachShutDown(film);
    film := RunLate(film);
    states, events := film.states, film.events;
  }
}
