/** Every interleaving of embedded mode obeys the discipline on native calls, and the generation's
    gate is a barrier. */
module EmbeddedRuns {
  import opened Abi
  import opened CallbackGeneration
  import opened EmbeddedSystem
  import opened NativeDiscipline

  // ---------------------------------------------------------------- the invariant

  function StopRank(s: Stop): nat {
    match s
    case Gating => 0
    case Deactivating => 1
    case Attaching => 2
    case Unregistering => 3
    case Draining => 4
    case Clearing => 5
  }

  /** How far the supervisor has come with an isolate; 0 without one. */
  function Rank(s: Supervisor): nat {
    match s
    case Awaiting => 0
    case Left => 0
    case Launching => 1
    case Watching => 2
    case ClosingGate => 3
    case Stopping(stop) => 4 + StopRank(stop)
    case CancellingHealth => 10
    case JoiningHealth => 11
    case Shutting => 12
    case ShuttingDown => 13
    case JoiningRun => 14
    case Releasing => 15
    case JoiningTearDown => 16
    case Finished => 17
  }

  /** No callback or assign call of the generation is in flight, and none can ever enter. */
  predicate Quiet(gate: Gate, roots: Published) {
    !gate.accepting && gate.inFlight == 0 && roots != This
  }

  predicate StopInv(f: Flags, gate: Gate, stop: Stop) {
    && (f.unregistered <==> StopRank(stop) >= 4)
    && (StopRank(stop) >= 1 ==> !gate.accepting)
    && (StopRank(stop) >= 5 ==> gate.inFlight == 0)
  }

  predicate HandedOver(iso: Isolate) {
    iso == Starting || iso == Running || iso == AwaitingRelease || iso == Ended
  }

  const CREATED := NOTHING.(create := Successful)
  const INITIALISED := CREATED.(init := Successful)
  const REGISTERED := INITIALISED.(register := Successful)

  predicate Inactive(iso: Isolate) {
    iso == Creating || iso == Created || iso == Initialising || iso == Initialised || iso == Activating
  }

  /** The isolate goroutine before it has handed over, or instead. */
  predicate EarlyInv(iso: Isolate, activated: bool, gate: Gate, roots: Published, f: Flags) {
    && (Inactive(iso) ==> !activated)
    && (!Inactive(iso) && iso != TearingDown && iso != Failed ==> activated)
    && match iso
       case Creating => f == NOTHING
       case Created => f == CREATED
       case Initialising => f == CREATED
       case Initialised => f == INITIALISED
       case Activating => f == INITIALISED
       case Publishing => f == INITIALISED && roots != This
       case Losing(abort) =>
         && f == INITIALISED && roots != This && (abort == Closing || abort == Emptying || abort == Retiring)
         && (abort != Closing ==> !gate.accepting) && (abort == Retiring ==> gate.inFlight == 0)
       case Registering => f == INITIALISED
       case Unwinding(abort) =>
         && f == INITIALISED.(register := Unsuccessful, unregistered := abort != Undoing)
         && (abort != Undoing && abort != Closing ==> !gate.accepting)
         && (abort == Retiring || abort == Vacating ==> gate.inFlight == 0)
       case Registered => f == REGISTERED
       case Handing => f == REGISTERED
       case Stopping(stop) => f == REGISTERED.(unregistered := f.unregistered) && StopInv(f, gate, stop)
       case TearingDown => f.create.Successful? && !f.torn && OutInv(activated, gate, roots, f)
       case Failed => f.torn == f.create.Successful? && OutInv(activated, gate, roots, f)
       case _ => true
  }

  /** On the way out without a hand-over. */
  predicate OutInv(activated: bool, gate: Gate, roots: Published, f: Flags) {
    && !f.shut && f.run.NotRun? && (!f.register.Untried? ==> f.unregistered)
    && (activated ==> Quiet(gate, roots))
  }

  /** After the hand-over. */
  predicate LateInv(iso: Isolate, sup: Supervisor, gate: Gate, roots: Published, f: Flags) {
    && f.register.Successful?
    && (f.run.InRun? <==> iso == Running) && (f.run.HasRun? <==> iso == AwaitingRelease || iso == Ended)
    && (f.torn <==> iso == Ended) && (iso == Ended ==> Rank(sup) >= 16)
    && (f.unregistered <==> Rank(sup) >= 8)
    && (Rank(sup) >= 4 ==> !gate.accepting)
    && (Rank(sup) >= 9 ==> gate.inFlight == 0)
    && (Rank(sup) >= 10 ==> Quiet(gate, roots))
    && (f.shut ==> Rank(sup) >= 14)
    && (Rank(sup) >= 15 ==> f.run.HasRun?)
    && (sup == Finished ==> iso == Ended)
  }

  /** The health poller and the channels. */
  predicate SignalsInv(x: Embedded, ran: bool) {
    && (HandedOver(x.iso) <==> Rank(x.sup) > 0)
    && (x.sig.released <==> Rank(x.sup) >= 16)
    && (x.sig.runDone || x.sig.runExited ==> ran)
    && (x.health == Unstarted <==> Rank(x.sup) <= 1)
    && (Rank(x.sup) >= 12 ==> x.health == Done)
    && (x.sig.healthy ==> x.health == Detaching || x.health == Done)
    && (x.sup == Finished ==> !x.sig.healthy)
  }

  function Flying(tasks: map<nat, Task>): set<nat> {
    set id | id in tasks && InFlight(tasks[id])
  }

  predicate TasksInv(activated: bool, gate: Gate, roots: Published, tasks: map<nat, Task>) {
    && gate.inFlight == |Flying(tasks)|
    && (!activated ==> tasks == map[] && roots != This)
    && (gate.fatal.Some? ==> !gate.accepting)
  }

  /** The isolate goroutine and the supervisor. */
  predicate MainInv(iso: Isolate, sup: Supervisor, activated: bool, gate: Gate, roots: Published, f: Flags) {
    if HandedOver(iso) then activated && LateInv(iso, sup, gate, roots, f) else EarlyInv(iso, activated, gate, roots, f)
  }

  /** `f` is what has been called so far. */
  predicate EmbeddedInv(x: Embedded, f: Flags) {
    && Sane(f)
    && MainInv(x.iso, x.sup, x.activated, x.gate, x.roots, f)
    && SignalsInv(x, f.run.HasRun?)
    && TasksInv(x.activated, x.gate, x.roots, x.tasks)
  }

  function Now(f: Flags, c: Option<Native>): Flags {
    if c.Some? then After(f, c.value) else f
  }

  /** The step's native call is allowed, and the invariant holds again. */
  predicate Keeps(x: Embedded, f: Flags, e: Event) {
    && (NativeCall(x, e).Some? ==> Allowed(f, NativeCall(x, e).value))
    && EmbeddedInv(Next(x, e), Now(f, NativeCall(x, e)))
  }

  // ---------------------------------------------------------------- process by process

  /** Emptying the gate and leaving the roots disturbs neither the isolate goroutine nor the
      supervisor. */
  lemma MainStands(iso: Isolate, sup: Supervisor, activated: bool, gate: Gate, roots: Published, f: Flags, gate': Gate, roots': Published)
    requires MainInv(iso, sup, activated, gate, roots, f)
    requires gate'.accepting ==> gate.accepting
    requires !gate.accepting ==> gate'.inFlight <= gate.inFlight
    requires roots' == This ==> roots == This
    ensures MainInv(iso, sup, activated, gate', roots', f)
  {
  }

  /** While a task is in flight the isolate is there: not torn down, not shut down. */
  lemma FlyingAllows(x: Embedded, f: Flags, id: nat)
    requires EmbeddedInv(x, f) && id in x.tasks && InFlight(x.tasks[id])
    ensures x.gate.inFlight > 0 && f.create.Successful? && !f.torn && !f.shut
  {
    assert id in Flying(x.tasks);
  }

  predicate MainReady(x: Embedded, f: Flags, ok: bool) {
    && Sane(f) && MainInv(x.iso, x.sup, x.activated, x.gate, x.roots, f) && IsoEnabled(x, ok)
    && (HandedOver(x.iso) <==> Rank(x.sup) > 0) && (x.sig.released <==> Rank(x.sup) >= 16)
    && (!x.activated ==> x.gate.inFlight == 0 && x.roots != This)
  }

  predicate MainDone(x: Embedded, f: Flags, ok: bool) {
    var y, c := IsoStep(x, ok), IsoCall(x, ok);
    && (c.Some? ==> Allowed(f, c.value))
    && MainInv(y.iso, y.sup, y.activated, y.gate, y.roots, Now(f, c))
  }

  lemma IsoInactive(x: Embedded, f: Flags, ok: bool)
    requires MainReady(x, f, ok) && (Inactive(x.iso))
    ensures MainDone(x, f, ok)
  {
    hide LateInv, Rank;
  }

  lemma IsoPublishing(x: Embedded, f: Flags, ok: bool)
    requires MainReady(x, f, ok) && (x.iso == Publishing || x.iso.Losing?)
    ensures MainDone(x, f, ok)
  {
    hide LateInv, Rank;
  }

  lemma IsoRegistering(x: Embedded, f: Flags, ok: bool)
    requires MainReady(x, f, ok) && x.iso == Registering
    ensures MainDone(x, f, ok)
  {
    hide LateInv, Rank;
  }

  lemma IsoUnwinding(x: Embedded, f: Flags, ok: bool)
    requires MainReady(x, f, ok) && x.iso.Unwinding?
    ensures MainDone(x, f, ok)
  {
    hide LateInv, Rank, StopStep, StopCall, Sane, StopInv;
  }

  lemma IsoRegistered(x: Embedded, f: Flags, ok: bool)
    requires MainReady(x, f, ok) && x.iso == Registered
    ensures MainDone(x, f, ok)
  {
    hide LateInv, Rank;
  }

  lemma IsoStopping(x: Embedded, f: Flags, ok: bool)
    requires MainReady(x, f, ok) && x.iso.Stopping?
    ensures MainDone(x, f, ok)
  {
    hide LateInv, Rank;
  }

  lemma IsoHanding(x: Embedded, f: Flags, ok: bool)
    requires MainReady(x, f, ok) && x.iso == Handing
    ensures MainDone(x, f, ok)
  {
  }

  lemma IsoTearingDown(x: Embedded, f: Flags, ok: bool)
    requires MainReady(x, f, ok) && (x.iso == TearingDown || x.iso == Failed)
    ensures MainDone(x, f, ok)
  {
    hide LateInv, Rank;
  }

  lemma IsoRunning(x: Embedded, f: Flags, ok: bool)
    requires MainReady(x, f, ok) && (HandedOver(x.iso))
    ensures MainDone(x, f, ok)
  {
    hide EarlyInv;
  }

  lemma IsoMain(x: Embedded, f: Flags, ok: bool)
    requires MainReady(x, f, ok)
    ensures MainDone(x, f, ok)
  {
    hide MainReady, MainDone;
    match x.iso
    case Publishing => IsoPublishing(x, f, ok);
    case Losing(_) => IsoPublishing(x, f, ok);
    case Registering => IsoRegistering(x, f, ok);
    case Unwinding(_) => IsoUnwinding(x, f, ok);
    case Registered => IsoRegistered(x, f, ok);
    case Stopping(_) => IsoStopping(x, f, ok);
    case Handing => IsoHanding(x, f, ok);
    case TearingDown => IsoTearingDown(x, f, ok);
    case Failed => IsoTearingDown(x, f, ok);
    case _ => if Inactive(x.iso) { IsoInactive(x, f, ok); } else { IsoRunning(x, f, ok); }
  }

  /** What the isolate goroutine's steps do to everyone else's state. */
  predicate Touches(x: Embedded, y: Embedded, ok: bool) {
    var handing := x.iso == Handing && ok;
    && y.health == x.health && y.sup == (if handing then Launching else x.sup)
    && y.sig.released == x.sig.released && y.sig.healthy == x.sig.healthy && y.sig.runExited == x.sig.runExited
    && y.sig.runDone == (x.sig.runDone || x.iso == Running)
    && (HandedOver(y.iso) <==> handing || HandedOver(x.iso))
  }

  lemma StopTouches(x: Embedded, ok: bool)
    requires x.iso.Stopping?
    ensures Touches(x, IsoStep(x, ok), ok)
  {
  }

  lemma MoveTouches(x: Embedded, ok: bool)
    requires IsoEnabled(x, ok) && !x.iso.Stopping?
    ensures Touches(x, IsoStep(x, ok), ok)
  {
    hide IsoStep, IsoEnabled, Touches;
    if x.iso.Losing? || x.iso.Unwinding? { AbortTouches(x, ok); } else { GoingTouches(x, ok); }
  }

  lemma GoingTouches(x: Embedded, ok: bool)
    requires IsoEnabled(x, ok) && !x.iso.Stopping? && !x.iso.Losing? && !x.iso.Unwinding?
    ensures Touches(x, IsoStep(x, ok), ok)
  {
    hide StopStep, StopEnabled, CloseGate, Vacated;
  }

  lemma AbortTouches(x: Embedded, ok: bool)
    requires x.iso.Losing? || x.iso.Unwinding?
    ensures Touches(x, IsoStep(x, ok), ok)
  {
    hide StopStep, CloseGate, Vacated;
  }

  lemma IsoReturns(x: Embedded, ok: bool)
    ensures Returns(IsoCall(x, ok)) <==> x.iso == Running
  {
  }

  predicate Returns(c: Option<Native>) {
    c.Some? && c.value.RunReturned?
  }

  lemma NowRan(f: Flags, c: Option<Native>)
    requires c.Some? ==> Allowed(f, c.value)
    ensures Now(f, c).run.HasRun? <==> f.run.HasRun? || Returns(c)
  {
  }

  lemma IsoSignals(x: Embedded, f: Flags, ok: bool)
    requires SignalsInv(x, f.run.HasRun?) && IsoEnabled(x, ok)
    requires IsoCall(x, ok).Some? ==> Allowed(f, IsoCall(x, ok).value)
    ensures SignalsInv(IsoStep(x, ok), Now(f, IsoCall(x, ok)).run.HasRun?)
  {
    if x.iso.Stopping? { StopTouches(x, ok); } else { MoveTouches(x, ok); }
    IsoReturns(x, ok);
    NowRan(f, IsoCall(x, ok));
    assert x.iso == Handing && ok ==> x.sup == Awaiting;
    hide IsoStep, IsoCall, HandedOver, IsoEnabled, Now;
  }

  lemma IsoTasks(x: Embedded, f: Flags, ok: bool)
    requires EmbeddedInv(x, f)
    ensures var y := IsoStep(x, ok); TasksInv(y.activated, y.gate, y.roots, y.tasks)
  {
    hide Flying, SignalsInv, LateInv, Rank;
  }

  lemma IsoKeeps(x: Embedded, f: Flags, ok: bool)
    requires EmbeddedInv(x, f) && Enabled(x, Iso(ok))
    ensures Keeps(x, f, Iso(ok))
  {
    IsoReady(x, f, ok);
    IsoMain(x, f, ok);
    if IsoCall(x, ok).Some? { SaneAfter(f, IsoCall(x, ok).value); }
    IsoSignals(x, f, ok);
    IsoTasks(x, f, ok);
    hide MainInv, SignalsInv, TasksInv, Sane, Allowed, IsoStep, IsoCall, After, IsoEnabled;
  }

  lemma IsoReady(x: Embedded, f: Flags, ok: bool)
    requires EmbeddedInv(x, f) && Enabled(x, Iso(ok))
    ensures MainReady(x, f, ok)
  {
    assert x.tasks == map[] ==> Flying(x.tasks) == {};
    hide MainInv, IsoEnabled;
  }

  lemma SupMain(x: Embedded, f: Flags, pick: Pick)
    requires EmbeddedInv(x, f) && Enabled(x, Sup(pick))
    ensures var y, c := SupStep(x, pick), SupCall(x, pick);
      && (c.Some? ==> Allowed(f, c.value))
      && MainInv(y.iso, y.sup, y.activated, y.gate, y.roots, Now(f, c))
  {
    hide SupStep, SupCall, EmbeddedInv, MainInv, Allowed, After, SupEnabled;
    if x.sup.Stopping? {
      SupStopping(x, f, pick);
    } else if x.sup == Shutting || x.sup == ShuttingDown {
      SupShutting(x, f, pick);
    } else {
      SupGoing(x, f, pick);
    }
  }

  lemma SupShutting(x: Embedded, f: Flags, pick: Pick)
    requires EmbeddedInv(x, f) && (x.sup == Shutting || x.sup == ShuttingDown)
    ensures var y, c := SupStep(x, pick), SupCall(x, pick);
      && (c.Some? ==> Allowed(f, c.value))
      && MainInv(y.iso, y.sup, y.activated, y.gate, y.roots, Now(f, c))
  {
    hide Flying, EarlyInv, TasksInv, StopStep, StopCall;
  }

  lemma SupGoing(x: Embedded, f: Flags, pick: Pick)
    requires EmbeddedInv(x, f) && Enabled(x, Sup(pick)) && !x.sup.Stopping? && x.sup != Shutting && x.sup != ShuttingDown
    ensures SupCall(x, pick).None?
    ensures var y := SupStep(x, pick); MainInv(y.iso, y.sup, y.activated, y.gate, y.roots, f)
  {
    hide Flying, EarlyInv, TasksInv, StopStep, StopCall, Sane;
  }

  lemma SupStopping(x: Embedded, f: Flags, pick: Pick)
    requires EmbeddedInv(x, f) && Enabled(x, Sup(pick)) && x.sup.Stopping?
    ensures var y, c := SupStep(x, pick), SupCall(x, pick);
      && (c.Some? ==> Allowed(f, c.value))
      && MainInv(y.iso, y.sup, y.activated, y.gate, y.roots, Now(f, c))
  {
    hide Flying, EarlyInv, TasksInv;
  }

  lemma SupSignals(x: Embedded, ran: bool, pick: Pick)
    requires SignalsInv(x, ran) && SupEnabled(x, pick)
    ensures SignalsInv(SupStep(x, pick), ran)
  {
    if x.sup.Stopping? {
      StopLeaves(x, x.sup.stop, pick == Succeeds);
      hide HandedOver, StopStep, StopEnabled;
    } else {
      GoingSignals(x, ran, pick);
    }
  }

  lemma GoingSignals(x: Embedded, ran: bool, pick: Pick)
    requires SignalsInv(x, ran) && SupEnabled(x, pick) && !x.sup.Stopping?
    ensures SignalsInv(SupStep(x, pick), ran)
  {
    hide HandedOver, StopStep, StopEnabled, CloseGate;
    if !x.sup.Launching? && !x.sup.Watching? && !x.sup.ClosingGate? && !x.sup.Awaiting? { EndingSignals(x, ran, pick); }
  }

  lemma EndingSignals(x: Embedded, ran: bool, pick: Pick)
    requires SignalsInv(x, ran) && SupEnabled(x, pick)
    requires !x.sup.Stopping? && !x.sup.Launching? && !x.sup.Watching? && !x.sup.ClosingGate? && !x.sup.Awaiting?
    ensures SignalsInv(SupStep(x, pick), ran)
  {
    hide HandedOver, StopStep, StopEnabled, CloseGate, StopRank;
  }

  /** What a step of the stop procedure leaves alone. */
  lemma StopLeaves(x: Embedded, stop: Stop, ok: bool)
    ensures var y := StopStep(x, stop, ok).0;
      && y.iso == x.iso && y.health == x.health
      && y.sig.released == x.sig.released && y.sig.healthy == x.sig.healthy
      && y.sig.runDone == x.sig.runDone && y.sig.runExited == x.sig.runExited
  {
    hide CloseGate, Vacated;
  }

  lemma SupTasks(x: Embedded, f: Flags, pick: Pick)
    requires EmbeddedInv(x, f)
    ensures var y := SupStep(x, pick); TasksInv(y.activated, y.gate, y.roots, y.tasks)
  {
    hide Flying, MainInv, SignalsInv;
  }

  lemma SupKeeps(x: Embedded, f: Flags, pick: Pick)
    requires EmbeddedInv(x, f) && Enabled(x, Sup(pick))
    ensures Keeps(x, f, Sup(pick))
  {
    SupMain(x, f, pick);
    SupSignals(x, f.run.HasRun?, pick);
    NowRan(f, SupCall(x, pick));
    SupTasks(x, f, pick);
    if SupCall(x, pick).Some? { SaneAfter(f, SupCall(x, pick).value); }
    hide MainInv, SignalsInv, TasksInv, Sane, Allowed, SupStep, SupCall, After, SupEnabled;
  }

  lemma PollKeeps(x: Embedded, f: Flags, ok: bool)
    requires EmbeddedInv(x, f) && Enabled(x, Poll(ok))
    ensures Keeps(x, f, Poll(ok))
  {
    hide Flying, EarlyInv;
  }

  function Moved(tasks: map<nat, Task>, id: nat, next: Option<Task>): map<nat, Task> {
    if next.Some? then tasks[id := next.value] else tasks - {id}
  }

  lemma FlyingWith(tasks: map<nat, Task>, id: nat, t: Task)
    requires InFlight(t)
    ensures Flying(tasks[id := t]) == Flying(tasks) + {id}
  {
  }

  lemma FlyingWithout(tasks: map<nat, Task>, id: nat, next: Option<Task>)
    requires next.Some? ==> !InFlight(next.value)
    ensures Flying(Moved(tasks, id, next)) == Flying(tasks) - {id}
  {
  }

  lemma FlyingAfter(tasks: map<nat, Task>, id: nat, next: Option<Task>)
    requires id in tasks
    ensures |Flying(Moved(tasks, id, next))|
         == |Flying(tasks)| - (if InFlight(tasks[id]) then 1 else 0) + (if next.Some? && InFlight(next.value) then 1 else 0)
  {
    assert id in Flying(tasks) <==> InFlight(tasks[id]);
    if next.Some? && InFlight(next.value) { FlyingWith(tasks, id, next.value); } else { FlyingWithout(tasks, id, next); }
    hide Flying;
  }

  /** A task's step changes the count and the table together. */
  lemma TaskMovesTasks(x: Embedded, id: nat, ok: bool)
    requires id in x.tasks && TasksInv(x.activated, x.gate, x.roots, x.tasks)
    ensures var y := TaskMoves(x, id, ok); TasksInv(y.activated, y.gate, y.roots, y.tasks)
  {
    hide Flying;
    FlyingAfter(x.tasks, id, NextTask(x.gate, x.tasks[id], ok));
    assert TaskMoves(x, id, ok).tasks == Moved(x.tasks, id, NextTask(x.gate, x.tasks[id], ok));
    hide Moved;
  }

  lemma TaskAllowed(f: Flags, t: Task, ok: bool)
    requires InFlight(t) ==> f.create.Successful? && !f.torn && !f.shut
    ensures TaskCall(t, ok).Some? ==> Allowed(f, TaskCall(t, ok).value)
    ensures Now(f, TaskCall(t, ok)) == f
  {
  }

  lemma TaskGateShrinks(g: Gate, t: Task, ok: bool)
    ensures var after := TaskGate(g, t, ok);
      after.accepting == g.accepting && (!g.accepting ==> after.inFlight <= g.inFlight)
  {
  }

  lemma TaskKeeps(x: Embedded, f: Flags, id: nat, ok: bool)
    requires EmbeddedInv(x, f) && Enabled(x, TaskStep(id, ok))
    ensures Keeps(x, f, TaskStep(id, ok))
  {
    hide Flying, MainInv, Sane, Rank, HandedOver;
    if InFlight(x.tasks[id]) { FlyingAllows(x, f, id); }
    TaskMovesTasks(x, id, ok);
    TaskAllowed(f, x.tasks[id], ok);
    TaskGateShrinks(x.gate, x.tasks[id], ok);
    hide TaskGate, NextTask, TaskCall, TasksInv, Now, Allowed, Rank, HandedOver;
    var y := TaskMoves(x, id, ok);
    MainStands(x.iso, x.sup, x.activated, x.gate, x.roots, f, y.gate, y.roots);
  }

  lemma OtherTasks(x: Embedded, e: Event)
    requires TasksInv(x.activated, x.gate, x.roots, x.tasks) && Enabled(x, e) && !e.Iso? && !e.Sup? && !e.Poll? && !e.TaskStep?
    ensures var y := Next(x, e); TasksInv(y.activated, y.gate, y.roots, y.tasks)
  {
    assert Flying(Next(x, e).tasks) == Flying(x.tasks);
    hide Flying;
  }

  lemma OtherKeeps(x: Embedded, f: Flags, e: Event)
    requires EmbeddedInv(x, f) && Enabled(x, e) && !e.Iso? && !e.Sup? && !e.Poll? && !e.TaskStep?
    ensures Keeps(x, f, e)
  {
    hide MainInv, Flying;
    OtherTasks(x, e);
    hide TasksInv;
    var y := Next(x, e);
    MainStands(x.iso, x.sup, x.activated, x.gate, x.roots, f, y.gate, y.roots);
  }

  lemma StepKeeps(x: Embedded, f: Flags, e: Event)
    requires EmbeddedInv(x, f) && Enabled(x, e)
    ensures Keeps(x, f, e)
  {
    hide EmbeddedInv, Keeps, Enabled;
    match e
    case Iso(ok) => IsoKeeps(x, f, ok);
    case Sup(pick) => SupKeeps(x, f, pick);
    case Poll(ok) => PollKeeps(x, f, ok);
    case TaskStep(id, ok) => TaskKeeps(x, f, id, ok);
    case _ => OtherKeeps(x, f, e);
  }

  // ---------------------------------------------------------------- whole runs

  /** In every run, whatever the interleaving and the failures, the trace of native calls is
      lawful. */
  lemma {:induction false} RunIsLawful(states: seq<Embedded>, events: seq<Event>, n: nat)
    requires Run(states, events) && n <= |events|
    ensures Lawful(Trace(states, events, n))
    ensures EmbeddedInv(states[n], Happened(Trace(states, events, n)))
  {
    assert Happened([]) == NOTHING && Lawful([]);
    hide EmbeddedInv, Next, Enabled, NativeCall, Happened, Lawful, Allowed;
    if n == 0 {
      BegunInv(states[0]);
    } else {
      RunIsLawful(states, events, n - 1);
      var x, e, trace := states[n - 1], events[n - 1], Trace(states, events, n - 1);
      var c := NativeCall(x, e);
      assert states[n] == Next(x, e);
      StepKeeps(x, Happened(trace), e);
      if c.Some? { Extended(trace, c.value); } else { assert trace + [] == trace; }
    }
  }

  lemma BegunInv(x: Embedded)
    requires Begun(x)
    ensures EmbeddedInv(x, NOTHING)
  {
    assert Flying(map[]) == {};
  }

  /** What that means for any call of any run. */
  lemma LifecycleOrder(states: seq<Embedded>, events: seq<Event>, n: nat, j: nat)
    requires Run(states, events) && n <= |events| && j < |Trace(states, events, n)|
    ensures var trace := Trace(states, events, n);
      && (trace[j].Init? ==> Create(true) in trace[..j])
      && (trace[j].Register? ==> Init(true) in trace[..j])
      && (trace[j].RunCalled? ==> Register(true) in trace[..j])
      && (trace[j].Shutdown? || (trace[j].TearDown? && (Register(true) in trace[..j] || Register(false) in trace[..j])) ==>
            UnregisterAttempted(trace[..j]))
      && (trace[j].TearDown? ==>
            forall m :: 0 <= m < j && trace[m].RunCalled? ==> exists k :: m < k < j && trace[k].RunReturned?)
      && ((exists m :: 0 <= m < j && trace[m].TearDown?) ==> trace[j].Detach?)
  {
    hide Lawful, EmbeddedInv, UnregisterAttempted;
    RunIsLawful(states, events, n);
    var trace := Trace(states, events, n);
    hide Trace;
    StartOrder(trace, j);
    if trace[j].Shutdown? || trace[j].TearDown? { UnregisterFirst(trace, j); }
    forall m | 0 <= m < j && trace[m].RunCalled? && trace[j].TearDown?
      ensures exists k :: m < k < j && trace[k].RunReturned?
    {
      RunReturnsFirst(trace, m, j);
    }
    if m :| 0 <= m < j && trace[m].TearDown? { NothingAfterTearDown(trace, m, j); }
  }

  function TearDowns(trace: seq<Native>): nat {
    if trace == [] then 0 else TearDowns(trace[..|trace| - 1]) + if trace[|trace| - 1].TearDown? then 1 else 0
  }

  lemma {:induction false} TearDownsCounted(trace: seq<Native>)
    requires Lawful(trace)
    ensures TearDowns(trace) == if Happened(trace).torn then 1 else 0
  {
    if trace != [] {
      TearDownsCounted(trace[..|trace| - 1]);
    }
  }

  /** When the isolate goroutine has finished, it has torn down an isolate it created exactly once,
      and none if creation failed. */
  lemma TornDownExactlyOnce(states: seq<Embedded>, events: seq<Event>, n: nat)
    requires Run(states, events) && n <= |events| && (states[n].iso == Failed || states[n].iso == Ended)
    ensures TearDowns(Trace(states, events, n)) == if Create(true) in Trace(states, events, n) then 1 else 0
  {
    hide Lawful, Happened, EmbeddedInv, TearDowns;
    RunIsLawful(states, events, n);
    var trace := Trace(states, events, n);
    hide Run, Trace;
    TearDownsCounted(trace);
    HappenedMeans(trace);
    FinishedTorn(states[n], Happened(trace));
    hide UnregisterAttempted;
  }

  lemma FinishedTorn(x: Embedded, f: Flags)
    requires EmbeddedInv(x, f) && (x.iso == Failed || x.iso == Ended)
    ensures f.torn == f.create.Successful?
  {
    hide TasksInv, SignalsInv, Rank;
  }

  /** A tear-down finds no other native call under way: the health poller is finished or was never
      started, no assign call is inside native code, and run is not running. */
  lemma TearDownIsAlone(states: seq<Embedded>, events: seq<Event>, n: nat)
    requires Run(states, events) && n < |events| && NativeCall(states[n], events[n]) == Some(TearDown)
    ensures states[n].health == Done || states[n].health == Unstarted
    ensures states[n].iso != Running
    ensures forall id :: id in states[n].tasks ==> !InFlight(states[n].tasks[id])
  {
    hide Happened, Lawful, Trace;
    RunIsLawful(states, events, n);
    var x := states[n];
    TearDownCaller(x, events[n]);
    NothingFlies(x, Happened(Trace(states, events, n)));
  }

  lemma TearDownCaller(x: Embedded, e: Event)
    requires NativeCall(x, e) == Some(TearDown) && Enabled(x, e)
    ensures x.iso == TearingDown || (x.iso == AwaitingRelease && x.sig.released)
  {
  }

  lemma NothingFlies(x: Embedded, f: Flags)
    requires EmbeddedInv(x, f) && (x.iso == TearingDown || (x.iso == AwaitingRelease && x.sig.released))
    ensures x.health == Done || x.health == Unstarted
    ensures forall id :: id in x.tasks ==> !InFlight(x.tasks[id])
  {
    assert x.gate.inFlight == 0 ==> Flying(x.tasks) == {};
    forall id | id in x.tasks ensures !InFlight(x.tasks[id]) { assert id !in Flying(x.tasks); }
  }

  // ---------------------------------------------------------------- the drain barrier

  /** stopIngressGeneration, or a failing startIngressGeneration, has returned. */
  predicate StopReturned(x: Embedded) {
    Rank(x.sup) >= 10 || ((x.iso == TearingDown || x.iso == Failed) && x.activated)
  }

  /** After the gate has closed it stays closed and the in-flight count never rises. */
  lemma GateOnlyDrains(x: Embedded, e: Event)
    requires Enabled(x, e) && !x.gate.accepting
    ensures !Next(x, e).gate.accepting && Next(x, e).gate.inFlight <= x.gate.inFlight
  {
  }

  lemma StopReturnedStays(x: Embedded, e: Event)
    requires Enabled(x, e) && StopReturned(x)
    ensures StopReturned(Next(x, e))
  {
    hide TaskGate, NextTask, StopEnabled;
    if !e.Iso? && !e.Sup? { hide IsoStep, SupStep; }
  }

  /** From the moment stopIngressGeneration returns, in every later state of every run, the gate is
      closed, nothing of the generation is in flight, and the roots do not publish it; so a
      callback that loaded the pointer earlier finds the gate closed and leaves. */
  lemma {:induction false} DrainBarrier(states: seq<Embedded>, events: seq<Event>, t: nat, u: nat)
    requires Run(states, events) && t <= u <= |events| && StopReturned(states[t])
    ensures StopReturned(states[u]) && Quiet(states[u].gate, states[u].roots)
    ensures forall id :: id in states[u].tasks ==> states[u].tasks[id] == Called || states[u].tasks[id] == Loaded
    ensures u < |events| && events[u].TaskStep? ==> states[u + 1].tasks == states[u].tasks - {events[u].id}
    decreases u
  {
    hide EmbeddedInv, Next, Enabled, Happened, Lawful, StopReturned, Quiet;
    if t < u {
      DrainBarrier(states, events, t, u - 1);
      assert states[u] == Next(states[u - 1], events[u - 1]);
      StopReturnedStays(states[u - 1], events[u - 1]);
    }
    RunIsLawful(states, events, u);
    StoppedIsQuiet(states[u], Happened(Trace(states, events, u)));
    if u < |events| && events[u].TaskStep? {
      assert states[u + 1] == Next(states[u], events[u]) && Enabled(states[u], events[u]);
      LatecomerLeaves(states[u], events[u]);
    }
  }

  lemma StoppedIsQuiet(x: Embedded, f: Flags)
    requires EmbeddedInv(x, f) && StopReturned(x)
    ensures Quiet(x.gate, x.roots)
    ensures forall id :: id in x.tasks ==> x.tasks[id] == Called || x.tasks[id] == Loaded
  {
    assert x.gate.inFlight == 0 ==> Flying(x.tasks) == {};
    forall id | id in x.tasks ensures !InFlight(x.tasks[id]) { assert id !in Flying(x.tasks); }
  }

  lemma LatecomerLeaves(x: Embedded, e: Event)
    requires e.TaskStep? && Enabled(x, e) && Quiet(x.gate, x.roots)
    requires forall id :: id in x.tasks ==> x.tasks[id] == Called || x.tasks[id] == Loaded
    ensures Next(x, e).tasks == x.tasks - {e.id}
  {
  }

  /** The health flag is down, for good, once the supervisor has returned, and never goes up when
      no isolate was handed over. */
  lemma HealthyOnlyWhileSupervised(states: seq<Embedded>, events: seq<Event>, n: nat)
    requires Run(states, events) && n <= |events|
    ensures states[n].sup == Finished || states[n].sup == Left || states[n].sup == Awaiting ==> !states[n].sig.healthy
  {
    hide Lawful, Happened, MainInv, TasksInv;
    RunIsLawful(states, events, n);
  }
}
