/** Embedded mode as one transition system: the supervisor (embeddedRunner.run), the isolate
    goroutine, the health poller, assign calls and native callbacks, with cancellation and fatal
    failures at any moment, and other generations competing for the process roots. The native
    calls of a run form its trace; run, status and assign take time, the others are single steps. */
module EmbeddedSystem {
  import opened Abi
  import opened CallbackGeneration

  /** What a thread is attached for. */
  datatype Purpose = ForUnregister | ForShutdown | ForStatus | ForAssign

  /** A native call; `ok` is whether it returned its success code. */
  datatype Native =
    | Create(ok: bool)
    | Init(ok: bool)
    | Register(ok: bool)
    | Unregister
    | RunCalled
    | RunReturned
    | Attach(purpose: Purpose, ok: bool)
    | Detach
    | Status
    | Assign
    | Shutdown
    | TearDown

  /** stopIngressGeneration, step by step. */
  datatype Stop = Gating | Deactivating | Attaching | Unregistering | Draining | Clearing

  /** The two failure paths of startIngressGeneration: the roots are taken, or registration
      failed. */
  datatype Abort = Undoing | Closing | Emptying | Retiring | Vacating

  /** The isolate goroutine. Failed and Ended are its two ways out: before and after it handed the
      isolate over. */
  datatype Isolate =
    | Creating
    | Created
    | Initialising
    | Initialised
    | Activating
    | Publishing
    | Losing(abort: Abort)
    | Registering
    | Unwinding(abort: Abort)
    | Registered
    | Handing
    | Stopping(stop: Stop)
    | TearingDown
    | Failed
    | Starting
    | Running
    | AwaitingRelease
    | Ended

  /** The supervisor. Left is its way out without an isolate. */
  datatype Supervisor =
    | Awaiting
    | Left
    | Launching
    | Watching
    | ClosingGate
    | Stopping(stop: Stop)
    | CancellingHealth
    | JoiningHealth
    | Shutting
    | ShuttingDown
    | JoiningRun
    | Releasing
    | JoiningTearDown
    | Finished

  datatype Health = Unstarted | Attaching | Deciding | Polling | Sleeping | Detaching | Done

  /** An assign call or a native callback of this generation. Called and Loaded have not entered
      the gate. */
  datatype Task = Called | Entered | Attached | Calling | Loaded | Inside

  /** Which generation the roots publish. */
  datatype Published = Nobody | This | Another

  /** Contexts, the health flag, the channels createErr, runDone and tearDownStart, the
      supervisor's runExited, and how many helper threads have yet to detach. */
  datatype Signals = Signals(
    canceled: bool, healthCancelled: bool, healthy: bool, createErr: bool, runDone: bool, runExited: bool,
    released: bool, toDetach: nat)

  datatype Embedded = Embedded(
    iso: Isolate, sup: Supervisor, health: Health, gate: Gate, roots: Published, activated: bool, tasks: map<nat, Task>,
    sig: Signals)

  /** In Iso(ok), Health(ok) and TaskStep(_, ok), `ok` is the outcome of the native call, or which
      branch a select takes. */
  datatype Event =
    | Iso(ok: bool)
    | Sup(pick: Pick)
    | Poll(ok: bool)
    | BeginAssign(id: nat)
    | LoadRoots(id: nat)
    | TaskStep(id: nat, ok: bool)
    | Fatal(error: IngressError)
    | Cancel
    | RootsTaken
    | RootsFreed
    | HelperDetaches

  /** The ready case a supervisor's select takes, or the outcome of its native call. */
  datatype Pick = Received | Woken | Exited | Cancelled | Succeeds | Fails

  /** The roots after CompareAndSwap(this, nil). */
  function Vacated(roots: Published): Published {
    if roots == This then Nobody else roots
  }

  predicate InFlight(t: Task) {
    t != Called && t != Loaded
  }

  // ---------------------------------------------------------------- stopIngressGeneration

  predicate StopEnabled(x: Embedded, stop: Stop) {
    stop == Draining ==> x.gate.inFlight == 0
  }

  function StopCall(stop: Stop, ok: bool): Option<Native> {
    match stop
    case Attaching => Some(Attach(ForUnregister, ok))
    case Unregistering => Some(Unregister)
    case _ => None
  }

  /** One step of the procedure: what it does, and its next step, None at its end. */
  function StopStep(x: Embedded, stop: Stop, ok: bool): (Embedded, Option<Stop>) {
    match stop
    case Gating => (x.(gate := CloseGate(x.gate)), Some(Deactivating))
    case Deactivating => (x, Some(Stop.Attaching))
    case Attaching => (x, Some(if ok then Unregistering else Draining))
    case Unregistering => (x.(sig := x.sig.(toDetach := x.sig.toDetach + 1)), Some(Draining))
    case Draining => (x, Some(Clearing))
    case Clearing => (x.(roots := Vacated(x.roots)), None)
  }

  // ---------------------------------------------------------------- the isolate goroutine

  predicate IsoEnabled(x: Embedded, ok: bool) {
    match x.iso
    case Losing(abort) => abort == Emptying ==> x.gate.inFlight == 0
    case Unwinding(abort) => abort == Emptying ==> x.gate.inFlight == 0
    case Handing => if ok then x.sup == Awaiting else x.sig.canceled
    case Stopping(stop) => StopEnabled(x, stop)
    case Failed => false
    case AwaitingRelease => x.sig.released
    case Ended => false
    case _ => true
  }

  function IsoStep(x: Embedded, ok: bool): Embedded {
    match x.iso
    case Creating => x.(iso := if ok then Created else Failed, sig := x.sig.(createErr := !ok))
    case Created => x.(iso := if x.sig.canceled then TearingDown else Initialising)
    case Initialising => x.(iso := if ok then Initialised else TearingDown)
    case Initialised => x.(iso := if x.sig.canceled then TearingDown else Activating)
    case Activating => x.(activated := true, iso := Publishing)
    case Publishing => if x.roots == Nobody then x.(roots := This, iso := Registering) else x.(iso := Losing(Closing))
    case Losing(abort) =>
      (match abort
       case Closing => x.(gate := CloseGate(x.gate), iso := Losing(Emptying))
       case Emptying => x.(iso := Losing(Retiring))
       case _ => x.(iso := TearingDown))
    case Registering => x.(iso := if ok then Registered else Unwinding(Undoing))
    case Unwinding(abort) =>
      (match abort
       case Undoing => x.(iso := Unwinding(Closing))
       case Closing => x.(gate := CloseGate(x.gate), iso := Unwinding(Emptying))
       case Emptying => x.(iso := Unwinding(Retiring))
       case Retiring => x.(iso := Unwinding(Vacating))
       case Vacating => x.(roots := Vacated(x.roots), iso := TearingDown))
    case Registered => x.(iso := if x.sig.canceled then Isolate.Stopping(Gating) else Handing)
    case Handing => if ok then x.(iso := Starting, sup := Launching) else x.(iso := Isolate.Stopping(Gating))
    case Stopping(stop) =>
      var (y, next) := StopStep(x, stop, ok);
      y.(iso := if next.Some? then Isolate.Stopping(next.value) else TearingDown)
    case TearingDown => x.(iso := Failed, sig := x.sig.(createErr := true))
    case Starting => x.(iso := Running)
    case Running => x.(iso := AwaitingRelease, sig := x.sig.(runDone := true))
    case AwaitingRelease => x.(iso := Ended)
    case Failed => x
    case Ended => x
  }

  function IsoCall(x: Embedded, ok: bool): Option<Native> {
    match x.iso
    case Creating => Some(Create(ok))
    case Initialising => Some(Init(ok))
    case Registering => Some(Register(ok))
    case Unwinding(abort) => if abort == Undoing then Some(Unregister) else None
    case Stopping(stop) => StopCall(stop, ok)
    case TearingDown => Some(TearDown)
    case Starting => Some(RunCalled)
    case Running => Some(RunReturned)
    case AwaitingRelease => Some(TearDown)
    case _ => None
  }

  // ---------------------------------------------------------------- the supervisor

  predicate SupEnabled(x: Embedded, pick: Pick) {
    match x.sup
    case Awaiting => (pick == Received && x.sig.createErr) || (pick == Cancelled && x.sig.canceled)
    case Watching =>
      (pick == Woken && x.gate.fatal.Some?) || (pick == Exited && x.sig.runDone) || (pick == Cancelled && x.sig.canceled)
    case Stopping(stop) => StopEnabled(x, stop) && (pick == Succeeds || pick == Fails)
    case JoiningHealth => x.health == Done
    case JoiningRun => x.sig.runDone
    case JoiningTearDown => x.iso == Ended
    case Left => false
    case Finished => false
    case _ => pick == Succeeds || pick == Fails
  }

  function SupStep(x: Embedded, pick: Pick): Embedded {
    match x.sup
    case Awaiting => x.(sup := Left)
    case Launching => x.(health := Health.Attaching, sup := Watching)
    case Watching => x.(sup := ClosingGate, sig := x.sig.(runExited := pick == Exited, runDone := x.sig.runDone && pick != Exited))
    case ClosingGate => x.(gate := CloseGate(x.gate), sup := Supervisor.Stopping(Gating))
    case Stopping(stop) =>
      var (y, next) := StopStep(x, stop, pick == Succeeds);
      y.(sup := if next.Some? then Supervisor.Stopping(next.value) else CancellingHealth)
    case CancellingHealth => x.(sup := JoiningHealth, sig := x.sig.(healthCancelled := true))
    case JoiningHealth => x.(sup := if x.sig.runExited then Releasing else Shutting)
    case Shutting => x.(sup := if pick == Succeeds then ShuttingDown else JoiningRun)
    case ShuttingDown => x.(sup := JoiningRun, sig := x.sig.(toDetach := x.sig.toDetach + 1))
    case JoiningRun => x.(sup := Releasing, sig := x.sig.(runDone := false))
    case Releasing => x.(sup := JoiningTearDown, sig := x.sig.(released := true))
    case JoiningTearDown => x.(sup := Finished, sig := x.sig.(healthy := false))
    case Left => x
    case Finished => x
  }

  function SupCall(x: Embedded, pick: Pick): Option<Native> {
    match x.sup
    case Stopping(stop) => StopCall(stop, pick == Succeeds)
    case Shutting => Some(Attach(ForShutdown, pick == Succeeds))
    case ShuttingDown => Some(Shutdown)
    case _ => None
  }

  // ---------------------------------------------------------------- the health poller

  predicate PollEnabled(x: Embedded) {
    x.health != Unstarted && x.health != Done
  }

  /** In Sleeping, ok is whether the sleep ended before the context. */
  function PollStep(x: Embedded, ok: bool): Embedded {
    match x.health
    case Attaching => x.(health := if ok then Deciding else Done)
    case Deciding => if x.sig.canceled || x.sig.healthCancelled then x.(health := Detaching) else x.(health := Polling)
    case Polling => if ok then x.(health := Detaching, sig := x.sig.(healthy := true)) else x.(health := Sleeping)
    case Sleeping => x.(health := if ok then Deciding else Detaching)
    case Detaching => x.(health := Done)
    case Unstarted => x
    case Done => x
  }

  function PollCall(x: Embedded, ok: bool): Option<Native> {
    match x.health
    case Attaching => Some(Attach(ForStatus, ok))
    case Deciding => if x.sig.canceled || x.sig.healthCancelled then None else Some(Status)
    case Detaching => Some(Detach)
    case _ => None
  }

  // ---------------------------------------------------------------- assign calls and callbacks

  function TaskGate(g: Gate, t: Task, ok: bool): Gate {
    match t
    case Called => Enter(g)
    case Loaded => Enter(g)
    case Entered => if ok then g else Leave(g)
    case Attached => g
    case Calling => Leave(g)
    case Inside => Leave(g)
  }

  /** Where a task goes next; None when it is over. */
  function NextTask(g: Gate, t: Task, ok: bool): Option<Task> {
    match t
    case Called => if g.accepting then Some(Entered) else None
    case Loaded => if g.accepting then Some(Inside) else None
    case Entered => if ok then Some(Attached) else None
    case Attached => Some(Calling)
    case Calling => None
    case Inside => None
  }

  function TaskMoves(x: Embedded, id: nat, ok: bool): Embedded
    requires id in x.tasks
  {
    var t := x.tasks[id];
    var next := NextTask(x.gate, t, ok);
    x.(gate := TaskGate(x.gate, t, ok),
       tasks := if next.Some? then x.tasks[id := next.value] else x.tasks - {id},
       sig := x.sig.(toDetach := x.sig.toDetach + if t == Calling then 1 else 0))
  }

  function TaskCall(t: Task, ok: bool): Option<Native> {
    match t
    case Entered => Some(Attach(ForAssign, ok))
    case Attached => Some(Assign)
    case _ => None
  }

  // ---------------------------------------------------------------- the system

  predicate Enabled(x: Embedded, e: Event) {
    match e
    case Iso(ok) => IsoEnabled(x, ok)
    case Sup(pick) => SupEnabled(x, pick)
    case Poll(_) => PollEnabled(x)
    case BeginAssign(id) => x.activated && id !in x.tasks
    case LoadRoots(id) => x.roots == This && id !in x.tasks
    case TaskStep(id, _) => id in x.tasks
    case Fatal(_) => x.activated
    case Cancel => true
    case RootsTaken => x.roots == Nobody
    case RootsFreed => x.roots == Another
    case HelperDetaches => x.sig.toDetach > 0
  }

  function Next(x: Embedded, e: Event): Embedded {
    match e
    case Iso(ok) => IsoStep(x, ok)
    case Sup(pick) => SupStep(x, pick)
    case Poll(ok) => PollStep(x, ok)
    case BeginAssign(id) => x.(tasks := x.tasks[id := Called])
    case LoadRoots(id) => x.(tasks := x.tasks[id := Loaded])
    case TaskStep(id, ok) => if id in x.tasks then TaskMoves(x, id, ok) else x
    case Fatal(error) => x.(gate := Fail(x.gate, error))
    case Cancel => x.(sig := x.sig.(canceled := true))
    case RootsTaken => x.(roots := Another)
    case RootsFreed => x.(roots := Nobody)
    case HelperDetaches => if x.sig.toDetach > 0 then x.(sig := x.sig.(toDetach := x.sig.toDetach - 1)) else x
  }

  /** The native call a step makes. */
  function NativeCall(x: Embedded, e: Event): Option<Native> {
    match e
    case Iso(ok) => IsoCall(x, ok)
    case Sup(pick) => SupCall(x, pick)
    case Poll(ok) => PollCall(x, ok)
    case TaskStep(id, ok) => if id in x.tasks then TaskCall(x.tasks[id], ok) else None
    case HelperDetaches => Some(Detach)
    case _ => None
  }

  /** The native calls of the first n steps. */
  function Trace(states: seq<Embedded>, events: seq<Event>, n: nat): seq<Native>
    requires n <= |events| < |states|
  {
    if n == 0 then []
    else
      var c := NativeCall(states[n - 1], events[n - 1]);
      Trace(states, events, n - 1) + if c.Some? then [c.value] else []
  }

  predicate Begun(x: Embedded) {
    && x.iso == Creating && x.sup == Awaiting && x.health == Unstarted && x.gate == Gate(true, 0, None)
    && x.roots != This && !x.activated && x.tasks == map[]
    && x.sig == Signals(x.sig.canceled, false, false, false, false, false, false, 0)
  }

  ghost predicate Run(states: seq<Embedded>, events: seq<Event>) {
    && |states| == |events| + 1 && Begun(states[0])
    && forall i :: 0 <= i < |events| ==> Enabled(states[i], events[i]) && states[i + 1] == Next(states[i], events[i])
  }
}
