/** Embedded mode with its broker: what activation, the stop procedure, failures and callbacks do to
    it, with everything else that may touch the broker in between. */
module EmbeddedBroker {
  import opened Abi
  import opened BrokerState
  import EmbeddedSystem
  import EmbeddedRuns
  import NativeDiscipline
  import BrokerRuns

  /** `g` is the generation's number. */
  datatype Host = Host(x: EmbeddedSystem.Embedded, b: Broker, g: uint64)

  /** A step of embedded mode, a callback's call into the broker, or anybody else's. */
  datatype Event =
    | Moves(e: EmbeddedSystem.Event)
    | Acts(id: nat, f: BrokerRuns.Event)
    | Elsewhere(f: BrokerRuns.Event)

  predicate DeactivatingNow(x: EmbeddedSystem.Embedded, e: EmbeddedSystem.Event) {
    || e.Fatal?
    || (e.Sup? && x.sup.Stopping? && x.sup.stop.Deactivating?)
    || (e.Iso? && ((x.iso.Stopping? && x.iso.stop.Deactivating?)
                   || ((x.iso.Losing? || x.iso.Unwinding?) && x.iso.abort.Retiring?)))
  }

  /** What a step of embedded mode does to the broker. */
  function Effect(h: Host, e: EmbeddedSystem.Event): Broker {
    if e.Iso? && h.x.iso.Activating? then Activate(h.b, h.g, true, true)
    else if DeactivatingNow(h.x, e) then Retire(h.b, h.g)
    else h.b
  }

  predicate OfCallback(f: BrokerRuns.Event, g: uint64) {
    (f.Opening? || f.Delivering?) && f.generation == g
  }

  /** Only callbacks inside the gate open and deliver for the generation, and its number is
      activated only by its own isolate goroutine. */
  ghost predicate Enabled(h: Host, e: Event) {
    match e
    case Moves(move) => EmbeddedSystem.Enabled(h.x, move)
    case Acts(id, f) =>
      id in h.x.tasks && h.x.tasks[id] == EmbeddedSystem.Inside && OfCallback(f, h.g) && BrokerRuns.Enabled(h.b, f)
    case Elsewhere(f) =>
      !OfCallback(f, h.g) && !(f.Activating? && f.generation == h.g) && BrokerRuns.Enabled(h.b, f)
  }

  function Next(h: Host, e: Event): Host {
    match e
    case Moves(move) => h.(x := EmbeddedSystem.Next(h.x, move), b := Effect(h, move))
    case Acts(_, f) => h.(b := BrokerRuns.Next(h.b, f).b)
    case Elsewhere(f) => h.(b := BrokerRuns.Next(h.b, f).b)
  }

  ghost predicate Run(states: seq<Host>, events: seq<Event>) {
    && |states| == |events| + 1
    && EmbeddedSystem.Begun(states[0].x) && Inv(states[0].b) && states[0].b.generation != states[0].g && states[0].g != 0
    && forall i :: 0 <= i < |events| ==> Enabled(states[i], events[i]) && states[i + 1] == Next(states[i], events[i])
  }

  // ---------------------------------------------------------------- the invariant

  /** The generation's deactivation lies behind. */
  predicate Deactivated(x: EmbeddedSystem.Embedded) {
    || EmbeddedRuns.Rank(x.sup) >= 6
    || (x.iso.Stopping? && EmbeddedRuns.StopRank(x.iso.stop) >= 2)
    || (x.iso.Unwinding? && x.iso.abort.Vacating?)
    || ((x.iso.TearingDown? || x.iso.Failed?) && x.activated)
  }

  ghost predicate HostInv(h: Host, f: NativeDiscipline.Flags) {
    && EmbeddedRuns.EmbeddedInv(h.x, f) && Inv(h.b) && h.g != 0
    && (!h.x.activated ==> h.b.generation != h.g)
    && (Deactivated(h.x) ==> !BrokerRuns.Current(h.b, h.g))
  }

  lemma EffectKeepsInv(h: Host, e: EmbeddedSystem.Event)
    requires Inv(h.b) && h.g != 0
    ensures Inv(Effect(h, e))
  {
  }

  lemma OnlyOneActivation(x: EmbeddedSystem.Embedded, f: NativeDiscipline.Flags, e: EmbeddedSystem.Event)
    requires EmbeddedRuns.EmbeddedInv(x, f) && EmbeddedSystem.Enabled(x, e)
    ensures e.Iso? && x.iso.Activating? ==> !x.activated && !Deactivated(x) && !Deactivated(EmbeddedSystem.Next(x, e))
    ensures x.activated || (e.Iso? && x.iso.Activating?) ==> EmbeddedSystem.Next(x, e).activated
    ensures EmbeddedSystem.Next(x, e).activated && !x.activated ==> e.Iso? && x.iso.Activating?
    ensures e.Fatal? ==> x.activated
  {
    hide EmbeddedRuns.TasksInv, EmbeddedRuns.LateInv;
  }

  lemma DeactivationComesBy(x: EmbeddedSystem.Embedded, f: NativeDiscipline.Flags, e: EmbeddedSystem.Event)
    requires EmbeddedRuns.EmbeddedInv(x, f) && EmbeddedSystem.Enabled(x, e)
    requires Deactivated(EmbeddedSystem.Next(x, e)) && !Deactivated(x)
    ensures DeactivatingNow(x, e)
  {
    if e.Iso? {
      hide EmbeddedRuns.EmbeddedInv, EmbeddedSystem.Next, Deactivated;
      IsoDeactivates(x, f, e);
    } else {
      hide EmbeddedRuns.EmbeddedInv, EmbeddedSystem.IsoStep;
    }
  }

  lemma IsoDeactivates(x: EmbeddedSystem.Embedded, f: NativeDiscipline.Flags, e: EmbeddedSystem.Event)
    requires EmbeddedRuns.EmbeddedInv(x, f) && EmbeddedSystem.Enabled(x, e) && e.Iso?
    requires Deactivated(EmbeddedSystem.Next(x, e)) && !Deactivated(x)
    ensures DeactivatingNow(x, e)
  {
    hide EmbeddedRuns.TasksInv, EmbeddedRuns.SignalsInv, EmbeddedRuns.LateInv, NativeDiscipline.Sane;
  }

  lemma StepKeepsInv(h: Host, f: NativeDiscipline.Flags, e: Event) returns (f': NativeDiscipline.Flags)
    requires HostInv(h, f) && Enabled(h, e)
    ensures HostInv(Next(h, e), f')
  {
    hide EmbeddedRuns.EmbeddedInv, EmbeddedSystem.Next, EmbeddedSystem.Enabled, Inv, BrokerRuns.Next, BrokerRuns.Enabled, Deactivated,
         DeactivatingNow, OfCallback, EmbeddedSystem.NativeCall, EmbeddedRuns.Now;
    f' := f;
    match e
    case Moves(move) =>
      EmbeddedRuns.StepKeeps(h.x, f, move);
      EffectKeepsInv(h, move);
      OnlyOneActivation(h.x, f, move);
      if Deactivated(EmbeddedSystem.Next(h.x, move)) && !Deactivated(h.x) { DeactivationComesBy(h.x, f, move); }
      f' := EmbeddedRuns.Now(f, EmbeddedSystem.NativeCall(h.x, move));
    case Acts(id, act) =>
      BrokerRuns.StepKeepsInv(h.b, act);
      CallbackIsNoActivation(act, h.g);
      BrokerRuns.NeverCurrentAgain(h.b, act, h.g);
    case Elsewhere(act) =>
      BrokerRuns.StepKeepsInv(h.b, act);
      BrokerRuns.NeverCurrentAgain(h.b, act, h.g);
  }

  lemma CallbackIsNoActivation(f: BrokerRuns.Event, g: uint64)
    requires OfCallback(f, g)
    ensures !f.Activating?
  {
  }

  lemma {:induction false} RunKeepsInv(states: seq<Host>, events: seq<Event>, n: nat) returns (f: NativeDiscipline.Flags)
    requires Run(states, events) && n < |states|
    ensures HostInv(states[n], f) && states[n].g == states[0].g
  {
    hide HostInv, Next, Enabled;
    if n == 0 {
      f := NativeDiscipline.NOTHING;
      BegunInv(states[0]);
    } else {
      f := RunKeepsInv(states, events, n - 1);
      assert states[n] == Next(states[n - 1], events[n - 1]);
      f := StepKeepsInv(states[n - 1], f, events[n - 1]);
      SameGeneration(states[n - 1], events[n - 1]);
    }
  }

  lemma BegunInv(h: Host)
    requires EmbeddedSystem.Begun(h.x) && Inv(h.b) && h.b.generation != h.g && h.g != 0
    ensures HostInv(h, NativeDiscipline.NOTHING)
  {
    EmbeddedRuns.BegunInv(h.x);
    hide EmbeddedRuns.EmbeddedInv, Inv;
  }

  lemma SameGeneration(h: Host, e: Event)
    ensures Next(h, e).g == h.g
  {
  }

  // ---------------------------------------------------------------- after the stop procedure

  /** From the moment stopIngressGeneration returns, in every later state, no opening and no frame
      of the generation is queued, and nothing of it is open or pending: so none is ever added. */
  lemma {:induction false} NothingQueuedAfterStop(states: seq<Host>, events: seq<Event>, t: nat, u: nat)
    requires Run(states, events) && t <= u < |states| && EmbeddedRuns.StopReturned(states[t].x)
    ensures EmbeddedRuns.StopReturned(states[u].x) && BrokerRuns.Gone(states[u].b, states[0].g)
    decreases u
  {
    hide HostInv, Next, Enabled, EmbeddedRuns.StopReturned, BrokerRuns.Gone;
    if t < u {
      NothingQueuedAfterStop(states, events, t, u - 1);
      assert states[u] == Next(states[u - 1], events[u - 1]);
      StopStays(states[u - 1], events[u - 1]);
    }
    var f := RunKeepsInv(states, events, u);
    StoppedIsGone(states[u], f);
  }

  lemma StopStays(h: Host, e: Event)
    requires Enabled(h, e) && EmbeddedRuns.StopReturned(h.x)
    ensures EmbeddedRuns.StopReturned(Next(h, e).x)
  {
    hide EmbeddedRuns.StopReturned, EmbeddedSystem.Next, EmbeddedSystem.Enabled, BrokerRuns.Next, BrokerRuns.Enabled;
    if e.Moves? { EmbeddedRuns.StopReturnedStays(h.x, e.e); }
  }

  lemma StoppedIsGone(h: Host, f: NativeDiscipline.Flags)
    requires HostInv(h, f) && EmbeddedRuns.StopReturned(h.x)
    ensures BrokerRuns.Gone(h.b, h.g)
  {
    hide EmbeddedRuns.EmbeddedInv;
    assert Deactivated(h.x);
    BrokerRuns.NotCurrentIsGone(h.b, h.g);
  }
}
