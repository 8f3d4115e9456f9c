/** go/embedded_ingress.go: a callback generation's gate with its in-flight count, and the process
    roots that publish one generation at a time. */
module CallbackGeneration {
  import opened Abi

  /** `fatal` holds what fail sent on fatalWake; `accepting` is guarded by mu, `inFlight` is the
      WaitGroup's count. */
  datatype Gate = Gate(accepting: bool, inFlight: nat, fatal: Option<IngressError>)

  function Enter(g: Gate): Gate {
    if g.accepting then g.(inFlight := g.inFlight + 1) else g
  }

  /** inFlight.Done(). */
  function Leave(g: Gate): Gate {
    if g.inFlight > 0 then g.(inFlight := g.inFlight - 1) else g
  }

  function CloseGate(g: Gate): Gate {
    g.(accepting := false)
  }

  /** fail, after the broker's failGeneration: only the first failure closes the gate and wakes. */
  function Fail(g: Gate, error: IngressError): Gate {
    if g.fatal.Some? then g else g.(accepting := false, fatal := Some(error))
  }

  class Generation {
    const id: uint64
    var accepting: bool
    var inFlight: nat
    var fatalWake: Option<IngressError>

    function State(): Gate
      reads this
    {
      Gate(accepting, inFlight, fatalWake)
    }

    constructor (id: uint64)
      ensures this.id == id && State() == Gate(true, 0, None)
    {
      this.id := id;
      accepting, inFlight, fatalWake := true, 0, None;
    }

    method EnterGate() returns (entered: bool)
      modifies this`inFlight
      ensures entered == accepting && State() == Enter(old(State()))
    {
      if !accepting { return false; }
      inFlight := inFlight + 1;
      return true;
    }

    method LeaveGate()
      requires inFlight > 0
      modifies this`inFlight
      ensures State() == Leave(old(State()))
    {
      inFlight := inFlight - 1;
    }

    method Close()
      modifies this`accepting
      ensures State() == CloseGate(old(State()))
    {
      accepting := false;
    }

    method FailOnce(error: IngressError)
      modifies this`accepting, this`fatalWake
      ensures State() == Fail(old(State()), error)
    {
      if fatalWake.None? {
        Close();
        fatalWake := Some(error);
      }
    }
  }

  class Roots {
    var current: Generation?

    constructor ()
      ensures current == null
    {
      current := null;
    }

    method CompareAndSwap(expected: Generation?, replacement: Generation?) returns (swapped: bool)
      modifies this
      ensures swapped <==> old(current) == expected
      ensures current == if swapped then replacement else old(current)
    {
      swapped := current == expected;
      if swapped { current := replacement; }
    }

    /** A callback's first two steps, which other steps may separate: it loads the pointer, then
        enters the generation it found. */
    method LoadAndEnter() returns (g: Generation?)
      modifies current
      ensures g != null <==> old(current) != null && old(current.accepting)
      ensures g != null ==> g == old(current) && g.State() == Enter(old(current.State()))
      ensures g == null && old(current) != null ==> old(current).State() == old(current.State())
    {
      g := current;
      if g != null {
        var entered := g.EnterGate();
        if !entered { g := null; }
      }
    }

    /** clearCurrentGeneration: takes down this generation and no other. */
    method Clear(generation: Generation)
      modifies this
      ensures current == if old(current) == generation then null else old(current)
    {
      var _ := CompareAndSwap(generation, null);
    }
  }
}
