/** Which native call may follow which: a discipline on traces, and what it means in terms of the
    order of calls. EmbeddedRuns proves that every run obeys it. */
module NativeDiscipline {
  import opened EmbeddedSystem

  datatype Attempt = Untried | Unsuccessful | Successful
  datatype Course = NotRun | InRun | HasRun

  /** What has happened so far. `unregistered` includes an attempt that could not attach. */
  datatype Flags = Flags(
    create: Attempt, init: Attempt, register: Attempt, unregistered: bool, run: Course, shut: bool, torn: bool)

  const NOTHING := Flags(Untried, Untried, Untried, false, NotRun, false, false)

  function Tried(ok: bool): Attempt {
    if ok then Successful else Unsuccessful
  }

  function After(f: Flags, c: Native): Flags {
    match c
    case Create(ok) => f.(create := Tried(ok))
    case Init(ok) => f.(init := Tried(ok))
    case Register(ok) => f.(register := Tried(ok))
    case Unregister => f.(unregistered := true)
    case Attach(purpose, ok) => if purpose == ForUnregister && !ok then f.(unregistered := true) else f
    case RunCalled => f.(run := InRun)
    case RunReturned => f.(run := HasRun)
    case Shutdown => f.(shut := true)
    case TearDown => f.(torn := true)
    case _ => f
  }

  function Happened(trace: seq<Native>): Flags {
    if trace == [] then NOTHING else After(Happened(trace[..|trace| - 1]), trace[|trace| - 1])
  }

  /** May c be called now? */
  predicate Allowed(f: Flags, c: Native) {
    match c
    case Create(_) => f.create.Untried?
    case Init(_) => f.create.Successful? && f.init.Untried? && !f.torn
    case Register(_) => f.init.Successful? && f.register.Untried? && !f.torn
    case Attach(purpose, _) =>
      f.create.Successful? && !f.torn && !f.shut
      && (purpose == ForUnregister ==> f.register.Successful? && !f.unregistered)
      && (purpose == ForShutdown ==> f.unregistered) && (purpose == ForStatus ==> f.register.Successful?)
    case Unregister => !f.register.Untried? && !f.torn && !f.unregistered && !f.shut
    case RunCalled => f.register.Successful? && f.run.NotRun? && !f.torn
    case RunReturned => f.run.InRun?
    case Status => f.register.Successful? && !f.shut && !f.torn
    case Assign => f.create.Successful? && !f.shut && !f.torn
    case Shutdown => f.unregistered && !f.shut && !f.torn
    case TearDown => f.create.Successful? && !f.torn && !f.run.InRun? && (!f.register.Untried? ==> f.unregistered)
    case Detach => true
  }

  predicate Lawful(trace: seq<Native>) {
    trace == [] || (Lawful(trace[..|trace| - 1]) && Allowed(Happened(trace[..|trace| - 1]), trace[|trace| - 1]))
  }

  lemma Extended(trace: seq<Native>, c: Native)
    ensures Happened(trace + [c]) == After(Happened(trace), c)
    ensures Lawful(trace + [c]) <==> Lawful(trace) && Allowed(Happened(trace), c)
  {
    assert (trace + [c])[..|trace|] == trace;
  }

  // ---------------------------------------------------------------- what the discipline means

  lemma {:induction false} LawfulPrefix(trace: seq<Native>, n: nat)
    requires Lawful(trace) && n < |trace|
    ensures Lawful(trace[..n]) && Allowed(Happened(trace[..n]), trace[n])
  {
    var shorter := trace[..|trace| - 1];
    if n < |shorter| {
      LawfulPrefix(shorter, n);
      assert shorter[..n] == trace[..n];
    }
  }

  /** Which calls the flags stand for. */
  predicate Means(f: Flags, trace: seq<Native>) {
    StartMeans(f, trace) && EndMeans(f, trace)
  }

  predicate StartMeans(f: Flags, trace: seq<Native>) {
    && (f.create.Untried? <==> Create(true) !in trace && Create(false) !in trace)
    && (f.create.Successful? <==> Create(true) in trace)
    && (f.init.Untried? <==> Init(true) !in trace && Init(false) !in trace)
    && (f.init.Successful? <==> Init(true) in trace)
    && (f.register.Untried? <==> Register(true) !in trace && Register(false) !in trace)
    && (f.register.Successful? <==> Register(true) in trace)
  }

  predicate EndMeans(f: Flags, trace: seq<Native>) {
    && (f.unregistered <==> UnregisterAttempted(trace))
    && (f.run.NotRun? <==> RunCalled !in trace)
    && (f.run.HasRun? <==> RunReturned in trace)
    && (f.shut <==> Shutdown in trace)
    && (f.torn <==> TearDown in trace)
  }

  /** Flags that some lawful trace can reach. */
  predicate Sane(f: Flags) {
    && (!f.init.Untried? ==> f.create.Successful?)
    && (!f.register.Untried? ==> f.init.Successful?)
    && (!f.run.NotRun? ==> f.register.Successful?)
    && (f.torn ==> f.create.Successful? && !f.run.InRun?)
  }

  lemma SaneAfter(f: Flags, c: Native)
    requires Sane(f) && Allowed(f, c)
    ensures Sane(After(f, c))
  {
  }

  lemma {:induction false} HappenedMeans(trace: seq<Native>)
    requires Lawful(trace)
    ensures Means(Happened(trace), trace) && Sane(Happened(trace))
  {
    if trace != [] {
      var shorter, last := trace[..|trace| - 1], trace[|trace| - 1];
      HappenedMeans(shorter);
      assert trace == shorter + [last];
      MeansNext(Happened(shorter), shorter, last);
      SaneAfter(Happened(shorter), last);
    }
  }

  lemma MeansNext(f: Flags, trace: seq<Native>, c: Native)
    requires Means(f, trace) && Sane(f) && Allowed(f, c)
    ensures Means(After(f, c), trace + [c])
  {
    hide StartMeans, EndMeans;
    StartMeansNext(f, trace, c);
    EndMeansNext(f, trace, c);
  }

  lemma StartMeansNext(f: Flags, trace: seq<Native>, c: Native)
    requires StartMeans(f, trace) && Sane(f) && Allowed(f, c)
    ensures StartMeans(After(f, c), trace + [c])
  {
    assert forall d :: d in trace + [c] <==> d in trace || d == c;
  }

  lemma EndMeansNext(f: Flags, trace: seq<Native>, c: Native)
    requires EndMeans(f, trace) && Sane(f) && Allowed(f, c)
    ensures EndMeans(After(f, c), trace + [c])
  {
    assert forall d :: d in trace + [c] <==> d in trace || d == c;
  }

  /** The state of things just before call n. */
  lemma Before(trace: seq<Native>, n: nat) returns (f: Flags)
    requires Lawful(trace) && n < |trace|
    ensures f == Happened(trace[..n]) && Means(f, trace[..n]) && Sane(f) && Allowed(f, trace[n])
  {
    LawfulPrefix(trace, n);
    HappenedMeans(trace[..n]);
    f := Happened(trace[..n]);
  }

  /** Unregistration was called, or its thread could not be attached. */
  predicate UnregisterAttempted(trace: seq<Native>) {
    Unregister in trace || Attach(ForUnregister, false) in trace
  }

  /** Creation, initialisation, registration and run come in this order, each only after the
      success of the one before. */
  lemma StartOrder(trace: seq<Native>, n: nat)
    requires Lawful(trace) && n < |trace|
    ensures trace[n].Init? ==> Create(true) in trace[..n]
    ensures trace[n].Register? ==> Init(true) in trace[..n]
    ensures trace[n].RunCalled? ==> Register(true) in trace[..n]
    ensures trace[n].Create? || trace[n].Init? || trace[n].Register? || trace[n].RunCalled? ==>
      forall m :: 0 <= m < n ==> !SameKind(trace[m], trace[n])
  {
    hide Lawful, Happened;
    var _ := Before(trace, n);
    forall m | 0 <= m < n && (trace[n].Create? || trace[n].Init? || trace[n].Register? || trace[n].RunCalled?)
      ensures !SameKind(trace[m], trace[n])
    {
      assert trace[m] == trace[..n][m];
    }
  }

  predicate SameKind(c: Native, d: Native) {
    (c.Create? && d.Create?) || (c.Init? && d.Init?) || (c.Register? && d.Register?) || (c.RunCalled? && d.RunCalled?)
  }

  /** Once registration was called, shutdown and tear-down come only after an attempt to
      unregister; shutdown never comes without one. */
  lemma UnregisterFirst(trace: seq<Native>, n: nat)
    requires Lawful(trace) && n < |trace| && (trace[n].Shutdown? || trace[n].TearDown?)
    ensures trace[n].Shutdown? || Register(true) in trace[..n] || Register(false) in trace[..n] ==> UnregisterAttempted(trace[..n])
  {
    hide Lawful, Happened;
    var _ := Before(trace, n);
  }

  /** If run was called before a tear-down, it returned before it, after its call. */
  lemma RunReturnsFirst(trace: seq<Native>, m: nat, n: nat)
    requires Lawful(trace) && m < n < |trace| && trace[m].RunCalled? && trace[n].TearDown?
    ensures exists k :: m < k < n && trace[k].RunReturned?
  {
    hide Lawful, Happened;
    var _ := Before(trace, n);
    assert trace[..n][m] == RunCalled;
    assert RunReturned in trace[..n];
    var _ := Before(trace, m);
    assert RunReturned !in trace[..m] && forall k :: 0 <= k < m ==> trace[..m][k] == trace[k];
    assert exists k :: 0 <= k < n && trace[k].RunReturned?;
  }

  /** After a tear-down only detaching is left: no attach, status, assign, run, register,
      unregister, shutdown or second tear-down starts, and no run returns. */
  lemma NothingAfterTearDown(trace: seq<Native>, m: nat, n: nat)
    requires Lawful(trace) && m < n < |trace| && trace[m].TearDown?
    ensures trace[n].Detach?
  {
    hide Lawful, Happened;
    var f := Before(trace, n);
    assert trace[..n][m] == TearDown;
    assert f.torn;
  }

  /** Once shutdown was called no status, assign, attach or unregister starts. */
  lemma QuietAfterShutdown(trace: seq<Native>, m: nat, n: nat)
    requires Lawful(trace) && m < n < |trace| && trace[m].Shutdown?
    ensures !trace[n].Status? && !trace[n].Assign? && !trace[n].Attach? && !trace[n].Unregister? && !trace[n].Shutdown?
  {
    hide Lawful, Happened;
    var _ := Before(trace, n);
    assert trace[..n][m] == Shutdown;
  }
}
