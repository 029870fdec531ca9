/**
 The wait group of syncx/waitgroup.go as a transition system. Every atomic
 operation of the source is one step, over any number of goroutines. An event
 names the goroutine and settles every choice, so a schedule is a sequence of
 events and `Run` is a function; an event that is not enabled changes nothing.
 */
module WaitGroupMachine {
  import opened GoBasics

  datatype Outcome = Nil | ExceededMaxTime | Cancelled

  /** What a goroutine has to do next. One that is outside both calls is absent. */
  datatype Pc =
    | AddSawZero                       // line 43: AddInt32 gave 0, the compare-and-swap is next
    | AddMustClose                     // line 44: the compare-and-swap won, close(done) is next
    | WaitLoad                         // line 54: the load of the counter is next
    | WaitParked                       // line 57: inside the select
    | WaitReturned(outcome: Outcome)

  datatype WG = WG(
    counter: int,
    state: int,
    doneCloses: nat,                   // executions of close(done): the second one would panic
    cancelCloses: nat,                 // executions of close(cancel)
    ctxEnded: bool,
    threads: map<Tid, Pc>)

  datatype Event =
    | AddCounter(t: Tid, delta: int)   // line 42
    | AddCas(t: Tid)                   // line 43
    | AddClose(t: Tid)                 // line 44
    | WaitCas(t: Tid)                  // line 53
    | WaitLoadCounter(t: Tid)          // line 54
    | SelectCtx(t: Tid)                // line 58
    | SelectDone(t: Tid)               // line 60
    | SelectCancel(t: Tid)             // line 62
    | CancelClose                      // line 68
    | CtxEnds                          // the load context is cancelled or times out

  const INIT := WG(0, 0, 0, 0, false, map[])

  predicate At(s: WG, t: Tid, pc: Pc) { t in s.threads && s.threads[t] == pc }

  /** `t` is not inside a call, so it may start one. */
  predicate Free(s: WG, t: Tid) { t !in s.threads || s.threads[t].WaitReturned? }

  function Step(s: WG, e: Event): WG {
    match e
    case AddCounter(t, delta) =>
      if !Free(s, t) then s else
      var n := Int32(s.counter + Int32(delta));
      s.(counter := n, threads := if n == 0 then s.threads[t := AddSawZero] else s.threads - {t})
    case AddCas(t) =>
      if !At(s, t, AddSawZero) then s
      else if s.state == 1 then s.(state := 2, threads := s.threads[t := AddMustClose])
      else s.(threads := s.threads - {t})
    case AddClose(t) =>
      if !At(s, t, AddMustClose) then s
      else s.(doneCloses := s.doneCloses + 1, threads := s.threads - {t})
    case WaitCas(t) =>
      if !Free(s, t) then s
      else s.(state := if s.state == 0 then 1 else s.state, threads := s.threads[t := WaitLoad])
    case WaitLoadCounter(t) =>
      if !At(s, t, WaitLoad) then s
      else s.(threads := s.threads[t := if s.counter == 0 then WaitReturned(Nil) else WaitParked])
    case SelectCtx(t) =>
      if At(s, t, WaitParked) && s.ctxEnded then Return(s, t, ExceededMaxTime) else s
    case SelectDone(t) =>
      if At(s, t, WaitParked) && s.doneCloses > 0 then Return(s, t, Nil) else s
    case SelectCancel(t) =>
      if At(s, t, WaitParked) && s.cancelCloses > 0 then Return(s, t, Cancelled) else s
    case CancelClose => s.(cancelCloses := s.cancelCloses + 1)
    case CtxEnds => s.(ctxEnded := true)
  }

  function Return(s: WG, t: Tid, outcome: Outcome): WG {
    s.(threads := s.threads[t := WaitReturned(outcome)])
  }

  /** The state after a whole schedule. */
  function Run(s: WG, es: seq<Event>): WG {
    if es == [] then s else Step(Run(s, es[..|es| - 1]), es[|es| - 1])
  }

  /** The state after the first `k` events. */
  function After(s: WG, es: seq<Event>, k: nat): WG
    requires k <= |es|
  {
    Run(s, es[..k])
  }

  lemma {:induction false} RunConcat(s: WG, es: seq<Event>, fs: seq<Event>)
    ensures Run(s, es + fs) == Run(Run(s, es), fs)
    decreases |fs|
  {
    if fs == [] {
      assert es + fs == es;
    } else {
      var g := fs[..|fs| - 1];
      assert (es + fs)[..|es + fs| - 1] == es + g;
      RunConcat(s, es, g);
    }
  }

  lemma RunCons(s: WG, e: Event, es: seq<Event>)
    ensures Run(s, [e] + es) == Run(Step(s, e), es)
  {
    RunConcat(s, [e], es);
    assert [e][..0] == [];
    assert Run(s, [e]) == Step(Run(s, []), e);
  }

  lemma AfterExtends(s: WG, es: seq<Event>, e: Event)
    ensures forall k :: 0 <= k <= |es| ==> After(s, es + [e], k) == After(s, es, k)
    ensures After(s, es, |es|) == Run(s, es)
    ensures Run(s, es + [e]) == Step(Run(s, es), e)
  {
    assert forall k :: 0 <= k <= |es| ==> (es + [e])[..k] == es[..k];
    assert es[..|es|] == es;
  }

  // ---------------------------------------------------------------- the invariant

  ghost predicate Somewhere(s: WG, pc: Pc) { exists t :: At(s, t, pc) }

  /** An Add that has touched the counter and has not returned. */
  ghost predicate AddInFlight(s: WG) { Somewhere(s, AddSawZero) || Somewhere(s, AddMustClose) }

  ghost predicate Inv(s: WG) {
    && 0 <= s.state <= 2
    && s.counter == Int32(s.counter)
    // At most one goroutine ever holds the duty to close done, and done is closed once at most.
    && (forall t, u :: At(s, t, AddMustClose) && At(s, u, AddMustClose) ==> t == u)
    && s.doneCloses == (if s.state == 2 && !Somewhere(s, AddMustClose) then 1 else 0)
    && (s.state != 2 ==> !Somewhere(s, AddMustClose))
    // Waiting has been announced by every goroutine that is past line 53.
    && (s.state == 0 ==> forall t :: t in s.threads ==> s.threads[t] == AddSawZero)
    // A parked waiter is owed a wake-up: nobody can leave it asleep over a zero counter.
    && (s.state == 1 && s.counter == 0 && Somewhere(s, WaitParked) ==> Somewhere(s, AddSawZero))
    && (Somewhere(s, WaitReturned(Cancelled)) ==> s.cancelCloses > 0)
    && (Somewhere(s, WaitReturned(ExceededMaxTime)) ==> s.ctxEnded)
  }

  predicate ByNobody(e: Event) { e.CancelClose? || e.CtxEnds? }

  /** A step of one goroutine leaves the others where they are. */
  lemma OthersStay(s: WG, e: Event)
    ensures forall t, pc :: ByNobody(e) || t != e.t ==> (At(Step(s, e), t, pc) <==> At(s, t, pc))
  {}

  lemma StepInv(s: WG, e: Event)
    requires Inv(s)
    ensures Inv(Step(s, e))
  {
    OthersStay(s, e);
    match e
    case AddCounter(t, delta) => AddCounterInv(s, t, delta);
    case AddCas(t) => AddCasInv(s, t);
    case AddClose(t) => AddCloseInv(s, t);
    case WaitCas(t) => WaitCasInv(s, t);
    case WaitLoadCounter(t) => WaitLoadInv(s, t);
    case CancelClose =>
    case CtxEnds =>
    case _ => SelectInv(s, e);
  }

  lemma AddCounterInv(s: WG, t: Tid, delta: int)
    requires Inv(s)
    ensures Inv(Step(s, AddCounter(t, delta)))
  {
    OthersStay(s, AddCounter(t, delta));
    var s' := Step(s, AddCounter(t, delta));
    if Free(s, t) && s'.counter == 0 {
      assert At(s', t, AddSawZero);
    }
  }

  lemma AddCasInv(s: WG, t: Tid)
    requires Inv(s)
    ensures Inv(Step(s, AddCas(t)))
  {
    OthersStay(s, AddCas(t));
    if At(s, t, AddSawZero) && s.state == 1 {
      assert At(Step(s, AddCas(t)), t, AddMustClose);
    }
  }

  lemma AddCloseInv(s: WG, t: Tid)
    requires Inv(s)
    ensures Inv(Step(s, AddClose(t)))
  {
    OthersStay(s, AddClose(t));
    if At(s, t, AddMustClose) {
      assert !Somewhere(Step(s, AddClose(t)), AddMustClose);
    }
  }

  lemma WaitCasInv(s: WG, t: Tid)
    requires Inv(s)
    ensures Inv(Step(s, WaitCas(t)))
  {
    OthersStay(s, WaitCas(t));
  }

  lemma WaitLoadInv(s: WG, t: Tid)
    requires Inv(s)
    ensures Inv(Step(s, WaitLoadCounter(t)))
  {
    OthersStay(s, WaitLoadCounter(t));
  }

  lemma SelectInv(s: WG, e: Event)
    requires Inv(s) && (e.SelectCtx? || e.SelectDone? || e.SelectCancel?)
    ensures Inv(Step(s, e))
  {
    OthersStay(s, e);
  }

  lemma {:induction false} Safety(es: seq<Event>)
    ensures Inv(Run(INIT, es))
  {
    if es != [] {
      Safety(es[..|es| - 1]);
      StepInv(Run(INIT, es[..|es| - 1]), es[|es| - 1]);
    }
  }

  /** `state` only ever moves 0, 1, 2; the closing of `done` and the other latches are never undone. */
  lemma {:induction false} Monotone(s: WG, es: seq<Event>)
    ensures s.state <= Run(s, es).state || s.state > 2
    ensures s.doneCloses <= Run(s, es).doneCloses
    ensures s.cancelCloses <= Run(s, es).cancelCloses
    ensures s.ctxEnded ==> Run(s, es).ctxEnded
  {
    if es != [] {
      Monotone(s, es[..|es| - 1]);
      MonotoneStep(Run(s, es[..|es| - 1]), es[|es| - 1]);
    }
  }

  lemma MonotoneStep(s: WG, e: Event)
    ensures s.state <= Step(s, e).state || s.state > 2
    ensures s.state > 2 ==> Step(s, e).state == s.state
    ensures s.doneCloses <= Step(s, e).doneCloses
    ensures s.cancelCloses <= Step(s, e).cancelCloses
    ensures s.ctxEnded ==> Step(s, e).ctxEnded
  {}

  // ---------------------------------------------------------------- no lost wake-up

  /** With no Add in flight, a goroutine parked over a zero counter finds `done` closed, exactly once. */
  lemma NoLostWakeup(es: seq<Event>, t: Tid)
    requires var s := Run(INIT, es); At(s, t, WaitParked) && s.counter == 0 && !AddInFlight(s)
    ensures var s := Run(INIT, es);
            && s.state == 2 && s.doneCloses == 1
            && At(Run(INIT, es + [SelectDone(t)]), t, WaitReturned(Nil))
  {
    Safety(es);
    var s := Run(INIT, es);
    assert At(s, t, WaitParked);
    assert (es + [SelectDone(t)])[..|es|] == es;
  }

  /** Waiting has been announced and an Add is about to act on the zero it saw, or already has. */
  ghost predicate Committed(s: WG) { s.state == 2 || (s.state == 1 && Somewhere(s, AddSawZero)) }

  lemma {:induction false} CommittedStays(s: WG, fs: seq<Event>)
    requires Committed(s)
    ensures Committed(Run(s, fs))
  {
    if fs != [] {
      var g, e := fs[..|fs| - 1], fs[|fs| - 1];
      CommittedStays(s, g);
      var m := Run(s, g);
      if m.state == 1 {
        var u :| At(m, u, AddSawZero);
        assert e == AddCas(u) || At(Step(m, e), u, AddSawZero);
      }
    }
  }

  /**
   The counter touched zero under a parked waiter, at any moment of any run. Then whatever
   happens next, including later Adds that raise the counter again, `done` is closed as
   soon as no Add is in flight.
   */
  lemma ZeroIsNeverForgotten(es: seq<Event>, t: Tid, fs: seq<Event>)
    requires At(Run(INIT, es), t, WaitParked) && Run(INIT, es).counter == 0
    requires !AddInFlight(Run(INIT, es + fs))
    ensures Run(INIT, es + fs).state == 2 && Run(INIT, es + fs).doneCloses == 1
  {
    Safety(es);
    assert At(Run(INIT, es), t, WaitParked);
    RunConcat(INIT, es, fs);
    CommittedStays(Run(INIT, es), fs);
    Safety(es + fs);
  }

  /** Once `done` is closed no goroutine can block in the select of line 57 again. */
  lemma DoneIsLatched(es: seq<Event>, fs: seq<Event>, t: Tid)
    requires Run(INIT, es).doneCloses > 0
    ensures At(Run(INIT, es + fs), t, WaitParked)
            ==> At(Run(INIT, es + fs + [SelectDone(t)]), t, WaitReturned(Nil))
  {
    RunConcat(INIT, es, fs);
    Monotone(Run(INIT, es), fs);
    assert (es + fs + [SelectDone(t)])[..|es + fs|] == es + fs;
  }

  /** A goroutine for which Cancel has been called comes out of the select, whatever happens before it does. */
  lemma CancelWakes(es: seq<Event>, fs: seq<Event>, t: Tid)
    requires Run(INIT, es).cancelCloses > 0 && At(Run(INIT, es + fs), t, WaitParked)
    ensures At(Run(INIT, es + fs + [SelectCancel(t)]), t, WaitReturned(Cancelled))
  {
    RunConcat(INIT, es, fs);
    Monotone(Run(INIT, es), fs);
    assert (es + fs + [SelectCancel(t)])[..|es + fs|] == es + fs;
  }

  /** And so does one whose context has ended. */
  lemma ContextWakes(es: seq<Event>, fs: seq<Event>, t: Tid)
    requires Run(INIT, es).ctxEnded && At(Run(INIT, es + fs), t, WaitParked)
    ensures At(Run(INIT, es + fs + [SelectCtx(t)]), t, WaitReturned(ExceededMaxTime))
  {
    RunConcat(INIT, es, fs);
    Monotone(Run(INIT, es), fs);
    assert (es + fs + [SelectCtx(t)])[..|es + fs|] == es + fs;
  }

  /** A Wait that loads a zero returns nil, and one that does not parks. */
  lemma LoadDecides(s: WG, t: Tid)
    requires At(s, t, WaitLoad)
    ensures At(Step(s, WaitLoadCounter(t)), t, if s.counter == 0 then WaitReturned(Nil) else WaitParked)
  {}

  /** Latches: the event of Cancel and the end of the context set them. */
  lemma LatchesSet(s: WG)
    ensures Step(s, CancelClose).cancelCloses > 0 && Step(s, CtxEnds).ctxEnded
  {}

  /** The sum of what was added by calls that could start. */
  function Added(s: WG, es: seq<Event>): int {
    if es == [] then 0
    else
      var g, e := es[..|es| - 1], es[|es| - 1];
      Added(s, g) + if e.AddCounter? && Free(Run(s, g), e.t) then e.delta else 0
  }

  lemma SumWraps(c: int, a: int, delta: int)
    requires (c - a) % 0x1_0000_0000 == 0
    ensures (Int32(c + Int32(delta)) - (a + delta)) % 0x1_0000_0000 == 0
  {}

  /** In every run the counter is the sum of all deltas, modulo 2^32. */
  lemma {:induction false} CounterIsTheSum(es: seq<Event>)
    ensures (Run(INIT, es).counter - Added(INIT, es)) % 0x1_0000_0000 == 0
  {
    if es != [] {
      var g, e := es[..|es| - 1], es[|es| - 1];
      CounterIsTheSum(g);
      if e.AddCounter? && Free(Run(INIT, g), e.t) {
        SumWraps(Run(INIT, g).counter, Added(INIT, g), e.delta);
        AddsDelta(Run(INIT, g), e.t, e.delta);
      } else {
        KeepsCounter(Run(INIT, g), e);
      }
    }
  }

  lemma AddsDelta(s: WG, t: Tid, delta: int)
    requires Free(s, t)
    ensures Step(s, AddCounter(t, delta)).counter == Int32(s.counter + Int32(delta))
  {}

  lemma KeepsCounter(s: WG, e: Event)
    requires !(e.AddCounter? && Free(s, e.t))
    ensures Step(s, e).counter == s.counter
  {}

  // ---------------------------------------------------------------- what a nil result means

  /**
   At index `i` goroutine `u` brought the counter to zero inside an Add, stayed inside that
   Add, and at index `j`, with waiting announced, won the right to close `done`.
   */
  ghost predicate Cause(es: seq<Event>, i: int, j: int, u: Tid) {
    && 0 <= i < j < |es|
    && es[i].AddCounter? && es[i].t == u
    && After(INIT, es, i + 1).counter == 0
    && (forall l :: i < l <= j ==> At(After(INIT, es, l), u, AddSawZero))
    && es[j] == AddCas(u)
    && After(INIT, es, j).state == 1
  }

  lemma SeesZero(s: WG, e: Event, u: Tid)
    requires !At(s, u, AddSawZero) && At(Step(s, e), u, AddSawZero)
    ensures e.AddCounter? && e.t == u && Step(s, e).counter == 0
  {}

  /** An Add that is between its lines 42 and 43 did bring the counter to zero when it started. */
  lemma {:induction false} SawZeroHasStart(es: seq<Event>, u: Tid) returns (i: int)
    requires At(Run(INIT, es), u, AddSawZero)
    ensures 0 <= i < |es| && es[i].AddCounter? && es[i].t == u
    ensures After(INIT, es, i + 1).counter == 0
    ensures forall l :: i < l <= |es| ==> At(After(INIT, es, l), u, AddSawZero)
  {
    var g, e := es[..|es| - 1], es[|es| - 1];
    assert es == g + [e] && es[..|es|] == es;
    AfterExtends(INIT, g, e);
    if At(Run(INIT, g), u, AddSawZero) {
      i := SawZeroHasStart(g, u);
    } else {
      i := |es| - 1;
      SeesZero(Run(INIT, g), e, u);
    }
    forall l | i < l <= |es| ensures At(After(INIT, es, l), u, AddSawZero) {
      assert l < |es| ==> After(INIT, es, l) == After(INIT, g, l);
    }
  }

  lemma {:induction false} ClosedHasCause(es: seq<Event>) returns (i: int, j: int, u: Tid)
    requires Run(INIT, es).state == 2
    ensures Cause(es, i, j, u)
  {
    var g, e := es[..|es| - 1], es[|es| - 1];
    assert es == g + [e];
    AfterExtends(INIT, g, e);
    if Run(INIT, g).state == 2 {
      i, j, u := ClosedHasCause(g);
    } else {
      u, j := e.t, |es| - 1;
      i := SawZeroHasStart(g, u);
    }
  }

  /**
   Soundness of `nil`: when an event makes `Wait` of goroutine `t` return nil, either its own
   load sees zero at that event, or an Add that was still in flight after waiting had been
   announced had brought the counter to zero.
   */
  lemma {:induction false} NilIsJustified(es: seq<Event>, e: Event, t: Tid)
    requires !At(Run(INIT, es), t, WaitReturned(Nil))
    requires At(Run(INIT, es + [e]), t, WaitReturned(Nil))
    ensures (e == WaitLoadCounter(t) && Run(INIT, es).counter == 0)
            || (e == SelectDone(t) && exists i, j, u :: Cause(es, i, j, u))
  {
    assert (es + [e])[..|es|] == es;
    Safety(es);
    if e.SelectDone? {
      var i, j, u := ClosedHasCause(es);
    }
  }

  /** The error results: `Cancelled` only after Cancel, `ExceededMaxTime` only after the context ended. */
  lemma {:induction false} ErrorsAreJustified(es: seq<Event>, t: Tid)
    ensures At(Run(INIT, es), t, WaitReturned(Cancelled)) ==> Run(INIT, es).cancelCloses > 0
    ensures At(Run(INIT, es), t, WaitReturned(ExceededMaxTime)) ==> Run(INIT, es).ctxEnded
  {
    Safety(es);
  }

  // ---------------------------------------------------------------- when nil means "zero during the call"

  /** Some prefix of the schedule, run from `s`, ends with a zero counter. */
  ghost predicate PassesZero(s: WG, es: seq<Event>) {
    exists k :: 0 <= k <= |es| && After(s, es, k).counter == 0
  }

  /**
   The reading of nil a caller would expect: a Wait that `t` starts in `s` and that returns
   nil was overlapped by a moment at which the counter was zero.
   */
  ghost predicate NilMeansZero(s: WG, t: Tid) {
    forall es :: At(Run(s, [WaitCas(t)] + es), t, WaitReturned(Nil)) ==> PassesZero(s, [WaitCas(t)] + es)
  }

  /** If a schedule never passes zero, neither does the rest of it. */
  lemma NoZeroAfter(s: WG, e: Event, es: seq<Event>)
    requires !PassesZero(s, [e] + es)
    ensures !PassesZero(Step(s, e), es)
  {
    forall k | 0 <= k <= |es| ensures After(Step(s, e), es, k).counter != 0 {
      RunCons(s, e, es[..k]);
      assert ([e] + es)[..k + 1] == [e] + es[..k];
      assert After(s, [e] + es, k + 1) == After(Step(s, e), es, k);
    }
  }

  lemma {:induction false} NoZeroNoWakeup(s: WG, t: Tid, es: seq<Event>)
    requires Inv(s) && !At(s, t, WaitReturned(Nil)) && s.state != 2 && !Somewhere(s, AddSawZero)
    requires !PassesZero(s, es)
    ensures var r := Run(s, es);
            && r.state != 2 && !Somewhere(r, AddSawZero) && r.doneCloses == 0
            && !At(r, t, WaitReturned(Nil))
  {
    if es != [] {
      var g, e := es[..|es| - 1], es[|es| - 1];
      assert es == g + [e];
      AfterExtends(s, g, e);
      NoZeroNoWakeup(s, t, g);
      var m, r := Run(s, g), Run(s, es);
      assert After(s, es, |g|) == m && After(s, es, |es|) == r by { assert es[..|es|] == es; }
      forall u ensures !At(r, u, AddSawZero) {
        assert !At(m, u, AddSawZero);
      }
      if e.AddCas? {
        assert !At(m, e.t, AddSawZero);
      }
      RunInv(s, es);
      RunInv(s, g);
    }
  }

  lemma {:induction false} RunInv(s: WG, es: seq<Event>)
    requires Inv(s)
    ensures Inv(Run(s, es))
  {
    if es != [] {
      RunInv(s, es[..|es| - 1]);
      StepInv(Run(s, es[..|es| - 1]), es[|es| - 1]);
    }
  }

  /** An Add that saw zero before waiting began can still deliver its nil afterwards. */
  lemma StaleSchedule(s: WG, t: Tid) returns (es: seq<Event>)
    requires Inv(s) && Free(s, t) && s.counter != 0
    requires s.state == 2 || Somewhere(s, AddSawZero)
    ensures At(Run(s, [WaitCas(t)] + es), t, WaitReturned(Nil))
    ensures !PassesZero(s, [WaitCas(t)] + es)
  {
    var s1 := Step(s, WaitCas(t));
    var tail := [WaitLoadCounter(t), SelectDone(t)];
    if s.state != 2 {
      var u :| At(s, u, AddSawZero);
      es := [AddCas(u), AddClose(u)] + tail;
      var s2 := Step(s1, AddCas(u));
      RunCons(s1, AddCas(u), [AddClose(u)] + tail);
      RunCons(s2, AddClose(u), tail);
      LatchedWait(Step(s2, AddClose(u)), t);
      assert es == [AddCas(u)] + ([AddClose(u)] + tail);
    } else if Somewhere(s, AddMustClose) {
      var u :| At(s, u, AddMustClose);
      es := [AddClose(u)] + tail;
      RunCons(s1, AddClose(u), tail);
      LatchedWait(Step(s1, AddClose(u)), t);
    } else {
      es := tail;
      LatchedWait(s1, t);
    }
    RunCons(s, WaitCas(t), es);
    QuietCounter(s, [WaitCas(t)] + es);
  }

  lemma LatchedWait(s: WG, t: Tid)
    requires At(s, t, WaitLoad) && s.counter != 0 && s.doneCloses > 0
    ensures At(Run(s, [WaitLoadCounter(t), SelectDone(t)]), t, WaitReturned(Nil))
  {
    RunCons(s, WaitLoadCounter(t), [SelectDone(t)]);
    RunCons(Step(s, WaitLoadCounter(t)), SelectDone(t), []);
    assert [WaitLoadCounter(t)] + [SelectDone(t)] == [WaitLoadCounter(t), SelectDone(t)];
    assert [SelectDone(t)] + [] == [SelectDone(t)];
  }

  lemma QuietStep(s: WG, e: Event)
    requires !e.AddCounter?
    ensures Step(s, e).counter == s.counter
  {}

  lemma {:induction false} QuietRun(s: WG, es: seq<Event>)
    requires forall e :: e in es ==> !e.AddCounter?
    ensures Run(s, es).counter == s.counter
  {
    if es != [] {
      QuietRun(s, es[..|es| - 1]);
      QuietStep(Run(s, es[..|es| - 1]), es[|es| - 1]);
    }
  }

  lemma QuietCounter(s: WG, es: seq<Event>)
    requires s.counter != 0 && forall e :: e in es ==> !e.AddCounter?
    ensures !PassesZero(s, es)
  {
    forall k | 0 <= k <= |es| ensures After(s, es, k).counter != 0 {
      QuietRun(s, es[..k]);
    }
  }

  /**
   In a reachable state, a nil from a Wait that starts there means "the counter was zero
   during the call" exactly when the counter is zero already, or nothing decided before
   the call can end it: `done` has not been committed and no Add is holding a zero it
   saw earlier.
   */
  lemma NilMeansZeroExactlyWhen(es: seq<Event>, t: Tid)
    requires Free(Run(INIT, es), t)
    ensures var s := Run(INIT, es);
            NilMeansZero(s, t) <==> s.counter == 0 || (s.state != 2 && !Somewhere(s, AddSawZero))
  {
    Safety(es);
    var s := Run(INIT, es);
    if s.counter == 0 {
      forall fs ensures PassesZero(s, [WaitCas(t)] + fs) {
        assert After(s, [WaitCas(t)] + fs, 0) == s;
      }
    } else if s.state == 2 || Somewhere(s, AddSawZero) {
      var fs := StaleSchedule(s, t);
      assert !NilMeansZero(s, t);
    } else {
      forall fs | At(Run(s, [WaitCas(t)] + fs), t, WaitReturned(Nil))
        ensures PassesZero(s, [WaitCas(t)] + fs)
      {
        if !PassesZero(s, [WaitCas(t)] + fs) {
          var s1 := Step(s, WaitCas(t));
          StepInv(s, WaitCas(t));
          OthersStay(s, WaitCas(t));
          RunCons(s, WaitCas(t), fs);
          NoZeroAfter(s, WaitCas(t), fs);
          NoZeroNoWakeup(s1, t, fs);
        }
      }
    }
  }

  /** Small counters do not wrap around. */
  lemma SmallAdd(s: WG, t: Tid, delta: int, n: int)
    requires Free(s, t) && -8 < s.counter < 8 && -8 < delta < 8 && n == s.counter + delta
    ensures Step(s, AddCounter(t, delta))
            == s.(counter := n, threads := if n == 0 then s.threads[t := AddSawZero] else s.threads - {t})
  {
    assert Int32(delta) == delta && Int32(n) == n;
  }

  const ONE := WG(1, 0, 0, 0, false, map[])
  const ZERO_SEEN := WG(0, 0, 0, 0, false, map[1 := AddSawZero])

  lemma FirstAdd()
    ensures Step(INIT, AddCounter(1, 1)) == ONE
  {
    SmallAdd(INIT, 1, 1, 1);
  }

  lemma SecondAdd()
    ensures Step(ONE, AddCounter(1, -1)) == ZERO_SEEN
  {
    SmallAdd(ONE, 1, -1, 0);
  }

  lemma ThirdAdd()
    ensures Step(ZERO_SEEN, AddCounter(2, 1)) == ZERO_SEEN.(counter := 1)
  {
    SmallAdd(ZERO_SEEN, 2, 1, 1);
  }

  lemma RunThree(s0: WG, s1: WG, s2: WG, s3: WG, e0: Event, e1: Event, e2: Event)
    requires Step(s0, e0) == s1 && Step(s1, e1) == s2 && Step(s2, e2) == s3
    ensures Run(s0, [e0, e1, e2]) == s3
  {
    assert [e0, e1, e2] == [e0] + [e1, e2] && [e1, e2] == [e1] + [e2] && [e2] == [e2] + [];
    RunCons(s0, e0, [e1, e2]);
    RunCons(s1, e1, [e2]);
    RunCons(s2, e2, []);
  }

  lemma AddedThrice()
    ensures Run(INIT, [AddCounter(1, 1), AddCounter(1, -1), AddCounter(2, 1)]) == ZERO_SEEN.(counter := 1)
  {
    FirstAdd();
    SecondAdd();
    ThirdAdd();
    RunThree(INIT, ONE, ZERO_SEEN, ZERO_SEEN.(counter := 1), AddCounter(1, 1), AddCounter(1, -1), AddCounter(2, 1));
  }

  lemma StaleZero(es: seq<Event>, t: Tid, u: Tid)
    requires Free(Run(INIT, es), t) && Run(INIT, es).counter != 0 && At(Run(INIT, es), u, AddSawZero)
    ensures !NilMeansZero(Run(INIT, es), t)
  {
    NilMeansZeroExactlyWhen(es, t);
  }

  /**
   A run on which nil does not mean it: goroutine 1 brings the counter to zero and stops short
   of its swap, goroutine 2 adds, and goroutine 3 is about to wait.
   */
  lemma NilWithoutZero()
    ensures var es := [AddCounter(1, 1), AddCounter(1, -1), AddCounter(2, 1)];
            Run(INIT, es).counter == 1 && !NilMeansZero(Run(INIT, es), 3)
  {
    AddedThrice();
    StaleZero([AddCounter(1, 1), AddCounter(1, -1), AddCounter(2, 1)], 3, 1);
  }
}
