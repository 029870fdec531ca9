/**
 syncx/waitgroup.go in its own shape: an object whose methods update its fields. Between any
 two atomic operations the other goroutines do whatever the caller passes as `env`, an
 arbitrary schedule of theirs. Each method is shown to be a schedule of
 `WaitGroupMachine`, so what is proved there about all schedules holds of this code.
 */
module WaitGroups {
  import opened GoBasics
  import opened WaitGroupMachine

  datatype SelectCase = CtxDone | DoneClosed | CancelClosed

  function Selects(t: Tid, c: SelectCase): Event {
    match c
    case CtxDone => SelectCtx(t)
    case DoneClosed => SelectDone(t)
    case CancelClosed => SelectCancel(t)
  }

  predicate ActsFor(e: Event, t: Tid) { !e.CancelClose? && !e.CtxEnds? && e.t == t }

  /** A schedule in which goroutine `me` takes no step. */
  predicate ByOthers(me: Tid, env: seq<Event>) { forall e :: e in env ==> !ActsFor(e, me) }

  /** The steps of others leave `me` where it is. */
  lemma {:induction false} OthersLeaveMe(s: WG, me: Tid, env: seq<Event>)
    requires ByOthers(me, env)
    ensures me in Run(s, env).threads <==> me in s.threads
    ensures me in s.threads ==> Run(s, env).threads[me] == s.threads[me]
  {
    if env != [] {
      OthersLeaveMe(s, me, env[..|env| - 1]);
      assert !ActsFor(env[|env| - 1], me);
    }
  }

  lemma RunAppend(s: WG, es: seq<Event>, e: Event)
    ensures Run(s, es + [e]) == Step(Run(s, es), e)
  {
    assert (es + [e])[..|es|] == es;
  }

  class WaitGroup {
    var counter: int
    var state: int
    var doneCloses: nat
    var cancelCloses: nat
    var ctxEnded: bool
    var threads: map<Tid, Pc>         // where the goroutines are; the source keeps this on their stacks

    ghost function View(): WG
      reads this
    {
      WG(counter, state, doneCloses, cancelCloses, ctxEnded, threads)
    }

    constructor ()
      ensures View() == INIT
    {
      counter, state, doneCloses, cancelCloses, ctxEnded, threads := 0, 0, 0, 0, false, map[];
    }

    /** The other goroutines run. */
    method Interfere(me: Tid, env: seq<Event>)
      requires ByOthers(me, env)
      modifies this
      ensures View() == Run(old(View()), env)
      ensures me in threads <==> me in old(threads)
      ensures me in threads ==> threads[me] == old(threads[me])
    {
      OthersLeaveMe(View(), me, env);
      for i := 0 to |env|
        invariant View() == Run(old(View()), env[..i])
      {
        assert env[..i + 1] == env[..i] + [env[i]];
        RunAppend(old(View()), env[..i], env[i]);
        var s := Step(WG(counter, state, doneCloses, cancelCloses, ctxEnded, threads), env[i]);
        counter, state, doneCloses := s.counter, s.state, s.doneCloses;
        cancelCloses, ctxEnded, threads := s.cancelCloses, s.ctxEnded, s.threads;
      }
      assert env[..|env|] == env;
    }

    method Add(me: Tid, delta: int, env1: seq<Event>, env2: seq<Event>)
      requires Free(View(), me) && ByOthers(me, env1) && ByOthers(me, env2)
      modifies this
      ensures Free(View(), me)
      ensures View() ==
              if Int32(old(counter) + Int32(delta)) == 0
              then Run(old(View()), [AddCounter(me, delta)] + env1 + [AddCas(me)] + env2 + [AddClose(me)])
              else Run(old(View()), [AddCounter(me, delta)] + env1)
    {
      var n := Int32(counter + Int32(delta));
      counter := n;
      threads := if n == 0 then threads[me := AddSawZero] else threads - {me};
      RunCons(old(View()), AddCounter(me, delta), env1);

      Interfere(me, env1);
      if n == 0 {
        ghost var sofar := [AddCounter(me, delta)] + env1;
        assert View() == Run(old(View()), sofar);
        RunAppend(old(View()), sofar, AddCas(me));
        var swapped := state == 1;
        if swapped {
          state := 2;
        }
        threads := if swapped then threads[me := AddMustClose] else threads - {me};
        assert View() == Run(old(View()), sofar + [AddCas(me)]);

        RunConcat(old(View()), sofar + [AddCas(me)], env2);
        Interfere(me, env2);
        RunAppend(old(View()), sofar + [AddCas(me)] + env2, AddClose(me));
        if swapped {
          doneCloses := doneCloses + 1;
          threads := threads - {me};
        }
      }
    }

    method Done(me: Tid, env1: seq<Event>, env2: seq<Event>)
      requires Free(View(), me) && ByOthers(me, env1) && ByOthers(me, env2)
      modifies this
      ensures Free(View(), me)
      ensures View() ==
              if Int32(old(counter) - 1) == 0
              then Run(old(View()), [AddCounter(me, -1)] + env1 + [AddCas(me)] + env2 + [AddClose(me)])
              else Run(old(View()), [AddCounter(me, -1)] + env1)
    {
      Add(me, -1, env1, env2);
    }

    /**
     `choice` is the case the select settles on; None says that this case is not ready, so the
     goroutine is still parked.
     */
    method Wait(me: Tid, env1: seq<Event>, env2: seq<Event>, choice: SelectCase) returns (r: Option<Outcome>)
      requires Free(View(), me) && ByOthers(me, env1) && ByOthers(me, env2)
      modifies this
      ensures r.None? ==> At(View(), me, WaitParked)
      ensures r.Some? ==> At(View(), me, WaitReturned(r.value))
      ensures var atLoad := Run(old(View()), [WaitCas(me)] + env1);
              var atSelect := Run(old(View()), [WaitCas(me)] + env1 + [WaitLoadCounter(me)] + env2);
              r == if atLoad.counter == 0 then Some(Nil)
                   else match choice
                     case CtxDone => if atSelect.ctxEnded then Some(ExceededMaxTime) else None
                     case DoneClosed => if atSelect.doneCloses > 0 then Some(Nil) else None
                     case CancelClosed => if atSelect.cancelCloses > 0 then Some(Cancelled) else None
      ensures var atLoad := Run(old(View()), [WaitCas(me)] + env1);
              var loaded := [WaitCas(me)] + env1 + [WaitLoadCounter(me)];
              View() == if atLoad.counter == 0
                        then Run(old(View()), loaded)
                        else Run(old(View()), loaded + env2 + [Selects(me, choice)])
    {
      if state == 0 {
        state := 1;
      }
      threads := threads[me := WaitLoad];
      RunCons(old(View()), WaitCas(me), env1);

      Interfere(me, env1);
      ghost var loaded := [WaitCas(me)] + env1 + [WaitLoadCounter(me)];
      RunAppend(old(View()), [WaitCas(me)] + env1, WaitLoadCounter(me));
      if counter == 0 {
        threads := threads[me := WaitReturned(Nil)];
        return Some(Nil);
      }
      threads := threads[me := WaitParked];
      assert View() == Run(old(View()), loaded);

      RunConcat(old(View()), loaded, env2);
      Interfere(me, env2);
      RunAppend(old(View()), loaded + env2, Selects(me, choice));
      r := Select(me, choice);
    }

    /** Lines 57 to 64. */
    method Select(me: Tid, choice: SelectCase) returns (r: Option<Outcome>)
      requires At(View(), me, WaitParked)
      modifies this
      ensures r.None? ==> At(View(), me, WaitParked)
      ensures r.Some? ==> At(View(), me, WaitReturned(r.value))
      ensures View() == Step(old(View()), Selects(me, choice))
      ensures r == match choice
                   case CtxDone => if old(ctxEnded) then Some(ExceededMaxTime) else None
                   case DoneClosed => if old(doneCloses) > 0 then Some(Nil) else None
                   case CancelClosed => if old(cancelCloses) > 0 then Some(Cancelled) else None
    {
      r := None;
      match choice {
        case CtxDone => if ctxEnded { r := Some(ExceededMaxTime); }
        case DoneClosed => if doneCloses > 0 { r := Some(Nil); }
        case CancelClosed => if cancelCloses > 0 { r := Some(Cancelled); }
      }
      if r.Some? {
        threads := threads[me := WaitReturned(r.value)];
      }
    }

    method Cancel()
      modifies this
      ensures View() == Step(old(View()), CancelClose)
    {
      cancelCloses := cancelCloses + 1;
    }
  }
}
