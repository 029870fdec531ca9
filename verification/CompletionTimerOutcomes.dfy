/** What each outcome of a wait says about the run behind it, and what is sure to end a wait. */
module CompletionTimerOutcomes {
  import opened GoBasics
  import opened CompletionTimerMachine
  import opened CompletionTimerRuns
  import opened CompletionTimerTimeouts

  // ---------------------------------------------------------------- how a wait ends

  /** Which outcome a step gives, and from where: lines 82 to 116, each way to return. */
  lemma {:induction false} HowAWaitEnds(s: Timer, e: Event)
    requires !s.waiter.Returned?
    ensures var w, w' := s.waiter, Step(s, e).waiter;
            && (w' == Returned(Nil) <==> e.Waiter? && if w.DoneSeen? then s.done == 1 else HasChecked(w) && s.lastCheckResult)
            && (w' == Returned(Cancelled) <==> e.Waiter? && w.DoneSeen? && s.done != 1)
            && (w' == Returned(ExceededMaxTime) <==> e.Waiter? && w.TotalChecked? && !s.lastCheckResult)
            && (w' == Returned(IdleTimeout) <==> e.Waiter? && w.IdleExpiry? && s.now > s.idleTimeout)
  {
    if e.Waiter? {
      MoveEnds(s, e.check);
    } else {
      OnlyWaiterReturns(s, e);
    }
  }

  lemma OnlyWaiterReturns(s: Timer, e: Event)
    requires !s.waiter.Returned? && !e.Waiter?
    ensures !Step(s, e).waiter.Returned?
  {}

  lemma MoveEnds(s: Timer, check: bool)
    requires !s.waiter.Returned?
    ensures var w, w' := s.waiter, Step(s, Waiter(check)).waiter;
            && (w' == Returned(Nil) <==> if w.DoneSeen? then s.done == 1 else HasChecked(w) && s.lastCheckResult)
            && (w' == Returned(Cancelled) <==> w.DoneSeen? && s.done != 1)
            && (w' == Returned(ExceededMaxTime) <==> w.TotalChecked? && !s.lastCheckResult)
            && (w' == Returned(IdleTimeout) <==> w.IdleExpiry? && s.now > s.idleTimeout)
  {}

  // ---------------------------------------------------------------- Cancelled

  /** The event at `k` is a call of Cancel that found `done` at 0. */
  ghost predicate CancelWins(s: Timer, es: seq<Event>, k: int) {
    && 0 <= k < |es| && es[k].CancelCall?
    && After(s, es, k).done == 0 && es[k].t !in After(s, es, k).helpers
  }

  ghost predicate WasCancelled(s: Timer, es: seq<Event>) { exists k :: CancelWins(s, es, k) }

  lemma StepCancels(s: Timer, e: Event)
    ensures Step(s, e).done == 2 <==> s.done == 2 || (e.CancelCall? && s.done == 0 && e.t !in s.helpers)
  {
    if HelperEvent(e) {
      HelperCancels(s, e);
    } else {
      WaiterDone(s, e);
    }
  }

  lemma HelperCancels(s: Timer, e: Event)
    requires HelperEvent(e)
    ensures Step(s, e).done == 2 <==> s.done == 2 || (e.CancelCall? && s.done == 0 && e.t !in s.helpers)
  {}

  /** `done` is 2 exactly when some Cancel has won; neither a Notify nor a Reset takes it back. */
  lemma {:induction false} DoneIsTwoExactlyWhen(idle: int, total: int, start: int, es: seq<Event>)
    ensures var s := New(idle, total, start); Run(s, es).done == 2 <==> WasCancelled(s, es)
  {
    var s := New(idle, total, start);
    if es != [] {
      var g, e := Peel(s, es);
      DoneIsTwoExactlyWhen(idle, total, start, g);
      StepCancels(Run(s, g), e);
      WasCancelledPeels(s, es, g, e);
    }
  }

  lemma {:induction false} WasCancelledPeels(s: Timer, es: seq<Event>, g: seq<Event>, e: Event)
    requires es == g + [e] && Run(s, g) == After(s, es, |g|)
    requires forall k :: 0 <= k <= |g| ==> After(s, es, k) == After(s, g, k)
    ensures var m := Run(s, g);
            WasCancelled(s, es) <==> WasCancelled(s, g) || (e.CancelCall? && m.done == 0 && e.t !in m.helpers)
  {
    assert forall k :: 0 <= k < |g| ==> (CancelWins(s, g, k) <==> CancelWins(s, es, k));
    assert CancelWins(s, es, |g|) <==> e.CancelCall? && Run(s, g).done == 0 && e.t !in Run(s, g).helpers;
    if WasCancelled(s, g) {
      var k :| CancelWins(s, g, k);
      assert CancelWins(s, es, k);
    }
  }

  lemma StepKeepsClosed(s: Timer, e: Event)
    ensures Step(s, e).doneCloses >= s.doneCloses
    ensures Step(s, e).waiter.DoneSeen? && !s.waiter.DoneSeen? ==> s.doneCloses > 0
  {
    if HelperEvent(e) {
      HelperCloses(s, e);
      HelperFrame(s, e);
    } else {
      WaiterFrame(s, e);
      OnlySelectSees(s, e);
    }
  }

  lemma OnlySelectSees(s: Timer, e: Event)
    requires !HelperEvent(e)
    ensures Step(s, e).waiter.DoneSeen? && !s.waiter.DoneSeen? ==> s.doneCloses > 0
  {}

  lemma {:induction false} SeenIsClosed(s: Timer, es: seq<Event>)
    requires s.waiter.DoneSeen? ==> s.doneCloses > 0
    ensures Run(s, es).waiter.DoneSeen? ==> Run(s, es).doneCloses > 0
    ensures Run(s, es).doneCloses >= s.doneCloses
  {
    if es != [] {
      var g, e := Peel(s, es);
      SeenIsClosed(s, g);
      StepKeepsClosed(Run(s, g), e);
    }
  }

  /**
   Cancelled, as long as no Reset has found `done` at 1: somebody called Cancel before, and
   it found nothing decided.
   */
  lemma {:induction false} CancelledIsJustified(idle: int, total: int, start: int, es: seq<Event>, e: Event)
    requires var s := New(idle, total, start);
             !Run(s, es).waiter.Returned? && Run(s, es + [e]).waiter == Returned(Cancelled)
    ensures var s := New(idle, total, start);
            && Run(s, es).done != 1
            && (Run(s, es).hist.cleared == 0 ==> Run(s, es).done == 2 && WasCancelled(s, es))
  {
    var s := New(idle, total, start);
    AfterExtends(s, es, e);
    HowAWaitEnds(Run(s, es), e);
    CloseAccounting(idle, total, start, es);
    SeenIsClosed(s, es);
    DoneIsTwoExactlyWhen(idle, total, start, es);
  }

  /** The two usages: never Reset, or a check that never says true. */
  lemma {:induction false} CancelledInBothUsages(idle: int, total: int, start: int, es: seq<Event>, e: Event)
    requires var s := New(idle, total, start);
             && !Run(s, es).waiter.Returned? && Run(s, es + [e]).waiter == Returned(Cancelled)
             && (NoReset(es) || NeverChecksTrue(s, es))
    ensures WasCancelled(New(idle, total, start), es)
  {
    var s := New(idle, total, start);
    if NoReset(es) {
      NoResetNoClearing(s, es);
    } else {
      NoSuccessRun(s, es);
    }
    CancelledIsJustified(idle, total, start, es, e);
  }

  // ---------------------------------------------------------------- Cancelled without Cancel

  /** The event after `es + fs` makes the waiter return Cancelled. */
  ghost predicate SaysCancelled(s: Timer, fs: seq<Event>, e: Event) {
    !Run(s, fs).waiter.Returned? && Run(s, fs + [e]).waiter == Returned(Cancelled)
  }

  /** From here on, as long as nobody resets the timer again, Cancelled means that Cancel was called. */
  ghost predicate CancelledMeansCancel(s0: Timer, es: seq<Event>) {
    forall fs, e :: NoReset(fs) && SaysCancelled(Run(s0, es), fs, e) ==> WasCancelled(s0, es + fs)
  }

  /** Steps of the waiter to the select, if nobody else moves and the check says false. */
  function ToSelect(w: WaiterPc, last: bool): nat {
    match w
    case Selecting => 0
    case MarkStarted | IdleRearm => 1
    case ArmIdle => 2
    case FirstTouch => 3
    case ArmTotal => 4
    case FirstChecked => if last then 7 else 5
    case Idle | Returned(_) => 6
    case TotalChecked | IdleExpiry | DoneSeen | ResetCount => 7
    case TotalFired | IdleChecked | ResetStarted => 8
    case IdleFired => 9
  }

  lemma MovesToSelect(s: Timer)
    requires !s.waiter.Selecting?
    ensures var s' := Step(s, if Resting(s.waiter) then WaitCall(false) else Waiter(false));
            ToSelect(s'.waiter, s'.lastCheckResult) < ToSelect(s.waiter, s.lastCheckResult)
  {}

  lemma {:induction false} Steer(s: Timer) returns (fs: seq<Event>)
    ensures NoReset(fs)
    ensures var s' := Run(s, fs); s'.waiter.Selecting? && s'.done == s.done && s'.doneCloses == s.doneCloses
    decreases ToSelect(s.waiter, s.lastCheckResult)
  {
    fs := [];
    if !s.waiter.Selecting? {
      var e := if Resting(s.waiter) then WaitCall(false) else Waiter(false);
      MovesToSelect(s);
      WaiterFrame(s, e);
      WaiterDone(s, e);
      var gs := Steer(Step(s, e));
      RunOneThen(s, e, gs);
      fs := [e] + gs;
    }
  }

  lemma RunOneThen(s: Timer, e: Event, gs: seq<Event>)
    ensures Run(s, [e] + gs) == Run(Step(s, e), gs)
    ensures Run(s, [e]) == Step(s, e)
  {
    assert [e][..0] == [];
    assert Run(s, [e]) == Step(Run(s, []), e);
    RunConcat(s, [e], gs);
  }

  /** With doneChan open to be taken and `done` at 0, a wait can be told Cancelled. */
  lemma {:induction false} Misled(s: Timer) returns (fs: seq<Event>)
    requires s.done == 0 && s.doneCloses > 0
    ensures NoReset(fs) && SaysCancelled(s, fs, Waiter(false)) && Run(s, fs).done == 0
  {
    var gs := Steer(s);
    fs := gs + [TakeDone];
    AfterExtends(s, gs, TakeDone);
    AfterExtends(s, fs, Waiter(false));
    TakeSees(Run(s, gs));
    HowAWaitEnds(Run(s, fs), Waiter(false));
  }

  lemma TakeSees(s: Timer)
    requires s.waiter.Selecting? && s.doneCloses > 0
    ensures Step(s, TakeDone).waiter.DoneSeen? && Step(s, TakeDone).done == s.done
    ensures Step(s, TakeDone).doneCloses == s.doneCloses
  {}

  /** The same if somebody has yet to close doneChan. */
  lemma {:induction false} MisledInTheEnd(s: Timer) returns (fs: seq<Event>)
    requires CloseInv(s) && s.done == 0 && s.hist.cleared >= 1
    ensures NoReset(fs) && SaysCancelled(s, fs, Waiter(false)) && Run(s, fs).done == 0
  {
    if s.doneCloses > 0 {
      fs := Misled(s);
    } else {
      var t :| t in Closers(s);
      var e := Helper(t, false);
      ClosesNow(s, t);
      var gs := Misled(Step(s, e));
      RunOneThen(s, e, gs);
      RunOneThen(s, e, gs + [Waiter(false)]);
      fs := [e] + gs;
      assert fs + [Waiter(false)] == [e] + (gs + [Waiter(false)]);
    }
  }

  lemma ClosesNow(s: Timer, t: Tid)
    requires t in Closers(s)
    ensures var s' := Step(s, Helper(t, false));
            s'.doneCloses == s.doneCloses + 1 && s'.done == s.done && s'.waiter == s.waiter
  {}

  /**
   Exactly when the code keeps that promise: not if a Reset has found `done` at 1 and nothing
   has been decided since, for doneChan stays closed and the next wait takes it for a Cancel.
   */
  lemma CancelledMeansCancelExactlyWhen(idle: int, total: int, start: int, es: seq<Event>)
    ensures var s := Run(New(idle, total, start), es);
            CancelledMeansCancel(New(idle, total, start), es) <==> !(s.hist.cleared >= 1 && s.done == 0)
  {
    var s0 := New(idle, total, start);
    var s := Run(s0, es);
    CloseAccounting(idle, total, start, es);
    if s.hist.cleared >= 1 && s.done == 0 {
      var fs := MisledInTheEnd(s);
      RunConcat(s0, es, fs);
      DoneIsTwoExactlyWhen(idle, total, start, es + fs);
      assert NoReset(fs) && SaysCancelled(s, fs, Waiter(false));
    } else {
      forall fs, e | NoReset(fs) && SaysCancelled(s, fs, e) ensures WasCancelled(s0, es + fs) {
        ThenItWas(idle, total, start, es, fs, e);
      }
    }
  }

  lemma {:induction false} ThenItWas(idle: int, total: int, start: int, es: seq<Event>, fs: seq<Event>, e: Event)
    requires var s := Run(New(idle, total, start), es);
             !(s.hist.cleared >= 1 && s.done == 0) && NoReset(fs) && SaysCancelled(s, fs, e)
    ensures WasCancelled(New(idle, total, start), es + fs)
  {
    var s0 := New(idle, total, start);
    RunConcat(s0, es, fs);
    RunConcat(s0, es, fs + [e]);
    assert es + (fs + [e]) == es + fs + [e];
    NoResetNoClearing(Run(s0, es), fs);
    CloseAccounting(idle, total, start, es);
    CancelledIsJustified(idle, total, start, es + fs, e);
    DoneIsTwoExactlyWhen(idle, total, start, es + fs);
  }

  /** A run on the failing side: a wait is told Cancelled, and nobody ever called Cancel. */
  lemma CancelledWithoutCancel() returns (es: seq<Event>)
    ensures Run(New(0, 0, 0), es).waiter == Returned(Cancelled) && !WasCancelled(New(0, 0, 0), es)
  {
    var s0 := New(0, 0, 0);
    var e1, s1 := IntoSelect(s0);
    var e2, s2 := NotifyWins(s0, e1, s1);
    var e3 := ResetClears(s0, e2, s2);
    CloseAccounting(0, 0, 0, e3);
    var fs := MisledInTheEnd(Run(s0, e3));
    RunConcat(s0, e3, fs);
    RunConcat(s0, e3, fs + [Waiter(false)]);
    es := e3 + (fs + [Waiter(false)]);
    AfterExtends(s0, e3 + fs, Waiter(false));
    assert es == e3 + fs + [Waiter(false)];
    StepCancels(Run(s0, e3 + fs), Waiter(false));
    DoneIsTwoExactlyWhen(0, 0, 0, es);
  }

  // ---------------------------------------------------------------- what is sure to end a wait

  lemma {:induction false} OthersKeepDecision(s: Timer, g: seq<Event>)
    requires NoWaiterStep(g) && 1 <= s.done <= 2
    ensures Run(s, g).done == s.done && Run(s, g).doneCloses >= s.doneCloses
  {
    if g != [] {
      var h, e := Peel(s, g);
      assert e in g && forall x :: x in h ==> x in g;
      OthersKeepDecision(s, h);
      StepCleared(Run(s, h), e);
      StepKeepsClosed(Run(s, h), e);
    }
  }

  /**
   Once `done` is set and doneChan closed, the case is ready, and a waiter that takes it
   returns: nil after a success and Cancelled after a Cancel, whatever the others do meanwhile.
   */
  lemma {:induction false} ClosedEndsWait(s: Timer, g: seq<Event>, h: seq<Event>, check: bool)
    requires s.waiter.Selecting? && 1 <= s.done <= 2 && s.doneCloses > 0
    requires NoWaiterStep(g) && NoWaiterStep(h)
    ensures Run(s, g + [TakeDone] + h + [Waiter(check)]).waiter == Returned(if s.done == 1 then Nil else Cancelled)
  {
    OthersLeaveWaiter(s, g);
    OthersKeepDecision(s, g);
    AfterExtends(s, g, TakeDone);
    TakeSees(Run(s, g));
    RunConcat(s, g + [TakeDone], h);
    OthersLeaveWaiter(Run(s, g + [TakeDone]), h);
    OthersKeepDecision(Run(s, g + [TakeDone]), h);
    AfterExtends(s, g + [TakeDone] + h, Waiter(check));
    HowAWaitEnds(Run(s, g + [TakeDone] + h), Waiter(check));
  }

  /** A Cancel that finds nothing decided sets `done` to 2 and closes doneChan. */
  lemma CancelCloses(s: Timer, t: Tid, check: bool)
    requires s.done == 0 && t !in s.helpers
    ensures var s' := Run(s, [CancelCall(t), Helper(t, check)]);
            s'.done == 2 && s'.doneCloses == s.doneCloses + 1 && s'.waiter == s.waiter && t !in s'.helpers
  {
    var es := [CancelCall(t), Helper(t, check)];
    assert es == [CancelCall(t)] + [Helper(t, check)];
    RunOneThen(s, CancelCall(t), [Helper(t, check)]);
    RunOneThen(Step(s, CancelCall(t)), Helper(t, check), []);
    CancelSwaps(s, t);
    HelperShuts(Step(s, CancelCall(t)), t, check);
  }

  lemma CancelSwaps(s: Timer, t: Tid)
    requires s.done == 0 && t !in s.helpers
    ensures var s' := Step(s, CancelCall(t));
            && s'.done == 2 && At(s', t, CancelClose) && s'.doneCloses == s.doneCloses && s'.waiter == s.waiter
  {}

  lemma HelperShuts(s: Timer, t: Tid, check: bool)
    requires At(s, t, CancelClose) || At(s, t, NotifyClose)
    ensures var s' := Step(s, Helper(t, check));
            s'.done == s.done && s'.doneCloses == s.doneCloses + 1 && s'.waiter == s.waiter && t !in s'.helpers
  {}

  /** A Notify that nobody overtakes. */
  function NotifyAlone(t: Tid, check: bool): seq<Event> {
    [NotifyCall(t), Helper(t, false), Helper(t, false), Helper(t, check),
     Helper(t, false), Helper(t, false), Helper(t, false)]
  }

  /**
   A Notify that nobody overtakes: it moves the idle deadline; before the wait has started it
   evaluates no check; after, one that says true decides the wait and closes doneChan
   unless it was decided before, and one that says false decides nothing.
   */
  lemma {:induction false} NotifyDecides(s: Timer, t: Tid, check: bool)
    requires t !in s.helpers
    ensures var s' := Run(s, NotifyAlone(t, check)); var wins := s.started && check && s.done == 0;
            && s'.idleTimeout == s.now + s.maxIdleTime
            && s'.notifyCount == Int32(s.notifyCount + 1)
            && s'.lastCheckResult == (if s.started then check else s.lastCheckResult)
            && s'.done == (if wins then 1 else s.done)
            && s'.doneCloses == s.doneCloses + (if wins then 1 else 0)
            && s'.waiter == s.waiter && t !in s'.helpers
  {
    var es := NotifyAlone(t, check);
    var s3 := Run(s, es[..3]);
    NotifyBegins(s, t, check);
    assert es == es[..3] + es[3..] && es[3..] == [Helper(t, check), Helper(t, false), Helper(t, false), Helper(t, false)];
    RunConcat(s, es[..3], es[3..]);
    RunFour(s3, Helper(t, check), Helper(t, false), Helper(t, false), Helper(t, false));
    NotifyActs(s3, t, check);
  }

  lemma {:induction false} NotifyBegins(s: Timer, t: Tid, check: bool)
    requires t !in s.helpers
    ensures var s' := Run(s, NotifyAlone(t, check)[..3]);
            && s'.idleTimeout == s.now + s.maxIdleTime && s'.notifyCount == Int32(s.notifyCount + 1)
            && s'.lastCheckResult == s.lastCheckResult && s'.done == s.done && s'.doneCloses == s.doneCloses
            && s'.waiter == s.waiter && s'.started == s.started
            && (if s.started then At(s', t, Check) else t !in s'.helpers)
  {
    var es := NotifyAlone(t, check);
    assert es[..3] == [NotifyCall(t)] + [Helper(t, false), Helper(t, false)];
    assert [Helper(t, false), Helper(t, false)] == [Helper(t, false)] + [Helper(t, false)];
    RunOneThen(s, NotifyCall(t), [Helper(t, false), Helper(t, false)]);
    RunOneThen(Step(s, NotifyCall(t)), Helper(t, false), [Helper(t, false)]);
    RunOneThen(Step(Step(s, NotifyCall(t)), Helper(t, false)), Helper(t, false), []);
  }

  lemma RunFour(s: Timer, a: Event, b: Event, c: Event, d: Event)
    ensures Run(s, [a, b, c, d]) == Step(Step(Step(Step(s, a), b), c), d)
  {
    assert [a, b, c, d] == [a] + [b, c, d] && [b, c, d] == [b] + [c, d] && [c, d] == [c] + [d];
    RunOneThen(s, a, [b, c, d]);
    RunOneThen(Step(s, a), b, [c, d]);
    RunOneThen(Step(Step(s, a), b), c, [d]);
    RunOneThen(Step(Step(Step(s, a), b), c), d, []);
  }

  lemma NotifyActs(s: Timer, t: Tid, check: bool)
    requires At(s, t, Check) || t !in s.helpers
    ensures var s' := Step(Step(Step(Step(s, Helper(t, check)), Helper(t, false)), Helper(t, false)), Helper(t, false));
            var runs := t in s.helpers;
            && s'.idleTimeout == s.idleTimeout && s'.notifyCount == s.notifyCount && s'.waiter == s.waiter
            && s'.lastCheckResult == (if runs then check else s.lastCheckResult)
            && s'.done == (if runs && check && s.done == 0 then 1 else s.done)
            && s'.doneCloses == s.doneCloses + (if runs && check && s.done == 0 then 1 else 0)
            && t !in s'.helpers
  {}

  /**
   The idle timer at its deadline, nobody in between and the check false: the wait ends with
   IdleTimeout exactly if the last write of `idleTimeout` is more than maxIdleTime ago, and
   otherwise goes on with that deadline; a check that says true ends it with nil.
   */
  lemma {:induction false} IdleTimerActs(s: Timer, check: bool)
    requires s.waiter.Selecting? && s.now >= s.idleDeadline
    ensures var w := Run(s, [FireIdle, Waiter(check), Waiter(false), Waiter(false)]).waiter;
            if check then w == Returned(Nil) else w == if s.now > s.idleTimeout then Returned(IdleTimeout) else IdleRearm
  {
    RunFour(s, FireIdle, Waiter(check), Waiter(false), Waiter(false));
    IdleFires(s);
    IdleActs(Step(s, FireIdle), check);
  }

  lemma IdleFires(s: Timer)
    requires s.waiter.Selecting? && s.now >= s.idleDeadline
    ensures var s' := Step(s, FireIdle); s'.waiter.IdleFired? && s'.now == s.now && s'.idleTimeout == s.idleTimeout
  {}

  lemma IdleActs(s: Timer, check: bool)
    requires s.waiter.IdleFired?
    ensures var s' := Step(s, Waiter(check));
            s'.waiter.IdleChecked? && s'.lastCheckResult == check && s'.now == s.now && s'.idleTimeout == s.idleTimeout
    ensures var w := Step(Step(Step(s, Waiter(check)), Waiter(false)), Waiter(false)).waiter;
            if check then w == Returned(Nil) else w == if s.now > s.idleTimeout then Returned(IdleTimeout) else IdleRearm
  {}

  // ---------------------------------------------------------------- the idle timer's deadline

  /** The idle timer is never set further than maxIdleTime ahead. */
  predicate DeadlineNear(s: Timer) {
    InLoop(s.waiter) || s.waiter.MarkStarted? ==> s.idleDeadline <= s.now + s.maxIdleTime
  }

  lemma DeadlineStep(s: Timer, e: Event)
    requires ArmInv(s) && DeadlineNear(s)
    ensures DeadlineNear(Step(s, e))
  {
    StepClock(s, e);
    if e.Waiter? {
      DeadlineMove(s, e.check);
    } else {
      DeadlineStays(s, e);
    }
  }

  lemma DeadlineMove(s: Timer, check: bool)
    requires ArmInv(s) && DeadlineNear(s)
    ensures DeadlineNear(Step(s, Waiter(check)))
  {}

  lemma DeadlineStays(s: Timer, e: Event)
    requires DeadlineNear(s) && !e.Waiter?
    ensures DeadlineNear(Step(s, e))
  {}

  lemma {:induction false} DeadlineRun(s: Timer, es: seq<Event>)
    requires LoopInv(s) && DeadlineNear(s)
    ensures LoopInv(Run(s, es)) && DeadlineNear(Run(s, es))
  {
    if es != [] {
      var g, e := Peel(s, es);
      DeadlineRun(s, g);
      LoopStep(Run(s, g), e);
      DeadlineStep(Run(s, g), e);
    }
  }

  /**
   In every run: the idle timer's case is ready at the latest maxIdleTime from now, and
   line 107 sets the timer to exactly the `idleTimeout` it reads.
   */
  lemma {:induction false} IdleDeadlineIsNear(idle: int, total: int, start: int, es: seq<Event>, check: bool)
    ensures var s := Run(New(idle, total, start), es); var s' := Step(s, Waiter(check));
            && (InLoop(s.waiter) ==> s.idleDeadline <= s.now + idle)
            && (s.waiter.IdleRearm? ==> s'.waiter.Selecting? && s'.idleDeadline == s.idleTimeout && s'.idleDeadline <= s'.now + idle)
  {
    DeadlineRun(New(idle, total, start), es);
    Limits(New(idle, total, start), es);
    RearmReads(Run(New(idle, total, start), es), check);
  }

  lemma RearmReads(s: Timer, check: bool)
    requires ArmInv(s)
    ensures var s' := Step(s, Waiter(check));
            s.waiter.IdleRearm? ==> s'.waiter.Selecting? && s'.idleDeadline == s.idleTimeout && s'.idleDeadline <= s'.now + s.maxIdleTime
  {}

  /** A Reset that nobody overtakes forgets a success, and nothing else is decided anew. */
  lemma {:induction false} ResetAlone(s: Timer, c1: bool, c2: bool)
    requires Resting(s.waiter)
    ensures var s' := Run(s, [ResetCall, Waiter(c1), Waiter(c2)]);
            && s'.done == (if s.done == 1 then 0 else s.done) && s'.doneCloses == s.doneCloses
            && !s'.started && s'.notifyCount == 0 && s'.waiter.Idle?
  {
    assert [ResetCall, Waiter(c1), Waiter(c2)] == [ResetCall] + [Waiter(c1), Waiter(c2)];
    assert [Waiter(c1), Waiter(c2)] == [Waiter(c1)] + [Waiter(c2)];
    RunOneThen(s, ResetCall, [Waiter(c1), Waiter(c2)]);
    RunOneThen(Step(s, ResetCall), Waiter(c1), [Waiter(c2)]);
    RunOneThen(Step(Step(s, ResetCall), Waiter(c1)), Waiter(c2), []);
    ResetBegins(s);
    ResetEnds(Step(s, ResetCall), c1, c2);
  }

  lemma ResetBegins(s: Timer)
    requires Resting(s.waiter)
    ensures var s' := Step(s, ResetCall);
            s'.waiter.ResetStarted? && s'.done == (if s.done == 1 then 0 else s.done) && s'.doneCloses == s.doneCloses
  {}

  lemma ResetEnds(s: Timer, c1: bool, c2: bool)
    requires s.waiter.ResetStarted?
    ensures var s' := Step(Step(s, Waiter(c1)), Waiter(c2));
            s'.done == s.done && s'.doneCloses == s.doneCloses && !s'.started && s'.notifyCount == 0 && s'.waiter.Idle?
  {}
}
