/** When the completion timer gives up, when it reports success, and why its wait ends. */
module CompletionTimerTimeouts {
  import opened GoBasics
  import opened CompletionTimerMachine
  import opened CompletionTimerRuns

  /** The wait loop has been entered: the deadlines are set. */
  predicate InLoop(w: WaiterPc) {
    w.Selecting? || w.TotalFired? || w.TotalChecked? || w.IdleFired? || w.IdleChecked? || w.IdleExpiry?
    || w.IdleRearm? || w.DoneSeen?
  }

  /** A call of WaitForCompletion is in progress. */
  predicate Waiting(w: WaiterPc) {
    InLoop(w) || w.FirstChecked? || w.ArmTotal? || w.FirstTouch? || w.ArmIdle? || w.MarkStarted?
  }

  /** `e` writes `idleTimeout`: line 65 of a Notify, or line 86 of the wait. */
  predicate Touches(s: Timer, e: Event) {
    || (e.Helper? && At(s, e.t, Touch))
    || (e.Waiter? && s.waiter.FirstTouch?)
  }

  lemma StepClock(s: Timer, e: Event)
    ensures var s' := Step(s, e);
            && s'.now >= s.now && s'.maxIdleTime == s.maxIdleTime && s'.maxTotalTime == s.maxTotalTime
            && s'.idleTimeout == (if Touches(s, e) then s.now + s.maxIdleTime else s.idleTimeout)
  {}

  lemma {:induction false} Limits(s: Timer, es: seq<Event>)
    ensures Run(s, es).maxIdleTime == s.maxIdleTime && Run(s, es).maxTotalTime == s.maxTotalTime
  {
    if es != [] {
      var g, e := Peel(s, es);
      Limits(s, g);
      StepClock(Run(s, g), e);
    }
  }

  lemma {:induction false} ClockMonotone(s: Timer, es: seq<Event>)
    ensures forall i :: 0 <= i <= |es| ==> After(s, es, i).now <= Run(s, es).now
  {
    if es != [] {
      var g, e := Peel(s, es);
      ClockMonotone(s, g);
      StepClock(Run(s, g), e);
    }
  }

  lemma ClockBetween(s: Timer, es: seq<Event>, i: nat, j: nat)
    requires i <= j <= |es|
    ensures After(s, es, i).now <= After(s, es, j).now
  {
    ClockMonotone(s, es[..j]);
    assert es[..j][..i] == es[..i];
    assert After(s, es[..j], i) == After(s, es, i);
  }

  /** The idle deadline lies at least maxIdleTime after every write of it so far. */
  lemma {:induction false} TouchBound(s: Timer, es: seq<Event>)
    ensures forall i :: 0 <= i < |es| && Touches(After(s, es, i), es[i])
              ==> After(s, es, i).now + s.maxIdleTime <= Run(s, es).idleTimeout
  {
    if es != [] {
      var g, e := Peel(s, es);
      TouchBound(s, g);
      Limits(s, g);
      ClockMonotone(s, g);
      StepClock(Run(s, g), e);
    }
  }

  // ---------------------------------------------------------------- the shape of one wait

  /** The call of WaitForCompletion still in progress after `es` began with event `b`. */
  ghost predicate WaitBegan(s: Timer, es: seq<Event>, b: int) {
    && 0 <= b < |es| && es[b].WaitCall? && Resting(After(s, es, b).waiter)
    && forall l :: b < l <= |es| ==> Waiting(After(s, es, l).waiter)
  }

  /** Past line 85: the total deadline is set. */
  predicate Timed(w: WaiterPc) { Waiting(w) && !w.FirstChecked? && !w.ArmTotal? }

  /** Past line 86: the idle deadline is set. */
  predicate Touched(w: WaiterPc) { InLoop(w) || w.ArmIdle? || w.MarkStarted? }

  lemma StepEntersWait(s: Timer, e: Event)
    requires Waiting(Step(s, e).waiter) && !Waiting(s.waiter)
    ensures e.WaitCall? && Resting(s.waiter) && Step(s, e).waiter.FirstChecked?
  {}

  lemma StepEntersTimed(s: Timer, e: Event)
    requires Timed(Step(s, e).waiter)
    ensures if Timed(s.waiter) then Step(s, e).totalDeadline == s.totalDeadline
            else e.Waiter? && s.waiter.ArmTotal? && Step(s, e).totalDeadline == s.now + s.maxTotalTime
  {}

  lemma StepEntersTouched(s: Timer, e: Event)
    requires Touched(Step(s, e).waiter) && !Touched(s.waiter)
    ensures e.Waiter? && s.waiter.FirstTouch?
  {}

  lemma WaitGoesOn(s: Timer, es: seq<Event>, b: int)
    requires es != [] && WaitBegan(s, es[..|es| - 1], b) && Waiting(Run(s, es).waiter)
    ensures WaitBegan(s, es, b)
  {
    var g, e := Peel(s, es);
    assert es[..|es| - 1] == g;
    forall l | b < l <= |es| ensures Waiting(After(s, es, l).waiter) {
      if l <= |g| {
        assert After(s, es, l) == After(s, g, l);
      }
    }
  }

  /**
   The events behind a wait in progress: its call at `b`, the arming of the total timer at
   `r` and the first write of the idle deadline at `a`, as far as it has come.
   */
  lemma {:induction false} Origin(s: Timer, es: seq<Event>) returns (b: int, r: int, a: int)
    requires Resting(s.waiter) && Waiting(Run(s, es).waiter)
    ensures WaitBegan(s, es, b)
    ensures Timed(Run(s, es).waiter)
            ==> (b < r < |es| && Run(s, es).totalDeadline == After(s, es, r).now + s.maxTotalTime)
    ensures Touched(Run(s, es).waiter) ==> (b < a < |es| && Touches(After(s, es, a), es[a]))
  {
    var g, e := Peel(s, es);
    var m := Run(s, g);
    Limits(s, g);
    b, r, a := |g|, |g|, |g|;
    if Waiting(m.waiter) {
      var b', r', a' := Origin(s, g);
      b := b';
      WaitGoesOn(s, es, b);
      if Timed(m.waiter) { r := r'; }
      if Touched(m.waiter) { a := a'; }
    } else {
      StepEntersWait(m, e);
    }
    if Timed(Run(s, es).waiter) { StepEntersTimed(m, e); }
    if Touched(Run(s, es).waiter) && !Touched(m.waiter) { StepEntersTouched(m, e); }
    assert After(s, es, |g|) == m && After(s, es, |es|) == Run(s, es);
  }

  // ---------------------------------------------------------------- what the waiter saw of `check`

  predicate HasChecked(w: WaiterPc) { w.FirstChecked? || w.TotalChecked? || w.IdleChecked? }

  lemma StepCheckResult(s: Timer, e: Event)
    ensures Step(s, e).lastCheckResult == if Checks(s, e) then Result(e) else s.lastCheckResult
    ensures HasChecked(Step(s, e).waiter) && Step(s, e).waiter != s.waiter ==> Checks(s, e)
  {}

  /**
   The waiter reads `lastCheckResult` after its own check, and another goroutine may have
   overwritten it; but what it reads is the result of a check made since its own.
   */
  lemma {:induction false} ReadsFreshCheck(s: Timer, es: seq<Event>) returns (c: int)
    requires Resting(s.waiter) && HasChecked(Run(s, es).waiter)
    ensures 0 <= c < |es| && Checks(After(s, es, c), es[c])
    ensures Result(es[c]) == Run(s, es).lastCheckResult
    ensures forall l :: c < l <= |es| ==> After(s, es, l).waiter == Run(s, es).waiter
  {
    var g, e := Peel(s, es);
    var m := Run(s, g);
    StepCheckResult(m, e);
    assert After(s, es, |g|) == m && After(s, es, |es|) == Run(s, es);
    if Checks(m, e) {
      c := |g|;
    } else {
      c := ReadsFreshCheck(s, g);
    }
  }

  /** A check evaluated in the current round of the select, at or after the timer fired, said false. */
  ghost predicate SawFalse(s: Timer, es: seq<Event>, c: int) {
    && 0 <= c < |es| && Checks(After(s, es, c), es[c]) && !Result(es[c])
    && forall l :: c < l <= |es| ==> var w := After(s, es, l).waiter; w.IdleChecked? || w.IdleExpiry? || w.TotalChecked?
  }

  lemma StepToExpiry(s: Timer, e: Event)
    requires Step(s, e).waiter.IdleExpiry?
    ensures s.waiter.IdleExpiry? || (s.waiter.IdleChecked? && !s.lastCheckResult)
  {}

  lemma {:induction false} ExpiryAfterFalse(s: Timer, es: seq<Event>) returns (c: int)
    requires Resting(s.waiter) && Run(s, es).waiter.IdleExpiry?
    ensures SawFalse(s, es, c)
  {
    var g, e := Peel(s, es);
    var m := Run(s, g);
    StepToExpiry(m, e);
    if m.waiter.IdleExpiry? {
      c := ExpiryAfterFalse(s, g);
    } else {
      c := ReadsFreshCheck(s, g);
    }
    forall l | c < l <= |es|
      ensures var w := After(s, es, l).waiter; w.IdleChecked? || w.IdleExpiry? || w.TotalChecked?
    {
      if l < |es| {
        assert After(s, es, l) == After(s, g, l);
      }
    }
  }

  // ---------------------------------------------------------------- the loop invariant

  /** Steps of the waiter from its call up to each place, not counting the rounds that re-armed. */
  function Phase(w: WaiterPc): nat {
    match w
    case FirstChecked => 1
    case ArmTotal => 2
    case FirstTouch => 3
    case ArmIdle => 4
    case MarkStarted => 5
    case Selecting => 6
    case TotalFired | IdleFired | DoneSeen => 7
    case TotalChecked | IdleChecked => 8
    case IdleExpiry => 9
    case _ => 10
  }

  /**
   Each re-arming of the idle timer is paid for by a Notify since the previous arming, or
   happened with the clock standing exactly at the deadline.
   */
  ghost predicate ArmInv(s: Timer) {
    var w, h := s.waiter, s.hist;
    && (w.IdleFired? || w.IdleChecked? || w.IdleExpiry? ==> s.now >= s.idleDeadline)
    && (Touched(w) ==> s.idleTimeout <= s.now + s.maxIdleTime)
    && (InLoop(w) || w.MarkStarted? ==> h.armed <= h.touches)
    && ((InLoop(w) || w.MarkStarted?) && !w.IdleRearm? && h.armed == h.touches ==> s.idleTimeout <= s.idleDeadline)
    && (InLoop(w) || w.MarkStarted? ==> h.rearms <= h.armed + h.exact)
    && (w.IdleRearm? ==> h.rearms + 1 <= h.touches + h.exact)
    && (Waiting(w) && !InLoop(w) ==> h.rearms == 0 && h.exact == 0)
    && (w.Returned? ==> h.rearms <= h.touches + h.exact)
  }

  ghost predicate WorkInv(s: Timer) {
    var w, h := s.waiter, s.hist;
    && (w.TotalFired? || w.TotalChecked? ==> s.now >= s.totalDeadline)
    && (Waiting(w) ==> h.work == Phase(w) + 5 * h.rearms)
    && (Waiting(w) && !InLoop(w) ==> h.rearms == 0)
    && (w.Returned? ==> h.work <= 10 + 5 * h.rearms)
  }

  lemma ArmStepHelper(s: Timer, e: Event)
    requires ArmInv(s) && (HelperEvent(e) || e.Tick?)
    ensures ArmInv(Step(s, e))
  {}

  lemma ArmStepSelect(s: Timer, e: Event)
    requires ArmInv(s) && !(HelperEvent(e) || e.Tick? || e.Waiter?)
    ensures ArmInv(Step(s, e))
  {}

  lemma ArmStepEntering(s: Timer, e: Event)
    requires ArmInv(s) && e.Waiter? && !InLoop(s.waiter)
    ensures ArmInv(Step(s, e))
  {}

  lemma ArmStepLooping(s: Timer, e: Event)
    requires ArmInv(s) && e.Waiter? && InLoop(s.waiter)
    ensures ArmInv(Step(s, e))
  {}

  lemma WorkStepHelper(s: Timer, e: Event)
    requires WorkInv(s) && (HelperEvent(e) || e.Tick?)
    ensures WorkInv(Step(s, e))
  {}

  lemma WorkStepSelect(s: Timer, e: Event)
    requires WorkInv(s) && !(HelperEvent(e) || e.Tick? || e.Waiter?)
    ensures WorkInv(Step(s, e))
  {}

  lemma WorkStepEntering(s: Timer, e: Event)
    requires WorkInv(s) && e.Waiter? && !InLoop(s.waiter)
    ensures WorkInv(Step(s, e))
  {}

  lemma WorkStepLooping(s: Timer, e: Event)
    requires WorkInv(s) && e.Waiter? && InLoop(s.waiter)
    ensures WorkInv(Step(s, e))
  {}

  ghost predicate LoopInv(s: Timer) { ArmInv(s) && WorkInv(s) }

  lemma {:induction false} LoopStep(s: Timer, e: Event)
    requires LoopInv(s)
    ensures LoopInv(Step(s, e))
  {
    if HelperEvent(e) || e.Tick? {
      ArmStepHelper(s, e);
      WorkStepHelper(s, e);
    } else if e.Waiter? {
      if InLoop(s.waiter) {
        ArmStepLooping(s, e);
        WorkStepLooping(s, e);
      } else {
        ArmStepEntering(s, e);
        WorkStepEntering(s, e);
      }
    } else {
      ArmStepSelect(s, e);
      WorkStepSelect(s, e);
    }
  }

  lemma {:induction false} LoopRun(s: Timer, es: seq<Event>)
    requires LoopInv(s)
    ensures LoopInv(Run(s, es))
  {
    if es != [] {
      var g, e := Peel(s, es);
      LoopRun(s, g);
      LoopStep(Run(s, g), e);
    }
  }

  // ---------------------------------------------------------------- the theorems

  lemma StepTimesOut(s: Timer, e: Event)
    requires LoopInv(s)
    requires var w, w' := s.waiter, Step(s, e).waiter; w'.Returned? && !w.Returned?
    ensures var o := Step(s, e).waiter.outcome;
            && (o == IdleTimeout ==> s.waiter.IdleExpiry? && s.now > s.idleTimeout)
            && (o == ExceededMaxTime ==> s.waiter.TotalChecked? && !s.lastCheckResult && s.now >= s.totalDeadline)
            && Step(s, e).now == s.now
  {}

  /**
   IdleTimeout: strictly more than maxIdleTime has passed since the call began and since
   every Notify before, and the check was false in this round of the loop.
   */
  lemma {:induction false} IdleTimeoutIsSound(idle: int, total: int, start: int, es: seq<Event>, e: Event) returns (b: int, c: int)
    requires var s := New(idle, total, start);
             !Run(s, es).waiter.Returned? && Run(s, es + [e]).waiter == Returned(IdleTimeout)
    ensures var s := New(idle, total, start); var now := Run(s, es + [e]).now;
            && WaitBegan(s, es, b) && now - After(s, es, b).now > idle
            && (forall i :: 0 <= i < |es| && Touches(After(s, es, i), es[i]) ==> now - After(s, es, i).now > idle)
            && b < c && SawFalse(s, es, c)
  {
    var s := New(idle, total, start);
    AfterExtends(s, es, e);
    LoopRun(s, es);
    StepTimesOut(Run(s, es), e);
    var b', r, a := Origin(s, es);
    b := b';
    TouchBound(s, es);
    ClockBetween(s, es, b, a);
    c := ExpiryAfterFalse(s, es);
    FreshIsInside(s, es, b, c);
  }

  lemma FreshIsInside(s: Timer, es: seq<Event>, b: int, c: int)
    requires WaitBegan(s, es, b) && SawFalse(s, es, c)
    ensures b < c
  {
    CallEnters(s, es, b);
    var w := After(s, es, b + 1).waiter;
    assert !(w.IdleChecked? || w.IdleExpiry? || w.TotalChecked?);
  }

  lemma CallEnters(s: Timer, es: seq<Event>, b: nat)
    requires b < |es| && es[b].WaitCall? && Resting(After(s, es, b).waiter)
    ensures After(s, es, b + 1).waiter.FirstChecked?
  {
    assert es[..b + 1][..b] == es[..b];
  }

  /** ExceededMaxTime: at least maxTotalTime has passed since the call began, and the check was false. */
  lemma {:induction false} ExceededMaxTimeIsSound(idle: int, total: int, start: int, es: seq<Event>, e: Event) returns (b: int, c: int)
    requires var s := New(idle, total, start);
             !Run(s, es).waiter.Returned? && Run(s, es + [e]).waiter == Returned(ExceededMaxTime)
    ensures var s := New(idle, total, start);
            && WaitBegan(s, es, b) && Run(s, es + [e]).now - After(s, es, b).now >= total
            && b < c && SawFalse(s, es, c)
  {
    var s := New(idle, total, start);
    AfterExtends(s, es, e);
    LoopRun(s, es);
    StepTimesOut(Run(s, es), e);
    var b', r, a := Origin(s, es);
    b := b';
    ClockBetween(s, es, b, r);
    ClockBetween(s, es, r, |es|);
    c := ReadsFreshCheck(s, es);
    FreshIsInside(s, es, b, c);
  }

  /** Success is never invented: some evaluation of the check said true. */
  lemma {:induction false} SuccessHasTrueCheck(idle: int, total: int, start: int, es: seq<Event>)
    requires Run(New(idle, total, start), es).waiter == Returned(Nil)
    ensures exists c :: 0 <= c < |es| && Checks(After(New(idle, total, start), es, c), es[c]) && Result(es[c])
  {
    if NeverChecksTrue(New(idle, total, start), es) {
      NeverTrueDiscipline(idle, total, start, es);
    }
  }

  /**
   The wait ends: in any run the waiter re-arms at most once per Notify, apart from
   re-armings with the clock standing at the very deadline, and takes at most ten steps
   plus five per re-arming.
   */
  lemma {:induction false} WaitIsBounded(idle: int, total: int, start: int, es: seq<Event>)
    ensures var s := Run(New(idle, total, start), es); var h := s.hist;
            Waiting(s.waiter) || s.waiter.Returned?
            ==> h.rearms <= h.touches + h.exact && h.work <= 10 + 5 * (h.touches + h.exact)
  {
    LoopRun(New(idle, total, start), es);
  }

  predicate NoWaiterStep(g: seq<Event>) {
    forall e :: e in g ==> HelperEvent(e) || e.Tick?
  }

  /** What the waiter alone writes. */
  predicate WaiterFieldsKept(s: Timer, s': Timer) {
    && s'.waiter == s.waiter && s'.started == s.started
    && s'.totalDeadline == s.totalDeadline && s'.idleDeadline == s.idleDeadline
  }

  lemma {:induction false} OthersLeaveWaiter(s: Timer, g: seq<Event>)
    requires NoWaiterStep(g)
    ensures WaiterFieldsKept(s, Run(s, g))
  {
    if g != [] {
      var h, e := Peel(s, g);
      assert e in g && forall x :: x in h ==> x in g;
      OthersLeaveWaiter(s, h);
      StepLeavesWaiter(Run(s, h), e);
    }
  }

  lemma StepLeavesWaiter(s: Timer, e: Event)
    requires HelperEvent(e) || e.Tick?
    ensures WaiterFieldsKept(s, Step(s, e))
  {}

  /**
   At the total deadline the select has a ready case, and choosing it ends the wait after two
   more steps of the waiter, whatever the others do in between.
   */
  lemma {:induction false} DeadlineEndsWait(s: Timer, g: seq<Event>, c1: bool, h: seq<Event>, c2: bool)
    requires s.waiter.Selecting? && s.now >= s.totalDeadline
    requires NoWaiterStep(g) && NoWaiterStep(h)
    ensures Run(s, [FireTotal] + g + [Waiter(c1)] + h + [Waiter(c2)]).waiter.Returned?
  {
    var p1 := [FireTotal];
    assert p1[..0] == [];
    assert Run(s, p1) == Step(Run(s, []), FireTotal);
    RunConcat(s, p1, g);
    OthersLeaveWaiter(Run(s, p1), g);
    AfterExtends(s, p1 + g, Waiter(c1));
    RunConcat(s, p1 + g + [Waiter(c1)], h);
    OthersLeaveWaiter(Run(s, p1 + g + [Waiter(c1)]), h);
    AfterExtends(s, p1 + g + [Waiter(c1)] + h, Waiter(c2));
    TotalSteps(s, Run(s, p1 + g), c1, Run(s, p1 + g + [Waiter(c1)] + h), c2);
  }

  lemma TotalSteps(s: Timer, t: Timer, c1: bool, u: Timer, c2: bool)
    requires s.waiter.Selecting? && s.now >= s.totalDeadline
    ensures Step(s, FireTotal).waiter.TotalFired?
    ensures t.waiter.TotalFired? ==> Step(t, Waiter(c1)).waiter.TotalChecked?
    ensures u.waiter.TotalChecked? ==> Step(u, Waiter(c2)).waiter.Returned?
  {}

  // ---------------------------------------------------------------- checks belong to a wait

  /** No wait has been called, so nobody has got as far as evaluating the check. */
  ghost predicate Unstarted(s: Timer) {
    && !s.started
    && (s.waiter.Idle? || s.waiter.ResetStarted? || s.waiter.ResetCount?)
    && forall t :: !At(s, t, Check)
  }

  lemma UnstartedStep(s: Timer, e: Event)
    requires Unstarted(s) && !e.WaitCall?
    ensures Unstarted(Step(s, e)) && !Checks(s, e)
  {
    var s' := Step(s, e);
    forall t ensures !At(s', t, Check) {
      assert !At(s, t, Check);
    }
  }

  lemma {:induction false} UnstartedRun(s: Timer, es: seq<Event>)
    requires Unstarted(s) && forall e :: e in es ==> !e.WaitCall?
    ensures Unstarted(Run(s, es))
  {
    if es != [] {
      var g, e := Peel(s, es);
      assert e in es && forall x :: x in g ==> x in es;
      UnstartedRun(s, g);
      UnstartedStep(Run(s, g), e);
    }
  }

  /** Notifications before the first call of WaitForCompletion never evaluate the check. */
  lemma ChecksFollowAWait(idle: int, total: int, start: int, es: seq<Event>, c: nat)
    requires c < |es| && Checks(After(New(idle, total, start), es, c), es[c])
    ensures exists b :: 0 <= b <= c && es[b].WaitCall?
  {
    if forall b :: 0 <= b <= c ==> !es[b].WaitCall? {
      UnstartedRun(New(idle, total, start), es[..c]);
      UnstartedStep(After(New(idle, total, start), es, c), es[c]);
    }
  }
}
