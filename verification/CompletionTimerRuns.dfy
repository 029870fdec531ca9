/** What every run of the completion timer satisfies. */
module CompletionTimerRuns {
  import opened GoBasics
  import opened CompletionTimerMachine

  // ---------------------------------------------------------------- the two usages in the repository

  predicate NoReset(es: seq<Event>) { ResetCall !in es }

  /** Does `e` evaluate `check` in state `s`? */
  predicate Checks(s: Timer, e: Event) {
    || (e.WaitCall? && Resting(s.waiter))
    || (e.Waiter? && (s.waiter.TotalFired? || s.waiter.IdleFired?))
    || (e.Helper? && At(s, e.t, Check))
  }

  function Result(e: Event): bool
    requires e.WaitCall? || e.Waiter? || e.Helper?
  {
    e.check
  }

  /** Every evaluation of `check` in the schedule says false, as in a timer created without a check. */
  ghost predicate NeverChecksTrue(s: Timer, es: seq<Event>) {
    forall k :: 0 <= k < |es| && Checks(After(s, es, k), es[k]) ==> !Result(es[k])
  }

  lemma StepCleared(s: Timer, e: Event)
    requires !e.ResetCall?
    ensures Step(s, e).hist.cleared == s.hist.cleared
    ensures 1 <= s.done <= 2 ==> Step(s, e).done == s.done
  {
    if HelperEvent(e) {
      HelperFrame(s, e);
      HelperCloses(s, e);
    } else {
      WaiterDone(s, e);
    }
  }

  lemma {:induction false} NoResetNoClearing(s: Timer, es: seq<Event>)
    requires NoReset(es)
    ensures Run(s, es).hist.cleared == s.hist.cleared
    ensures 1 <= s.done <= 2 ==> Run(s, es).done == s.done
  {
    if es != [] {
      var g, e := Peel(s, es);
      assert e in es && forall x :: x in g ==> x in es;
      NoResetNoClearing(s, g);
      StepCleared(Run(s, g), e);
    }
  }

  /**
   A timer that is never Reset, as the session timer: `done` leaves 0 at most once and keeps
   its value, and doneChan is closed at most once and only because `done` left 0.
   */
  lemma {:induction false} NeverResetDiscipline(idle: int, total: int, now: int, es: seq<Event>, fs: seq<Event>)
    requires NoReset(es) && NoReset(fs)
    ensures var s := Run(New(idle, total, now), es);
            && s.doneCloses + |Closers(s)| == (if s.done != 0 then 1 else 0)
            && (s.done != 0 ==> Run(New(idle, total, now), es + fs).done == s.done)
  {
    CloseAccounting(idle, total, now, es);
    NoResetNoClearing(New(idle, total, now), es);
    NoResetNoClearing(Run(New(idle, total, now), es), fs);
    RunConcat(New(idle, total, now), es, fs);
  }

  /** Nothing has said true, and whoever claims a success would need that. */
  ghost predicate NoSuccess(s: Timer) {
    && !s.lastCheckResult
    && s.done != 1
    && s.hist.cleared == 0
    && s.waiter != Returned(Nil)
    && forall t :: !At(s, t, Swap) && !At(s, t, NotifyClose)
  }

  lemma NoSuccessStep(s: Timer, e: Event)
    requires NoSuccess(s) && (Checks(s, e) ==> !Result(e))
    ensures NoSuccess(Step(s, e))
  {
    if HelperEvent(e) {
      NoSuccessHelper(s, e);
    } else {
      WaiterFrame(s, e);
      WaiterDone(s, e);
      NoSuccessWaiter(s, e);
      assert forall t, pc :: At(Step(s, e), t, pc) == At(s, t, pc);
    }
  }

  lemma NoSuccessHelper(s: Timer, e: Event)
    requires NoSuccess(s) && (Checks(s, e) ==> !Result(e)) && HelperEvent(e)
    ensures NoSuccess(Step(s, e))
  {
    var s' := Step(s, e);
    if e.t in s.helpers {
      assert At(s, e.t, s.helpers[e.t]);
    }
    forall t ensures !At(s', t, Swap) && !At(s', t, NotifyClose) {
      assert !At(s, t, Swap) && !At(s, t, NotifyClose);
    }
  }

  lemma NoSuccessWaiter(s: Timer, e: Event)
    requires NoSuccess(s) && (Checks(s, e) ==> !Result(e)) && !HelperEvent(e)
    ensures !Step(s, e).lastCheckResult && Step(s, e).waiter != Returned(Nil)
  {}

  lemma {:induction false} NoSuccessRun(s: Timer, es: seq<Event>)
    requires NoSuccess(s) && NeverChecksTrue(s, es)
    ensures NoSuccess(Run(s, es))
  {
    if es != [] {
      var g, e := Peel(s, es);
      assert NeverChecksTrue(s, g);
      NoSuccessRun(s, g);
      assert After(s, es, |g|) == Run(s, g) && es[|g|] == e;
      NoSuccessStep(Run(s, g), e);
    }
  }

  /**
   A timer whose check never says true, as the network activity timer, Reset any number of
   times: `done` is never 1, no wait reports success, doneChan is closed at most once, only
   because of Cancel, and once Cancel has acted every later Reset leaves it in force.
   */
  lemma {:induction false} NeverTrueDiscipline(idle: int, total: int, now: int, es: seq<Event>)
    requires NeverChecksTrue(New(idle, total, now), es)
    ensures var s := Run(New(idle, total, now), es);
            && s.done != 1 && s.waiter != Returned(Nil)
            && s.doneCloses <= 1
            && (s.doneCloses > 0 ==> s.done == 2)
            && forall fs :: NeverChecksTrue(s, fs) && s.done == 2 ==> Run(s, fs).done == 2
  {
    var s0 := New(idle, total, now);
    NoSuccessRun(s0, es);
    CloseAccounting(idle, total, now, es);
    var s := Run(s0, es);
    forall fs | NeverChecksTrue(s, fs) && s.done == 2
      ensures Run(s, fs).done == 2
    {
      CancelSurvives(s, fs);
    }
  }

  lemma {:induction false} CancelSurvives(s: Timer, fs: seq<Event>)
    requires NoSuccess(s) && NeverChecksTrue(s, fs) && s.done == 2
    ensures Run(s, fs).done == 2
  {
    if fs != [] {
      var g, e := Peel(s, fs);
      assert NeverChecksTrue(s, g);
      CancelSurvives(s, g);
      if HelperEvent(e) {
        HelperCloses(Run(s, g), e);
      } else {
        WaiterDone(Run(s, g), e);
      }
    }
  }

  // ---------------------------------------------------------------- when a second close can happen

  /** From `s`, goroutines that have won their swap can close doneChan, one after the other. */
  lemma {:induction false} Drain(s: Timer) returns (fs: seq<Event>)
    requires CloseInv(s)
    ensures NoReset(fs) && CloseInv(Run(s, fs)) && Closers(Run(s, fs)) == {}
    ensures Run(s, fs).hist.cleared == s.hist.cleared
    ensures 1 <= s.done <= 2 ==> Run(s, fs).done == s.done
    decreases |Closers(s)|
  {
    if Closers(s) == {} {
      fs := [];
    } else {
      var t :| t in Closers(s);
      var e := Helper(t, false);
      HelperFrame(s, e);
      CloseStep(s, e);
      StepCleared(s, e);
      DifferAtOne(Closers(s), Closers(Step(s, e)), t);
      var gs := Drain(Step(s, e));
      fs := [e] + gs;
      assert [e][..0] == [];
      assert Run(s, [e]) == Step(Run(s, []), e);
      RunConcat(s, [e], gs);
    }
  }

  /** Nobody resets the timer again; can doneChan still be closed a second time, which panics? */
  ghost predicate MayCloseTwice(s: Timer) {
    exists fs :: NoReset(fs) && Run(s, fs).doneCloses >= 2
  }

  /**
   Outside the two usages the code is exposed exactly when a Reset has ever found `done` at
   1: it clears the word and does not reopen the channel.
   */
  lemma {:induction false} SecondCloseExactlyWhen(idle: int, total: int, now: int, es: seq<Event>)
    ensures var s := Run(New(idle, total, now), es);
            MayCloseTwice(s) <==> s.hist.cleared >= 1
  {
    CloseAccounting(idle, total, now, es);
    var s := Run(New(idle, total, now), es);
    if s.hist.cleared >= 1 {
      var t := FreshTid(s.helpers.Keys);
      var c := CancelCall(t);
      CloseStep(s, c);
      StepCleared(s, c);
      var gs := Drain(Step(s, c));
      assert [c][..0] == [];
      assert Run(s, [c]) == Step(Run(s, []), c);
      RunConcat(s, [c], gs);
      assert NoReset([c] + gs);
      assert Run(s, [c] + gs).doneCloses >= 2;
    } else {
      forall fs | NoReset(fs) ensures Run(s, fs).doneCloses < 2 {
        CloseRun(s, fs);
        NoResetNoClearing(s, fs);
      }
    }
  }

  // ---------------------------------------------------------------- a run that closes twice

  lemma RunMore(s0: Timer, es: seq<Event>, s: Timer, e: Event)
    requires Run(s0, es) == s
    ensures Run(s0, es + [e]) == Step(s, e)
  {
    AfterExtends(s0, es, e);
  }

  lemma IntoSelect(s0: Timer) returns (es: seq<Event>, s: Timer)
    requires s0 == New(0, 0, 0)
    ensures s == Run(s0, es) && s.waiter.Selecting? && s.started && s.done == 0 && s.helpers == map[] && s.now >= s.totalDeadline
  {
    es, s := [], s0;
    for k := 0 to 6
      invariant s == Run(s0, es) && s.done == 0 && s.helpers == map[] && s.now == 0 && s.maxTotalTime == 0
      invariant s.waiter == [Idle, FirstChecked, ArmTotal, FirstTouch, ArmIdle, MarkStarted, Selecting][k]
      invariant k == 1 ==> !s.lastCheckResult
      invariant k >= 3 ==> s.totalDeadline == 0
      invariant k == 6 ==> s.started
    {
      var e := if k == 0 then WaitCall(false) else Waiter(false);
      RunMore(s0, es, s, e);
      es, s := es + [e], Step(s, e);
    }
  }

  /** A notification whose check says true wins the swap. */
  lemma NotifyWins(s0: Timer, es0: seq<Event>, s1: Timer) returns (es: seq<Event>, s: Timer)
    requires s1 == Run(s0, es0) && s1.waiter.Selecting? && s1.started && s1.done == 0 && s1.helpers == map[]
    requires s1.now >= s1.totalDeadline
    ensures s == Run(s0, es) && s.waiter.Selecting? && s.done == 1 && s.now >= s.totalDeadline
  {
    es, s := es0, s1;
    for k := 0 to 6
      invariant s == Run(s0, es) && s.waiter.Selecting? && s.started && s.now >= s.totalDeadline
      invariant k == 0 ==> s.helpers == map[]
      invariant k > 0 ==> 1 in s.helpers && s.helpers[1] == [Touch, ReadStarted, Check, ReadCheck, Swap, NotifyClose][k - 1]
      invariant k == 4 ==> s.lastCheckResult
      invariant s.done == if k == 6 then 1 else 0
    {
      var e := if k == 0 then NotifyCall(1) else Helper(1, true);
      RunMore(s0, es, s, e);
      es, s := es + [e], Step(s, e);
    }
  }

  /** The total timer ends the wait, and Reset clears the success. */
  lemma ResetClears(s0: Timer, es0: seq<Event>, s1: Timer) returns (es: seq<Event>)
    requires s1 == Run(s0, es0) && s1.waiter.Selecting? && s1.done == 1 && s1.now >= s1.totalDeadline
    ensures Run(s0, es).hist.cleared >= 1 && Run(s0, es).done == 0
  {
    es := es0;
    var s := s1;
    var steps := [FireTotal, Waiter(true), Waiter(true), ResetCall];
    for k := 0 to 4
      invariant s == Run(s0, es) && (k < 4 ==> s.done == 1)
      invariant k == 0 ==> s.waiter.Selecting? && s.now >= s.totalDeadline
      invariant k == 1 ==> s.waiter.TotalFired?
      invariant k == 2 ==> s.waiter.TotalChecked?
      invariant k == 3 ==> s.waiter.Returned?
      invariant k == 4 ==> s.hist.cleared >= 1 && s.done == 0
    {
      RunMore(s0, es, s, steps[k]);
      es, s := es + [steps[k]], Step(s, steps[k]);
    }
  }

  /** So there is a run of a timer that is used in neither of the two ways and closes its channel twice. */
  lemma ClosesTwice() returns (es: seq<Event>)
    ensures Run(New(0, 0, 0), es).doneCloses >= 2
  {
    var s0 := New(0, 0, 0);
    var e1, s1 := IntoSelect(s0);
    var e2, s2 := NotifyWins(s0, e1, s1);
    var e3 := ResetClears(s0, e2, s2);
    SecondCloseExactlyWhen(0, 0, 0, e3);
    var fs :| NoReset(fs) && Run(Run(s0, e3), fs).doneCloses >= 2;
    RunConcat(s0, e3, fs);
    es := e3 + fs;
  }

  lemma FreshTid(ts: set<Tid>) returns (t: Tid)
    ensures t !in ts
  {
    t := 0;
    var seen: set<Tid> := {};
    while t in ts
      invariant seen == (set u: Tid | u in ts && u < t)
      invariant seen <= ts
      decreases ts - seen
    {
      seen := seen + {t};
      t := t + 1;
    }
  }
}
