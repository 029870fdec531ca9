/**
 syncx/completiontimer.go in its own shape: an object whose methods update its fields, with
 the other goroutines running, as the caller's `env` says, between any two statements. The
 object records the schedule it has been through; `Valid` says that its fields are what
 that schedule of `CompletionTimerMachine` gives, so the results about all schedules hold
 at every point of these methods.
 */
module CompletionTimers {
  import opened GoBasics
  import opened CompletionTimerMachine
  import opened CompletionTimerRuns
  import opened CompletionTimerTimeouts
  import opened CompletionTimerOutcomes

  datatype SelectCase = TotalTimer | IdleTimer | DoneChan

  /** A schedule in which helper `me` takes no step. */
  predicate ByOthers(me: Tid, env: seq<Event>) {
    forall e :: e in env && HelperEvent(e) ==> e.t != me
  }

  /** The steps of others leave helper `me` where it is. */
  lemma {:induction false} OthersLeaveMe(s: Timer, me: Tid, env: seq<Event>)
    requires ByOthers(me, env)
    ensures me in Run(s, env).helpers <==> me in s.helpers
    ensures me in s.helpers ==> Run(s, env).helpers[me] == s.helpers[me]
  {
    if env != [] {
      var g, e := Peel(s, env);
      assert e in env && forall x :: x in g ==> x in env;
      OthersLeaveMe(s, me, g);
      StepLeavesMe(Run(s, g), me, e);
    }
  }

  lemma StepLeavesMe(s: Timer, me: Tid, e: Event)
    requires HelperEvent(e) ==> e.t != me
    ensures me in Step(s, e).helpers <==> me in s.helpers
    ensures me in s.helpers ==> Step(s, e).helpers[me] == s.helpers[me]
  {}

  // ---------------------------------------------------------------- the schedules of whole calls

  /** What Notify still does from where helper `me` stands, with the others running before each of its steps. */
  function HelperSchedule(s: Timer, me: Tid, check: bool, env: nat -> seq<Event>, k: nat): seq<Event>
    decreases 6 - k
  {
    if k >= 6 || me !in s.helpers then []
    else
      var s1 := Run(s, env(k));
      var e := Helper(me, check && At(s1, me, Check));
      env(k) + [e] + HelperSchedule(Step(s1, e), me, check, env, k + 1)
  }

  /** What the waiter does until it blocks in the select or returns, in at most `n` steps. */
  function WaiterSchedule(s: Timer, check: bool, env: nat -> seq<Event>, k: nat, n: nat): seq<Event>
    decreases n
  {
    if n == 0 || s.waiter.Selecting? || s.waiter.Returned? then []
    else
      var s1 := Run(s, env(k));
      var e := Waiter(check && (s1.waiter.TotalFired? || s1.waiter.IdleFired?));
      env(k) + [e] + WaiterSchedule(Step(s1, e), check, env, k + 1, n - 1)
  }

  predicate Ready(s: Timer, c: SelectCase) {
    match c
    case TotalTimer => s.now >= s.totalDeadline
    case IdleTimer => s.now >= s.idleDeadline
    case DoneChan => s.doneCloses > 0
  }

  function Fires(c: SelectCase): Event {
    match c case TotalTimer => FireTotal case IdleTimer => FireIdle case DoneChan => TakeDone
  }

  /** One turn of the loop: if the case is ready it is taken, and what follows it is done. */
  function TurnSchedule(s: Timer, c: SelectCase, check: bool, env: nat -> seq<Event>, k: nat): seq<Event> {
    var s1 := Run(s, env(k));
    if !Ready(s1, c) then env(k)
    else env(k) + [Fires(c)] + WaiterSchedule(Step(s1, Fires(c)), check, env, k + 1, 4)
  }

  /** The loop of lines 90 to 117, from the `i`-th choice on. */
  function LoopSchedule(s: Timer, check: nat -> bool, choices: seq<SelectCase>, env: nat -> seq<Event>, i: nat): seq<Event>
    decreases |choices| - i
  {
    if i >= |choices| || s.waiter.Returned? then []
    else
      var turn := TurnSchedule(s, choices[i], check(i + 1), env, 5 + 5 * i);
      turn + LoopSchedule(Run(s, turn), check, choices, env, i + 1)
  }

  /** Lines 82 to 117. */
  function AfterCheckSchedule(s: Timer, check: nat -> bool, choices: seq<SelectCase>, env: nat -> seq<Event>): seq<Event> {
    var entry := WaiterSchedule(s, false, env, 0, 5);
    entry + LoopSchedule(Run(s, entry), check, choices, env, 0)
  }

  lemma EntrySplit(t: seq<Event>, s: Timer, s1: Timer, check: nat -> bool, choices: seq<SelectCase>, env: nat -> seq<Event>)
    requires s1 == Run(s, WaiterSchedule(s, false, env, 0, 5))
    ensures t + AfterCheckSchedule(s, check, choices, env)
            == t + WaiterSchedule(s, false, env, 0, 5) + LoopSchedule(s1, check, choices, env, 0)
  {
    var entry, rest := WaiterSchedule(s, false, env, 0, 5), LoopSchedule(s1, check, choices, env, 0);
    assert t + (entry + rest) == t + entry + rest;
  }

  lemma TurnSplit(t: seq<Event>, s: Timer, s1: Timer, check: nat -> bool, choices: seq<SelectCase>, env: nat -> seq<Event>, i: nat)
    requires i < |choices| && !s.waiter.Returned?
    requires s1 == Run(s, TurnSchedule(s, choices[i], check(i + 1), env, 5 + 5 * i))
    ensures t + LoopSchedule(s, check, choices, env, i)
            == t + TurnSchedule(s, choices[i], check(i + 1), env, 5 + 5 * i) + LoopSchedule(s1, check, choices, env, i + 1)
  {
    var turn, rest := TurnSchedule(s, choices[i], check(i + 1), env, 5 + 5 * i), LoopSchedule(s1, check, choices, env, i + 1);
    assert t + (turn + rest) == t + turn + rest;
  }

  lemma NothingLeft(s: Timer, check: nat -> bool, choices: seq<SelectCase>, env: nat -> seq<Event>, i: nat)
    requires i >= |choices| || s.waiter.Returned?
    ensures LoopSchedule(s, check, choices, env, i) == []
  {}

  lemma WaiterSplit(t: seq<Event>, s: Timer, s1: Timer, e: Event, s2: Timer, check: bool, env: nat -> seq<Event>, k: nat, n: nat)
    requires n > 0 && !s.waiter.Selecting? && !s.waiter.Returned? && s1 == Run(s, env(k)) && s2 == Step(s1, e)
    requires e == Waiter(check && (s1.waiter.TotalFired? || s1.waiter.IdleFired?))
    ensures t + WaiterSchedule(s, check, env, k, n) == t + env(k) + [e] + WaiterSchedule(s2, check, env, k + 1, n - 1)
  {
    Regroup(t, env(k), [e], WaiterSchedule(s2, check, env, k + 1, n - 1));
  }

  lemma TurnIs(t: seq<Event>, s: Timer, s1: Timer, c: SelectCase, check: bool, env: nat -> seq<Event>, k: nat)
    requires s1 == Run(s, env(k))
    ensures Ready(s1, c) ==> t + TurnSchedule(s, c, check, env, k)
                             == t + env(k) + [Fires(c)] + WaiterSchedule(Step(s1, Fires(c)), check, env, k + 1, 4)
    ensures !Ready(s1, c) ==> TurnSchedule(s, c, check, env, k) == env(k)
  {
    Regroup(t, env(k), [Fires(c)], WaiterSchedule(Step(s1, Fires(c)), check, env, k + 1, 4));
  }

  lemma WaiterStops(s: Timer, check: bool, env: nat -> seq<Event>, k: nat, n: nat)
    requires s.waiter.Selecting? || s.waiter.Returned?
    ensures WaiterSchedule(s, check, env, k, n) == []
  {}

  lemma Regroup(a: seq<Event>, b: seq<Event>, c: seq<Event>, d: seq<Event>)
    ensures ((a + b) + c) + d == a + ((b + c) + d)
  {}

  /** None of the first `n` cases offered was doneChan. */
  predicate NoneIsDone(choices: seq<SelectCase>, n: nat) {
    forall i :: 0 <= i < |choices| && i < n ==> choices[i] != DoneChan
  }

  class CompletionTimer {
    const maxIdleTime: int
    const maxTotalTime: int
    const createdAt: int
    var now: int
    var lastCheckResult: bool
    var totalDeadline: int
    var idleDeadline: int
    var idleTimeout: int
    var started: bool
    var done: int
    var doneCloses: nat
    var notifyCount: int
    var waiter: WaiterPc              // where the goroutines are; the source keeps this on their stacks
    var helpers: map<Tid, HelperPc>
    var hist: History
    ghost var trace: seq<Event>

    ghost function View(): Timer
      reads this
    {
      Timer(maxIdleTime, maxTotalTime, now, lastCheckResult, totalDeadline, idleDeadline, idleTimeout, started,
            done, doneCloses, notifyCount, waiter, helpers, hist)
    }

    ghost predicate Valid()
      reads this
    {
      View() == Run(New(maxIdleTime, maxTotalTime, createdAt), trace)
    }

    constructor (maxIdleTime: int, maxTotalTime: int, now: int)
      ensures Valid() && trace == []
      ensures this.maxIdleTime == maxIdleTime && this.maxTotalTime == maxTotalTime && createdAt == now
    {
      this.maxIdleTime, this.maxTotalTime, createdAt, this.now := maxIdleTime, maxTotalTime, now, now;
      lastCheckResult, totalDeadline, idleDeadline, idleTimeout := false, 0, 0, 0;
      started, done, doneCloses, notifyCount := false, 0, 0, 0;
      waiter, helpers, hist := Idle, map[], History(0, 0, 0, 0, 0, 0, 0, 0);
      trace := [];
    }

    /** What the other goroutines make of the state. */
    static method Simulate(s0: Timer, env: seq<Event>) returns (s: Timer)
      ensures s == Run(s0, env)
    {
      s := s0;
      for i := 0 to |env|
        invariant s == Run(s0, env[..i])
      {
        assert env[..i + 1] == env[..i] + [env[i]];
        AfterExtends(s0, env[..i], env[i]);
        s := Step(s, env[i]);
      }
      assert env[..|env|] == env;
    }

    method Become(s: Timer)
      requires s.maxIdleTime == maxIdleTime && s.maxTotalTime == maxTotalTime
      modifies this
      ensures View() == s && trace == old(trace)
    {
      now, lastCheckResult, totalDeadline, idleDeadline := s.now, s.lastCheckResult, s.totalDeadline, s.idleDeadline;
      idleTimeout, started, done, doneCloses := s.idleTimeout, s.started, s.done, s.doneCloses;
      notifyCount, waiter, helpers, hist := s.notifyCount, s.waiter, s.helpers, s.hist;
    }

    /** The other goroutines run. */
    method Interfere(env: seq<Event>)
      requires Valid()
      modifies this
      ensures Valid() && trace == old(trace) + env
      ensures View() == Run(old(View()), env)
    {
      Limits(View(), env);
      RunConcat(New(maxIdleTime, maxTotalTime, createdAt), trace, env);
      var s := Simulate(Timer(maxIdleTime, maxTotalTime, now, lastCheckResult, totalDeadline, idleDeadline,
                              idleTimeout, started, done, doneCloses, notifyCount, waiter, helpers, hist), env);
      Become(s);
      trace := trace + env;
    }

    /** Records that the fields have just been changed as `e` says. */
    ghost method Record(e: Event, before: Timer)
      requires before == Run(New(maxIdleTime, maxTotalTime, createdAt), trace)
      requires View() == Step(before, e)
      modifies this`trace
      ensures Valid() && trace == old(trace) + [e]
    {
      AfterExtends(New(maxIdleTime, maxTotalTime, createdAt), trace, e);
      trace := trace + [e];
    }

    /** The last recorded event made the waiter return. */
    ghost predicate Ended()
      reads this
    {
      && trace != [] && waiter.Returned?
      && !Run(New(maxIdleTime, maxTotalTime, createdAt), trace[..|trace| - 1]).waiter.Returned?
    }

    /** What the fields say when a wait ends with `o`. */
    ghost predicate Explains(o: Outcome)
      reads this
    {
      match o
      case Nil => lastCheckResult || done == 1
      case Cancelled => done != 1
      case ExceededMaxTime => !lastCheckResult && now >= totalDeadline
      case IdleTimeout => now > idleTimeout
    }

    // ------------------------------------------------------------ between two statements

    /** The others run while helper `me` stands between two statements. */
    method Pause(me: Tid, env: seq<Event>)
      requires Valid() && me in helpers && ByOthers(me, env)
      modifies this
      ensures Valid() && trace == old(trace) + env && View() == Run(old(View()), env)
      ensures me in helpers && helpers[me] == old(helpers[me])
    {
      OthersLeaveMe(View(), me, env);
      Interfere(env);
    }

    /** The others run while the waiter stands between two statements. */
    method Hold(env: seq<Event>)
      requires Valid() && NoWaiterStep(env)
      modifies this
      ensures Valid() && trace == old(trace) + env && View() == Run(old(View()), env)
      ensures waiter == old(waiter) && now >= old(now)
      ensures totalDeadline == old(totalDeadline) && idleDeadline == old(idleDeadline) && started == old(started)
    {
      OthersLeaveWaiter(View(), env);
      ClockMonotone(View(), env);
      assert After(View(), env, 0) == View();
      Interfere(env);
    }

    // ------------------------------------------------------------ Notify and Cancel, statement by statement

    method CountNotification(me: Tid)
      requires Valid() && me !in helpers
      modifies this
      ensures Valid() && trace == old(trace) + [NotifyCall(me)]
      ensures View() == Step(old(View()), NotifyCall(me))
      ensures me in helpers && helpers[me] == Touch
    {
      ghost var before := View();
      var n := Int32(notifyCount + 1);
      notifyCount := n;
      helpers, hist := helpers[me := Touch], hist.(notifies := hist.notifies + 1);
      Record(NotifyCall(me), before);
    }

    method SetIdleTimeout(me: Tid)
      requires Valid() && me in helpers && helpers[me] == Touch
      modifies this
      ensures Valid() && trace == old(trace) + [Helper(me, false)]
      ensures View() == Step(old(View()), Helper(me, false))
      ensures me in helpers && helpers[me] == ReadStarted
    {
      ghost var before := View();
      idleTimeout := now + maxIdleTime;
      helpers, hist := helpers[me := ReadStarted], hist.(touches := hist.touches + 1);
      Record(Helper(me, false), before);
    }

    method IsStarted(me: Tid) returns (b: bool)
      requires Valid() && me in helpers && helpers[me] == ReadStarted
      modifies this
      ensures Valid() && trace == old(trace) + [Helper(me, false)]
      ensures View() == Step(old(View()), Helper(me, false))
      ensures if b then me in helpers && helpers[me] == Check else me !in helpers
    {
      ghost var before := View();
      b := started;
      helpers := if b then helpers[me := Check] else helpers - {me};
      Record(Helper(me, false), before);
    }

    method EvaluateCheck(me: Tid, check: bool)
      requires Valid() && me in helpers && helpers[me] == Check
      modifies this
      ensures Valid() && trace == old(trace) + [Helper(me, check)]
      ensures View() == Step(old(View()), Helper(me, check))
      ensures me in helpers && helpers[me] == ReadCheck
    {
      ghost var before := View();
      lastCheckResult := check;
      helpers := helpers[me := ReadCheck];
      Record(Helper(me, check), before);
    }

    method LastCheckResult(me: Tid) returns (b: bool)
      requires Valid() && me in helpers && helpers[me] == ReadCheck
      modifies this
      ensures Valid() && trace == old(trace) + [Helper(me, false)]
      ensures View() == Step(old(View()), Helper(me, false))
      ensures if b then me in helpers && helpers[me] == Swap else me !in helpers
    {
      ghost var before := View();
      b := lastCheckResult;
      helpers := if b then helpers[me := Swap] else helpers - {me};
      Record(Helper(me, false), before);
    }

    method SwapToSuccess(me: Tid) returns (swapped: bool)
      requires Valid() && me in helpers && helpers[me] == Swap
      modifies this
      ensures Valid() && trace == old(trace) + [Helper(me, false)]
      ensures View() == Step(old(View()), Helper(me, false))
      ensures if swapped then me in helpers && helpers[me] == NotifyClose else me !in helpers
    {
      ghost var before := View();
      swapped := done == 0;
      if swapped {
        done := 1;
      }
      helpers := if swapped then helpers[me := NotifyClose] else helpers - {me};
      Record(Helper(me, false), before);
    }

    method SwapToCancelled(me: Tid) returns (swapped: bool)
      requires Valid() && me !in helpers
      modifies this
      ensures Valid() && trace == old(trace) + [CancelCall(me)]
      ensures View() == Step(old(View()), CancelCall(me))
      ensures if swapped then me in helpers && helpers[me] == CancelClose else me !in helpers
    {
      ghost var before := View();
      swapped := done == 0;
      if swapped {
        done := 2;
        helpers := helpers[me := CancelClose];
      }
      Record(CancelCall(me), before);
    }

    method CloseDoneChan(me: Tid)
      requires Valid() && me in helpers && (helpers[me] == NotifyClose || helpers[me] == CancelClose)
      modifies this
      ensures Valid() && trace == old(trace) + [Helper(me, false)]
      ensures View() == Step(old(View()), Helper(me, false))
      ensures me !in helpers
    {
      ghost var before := View();
      doneCloses := doneCloses + 1;
      helpers := helpers - {me};
      Record(Helper(me, false), before);
    }

    /** Lines 71 to 77. */
    method CheckAndSucceed(me: Tid, check: bool, env: nat -> seq<Event>)
      requires Valid() && me in helpers && helpers[me] == Check && forall k :: ByOthers(me, env(k))
      modifies this
      ensures Valid() && me !in helpers
      ensures trace == old(trace) + HelperSchedule(old(View()), me, check, env, 2)
    {
      ghost var t := trace;
      Pause(me, env(2));
      EvaluateCheck(me, check);
      ghost var rest := HelperSchedule(View(), me, check, env, 3);
      Regroup(t, env(2), [Helper(me, check)], rest);
      Respond(me, check, env);
    }

    /** Lines 72 to 77. */
    method Respond(me: Tid, check: bool, env: nat -> seq<Event>)
      requires Valid() && me in helpers && helpers[me] == ReadCheck && forall k :: ByOthers(me, env(k))
      modifies this
      ensures Valid() && me !in helpers
      ensures trace == old(trace) + HelperSchedule(old(View()), me, check, env, 3)
    {
      ghost var t := trace;
      Pause(me, env(3));
      var b := LastCheckResult(me);
      ghost var rest := HelperSchedule(View(), me, check, env, 4);
      Regroup(t, env(3), [Helper(me, false)], rest);
      if b {
        Succeed(me, check, env);
      }
    }

    /** Lines 73 to 75. */
    method Succeed(me: Tid, ghost check: bool, env: nat -> seq<Event>)
      requires Valid() && me in helpers && helpers[me] == Swap && forall k :: ByOthers(me, env(k))
      modifies this
      ensures Valid() && me !in helpers
      ensures trace == old(trace) + HelperSchedule(old(View()), me, check, env, 4)
    {
      ghost var t := trace;
      Pause(me, env(4));
      var b := SwapToSuccess(me);
      ghost var rest := HelperSchedule(View(), me, check, env, 5);
      Regroup(t, env(4), [Helper(me, false)], rest);
      if b {
        CloseAtLast(me, check, env);
      }
    }

    /** Line 74. */
    method CloseAtLast(me: Tid, ghost check: bool, env: nat -> seq<Event>)
      requires Valid() && me in helpers && helpers[me] == NotifyClose && ByOthers(me, env(5))
      modifies this
      ensures Valid() && me !in helpers
      ensures trace == old(trace) + HelperSchedule(old(View()), me, check, env, 5)
    {
      ghost var t := trace;
      Pause(me, env(5));
      CloseDoneChan(me);
      Regroup(t, env(5), [Helper(me, false)], []);
    }

    /**
     `check` is what the check says if it is evaluated; `env(k)` is what the others do at the
     k-th pause. The schedule settles when the check is evaluated and its result acted on.
     */
    method Notify(me: Tid, check: bool, env: nat -> seq<Event>)
      requires Valid() && me !in helpers && forall k :: ByOthers(me, env(k))
      modifies this
      ensures Valid() && me !in helpers
      ensures trace == old(trace) + [NotifyCall(me)] + HelperSchedule(Step(old(View()), NotifyCall(me)), me, check, env, 0)
    {
      CountNotification(me);
      FromTouch(me, check, env);
    }

    /** Lines 65 to 77. */
    method FromTouch(me: Tid, check: bool, env: nat -> seq<Event>)
      requires Valid() && me in helpers && helpers[me] == Touch && forall k :: ByOthers(me, env(k))
      modifies this
      ensures Valid() && me !in helpers
      ensures trace == old(trace) + HelperSchedule(old(View()), me, check, env, 0)
    {
      ghost var t := trace;
      Pause(me, env(0));
      SetIdleTimeout(me);
      Regroup(t, env(0), [Helper(me, false)], HelperSchedule(View(), me, check, env, 1));
      LookAtStarted(me, check, env);
    }

    /** Lines 67 to 77. */
    method LookAtStarted(me: Tid, check: bool, env: nat -> seq<Event>)
      requires Valid() && me in helpers && helpers[me] == ReadStarted && forall k :: ByOthers(me, env(k))
      modifies this
      ensures Valid() && me !in helpers
      ensures trace == old(trace) + HelperSchedule(old(View()), me, check, env, 1)
    {
      ghost var t := trace;
      Pause(me, env(1));
      var b := IsStarted(me);
      Regroup(t, env(1), [Helper(me, false)], HelperSchedule(View(), me, check, env, 2));
      if b {
        CheckAndSucceed(me, check, env);
      }
    }

    method Cancel(me: Tid, env: seq<Event>)
      requires Valid() && me !in helpers && ByOthers(me, env)
      modifies this
      ensures Valid() && me !in helpers
      ensures trace == old(trace) + [CancelCall(me)] + (if old(done) == 0 then env + [Helper(me, false)] else [])
    {
      var swapped := SwapToCancelled(me);
      if swapped {
        Pause(me, env);
        CloseDoneChan(me);
      }
    }

    // ------------------------------------------------------------ WaitForCompletion and Reset, statement by statement

    method FirstCheck(check: bool)
      requires Valid() && Resting(waiter)
      modifies this
      ensures Valid() && trace == old(trace) + [WaitCall(check)] && waiter.FirstChecked?
      ensures View() == Step(old(View()), WaitCall(check))
      ensures now == old(now)
    {
      ghost var before := View();
      lastCheckResult := check;
      waiter, hist := FirstChecked, hist.(touches := 0, armed := 0, rearms := 0, exact := 0, work := 1);
      Record(WaitCall(check), before);
    }

    /** Lines 82, 94 and 101 all read the field that any goroutine may have written. */
    method ReadResult() returns (b: bool)
      requires Valid() && HasChecked(waiter)
      modifies this
      ensures waiter.Returned? ==> Ended()
      ensures Valid() && trace == old(trace) + [Waiter(false)] && now == old(now)
      ensures View() == Step(old(View()), Waiter(false))
      ensures waiter == (if b then Returned(Nil)
                         else match old(waiter)
                           case FirstChecked => ArmTotal
                           case IdleChecked => IdleExpiry
                           case _ => Returned(ExceededMaxTime))
      ensures b == lastCheckResult
    {
      ghost var before := View();
      b := lastCheckResult;
      if b {
        waiter := Returned(Nil);
      } else if waiter.FirstChecked? {
        waiter := ArmTotal;
      } else if waiter.IdleChecked? {
        waiter := IdleExpiry;
      } else {
        waiter := Returned(ExceededMaxTime);
      }
      hist := hist.(work := hist.work + 1);
      Record(Waiter(false), before);
      assert trace[..|trace| - 1] == old(trace);
    }

    method StartTotalTimer()
      requires Valid() && waiter.ArmTotal?
      modifies this
      ensures Valid() && trace == old(trace) + [Waiter(false)] && waiter.FirstTouch? && now == old(now)
      ensures View() == Step(old(View()), Waiter(false))
    {
      ghost var before := View();
      totalDeadline := now + maxTotalTime;
      waiter, hist := FirstTouch, hist.(work := hist.work + 1);
      Record(Waiter(false), before);
    }

    method SetFirstIdleTimeout()
      requires Valid() && waiter.FirstTouch?
      modifies this
      ensures Valid() && trace == old(trace) + [Waiter(false)] && waiter.ArmIdle? && now == old(now)
      ensures View() == Step(old(View()), Waiter(false))
    {
      ghost var before := View();
      idleTimeout := now + maxIdleTime;
      waiter, hist := ArmIdle, hist.(work := hist.work + 1);
      Record(Waiter(false), before);
    }

    method StartIdleTimer()
      requires Valid() && waiter.ArmIdle?
      modifies this
      ensures Valid() && trace == old(trace) + [Waiter(false)] && waiter.MarkStarted? && now == old(now)
      ensures View() == Step(old(View()), Waiter(false))
    {
      ghost var before := View();
      idleDeadline := now + maxIdleTime;
      waiter, hist := MarkStarted, hist.(armed := hist.touches, work := hist.work + 1);
      Record(Waiter(false), before);
    }

    method SetStarted()
      requires Valid() && waiter.MarkStarted?
      modifies this
      ensures Valid() && trace == old(trace) + [Waiter(false)] && waiter.Selecting? && now == old(now)
      ensures View() == Step(old(View()), Waiter(false))
    {
      ghost var before := View();
      started := true;
      waiter, hist := Selecting, hist.(work := hist.work + 1);
      Record(Waiter(false), before);
    }

    /** The select of line 91, settling on `c` if it is ready. */
    method Select(c: SelectCase) returns (ready: bool)
      requires Valid() && waiter.Selecting?
      modifies this
      ensures Valid() && now == old(now) && (ready <==> Ready(old(View()), c))
      ensures if ready then trace == old(trace) + [Fires(c)] && View() == Step(old(View()), Fires(c))
              else trace == old(trace) && View() == old(View())
      ensures waiter == (if !ready then Selecting
                         else match c case TotalTimer => TotalFired case IdleTimer => IdleFired case DoneChan => DoneSeen)
    {
      ghost var before := View();
      match c
      case TotalTimer =>
        ready := now >= totalDeadline;
        if ready {
          waiter, hist := TotalFired, hist.(work := hist.work + 1);
          Record(FireTotal, before);
        }
      case IdleTimer =>
        ready := now >= idleDeadline;
        if ready {
          waiter, hist := IdleFired, hist.(work := hist.work + 1);
          Record(FireIdle, before);
        }
      case DoneChan =>
        ready := doneCloses > 0;
        if ready {
          waiter, hist := DoneSeen, hist.(work := hist.work + 1);
          Record(TakeDone, before);
        }
    }

    method EvaluateAfterFire(check: bool)
      requires Valid() && (waiter.TotalFired? || waiter.IdleFired?)
      modifies this
      ensures Valid() && trace == old(trace) + [Waiter(check)] && now == old(now)
      ensures View() == Step(old(View()), Waiter(check))
      ensures waiter == if old(waiter).TotalFired? then TotalChecked else IdleChecked
    {
      ghost var before := View();
      lastCheckResult := check;
      waiter := if waiter.TotalFired? then TotalChecked else IdleChecked;
      hist := hist.(work := hist.work + 1);
      Record(Waiter(check), before);
    }

    /** Line 104. */
    method IsIdle() returns (b: bool)
      requires Valid() && waiter.IdleExpiry?
      modifies this
      ensures waiter.Returned? ==> Ended()
      ensures Valid() && trace == old(trace) + [Waiter(false)] && now == old(now)
      ensures View() == Step(old(View()), Waiter(false))
      ensures waiter == if b then Returned(IdleTimeout) else IdleRearm
      ensures b <==> now > idleTimeout
    {
      ghost var before := View();
      b := now > idleTimeout;
      if b {
        waiter := Returned(IdleTimeout);
      } else {
        waiter, hist := IdleRearm, hist.(exact := hist.exact + if now == idleDeadline then 1 else 0);
      }
      hist := hist.(work := hist.work + 1);
      Record(Waiter(false), before);
      assert trace[..|trace| - 1] == old(trace);
    }

    method RearmIdleTimer()
      requires Valid() && waiter.IdleRearm?
      modifies this
      ensures Valid() && trace == old(trace) + [Waiter(false)] && waiter.Selecting? && now == old(now)
      ensures View() == Step(old(View()), Waiter(false))
      ensures idleDeadline == idleTimeout <= now + maxIdleTime
    {
      IdleDeadlineIsNear(maxIdleTime, maxTotalTime, createdAt, trace, false);
      ghost var before := View();
      idleDeadline := idleTimeout;
      waiter, hist := Selecting, hist.(armed := hist.touches, rearms := hist.rearms + 1, work := hist.work + 1);
      Record(Waiter(false), before);
    }

    /** Line 111. */
    method DoneOutcome() returns (o: Outcome)
      requires Valid() && waiter.DoneSeen?
      modifies this
      ensures waiter.Returned? ==> Ended()
      ensures Valid() && trace == old(trace) + [Waiter(false)] && now == old(now)
      ensures View() == Step(old(View()), Waiter(false))
      ensures waiter == Returned(o) && (o == Nil || o == Cancelled) && (o == Nil <==> done == 1)
    {
      ghost var before := View();
      o := if done == 1 then Nil else Cancelled;
      waiter, hist := Returned(o), hist.(work := hist.work + 1);
      Record(Waiter(false), before);
      assert trace[..|trace| - 1] == old(trace);
    }

    /** Lines 85 to 88: the total timer, the first idle deadline, the idle timer, and then `started`. */
    method Arm(env: nat -> seq<Event>)
      requires Valid() && waiter.ArmTotal? && forall k :: NoWaiterStep(env(k))
      modifies this
      ensures Valid() && waiter.Selecting? && started
      ensures old(now) <= totalDeadline - maxTotalTime <= idleDeadline - maxIdleTime <= now
      ensures trace == old(trace) + WaiterSchedule(old(View()), false, env, 1, 4)
    {
      ghost var t := trace;
      Hold(env(1));
      StartTotalTimer();
      Regroup(t, env(1), [Waiter(false)], WaiterSchedule(View(), false, env, 2, 3));
      ArmIdleTimer(env);
    }

    /** Lines 86 to 88. */
    method ArmIdleTimer(env: nat -> seq<Event>)
      requires Valid() && waiter.FirstTouch? && forall k :: NoWaiterStep(env(k))
      modifies this
      ensures Valid() && waiter.Selecting? && started && totalDeadline == old(totalDeadline)
      ensures old(now) <= idleDeadline - maxIdleTime <= now
      ensures trace == old(trace) + WaiterSchedule(old(View()), false, env, 2, 3)
    {
      ghost var t := trace;
      Hold(env(2));
      SetFirstIdleTimeout();
      Regroup(t, env(2), [Waiter(false)], WaiterSchedule(View(), false, env, 3, 2));
      ArmLast(env);
    }

    /** Lines 87 and 88. */
    method ArmLast(env: nat -> seq<Event>)
      requires Valid() && waiter.ArmIdle? && forall k :: NoWaiterStep(env(k))
      modifies this
      ensures Valid() && waiter.Selecting? && started && totalDeadline == old(totalDeadline)
      ensures old(now) <= idleDeadline - maxIdleTime <= now
      ensures trace == old(trace) + WaiterSchedule(old(View()), false, env, 3, 2)
    {
      ghost var t := trace;
      Hold(env(3));
      StartIdleTimer();
      Regroup(t, env(3), [Waiter(false)], WaiterSchedule(View(), false, env, 4, 1));
      t := trace;
      Hold(env(4));
      SetStarted();
      Regroup(t, env(4), [Waiter(false)], []);
    }

    /** Lines 92 to 116: what follows once the select has settled on a ready case. */
    method Proceed(k: nat, check: bool, env: nat -> seq<Event>) returns (r: Option<Outcome>)
      requires Valid() && forall k :: NoWaiterStep(env(k))
      requires waiter.TotalFired? || waiter.IdleFired? || waiter.DoneSeen?
      modifies this
      ensures Valid() && trace == old(trace) + WaiterSchedule(old(View()), check, env, k, 4)
      ensures waiter == if r.Some? then Returned(r.value) else Selecting
      ensures old(waiter).DoneSeen? ==> r == Some(if done == 1 then Nil else Cancelled)
      ensures r.None? ==> old(waiter).IdleFired?
      ensures r.Some? ==> Ended()
    {
      if waiter.DoneSeen? {
        var o := ReadDone(k, check, env);
        return Some(o);
      }
      r := AfterFire(k, check, env);
    }

    /** Lines 93 to 98 and 100 to 108. */
    method AfterFire(k: nat, check: bool, env: nat -> seq<Event>) returns (r: Option<Outcome>)
      requires Valid() && (waiter.TotalFired? || waiter.IdleFired?) && forall k :: NoWaiterStep(env(k))
      modifies this
      ensures Valid() && trace == old(trace) + WaiterSchedule(old(View()), check, env, k, 4)
      ensures waiter == if r.Some? then Returned(r.value) else Selecting
      ensures r.None? ==> old(waiter).IdleFired?
      ensures r.Some? ==> Ended()
    {
      CheckAfterFire(k, check, env);
      r := Act(k + 1, check, env);
    }

    /** Lines 93 and 100. */
    method CheckAfterFire(k: nat, check: bool, env: nat -> seq<Event>)
      requires Valid() && (waiter.TotalFired? || waiter.IdleFired?) && NoWaiterStep(env(k))
      modifies this
      ensures Valid() && waiter == if old(waiter).TotalFired? then TotalChecked else IdleChecked
      ensures trace + WaiterSchedule(View(), check, env, k + 1, 3) == old(trace) + WaiterSchedule(old(View()), check, env, k, 4)
    {
      ghost var t, s := trace, View();
      Hold(env(k));
      ghost var s1 := View();
      EvaluateAfterFire(check);
      WaiterSplit(t, s, s1, Waiter(check), View(), check, env, k, 4);
    }

    /** Lines 111 to 115. */
    method ReadDone(k: nat, ghost check: bool, env: nat -> seq<Event>) returns (o: Outcome)
      requires Valid() && waiter.DoneSeen? && NoWaiterStep(env(k))
      modifies this
      ensures Valid() && trace == old(trace) + WaiterSchedule(old(View()), check, env, k, 4)
      ensures waiter == Returned(o) && Ended() && o == if done == 1 then Nil else Cancelled
    {
      ghost var t, s := trace, View();
      Hold(env(k));
      ghost var s1 := View();
      o := DoneOutcome();
      WaiterSplit(t, s, s1, Waiter(false), View(), check, env, k, 4);
      WaiterStops(View(), check, env, k + 1, 3);
    }

    /** Lines 94 to 98 and 101 to 108. */
    method Act(k: nat, ghost check: bool, env: nat -> seq<Event>) returns (r: Option<Outcome>)
      requires Valid() && (waiter.TotalChecked? || waiter.IdleChecked?) && forall k :: NoWaiterStep(env(k))
      modifies this
      ensures Valid() && trace == old(trace) + WaiterSchedule(old(View()), check, env, k, 3)
      ensures waiter == if r.Some? then Returned(r.value) else Selecting
      ensures r.None? ==> old(waiter).IdleChecked?
      ensures r.Some? ==> Ended()
    {
      ghost var t, s := trace, View();
      Hold(env(k));
      ghost var s1 := View();
      var b := ReadResult();
      WaiterSplit(t, s, s1, Waiter(false), View(), check, env, k, 3);
      if b || waiter.Returned? {
        WaiterStops(View(), check, env, k + 1, 2);
        return Some(if b then Nil else ExceededMaxTime);
      }
      r := Expire(k + 1, check, env);
    }

    /** Lines 104 to 108. */
    method Expire(k: nat, ghost check: bool, env: nat -> seq<Event>) returns (r: Option<Outcome>)
      requires Valid() && waiter.IdleExpiry? && forall k :: NoWaiterStep(env(k))
      modifies this
      ensures Valid() && trace == old(trace) + WaiterSchedule(old(View()), check, env, k, 2)
      ensures waiter == if r.Some? then Returned(r.value) else Selecting
      ensures r.Some? ==> Ended()
    {
      ghost var t, s := trace, View();
      Hold(env(k));
      ghost var s1 := View();
      var b := IsIdle();
      WaiterSplit(t, s, s1, Waiter(false), View(), check, env, k, 2);
      if b {
        WaiterStops(View(), check, env, k + 1, 1);
        return Some(IdleTimeout);
      }
      Rearm(k + 1, check, env);
      r := None;
    }

    /** Line 107. */
    method Rearm(k: nat, ghost check: bool, env: nat -> seq<Event>)
      requires Valid() && waiter.IdleRearm? && NoWaiterStep(env(k))
      modifies this
      ensures Valid() && trace == old(trace) + WaiterSchedule(old(View()), check, env, k, 1) && waiter.Selecting?
      ensures idleDeadline == idleTimeout <= now + maxIdleTime
    {
      ghost var t, s := trace, View();
      Hold(env(k));
      ghost var s1 := View();
      RearmIdleTimer();
      WaiterSplit(t, s, s1, Waiter(false), View(), check, env, k, 1);
      WaiterStops(View(), check, env, k + 1, 0);
    }

    /**
     `choices` are the cases the select settles on, one after the other; one that is not ready
     leaves the waiter blocked. The result is None if the waiter is still in the select when
     they have all been offered.
     */
    method WaitForCompletion(check: nat -> bool, choices: seq<SelectCase>, env: nat -> seq<Event>)
      returns (r: Option<Outcome>)
      requires Valid() && Resting(waiter) && forall k :: NoWaiterStep(env(k))
      modifies this
      ensures Valid()
      ensures trace == old(trace) + [WaitCall(check(0))]
                       + AfterCheckSchedule(Step(old(View()), WaitCall(check(0))), check, choices, env)
      ensures waiter == if r.Some? then Returned(r.value) else Selecting
      ensures r == Some(IdleTimeout) ==> now - old(now) > maxIdleTime
      ensures r == Some(ExceededMaxTime) ==> now - old(now) >= maxTotalTime
      ensures r.Some? ==> Explains(r.value)
      ensures r == Some(Cancelled) && hist.cleared == 0
              ==> done == 2 && WasCancelled(New(maxIdleTime, maxTotalTime, createdAt), trace)
      ensures r.None? && old(doneCloses) > 0 ==> NoneIsDone(choices, |choices|)
    {
      ghost var called := trace;
      FirstCheck(check(0));
      r := AfterFirstCheck(check, choices, env);
      assert trace[..|called|] == called;
      if r.Some? {
        EndExplains(r.value);
      }
      if r == Some(IdleTimeout) || r == Some(ExceededMaxTime) {
        TimesAreSound(|called|);
      } else if r == Some(Cancelled) {
        CancelIsSound();
      }
    }

    /** Lines 82 to 117. */
    method AfterFirstCheck(check: nat -> bool, choices: seq<SelectCase>, env: nat -> seq<Event>)
      returns (r: Option<Outcome>)
      requires Valid() && waiter.FirstChecked? && forall k :: NoWaiterStep(env(k))
      modifies this
      ensures Valid() && trace == old(trace) + AfterCheckSchedule(old(View()), check, choices, env)
      ensures waiter == if r.Some? then Returned(r.value) else Selecting
      ensures r.Some? ==> Ended()
      ensures r.None? && old(doneCloses) > 0 ==> NoneIsDone(choices, |choices|)
    {
      ghost var t, s := trace, View();
      var b := Enter(env);
      AfterSchedule(s, t, WaiterSchedule(s, false, env, 0, 5));
      SeenIsClosed(s, WaiterSchedule(s, false, env, 0, 5));
      EntrySplit(t, s, View(), check, choices, env);
      if b {
        NothingLeft(View(), check, choices, env, 0);
        return Some(Nil);
      }
      r := Loop(check, choices, env, t + AfterCheckSchedule(s, check, choices, env));
    }

    /** Lines 82 to 88. */
    method Enter(env: nat -> seq<Event>) returns (b: bool)
      requires Valid() && waiter.FirstChecked? && forall k :: NoWaiterStep(env(k))
      modifies this
      ensures Valid() && trace == old(trace) + WaiterSchedule(old(View()), false, env, 0, 5)
      ensures waiter == if b then Returned(Nil) else Selecting
      ensures b ==> Ended()
    {
      ghost var t := trace;
      Hold(env(0));
      b := ReadResult();
      Regroup(t, env(0), [Waiter(false)], WaiterSchedule(View(), false, env, 1, 4));
      if !b {
        Arm(env);
      }
    }

    /** What a call has recorded tells where it has come. */
    lemma AfterSchedule(s: Timer, t: seq<Event>, es: seq<Event>)
      requires Valid() && trace == t + es && s == Run(New(maxIdleTime, maxTotalTime, createdAt), t)
      ensures View() == Run(s, es)
    {
      RunConcat(New(maxIdleTime, maxTotalTime, createdAt), t, es);
    }

    /** Lines 90 to 117; `goal` is what will have been recorded. */
    method Loop(check: nat -> bool, choices: seq<SelectCase>, env: nat -> seq<Event>, ghost goal: seq<Event>)
      returns (r: Option<Outcome>)
      requires Valid() && waiter.Selecting? && forall k :: NoWaiterStep(env(k))
      requires goal == trace + LoopSchedule(View(), check, choices, env, 0)
      modifies this
      ensures Valid() && trace == goal
      ensures waiter == if r.Some? then Returned(r.value) else Selecting
      ensures r.Some? ==> Ended()
      ensures r.None? && old(doneCloses) > 0 ==> NoneIsDone(choices, |choices|)
    {
      for i := 0 to |choices|
        invariant Valid() && waiter.Selecting? && doneCloses >= old(doneCloses)
        invariant old(doneCloses) > 0 ==> NoneIsDone(choices, i)
        invariant goal == trace + LoopSchedule(View(), check, choices, env, i)
      {
        r := NextTurn(check, choices, env, i);
        if r.Some? {
          NothingLeft(View(), check, choices, env, i + 1);
          return;
        }
      }
      NothingLeft(View(), check, choices, env, |choices|);
      r := None;
    }

    /** The turn for the `i`-th choice; what is left to do is the loop from the next choice on. */
    method NextTurn(check: nat -> bool, choices: seq<SelectCase>, env: nat -> seq<Event>, i: nat) returns (r: Option<Outcome>)
      requires Valid() && waiter.Selecting? && i < |choices| && forall k :: NoWaiterStep(env(k))
      modifies this
      ensures Valid()
      ensures trace + LoopSchedule(View(), check, choices, env, i + 1)
              == old(trace) + LoopSchedule(old(View()), check, choices, env, i)
      ensures waiter == if r.Some? then Returned(r.value) else Selecting
      ensures r.Some? ==> Ended()
      ensures doneCloses >= old(doneCloses) && (r.None? && old(doneCloses) > 0 ==> choices[i] != DoneChan)
    {
      ghost var t, s := trace, View();
      r := Turn(choices[i], check(i + 1), 5 + 5 * i, env);
      AfterSchedule(s, t, TurnSchedule(s, choices[i], check(i + 1), env, 5 + 5 * i));
      SeenIsClosed(s, TurnSchedule(s, choices[i], check(i + 1), env, 5 + 5 * i));
      TurnSplit(t, s, View(), check, choices, env, i);
    }

    /** One case of the select, and what follows if it is ready. */
    method Turn(c: SelectCase, check: bool, k: nat, env: nat -> seq<Event>) returns (r: Option<Outcome>)
      requires Valid() && waiter.Selecting? && forall k :: NoWaiterStep(env(k))
      modifies this
      ensures Valid() && trace == old(trace) + TurnSchedule(old(View()), c, check, env, k)
      ensures waiter == if r.Some? then Returned(r.value) else Selecting
      ensures r.Some? ==> Ended()
      ensures r.None? ==> c == IdleTimer || !Ready(Run(old(View()), env(k)), c)
      ensures r.None? && old(doneCloses) > 0 ==> c != DoneChan
    {
      var ready := Settle(c, check, k, env);
      r := None;
      if ready {
        r := Proceed(k + 1, check, env);
      }
    }

    /** The select of line 91 after a while. */
    method Settle(c: SelectCase, ghost check: bool, k: nat, env: nat -> seq<Event>) returns (ready: bool)
      requires Valid() && waiter.Selecting? && NoWaiterStep(env(k))
      modifies this
      ensures Valid() && (ready <==> Ready(Run(old(View()), env(k)), c))
      ensures old(trace) + TurnSchedule(old(View()), c, check, env, k)
              == if ready then trace + WaiterSchedule(View(), check, env, k + 1, 4) else trace
      ensures waiter == (if !ready then Selecting
                         else match c case TotalTimer => TotalFired case IdleTimer => IdleFired case DoneChan => DoneSeen)
      ensures c == DoneChan && old(doneCloses) > 0 ==> ready
    {
      ghost var t, s := trace, View();
      Hold(env(k));
      ghost var s1 := View();
      SeenIsClosed(s, env(k));
      ready := Select(c);
      TurnIs(t, s, s1, c, check, env, k);
    }

    /** Lines 129 to 131. Gives the number of notifications since the last Reset. */
    method Reset(env: nat -> seq<Event>) returns (n: int)
      requires Valid() && Resting(waiter) && forall k :: NoWaiterStep(env(k))
      modifies this
      ensures Valid() && waiter.Idle?
      ensures trace == old(trace) + [ResetCall] + env(0) + [Waiter(false)] + env(1) + [Waiter(false)]
      ensures trace != [] && n == After(New(maxIdleTime, maxTotalTime, createdAt), trace, |trace| - 1).notifyCount
      ensures notifyCount == 0 && !started
    {
      ClearSuccess();
      Hold(env(0));
      ClearStarted();
      Hold(env(1));
      n := TakeCount();
    }

    method ClearSuccess()
      requires Valid() && Resting(waiter)
      modifies this
      ensures Valid() && trace == old(trace) + [ResetCall] && waiter.ResetStarted?
      ensures View() == Step(old(View()), ResetCall)
    {
      ghost var before := View();
      if done == 1 {
        done, hist := 0, hist.(cleared := hist.cleared + 1);
      }
      waiter := ResetStarted;
      Record(ResetCall, before);
    }

    method ClearStarted()
      requires Valid() && waiter.ResetStarted?
      modifies this
      ensures Valid() && trace == old(trace) + [Waiter(false)] && waiter.ResetCount? && !started
      ensures View() == Step(old(View()), Waiter(false))
    {
      ghost var before := View();
      started := false;
      waiter, hist := ResetCount, hist.(work := hist.work + 1);
      Record(Waiter(false), before);
    }

    method TakeCount() returns (n: int)
      requires Valid() && waiter.ResetCount?
      modifies this
      ensures Valid() && trace == old(trace) + [Waiter(false)] && waiter.Idle?
      ensures View() == Step(old(View()), Waiter(false))
      ensures n == old(notifyCount) && notifyCount == 0 && started == old(started)
      ensures n == After(New(maxIdleTime, maxTotalTime, createdAt), trace, |trace| - 1).notifyCount
    {
      ghost var before := View();
      n := notifyCount;
      notifyCount := 0;
      waiter, hist := Idle, hist.(collected := hist.collected + n, work := hist.work + 1);
      Record(Waiter(false), before);
      assert trace[..|trace| - 1] == old(trace);
    }

    /** The step that ended the wait read what the fields still say. */
    lemma {:induction false} EndExplains(o: Outcome)
      requires Valid() && Ended() && waiter == Returned(o)
      ensures Explains(o)
    {
      var s0 := New(maxIdleTime, maxTotalTime, createdAt);
      var g, e := Peel(s0, trace);
      LoopRun(s0, g);
      HowAWaitEnds(Run(s0, g), e);
      LastStepReads(Run(s0, g), e);
    }

    /** Unless a Reset has cleared a success, the wait that has just ended was cancelled by somebody. */
    lemma CancelIsSound()
      requires Valid() && Ended() && waiter == Returned(Cancelled)
      ensures hist.cleared == 0 ==> done == 2 && WasCancelled(New(maxIdleTime, maxTotalTime, createdAt), trace)
    {
      var s0 := New(maxIdleTime, maxTotalTime, createdAt);
      var g, e := Peel(s0, trace);
      CancelledIsJustified(maxIdleTime, maxTotalTime, createdAt, g, e);
      DoneIsTwoExactlyWhen(maxIdleTime, maxTotalTime, createdAt, trace);
      HowAWaitEnds(Run(s0, g), e);
      WaiterDone(Run(s0, g), e);
    }

    /** The wait that has just ended was called with the event at `b`, or later: no wait overlaps another. */
    lemma TimesAreSound(b: nat)
      requires Valid() && Ended() && b < |trace|
      requires Resting(After(New(maxIdleTime, maxTotalTime, createdAt), trace, b).waiter)
      ensures var called := After(New(maxIdleTime, maxTotalTime, createdAt), trace, b).now;
              && (waiter == Returned(IdleTimeout) ==> now - called > maxIdleTime)
              && (waiter == Returned(ExceededMaxTime) ==> now - called >= maxTotalTime)
    {
      var s0 := New(maxIdleTime, maxTotalTime, createdAt);
      var g, e := Peel(s0, trace);
      var b', c := 0, 0;
      if waiter == Returned(IdleTimeout) {
        b', c := IdleTimeoutIsSound(maxIdleTime, maxTotalTime, createdAt, g, e);
        StartedLater(s0, g, b, b');
      } else if waiter == Returned(ExceededMaxTime) {
        b', c := ExceededMaxTimeIsSound(maxIdleTime, maxTotalTime, createdAt, g, e);
        StartedLater(s0, g, b, b');
      }
    }
  }

  lemma StartedLater(s: Timer, g: seq<Event>, b: nat, b': int)
    requires b <= |g| && Resting(After(s, g, b).waiter) && WaitBegan(s, g, b')
    ensures b <= b' && After(s, g, b).now <= After(s, g, b').now
  {
    ClockBetween(s, g, if b <= b' then b else 0, b');
  }

  lemma LastStepReads(s: Timer, e: Event)
    requires e.Waiter? && !s.waiter.Returned? && Step(s, e).waiter.Returned?
    ensures var s' := Step(s, e);
            && s'.done == s.done && s'.lastCheckResult == s.lastCheckResult && s'.now == s.now
            && s'.idleTimeout == s.idleTimeout && s'.totalDeadline == s.totalDeadline
  {}
}
