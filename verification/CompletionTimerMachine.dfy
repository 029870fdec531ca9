/**
 The completion timer of syncx/completiontimer.go as a timed transition system. One step is
 one statement or condition of the source; `time.Now()` inside a statement is read in
 that statement's step. One goroutine, the waiter, calls WaitForCompletion and Reset, as
 the fetching goroutine does; any number of others call Notify and Cancel. The result of
 the caller-supplied `check` is part of the event, so every check function is covered.
 */
module CompletionTimerMachine {
  import opened GoBasics

  datatype Outcome = Nil | IdleTimeout | ExceededMaxTime | Cancelled

  /** What the waiter does next. */
  datatype WaiterPc =
    | Idle
    | FirstChecked                    // line 82
    | ArmTotal                        // line 85
    | FirstTouch                      // line 86
    | ArmIdle                         // line 87
    | MarkStarted                     // line 88
    | Selecting                       // line 91
    | TotalFired                      // line 93
    | TotalChecked                    // line 94
    | IdleFired                       // line 100
    | IdleChecked                     // line 101
    | IdleExpiry                      // line 104
    | IdleRearm                       // line 107
    | DoneSeen                        // line 111
    | Returned(outcome: Outcome)
    | ResetStarted                    // line 130
    | ResetCount                      // line 131

  /** What a notifying or cancelling goroutine does next. */
  datatype HelperPc =
    | Touch                           // line 65
    | ReadStarted                     // line 67
    | Check                           // line 71
    | ReadCheck                       // line 72
    | Swap                            // line 73
    | NotifyClose                     // line 74
    | CancelClose                     // line 122

  /** Counters that no step reads; they say what has happened. */
  datatype History = History(
    notifies: nat,                    // calls of Notify
    collected: int,                   // sum of the results of Reset
    cleared: nat,                     // calls of Reset that turned `done` from 1 to 0
    touches: nat,                     // executions of line 65 since this wait began
    armed: nat,                       // value of `touches` when the idle timer was last armed
    rearms: nat,                      // executions of line 107 in this wait
    exact: nat,                       // of these, with a clock that stood still at the deadline
    work: nat)                        // steps of the waiter in this wait

  datatype Timer = Timer(
    maxIdleTime: int,
    maxTotalTime: int,
    now: int,
    lastCheckResult: bool,
    totalDeadline: int,
    idleDeadline: int,
    idleTimeout: int,
    started: bool,
    done: int,
    doneCloses: nat,                  // executions of close(doneChan): the second one would panic
    notifyCount: int,
    waiter: WaiterPc,
    helpers: map<Tid, HelperPc>,
    hist: History)

  datatype Event =
    | Tick(elapsed: nat)
    | NotifyCall(t: Tid)              // line 64
    | CancelCall(t: Tid)              // line 121
    | Helper(t: Tid, check: bool)     // the next step of a notifying or cancelling goroutine
    | WaitCall(check: bool)           // line 81
    | ResetCall                       // line 129
    | Waiter(check: bool)             // the next step of the waiter, outside the select
    | FireTotal                       // line 92
    | FireIdle                        // line 99
    | TakeDone                        // line 110

  function New(maxIdleTime: int, maxTotalTime: int, now: int): Timer {
    Timer(maxIdleTime, maxTotalTime, now, false, 0, 0, 0, false, 0, 0, 0, Idle, map[],
          History(0, 0, 0, 0, 0, 0, 0, 0))
  }

  predicate At(s: Timer, t: Tid, pc: HelperPc) { t in s.helpers && s.helpers[t] == pc }

  predicate Resting(w: WaiterPc) { w.Idle? || w.Returned? }

  function Goes(s: Timer, t: Tid, pc: HelperPc): Timer { s.(helpers := s.helpers[t := pc]) }

  function Leaves(s: Timer, t: Tid): Timer { s.(helpers := s.helpers - {t}) }

  function HelperStep(s: Timer, t: Tid, check: bool): Timer
    requires t in s.helpers
  {
    match s.helpers[t]
    case Touch =>
      Goes(s, t, ReadStarted).(idleTimeout := s.now + s.maxIdleTime,
                               hist := s.hist.(touches := s.hist.touches + 1))
    case ReadStarted => if s.started then Goes(s, t, Check) else Leaves(s, t)
    case Check => Goes(s, t, ReadCheck).(lastCheckResult := check)
    case ReadCheck => if s.lastCheckResult then Goes(s, t, Swap) else Leaves(s, t)
    case Swap => if s.done == 0 then Goes(s, t, NotifyClose).(done := 1) else Leaves(s, t)
    case NotifyClose => Leaves(s, t).(doneCloses := s.doneCloses + 1)
    case CancelClose => Leaves(s, t).(doneCloses := s.doneCloses + 1)
  }

  function WaiterMove(s: Timer, check: bool): Timer {
    match s.waiter
    case FirstChecked => s.(waiter := if s.lastCheckResult then Returned(Nil) else ArmTotal)
    case ArmTotal => s.(waiter := FirstTouch, totalDeadline := s.now + s.maxTotalTime)
    case FirstTouch => s.(waiter := ArmIdle, idleTimeout := s.now + s.maxIdleTime)
    case ArmIdle => s.(waiter := MarkStarted, idleDeadline := s.now + s.maxIdleTime,
                       hist := s.hist.(armed := s.hist.touches))
    case MarkStarted => s.(waiter := Selecting, started := true)
    case TotalFired => s.(waiter := TotalChecked, lastCheckResult := check)
    case TotalChecked => s.(waiter := Returned(if s.lastCheckResult then Nil else ExceededMaxTime))
    case IdleFired => s.(waiter := IdleChecked, lastCheckResult := check)
    case IdleChecked => s.(waiter := if s.lastCheckResult then Returned(Nil) else IdleExpiry)
    case IdleExpiry =>
      if s.now > s.idleTimeout then s.(waiter := Returned(IdleTimeout))
      else s.(waiter := IdleRearm,
              hist := s.hist.(exact := s.hist.exact + if s.now == s.idleDeadline then 1 else 0))
    case IdleRearm => s.(waiter := Selecting, idleDeadline := s.idleTimeout,
                         hist := s.hist.(armed := s.hist.touches, rearms := s.hist.rearms + 1))
    case DoneSeen => s.(waiter := Returned(if s.done == 1 then Nil else Cancelled))
    case ResetStarted => s.(waiter := ResetCount, started := false)
    case ResetCount => s.(waiter := Idle, notifyCount := 0,
                          hist := s.hist.(collected := s.hist.collected + s.notifyCount))
    case _ => s
  }

  function Counted(s: Timer): Timer { s.(hist := s.hist.(work := s.hist.work + 1)) }

  function Step(s: Timer, e: Event): Timer {
    match e
    case Tick(elapsed) => s.(now := s.now + elapsed)
    case NotifyCall(t) =>
      if t in s.helpers then s
      else Goes(s, t, Touch).(notifyCount := Int32(s.notifyCount + 1),
                              hist := s.hist.(notifies := s.hist.notifies + 1))
    case CancelCall(t) =>
      if t in s.helpers || s.done != 0 then s else Goes(s, t, CancelClose).(done := 2)
    case Helper(t, check) => if t in s.helpers then HelperStep(s, t, check) else s
    case WaitCall(check) =>
      if !Resting(s.waiter) then s
      else s.(waiter := FirstChecked, lastCheckResult := check,
              hist := s.hist.(touches := 0, armed := 0, rearms := 0, exact := 0, work := 1))
    case ResetCall =>
      if !Resting(s.waiter) then s
      else if s.done == 1
      then s.(waiter := ResetStarted, done := 0, hist := s.hist.(cleared := s.hist.cleared + 1))
      else s.(waiter := ResetStarted)
    case Waiter(check) =>
      if Resting(s.waiter) || s.waiter.Selecting? then s else Counted(WaiterMove(s, check))
    case FireTotal =>
      if s.waiter.Selecting? && s.now >= s.totalDeadline then Counted(s.(waiter := TotalFired)) else s
    case FireIdle =>
      if s.waiter.Selecting? && s.now >= s.idleDeadline then Counted(s.(waiter := IdleFired)) else s
    case TakeDone =>
      if s.waiter.Selecting? && s.doneCloses > 0 then Counted(s.(waiter := DoneSeen)) else s
  }

  /** The state after a whole schedule. */
  function Run(s: Timer, es: seq<Event>): Timer {
    if es == [] then s else Step(Run(s, es[..|es| - 1]), es[|es| - 1])
  }

  /** The state after the first `k` events. */
  function After(s: Timer, es: seq<Event>, k: nat): Timer
    requires k <= |es|
  {
    Run(s, es[..k])
  }

  lemma {:induction false} RunConcat(s: Timer, es: seq<Event>, fs: seq<Event>)
    ensures Run(s, es + fs) == Run(Run(s, es), fs)
    decreases |fs|
  {
    if fs == [] {
      assert es + fs == es;
    } else {
      assert (es + fs)[..|es + fs| - 1] == es + fs[..|fs| - 1];
      RunConcat(s, es, fs[..|fs| - 1]);
    }
  }

  lemma {:induction false} AfterExtends(s: Timer, es: seq<Event>, e: Event)
    ensures forall k :: 0 <= k <= |es| ==> After(s, es + [e], k) == After(s, es, k)
    ensures After(s, es, |es|) == Run(s, es)
    ensures After(s, es + [e], |es| + 1) == Run(s, es + [e]) == Step(Run(s, es), e)
  {
    assert forall k :: 0 <= k <= |es| ==> (es + [e])[..k] == es[..k];
    assert es[..|es|] == es;
    assert (es + [e])[..|es| + 1] == es + [e];
  }

  /** `es` without its last event; every trace proof below peels a schedule this way. */
  lemma Peel(s: Timer, es: seq<Event>) returns (g: seq<Event>, e: Event)
    requires es != []
    ensures es == g + [e]
    ensures forall k :: 0 <= k <= |g| ==> After(s, es, k) == After(s, g, k)
    ensures After(s, g, |g|) == Run(s, g)
    ensures After(s, es, |es|) == Run(s, es) == Step(Run(s, g), e)
  {
    g, e := es[..|es| - 1], es[|es| - 1];
    assert es == g + [e];
    AfterExtends(s, g, e);
  }

  // ---------------------------------------------------------------- closing and counting

  /** Goroutines that won a swap of `done` and have yet to close doneChan. */
  ghost function Closers(s: Timer): set<Tid> {
    set t | t in s.helpers && (s.helpers[t] == NotifyClose || s.helpers[t] == CancelClose)
  }

  /**
   Every closing of doneChan, done or due, answers to one moment at which `done` left 0: the
   one still visible in `done`, or one that a Reset has since cleared.
   */
  ghost predicate CloseInv(s: Timer) {
    && 0 <= s.done <= 2
    && s.doneCloses + |Closers(s)| == s.hist.cleared + (if s.done != 0 then 1 else 0)
  }

  predicate HelperEvent(e: Event) { e.NotifyCall? || e.CancelCall? || e.Helper? }

  /** What the waiter and the clock can do to the counters they share with the helpers. */
  lemma WaiterFrame(s: Timer, e: Event)
    requires !HelperEvent(e)
    ensures var s' := Step(s, e);
            && s'.helpers == s.helpers && s'.doneCloses == s.doneCloses
  {}

  lemma WaiterDone(s: Timer, e: Event)
    requires !HelperEvent(e)
    ensures var s' := Step(s, e);
            if e.ResetCall? && s.done == 1 && Resting(s.waiter)
            then s'.done == 0 && s'.hist.cleared == s.hist.cleared + 1
            else s'.done == s.done && s'.hist.cleared == s.hist.cleared
  {}

  /** A helper's step moves that helper only. */
  lemma HelperFrame(s: Timer, e: Event)
    requires HelperEvent(e)
    ensures var s' := Step(s, e);
            && s'.hist.cleared == s.hist.cleared
            && s'.now == s.now && s'.waiter == s.waiter && s'.maxIdleTime == s.maxIdleTime
            && (forall t :: t != e.t ==> (t in Closers(s') <==> t in Closers(s)))
  {}

  lemma HelperCloses(s: Timer, e: Event)
    requires HelperEvent(e)
    ensures var s' := Step(s, e); var was, now := e.t in Closers(s), e.t in Closers(s');
            && s'.doneCloses == s.doneCloses + (if was && !now then 1 else 0)
            && (if !was && now then s.done == 0 && 1 <= s'.done <= 2 else s'.done == s.done)
  {}

  lemma NotifyFrame(s: Timer, e: Event)
    requires HelperEvent(e)
    ensures var s' := Step(s, e);
            && s'.hist.collected == s.hist.collected
            && (|| (s'.notifyCount == s.notifyCount && s'.hist.notifies == s.hist.notifies)
                || (s'.notifyCount == Int32(s.notifyCount + 1) && s'.hist.notifies == s.hist.notifies + 1))
  {}

  lemma DifferAtOne(a: set<Tid>, b: set<Tid>, x: Tid)
    requires forall y :: y != x ==> (y in a <==> y in b)
    ensures |a| + (if x in b then 1 else 0) == |b| + (if x in a then 1 else 0)
  {
    if x in a && x !in b {
      assert a == b + {x};
    } else if x in b && x !in a {
      assert b == a + {x};
    } else {
      assert a == b;
    }
  }

  lemma CloseStep(s: Timer, e: Event)
    requires CloseInv(s)
    ensures CloseInv(Step(s, e))
  {
    if HelperEvent(e) {
      HelperFrame(s, e);
      HelperCloses(s, e);
      DifferAtOne(Closers(s), Closers(Step(s, e)), e.t);
    } else {
      WaiterFrame(s, e);
      WaiterDone(s, e);
    }
  }

  lemma {:induction false} CloseRun(s: Timer, es: seq<Event>)
    requires CloseInv(s)
    ensures CloseInv(Run(s, es))
  {
    if es != [] {
      var g, e := Peel(s, es);
      CloseRun(s, g);
      CloseStep(Run(s, g), e);
    }
  }

  lemma {:induction false} CloseAccounting(idle: int, total: int, now: int, es: seq<Event>)
    ensures CloseInv(Run(New(idle, total, now), es))
  {
    assert Closers(New(idle, total, now)) == {};
    CloseRun(New(idle, total, now), es);
  }

  ghost predicate Counts(s: Timer) {
    && s.notifyCount == Int32(s.notifyCount)
    && (s.hist.notifies - s.hist.collected - s.notifyCount) % 0x1_0000_0000 == 0
  }

  lemma WaiterCount(s: Timer, e: Event)
    requires !HelperEvent(e)
    ensures var s' := Step(s, e);
            && s'.hist.notifies == s.hist.notifies
            && s'.hist.collected + s'.notifyCount == s.hist.collected + s.notifyCount
            && (s'.notifyCount == s.notifyCount || s'.notifyCount == 0)
  {
    if e.Waiter? {
      MoveCount(s, e.check);
    }
  }

  lemma MoveCount(s: Timer, check: bool)
    ensures var s' := Counted(WaiterMove(s, check));
            && s'.hist.notifies == s.hist.notifies
            && s'.hist.collected + s'.notifyCount == s.hist.collected + s.notifyCount
            && (s'.notifyCount == s.notifyCount || s'.notifyCount == 0)
  {
    if !s.waiter.ResetCount? {
      MoveKeepsCount(s, check);
    }
  }

  lemma MoveKeepsCount(s: Timer, check: bool)
    requires !s.waiter.ResetCount?
    ensures WaiterMove(s, check).notifyCount == s.notifyCount
    ensures WaiterMove(s, check).hist.notifies == s.hist.notifies && WaiterMove(s, check).hist.collected == s.hist.collected
  {}

  lemma NotifyCounted(n: int, c: int, k: int)
    requires (n - c - k) % 0x1_0000_0000 == 0
    ensures (n + 1 - c - Int32(k + 1)) % 0x1_0000_0000 == 0
  {}

  lemma CountStep(s: Timer, e: Event)
    requires Counts(s)
    ensures Counts(Step(s, e))
  {
    if HelperEvent(e) {
      NotifyFrame(s, e);
      NotifyCounted(s.hist.notifies, s.hist.collected, s.notifyCount);
    } else {
      WaiterCount(s, e);
    }
  }

  /** What the calls of Reset returned, plus what is still counted, is the number of calls of Notify, mod 2^32. */
  lemma {:induction false} NotificationsAreCounted(idle: int, total: int, now: int, es: seq<Event>)
    ensures Counts(Run(New(idle, total, now), es))
  {
    if es != [] {
      var g, e := Peel(New(idle, total, now), es);
      NotificationsAreCounted(idle, total, now, g);
      CountStep(Run(New(idle, total, now), g), e);
    }
  }
}
