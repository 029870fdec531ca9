/**
 The controller loop of controller/browsercontroller.go over the session pool: one loop, a
 worker for each page, the API server, callers of Shutdown and the goroutine of CloseWait,
 interleaved in any order.
 */
module Controller {
  import opened GoBasics
  import opened SessionPool
  import opened PageAccounts

  datatype MainPc =
    | Top                        // line 77
    | Sleeping                   // line 83
    | Acquiring                  // registry.go:53
    | Creating                   // registry.go:58 to 66
    | Asking                     // line 97
    | Returning(notFound: bool)  // line 99
    | BackingOff                 // line 103
    | Spawning                   // line 112
    | Leaving                    // a return; the deferred line 65 is next
    | Closing                    // registry.go:110
    | Closed(finished: bool)

  datatype ApiPc = Serving | Failed | Announced | Stopped    // lines 57 to 59

  datatype Ctl = Ctl(
    pool: Pool,
    main: MainPc,
    done: nat,                   // messages in the channel, capacity 1
    backoff: nat,                // messages in the channel, capacity 1
    ctxCancelled: bool,
    api: ApiPc,
    allDone: bool,               // registry.go:107: channel c is closed
    pages: Accounts)             // the workers and what has become of the pages

  datatype Answer = Page | NotFound | OtherError

  datatype Event =
    | TakeDone | TakeBackoff | TakeDefault | Wake
    | SeeCancelled | ReceiveId | Create(ok: bool) | Ask(answer: Answer) | MainRelease | SendBackoff
    | Spawn(w: nat)
    | EnterClose | WaitReturns | SeeFinished | CloseTimeout
    | FetchReturns(w: nat) | PageCompleted(w: nat) | WorkerRelease(w: nat)
    | ApiFails | ApiAnnounces | ApiCancels | ShutdownSends

  /** The start of Run. */
  function Init(max: int): Ctl {
    Ctl(NewPool(max), Top, 0, 0, false, Serving, false, Accounts(0, None, map[], [], []))
  }

  predicate InLoop(m: MainPc) { !m.Leaving? && !m.Closing? && !m.Closed? }

  /** The next step of agent `a` inside Release. */
  function ReleaseOp(p: Pool, a: Agent): Op {
    if At(p, a, SlotCleared) then MarkDone(a) else if At(p, a, MarkedDone) then SendBack(a) else ClearSlot(a)
  }

  function MainStep(s: Ctl, e: Event): Ctl {
    match (s.main, e)
    case (Top, TakeDone) => if s.done > 0 then s.(main := Leaving, done := s.done - 1) else s
    case (Top, TakeBackoff) => if s.backoff > 0 then s.(main := Sleeping, backoff := s.backoff - 1) else s
    case (Top, TakeDefault) => if s.done == 0 && s.backoff == 0 then s.(main := Acquiring) else s
    case (Sleeping, Wake) => s.(main := Top)
    case (Acquiring, SeeCancelled) => if s.ctxCancelled then s.(main := Top) else s
    case (Acquiring, ReceiveId) =>
      if Enabled(s.pool, Receive(Loop)) then s.(main := Creating, pool := Apply(s.pool, Receive(Loop))) else s
    case (Creating, Create(ok)) =>
      var op := if ok then Publish(Loop) else Lose(Loop);
      if Enabled(s.pool, op) then s.(main := if ok then Asking else Leaving, pool := Apply(s.pool, op)) else s
    case (Asking, Ask(answer)) =>
      if answer.Page? then s.(main := Spawning, pages := Book(s.pages, Obtain))
      else s.(main := Returning(answer.NotFound?))
    case (Returning(notFound), MainRelease) =>
      var op := ReleaseOp(s.pool, Loop);
      if !Enabled(s.pool, op) then s
      else s.(pool := Apply(s.pool, op),
              main := if !op.SendBack? then s.main else if notFound then BackingOff else Leaving)
    case (BackingOff, SendBackoff) => if s.backoff < 1 then s.(main := Top, backoff := s.backoff + 1) else s
    case (Spawning, Spawn(w)) =>
      if !Fits(s.pages, Start(w)) || !Enabled(s.pool, HandOver(Loop, Worker(w))) then s
      else s.(main := Top, pool := Apply(s.pool, HandOver(Loop, Worker(w))), pages := Book(s.pages, Start(w)))
    case (Leaving, EnterClose) => s.(main := Closing)
    case (Closing, SeeFinished) => if s.allDone then s.(main := Closed(true)) else s
    case (Closing, CloseTimeout) => s.(main := Closed(false))
    case _ => s
  }

  /** A step of worker `w` inside its deferred Release. */
  function WorkerReleases(s: Ctl, w: nat): Ctl {
    var op := ReleaseOp(s.pool, Worker(w));
    if !(In(s.pages, w, Reported) || In(s.pages, w, Done)) || !Enabled(s.pool, op) then s
    else s.(pool := Apply(s.pool, op),
            pages := if op.MarkDone? then Book(s.pages, Release(w))
                     else if op.SendBack? then Book(s.pages, Finish(w))
                     else s.pages)
  }

  predicate WorkerEvent(e: Event) { e.FetchReturns? || e.PageCompleted? || e.WorkerRelease? }

  function Step(s: Ctl, e: Event): Ctl {
    match e
    case FetchReturns(w) => s.(pages := Book(s.pages, Entry.FetchEnds(w)))
    case PageCompleted(w) => s.(pages := Book(s.pages, Entry.Report(w)))
    case WorkerRelease(w) => WorkerReleases(s, w)
    case WaitReturns => if s.main.Closing? && s.pool.wg == 0 then s.(allDone := true) else s
    case ApiFails => if s.api.Serving? then s.(api := Failed) else s
    case ApiAnnounces => if s.api.Failed? && s.done < 1 then s.(api := Announced, done := s.done + 1) else s
    case ApiCancels => if s.api.Announced? then s.(api := Stopped, ctxCancelled := true) else s
    case ShutdownSends => if s.done < 1 then s.(done := s.done + 1) else s
    case _ => MainStep(s, e)
  }

  function Run(s: Ctl, es: seq<Event>): Ctl {
    if es == [] then s else Step(Run(s, es[..|es| - 1]), es[|es| - 1])
  }

  // ---------------------------------------------------------------- the loop and its workers as users of the pool

  /** Each place in the code goes with a phase of the pool. */
  ghost predicate Links(s: Ctl) {
    && (s.main.Creating? ==> At(s.pool, Loop, Taken))
    && (s.main.Asking? || s.main.Spawning? ==> At(s.pool, Loop, Published))
    && (s.main.Returning? ==> Loop in s.pool.holds && s.pool.holds[Loop].phase != Taken)
    && (Loop in s.pool.holds ==> s.main.Creating? || s.main.Asking? || s.main.Spawning? || s.main.Returning?)
    && JobLinks(s.pool, s.pages)
    && (s.main.Spawning? <==> s.pages.pending.Some?)
  }

  ghost predicate JobLinks(p: Pool, a: Accounts) {
    && (forall w :: w in a.jobs <==> Worker(w) in p.holds)
    && (forall w :: w in a.jobs ==> StageFits(a.jobs[w].stage, p.holds[Worker(w)].phase))
  }

  predicate StageFits(stage: Stage, phase: Phase) {
    match stage
    case Fetching | Fetched => phase == Published
    case Reported => phase == Published || phase == SlotCleared
    case Done => phase == MarkedDone
  }

  /** The step acts on the pool by one operation, or not at all. */
  lemma StepUsesPool(s: Ctl, e: Event)
    ensures var s' := Step(s, e); s'.pool == s.pool || exists op :: s'.pool == Apply(s.pool, op)
  {}

  predicate PoolEvent(e: Event) { e.ReceiveId? || e.Create? || e.MainRelease? || e.Spawn? }

  lemma {:induction false} LinksMain(s: Ctl, e: Event)
    requires Links(s) && !WorkerEvent(e)
    ensures Links(Step(s, e))
  {
    match e
    case ReceiveId => LinksReceive(s);
    case Create(ok) => LinksCreate(s, ok);
    case MainRelease => LinksMainRelease(s);
    case Spawn(w) => LinksSpawn(s, w);
    case _ => LinksElsewhere(s, e);
  }

  lemma LinksReceive(s: Ctl)
    requires Links(s)
    ensures Links(Step(s, ReceiveId))
  {}

  lemma LinksCreate(s: Ctl, ok: bool)
    requires Links(s)
    ensures Links(Step(s, Create(ok)))
  {}

  lemma LinksMainRelease(s: Ctl)
    requires Links(s)
    ensures Links(Step(s, MainRelease))
  {}

  lemma LinksSpawn(s: Ctl, w: nat)
    requires Links(s)
    ensures Links(Step(s, Spawn(w)))
  {}

  lemma LinksElsewhere(s: Ctl, e: Event)
    requires Links(s) && !WorkerEvent(e) && !PoolEvent(e)
    ensures Links(Step(s, e))
  {}

  lemma {:induction false} LinksWorker(s: Ctl, e: Event)
    requires Links(s) && WorkerEvent(e)
    ensures Links(Step(s, e))
  {
    if e.WorkerRelease? {
      LinksRelease(s, e.w);
    } else {
      LinksFetch(s, e);
    }
  }

  lemma LinksFetch(s: Ctl, e: Event)
    requires Links(s) && (e.FetchReturns? || e.PageCompleted?)
    ensures Links(Step(s, e))
  {}

  lemma LinksRelease(s: Ctl, w: nat)
    requires Links(s)
    ensures Links(WorkerReleases(s, w))
  {
    var p, a := s.pool, s.pages;
    var op := ReleaseOp(p, Worker(w));
    if (In(a, w, Reported) || In(a, w, Done)) && Enabled(p, op) {
      match op
      case MarkDone(_) => LinkedMark(p, a, w);
      case SendBack(_) => LinkedFinish(p, a, w);
      case ClearSlot(_) => LinkedClear(p, a, w);
    }
  }

  lemma LinkedClear(p: Pool, a: Accounts, w: nat)
    requires JobLinks(p, a) && In(a, w, Reported) && Enabled(p, ClearSlot(Worker(w)))
    ensures JobLinks(Apply(p, ClearSlot(Worker(w))), a)
  {}

  lemma LinkedMark(p: Pool, a: Accounts, w: nat)
    requires JobLinks(p, a) && Enabled(p, MarkDone(Worker(w)))
    ensures JobLinks(Apply(p, MarkDone(Worker(w))), Book(a, Release(w)))
  {}

  lemma LinkedFinish(p: Pool, a: Accounts, w: nat)
    requires JobLinks(p, a) && Enabled(p, SendBack(Worker(w)))
    ensures JobLinks(Apply(p, SendBack(Worker(w))), Book(a, Finish(w)))
  {}

  // ---------------------------------------------------------------- channels and shutdown

  /** The loop's own channels, the context, and the goroutine of CloseWait. */
  ghost predicate Channels(s: Ctl) {
    && s.done <= 1 && s.backoff <= 1
    // Nothing is in the backoff channel once the default branch has been entered.
    && (InLoop(s.main) && !s.main.Top? && !s.main.Sleeping? ==> s.backoff == 0)
    && (s.main.Sleeping? ==> s.backoff == 0)
    // The context is only cancelled behind a message that the loop has not taken yet.
    && (s.ctxCancelled ==> s.api.Stopped?)
    && ((s.api.Announced? || s.api.Stopped?) && InLoop(s.main) ==> s.done == 1)
    && (s.allDone ==> s.pool.wg == 0 && (s.main.Closing? || s.main.Closed?))
    && (s.main == Closed(true) ==> s.allDone)
  }

  lemma {:induction false} ChannelsStep(s: Ctl, e: Event)
    requires Inv(s.pool) && Links(s) && Channels(s)
    ensures Channels(Step(s, e))
  {
    if s.allDone {
      WgStaysZero(s, e);
    }
    if WorkerEvent(e) {
      ChannelsWorker(s, e);
    } else if PoolEvent(e) {
      ChannelsPool(s, e);
    } else {
      ChannelsElsewhere(s, e);
    }
  }

  lemma ChannelsWorker(s: Ctl, e: Event)
    requires Channels(s) && WorkerEvent(e) && (s.allDone ==> Step(s, e).pool.wg == 0)
    ensures Channels(Step(s, e))
  {}

  lemma ChannelsPool(s: Ctl, e: Event)
    requires Channels(s) && PoolEvent(e) && (s.allDone ==> Step(s, e).pool.wg == 0)
    ensures Channels(Step(s, e))
  {}

  lemma ChannelsElsewhere(s: Ctl, e: Event)
    requires Channels(s) && !WorkerEvent(e) && !PoolEvent(e)
    ensures Channels(Step(s, e))
  {}

  /** After the loop has been left no session is published, so a wait group at zero stays there. */
  lemma WgStaysZero(s: Ctl, e: Event)
    requires Inv(s.pool) && Links(s) && s.pool.wg == 0 && (s.main.Closing? || s.main.Closed?)
    ensures Step(s, e).pool.wg == 0 && (Step(s, e).main.Closing? || Step(s, e).main.Closed?)
  {
    if e.WorkerRelease? {
      NobodyToMark(s.pool, Worker(e.w));
    } else {
      PoolUntouched(s, e);
    }
  }

  lemma NobodyToMark(p: Pool, a: Agent)
    requires p.wg == |Live(p)| == 0
    ensures !Enabled(p, MarkDone(a))
  {
    assert Live(p) == {};
    assert a !in Live(p);
  }

  lemma PoolUntouched(s: Ctl, e: Event)
    requires (s.main.Closing? || s.main.Closed?) && !e.WorkerRelease?
    ensures Step(s, e).pool == s.pool && (Step(s, e).main.Closing? || Step(s, e).main.Closed?)
  {}

  ghost predicate CtlInv(s: Ctl) {
    Inv(s.pool) && Links(s) && Channels(s) && Pages(s.pages) && Releases(s.pages)
  }

  /** The step makes one entry in the accounts, or none. */
  lemma StepKeepsAccounts(s: Ctl, e: Event)
    ensures var s' := Step(s, e); s'.pages == s.pages || exists x :: s'.pages == Book(s.pages, x)
  {}

  lemma {:induction false} CtlStep(s: Ctl, e: Event)
    requires CtlInv(s)
    ensures CtlInv(Step(s, e)) && Step(s, e).pool.max == s.pool.max
  {
    PoolStep(s, e);
    ChannelsStep(s, e);
    if WorkerEvent(e) {
      LinksWorker(s, e);
    } else {
      LinksMain(s, e);
    }
    StepKeepsAccounts(s, e);
    if Step(s, e).pages != s.pages {
      var x :| Step(s, e).pages == Book(s.pages, x);
      PagesStep(s.pages, x);
      ReleasesStep(s.pages, x);
    }
  }

  lemma {:induction false} PoolStep(s: Ctl, e: Event)
    requires Inv(s.pool)
    ensures Inv(Step(s, e).pool) && Step(s, e).pool.max == s.pool.max
  {
    StepUsesPool(s, e);
    if Step(s, e).pool != s.pool {
      var op :| Step(s, e).pool == Apply(s.pool, op);
      ApplyInv(s.pool, op);
      OtherAgents(s.pool, op);
    }
  }

  /** Every run of the controller keeps the pool, the channels and the accounts in order. */
  lemma {:induction false} ControllerIsSafe(max: int, es: seq<Event>)
    requires max >= 1
    ensures CtlInv(Run(Init(max), es)) && Run(Init(max), es).pool.max == max
  {
    if es == [] {
      NewPoolInv(max);
    } else {
      ControllerIsSafe(max, es[..|es| - 1]);
      CtlStep(Run(Init(max), es[..|es| - 1]), es[|es| - 1]);
    }
  }

  // ---------------------------------------------------------------- the theorems

  lemma {:induction false} AllBelow(xs: seq<nat>, n: nat)
    requires NoDup(xs) && forall p: nat :: p in xs <==> p < n
    ensures |xs| == n
  {
    if n == 0 {
      assert forall i :: 0 <= i < |xs| ==> xs[i] in xs;
    } else {
      assert n - 1 in xs;
      var k :| 0 <= k < |xs| && xs[k] == n - 1;
      var ys := xs[..k] + xs[k + 1..];
      forall p: nat ensures p in ys <==> p < n - 1 {
        assert p in xs <==> p in ys || p == n - 1;
      }
      AllBelow(ys, n - 1);
    }
  }

  /**
   If CloseWait ends because all sessions have finished, every page obtained has been
   reported exactly once and its session marked done exactly once, and nothing else was
   reported.
   */
  lemma {:induction false} AllPagesAreReported(max: int, es: seq<Event>)
    requires max >= 1 && Run(Init(max), es).main == Closed(true)
    ensures var s := Run(Init(max), es); var a := s.pages;
            && |a.reported| == a.obtained == |a.released|
            && NoDup(a.reported) && NoDup(a.released)
            && (forall p: nat :: p in a.reported <==> p < a.obtained)
            && (forall p: nat :: p in a.released <==> p < a.obtained)
            && s.pool.slots == {}
  {
    ControllerIsSafe(max, es);
    var s := Run(Init(max), es);
    var a := s.pages;
    assert Live(s.pool) == {};
    forall w | w in a.jobs ensures a.jobs[w].stage.Done? {
      assert Worker(w) !in Live(s.pool);
    }
    forall p: nat | p < a.obtained ensures p in a.released {
      assert p in a.reported || exists w :: Has(a, w, p);
    }
    AllBelow(a.reported, a.obtained);
    AllBelow(a.released, a.obtained);
    forall id ensures id !in s.pool.slots {
      assert forall b :: Holds(s.pool, b, id) && s.pool.holds[b].phase == Published ==> b in Live(s.pool);
    }
  }

  /** In every reachable state: a report before a release, and never two of either for a page. */
  lemma {:induction false} ReportedBeforeReleased(max: int, es: seq<Event>)
    requires max >= 1
    ensures var a := Run(Init(max), es).pages;
            && NoDup(a.reported) && NoDup(a.released)
            && (forall p :: p in a.released ==> p in a.reported)
            && (forall p :: p in a.reported ==> p < a.obtained)
  {
    ControllerIsSafe(max, es);
  }

  /** No send of the controller blocks: not on the backoff channel, and not on the pool. */
  lemma {:induction false} SendsNeverBlock(max: int, es: seq<Event>, w: nat)
    requires max >= 1
    ensures var s := Run(Init(max), es);
            && (s.main.BackingOff? ==> Step(s, SendBackoff).main == Top && Step(s, SendBackoff).backoff == 1)
            && (At(s.pool, Loop, MarkedDone) ==> Enabled(s.pool, SendBack(Loop)))
            && (At(s.pool, Worker(w), MarkedDone) ==> Enabled(s.pool, SendBack(Worker(w))))
  {
    ControllerIsSafe(max, es);
    PoolTakesBack(Run(Init(max), es), Loop);
    PoolTakesBack(Run(Init(max), es), Worker(w));
  }

  lemma {:induction false} PoolTakesBack(s: Ctl, a: Agent)
    requires CtlInv(s)
    ensures At(s.pool, a, MarkedDone) ==> Enabled(s.pool, SendBack(a))
  {
    if At(s.pool, a, MarkedDone) {
      SendNeverBlocks(s.pool, a);
    }
  }

  /** The loop can only take its message or wait; it will not ask for a session again. */
  ghost predicate MustReturn(s: Ctl) { (s.main.Top? && s.done == 1 && s.backoff == 0) || !InLoop(s.main) }

  lemma {:induction false} MustReturnStays(s: Ctl, fs: seq<Event>)
    requires MustReturn(s)
    ensures MustReturn(Run(s, fs))
  {
    if fs != [] {
      MustReturnStays(s, fs[..|fs| - 1]);
      MustReturnStep(Run(s, fs[..|fs| - 1]), fs[|fs| - 1]);
    }
  }

  lemma MustReturnStep(s: Ctl, e: Event)
    requires MustReturn(s)
    ensures MustReturn(Step(s, e))
  {}

  /**
   When GetNextAvailable returns Canceled a message is already waiting, so the loop does not
   spin: whatever happens next, its next step at the select takes the message and returns.
   */
  lemma CanceledMeansReturn(max: int, es: seq<Event>, fs: seq<Event>)
    requires max >= 1
    requires var s := Run(Init(max), es); s.main.Acquiring? && s.ctxCancelled
    ensures var s := Step(Run(Init(max), es), SeeCancelled);
            && s.main.Top? && s.done == 1
            && MustReturn(Run(s, fs))
            && (Run(s, fs).main.Top? ==> Step(Run(s, fs), TakeDone).main.Leaving?)
  {
    ControllerIsSafe(max, es);
    CanceledStep(Run(Init(max), es));
    MustReturnStays(Step(Run(Init(max), es), SeeCancelled), fs);
  }

  lemma CanceledStep(s: Ctl)
    requires Channels(s) && s.main.Acquiring? && s.ctxCancelled
    ensures var t := Step(s, SeeCancelled); t.main.Top? && t.done == 1 && t.backoff == 0
  {}

  // ---------------------------------------------------------------- a call of Shutdown is heard

  /** In the turn that is under way a page may yet be asked for. */
  function Underway(m: MainPc): nat { if m.Acquiring? || m.Creating? || m.Asking? then 1 else 0 }

  /** The message is in the channel as long as the loop runs, and pages come from the turn under way alone. */
  predicate Heard(s0: Ctl, s: Ctl) {
    && (InLoop(s.main) ==> s.done >= 1)
    && s.pages.obtained + Underway(s.main) <= s0.pages.obtained + Underway(s0.main)
  }

  lemma HeardWorker(s0: Ctl, s: Ctl, e: Event)
    requires Heard(s0, s) && WorkerEvent(e)
    ensures Heard(s0, Step(s, e))
  {}

  lemma HeardElsewhere(s0: Ctl, s: Ctl, e: Event)
    requires Heard(s0, s) && !WorkerEvent(e)
    ensures Heard(s0, Step(s, e))
  {}

  lemma {:induction false} HeardRun(s0: Ctl, s: Ctl, fs: seq<Event>)
    requires Heard(s0, s)
    ensures Heard(s0, Run(s, fs))
  {
    if fs != [] {
      HeardRun(s0, s, fs[..|fs| - 1]);
      var m, e := Run(s, fs[..|fs| - 1]), fs[|fs| - 1];
      if WorkerEvent(e) {
        HeardWorker(s0, m, e);
      } else {
        HeardElsewhere(s0, m, e);
      }
    }
  }

  /**
   Once Shutdown has been called, or found a message waiting, while the loop runs: whatever happens
   then, the message stays until the loop takes it; at the select it can take it and return,
   and no new turn begins; and at most the turn under way brings one more page.
   */
  lemma {:induction false} ShutdownIsHeard(max: int, es: seq<Event>, fs: seq<Event>)
    requires max >= 1 && InLoop(Run(Init(max), es).main)
    ensures var s := Run(Init(max), es); var t := Run(Step(s, ShutdownSends), fs);
            && Step(s, ShutdownSends).done == 1
            && (InLoop(t.main) ==> t.done == 1)
            && (t.main.Top? ==> Step(t, TakeDone).main.Leaving? && Step(t, TakeDefault) == t)
            && t.pages.obtained <= s.pages.obtained + Underway(s.main)
  {
    ControllerIsSafe(max, es);
    var s := Run(Init(max), es);
    var s1 := Step(s, ShutdownSends);
    CtlStep(s, ShutdownSends);
    MessageWaits(s);
    HeardRun(s, s1, fs);
    KeepsInv(s1, fs);
    if Run(s1, fs).main.Top? {
      MessageIsTaken(Run(s1, fs));
    }
  }

  lemma MessageWaits(s: Ctl)
    requires Channels(s)
    ensures var s1 := Step(s, ShutdownSends); s1.done == 1 && Heard(s, s1)
  {}

  lemma MessageIsTaken(t: Ctl)
    requires t.main.Top? && t.done == 1
    ensures Step(t, TakeDone).main.Leaving? && Step(t, TakeDefault) == t
  {}

  lemma {:induction false} KeepsInv(s: Ctl, fs: seq<Event>)
    requires CtlInv(s)
    ensures CtlInv(Run(s, fs))
  {
    if fs != [] {
      KeepsInv(s, fs[..|fs| - 1]);
      CtlStep(Run(s, fs[..|fs| - 1]), fs[|fs| - 1]);
    }
  }

  // ---------------------------------------------------------------- shutdown is never stuck

  lemma {:induction false} RunConcat(s: Ctl, es: seq<Event>, fs: seq<Event>)
    ensures Run(s, es + fs) == Run(Run(s, es), fs)
    decreases |fs|
  {
    if fs == [] {
      assert es + fs == es;
    } else {
      assert (es + fs)[..|es + fs| - 1] == es + fs[..|fs| - 1];
      RunConcat(s, es, fs[..|fs| - 1]);
    }
  }

  lemma RunCons(s: Ctl, e: Event, fs: seq<Event>)
    ensures Run(s, [e] + fs) == Run(Step(s, e), fs)
  {
    assert [e][..0] == [];
    assert Run(s, [e]) == Step(Run(s, []), e);
    RunConcat(s, [e], fs);
  }

  /** Nobody but worker `w` can be holding the mutex. */
  ghost predicate Free(s: Ctl, w: nat) {
    w in s.pages.jobs && (s.pool.locked ==> Worker(w) in s.pool.holds && InRelease(s.pool.holds[Worker(w)].phase))
  }

  /** Steps that worker `w` has left. */
  function Left(s: Ctl, w: nat): nat
    requires w in s.pages.jobs
  {
    match s.pages.jobs[w].stage
    case Fetching => 5
    case Fetched => 4
    case Reported => if At(s.pool, Worker(w), SlotCleared) then 2 else 3
    case Done => 1
  }

  /** A worker that is not kept out by the mutex can take its next step. */
  lemma WorkerAdvances(s: Ctl, w: nat) returns (e: Event)
    requires JobLinks(s.pool, s.pages) && s.main.Closing? && Free(s, w)
    requires At(s.pool, Worker(w), MarkedDone) ==> Enabled(s.pool, SendBack(Worker(w)))
    ensures var s' := Step(s, e);
            && s'.main.Closing?
            && (if w in s'.pages.jobs then s'.pages.jobs.Keys == s.pages.jobs.Keys && Free(s', w) && Left(s', w) < Left(s, w)
                else s'.pages.jobs.Keys == s.pages.jobs.Keys - {w})
  {
    match s.pages.jobs[w].stage
    case Fetching => e := FetchReturns(w);
    case Fetched => e := PageCompleted(w);
    case Reported => e := WorkerRelease(w); WorkerReleasesOn(s, w);
    case Done => e := WorkerRelease(w); WorkerEnds(s, w);
  }

  lemma WorkerReleasesOn(s: Ctl, w: nat)
    requires JobLinks(s.pool, s.pages) && s.main.Closing? && Free(s, w) && s.pages.jobs[w].stage.Reported?
    ensures var s' := Step(s, WorkerRelease(w));
            && s'.main.Closing? && w in s'.pages.jobs && s'.pages.jobs.Keys == s.pages.jobs.Keys
            && Free(s', w) && Left(s', w) < Left(s, w)
  {}

  lemma WorkerEnds(s: Ctl, w: nat)
    requires JobLinks(s.pool, s.pages) && s.main.Closing? && w in s.pages.jobs && s.pages.jobs[w].stage.Done?
    requires Enabled(s.pool, SendBack(Worker(w)))
    ensures var s' := Step(s, WorkerRelease(w));
            && s'.main.Closing? && s'.pages.jobs.Keys == s.pages.jobs.Keys - {w}
  {}

  lemma {:induction false} WorkerFinishes(s: Ctl, w: nat) returns (fs: seq<Event>)
    requires CtlInv(s) && s.main.Closing? && Free(s, w)
    ensures CtlInv(Run(s, fs)) && Run(s, fs).main.Closing?
    ensures Run(s, fs).pages.jobs.Keys == s.pages.jobs.Keys - {w}
    decreases Left(s, w)
  {
    assert Partition(s.pool) && Links(s);
    SendNeverBlocks(s.pool, Worker(w));
    var e := WorkerAdvances(s, w);
    CtlStep(s, e);
    var rest := [];
    if w in Step(s, e).pages.jobs {
      rest := WorkerFinishes(Step(s, e), w);
    }
    RunCons(s, e, rest);
    fs := [e] + rest;
  }

  lemma {:induction false} AllFinish(s: Ctl) returns (fs: seq<Event>)
    requires CtlInv(s) && s.main.Closing?
    ensures CtlInv(Run(s, fs)) && Run(s, fs).main.Closing? && Run(s, fs).pages.jobs == map[]
    decreases |s.pages.jobs.Keys|
  {
    if s.pages.jobs.Keys == {} {
      assert s.pages.jobs == map[];
      return [];
    }
    var w :| w in s.pages.jobs.Keys;
    if s.pool.locked {
      var a :| a in s.pool.holds && InRelease(s.pool.holds[a].phase);
      w := a.n;
      assert w in s.pages.jobs;
    }
    var gs := WorkerFinishes(s, w);
    assert Run(s, gs).pages.jobs.Keys < s.pages.jobs.Keys;
    SmallerSet(Run(s, gs).pages.jobs.Keys, s.pages.jobs.Keys, w);
    var hs := AllFinish(Run(s, gs));
    RunConcat(s, gs, hs);
    fs := gs + hs;
  }

  lemma SmallerSet(a: set<nat>, b: set<nat>, w: nat)
    requires w in b && a == b - {w}
    ensures |a| < |b|
  {}

  lemma {:induction false} NoJobsNoWait(t: Ctl)
    requires CtlInv(t) && t.main.Closing? && t.pages.jobs == map[]
    ensures Run(t, [WaitReturns, SeeFinished]).main == Closed(true)
  {
    forall a ensures a !in Live(t.pool) {
      if a.Worker? {
        assert a.n !in t.pages.jobs;
      }
    }
    assert Live(t.pool) == {};
    var u := Step(t, WaitReturns);
    assert u.main.Closing? && u.allDone;
    RunCons(t, WaitReturns, [SeeFinished]);
    RunCons(u, SeeFinished, []);
    assert [WaitReturns] + [SeeFinished] == [WaitReturns, SeeFinished] && [SeeFinished] + [] == [SeeFinished];
  }

  /**
   Shutdown never deadlocks: in every reachable state of CloseWait the workers have a way to
   finish, whoever holds the mutex, after which it ends because all sessions have finished.
   */
  lemma {:induction false} ShutdownCanFinish(max: int, es: seq<Event>) returns (fs: seq<Event>)
    requires max >= 1 && Run(Init(max), es).main.Closing?
    ensures Run(Init(max), es + fs).main == Closed(true)
  {
    ControllerIsSafe(max, es);
    var s := Run(Init(max), es);
    var gs := AllFinish(s);
    var t := Run(s, gs);
    NoJobsNoWait(t);
    RunConcat(s, gs, [WaitReturns, SeeFinished]);
    fs := gs + [WaitReturns, SeeFinished];
    RunConcat(Init(max), es, fs);
  }
}
