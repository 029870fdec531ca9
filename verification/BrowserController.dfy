/**
 Run of controller/browsercontroller.go in its own shape: the loop over the select, one
 statement after the other, with the workers, the API server, callers of Shutdown and the
 goroutine of CloseWait running, as the caller's `env` says, between any two of them. The
 object records the run it has been through; `Valid` says that its fields are what that
 run of `Controller` gives, so what is proved there about all runs holds of this code.
 */
module BrowserControllers {
  import opened GoBasics
  import C = Controller
  import P = SessionPool
  import A = PageAccounts

  /** The steps of everybody but the loop. */
  predicate ByOthers(env: seq<C.Event>) {
    forall e :: e in env ==>
      || C.WorkerEvent(e) || e.WaitReturns? || e.ApiFails? || e.ApiAnnounces? || e.ApiCancels? || e.ShutdownSends?
  }

  lemma {:induction false} OthersLeaveMain(s: C.Ctl, env: seq<C.Event>)
    requires ByOthers(env)
    ensures C.Run(s, env).main == s.main
  {
    if env != [] {
      OthersLeaveMain(s, env[..|env| - 1]);
      assert env[|env| - 1] in env;
      OtherLeavesLoop(C.Run(s, env[..|env| - 1]), env[|env| - 1]);
    }
  }

  lemma OtherLeavesLoop(s: C.Ctl, e: C.Event)
    requires ByOthers([e])
    ensures C.Step(s, e).main == s.main
    ensures P.Loop in s.pool.holds ==> var p := C.Step(s, e).pool; P.Loop in p.holds && p.holds[P.Loop] == s.pool.holds[P.Loop]
  {
    assert e in [e];
    if e.WorkerRelease? {
      P.OtherAgents(s.pool, C.ReleaseOp(s.pool, P.Worker(e.w)));
      assert P.Loop in s.pool.holds ==> P.Holds(s.pool, P.Loop, s.pool.holds[P.Loop].id);
    }
  }

  /** What the loop has of the pool in each place, in any run. */
  lemma {:induction false} WhereTheLoopIs(max: int, es: seq<C.Event>)
    requires max >= 1
    ensures var s := C.Run(C.Init(max), es);
            && (s.main.Acquiring? ==> P.Loop !in s.pool.holds)
            && (s.main.Creating? ==> P.At(s.pool, P.Loop, P.Taken))
            && (s.main.Asking? || s.main.Spawning? ==> P.At(s.pool, P.Loop, P.Published))
            && (s.main.Returning? ==> P.Loop in s.pool.holds && s.pool.holds[P.Loop].phase != P.Taken)
            && (s.main.Spawning? <==> s.pages.pending.Some?)
            && (s.main.BackingOff? ==> s.backoff == 0)
            && (forall w :: w in s.pages.jobs <==> P.Worker(w) in s.pool.holds)
  {
    C.ControllerIsSafe(max, es);
  }

  predicate IsSelect(e: C.Event) { e.TakeDone? || e.TakeBackoff? || e.TakeDefault? }

  /** How often the loop has come to its select and settled on a case. */
  function Selects(es: seq<C.Event>): nat {
    if es == [] then 0 else Selects(es[..|es| - 1]) + if IsSelect(es[|es| - 1]) then 1 else 0
  }

  lemma SelectsAppend(es: seq<C.Event>, e: C.Event)
    ensures Selects(es + [e]) == Selects(es) + if IsSelect(e) then 1 else 0
  {
    assert (es + [e])[..|es|] == es;
  }

  lemma {:induction false} SelectsByOthers(es: seq<C.Event>, env: seq<C.Event>)
    requires ByOthers(env)
    ensures Selects(es + env) == Selects(es)
    decreases |env|
  {
    if env == [] {
      assert es + env == es;
    } else {
      var g, e := env[..|env| - 1], env[|env| - 1];
      assert e in env;
      SelectsByOthers(es, g);
      SelectsAppend(es + g, e);
      assert (es + g) + [e] == es + env;
    }
  }

  /** The loop cannot go on by itself: it has no id and no reason to give up, or another agent has the mutex. */
  predicate Waits(s: C.Ctl) {
    || (s.main.Acquiring? && s.pool.chan == [] && !s.ctxCancelled)
    || (s.main.Creating? && s.pool.locked)
    || (s.main.Returning? && s.pool.locked && P.At(s.pool, P.Loop, P.Published))
  }

  /** What others decide about one turn of the loop. */
  datatype Turn = Turn(
    preferDone: bool,            // which case the select takes if both are ready
    ctxWins: bool,               // the same inside GetNextAvailable
    created: bool,               // session.New succeeds
    answer: C.Answer)            // what the frontier says

  class BrowserController {
    const max: int
    var pool: P.Pool             // the session registry
    var main: C.MainPc           // where Run is; the source keeps this on its stack
    var done: nat
    var backoff: nat
    var ctxCancelled: bool
    var api: C.ApiPc
    var allDone: bool
    var pages: A.Accounts        // the workers, and a record of what has become of the pages
    ghost var trace: seq<C.Event>

    ghost function View(): C.Ctl
      reads this
    {
      C.Ctl(pool, main, done, backoff, ctxCancelled, api, allDone, pages)
    }

    ghost predicate Valid()
      reads this
    {
      max >= 1 && View() == C.Run(C.Init(max), trace)
    }

    /** Lines 47 to 75: the state in which the loop is entered. */
    constructor (max: int)
      requires max >= 1
      ensures Valid() && this.max == max && trace == [] && main.Top?
    {
      this.max, pool, main := max, P.NewPool(max), C.Top;
      done, backoff, ctxCancelled, api, allDone := 0, 0, false, C.Serving, false;
      pages := A.Accounts(0, None, map[], [], []);
      trace := [];
    }

    static method Simulate(s0: C.Ctl, env: seq<C.Event>) returns (s: C.Ctl)
      ensures s == C.Run(s0, env)
    {
      s := s0;
      for i := 0 to |env|
        invariant s == C.Run(s0, env[..i])
      {
        assert env[..i + 1][..i] == env[..i];
        s := C.Step(s, env[i]);
      }
      assert env[..|env|] == env;
    }

    /** The others run. */
    method Interfere(env: seq<C.Event>)
      requires Valid() && ByOthers(env)
      modifies this
      ensures Valid() && trace == old(trace) + env && main == old(main)
      ensures View() == C.Run(old(View()), env)
      ensures Selects(trace) == Selects(old(trace))
    {
      SelectsByOthers(trace, env);
      OthersLeaveMain(View(), env);
      C.RunConcat(C.Init(max), trace, env);
      var s := Simulate(C.Ctl(pool, main, done, backoff, ctxCancelled, api, allDone, pages), env);
      pool, done, backoff, ctxCancelled := s.pool, s.done, s.backoff, s.ctxCancelled;
      api, allDone, pages := s.api, s.allDone, s.pages;
      trace := trace + env;
    }

    ghost method Record(e: C.Event, before: C.Ctl)
      requires max >= 1 && before == C.Run(C.Init(max), trace) && View() == C.Step(before, e)
      modifies this`trace
      ensures Valid() && trace == old(trace) + [e]
      ensures Selects(trace) == Selects(old(trace)) + if IsSelect(e) then 1 else 0
    {
      SelectsAppend(trace, e);
      assert (trace + [e])[..|trace|] == trace;
      trace := trace + [e];
    }

    // ------------------------------------------------------------ the select

    /** Line 78, and the return of line 79. */
    method TakeMessage()
      requires Valid() && main.Top? && done > 0
      modifies this
      ensures Valid() && trace == old(trace) + [C.TakeDone] && main.Leaving?
      ensures Selects(trace) == Selects(old(trace)) + 1
    {
      ghost var before := View();
      done, main := done - 1, C.Leaving;
      Record(C.TakeDone, before);
    }

    /** Lines 80 to 83. */
    method Sleep(env: seq<C.Event>)
      requires Valid() && main.Top? && backoff > 0 && ByOthers(env)
      modifies this
      ensures Valid() && trace == old(trace) + [C.TakeBackoff] + env + [C.Wake] && main.Top?
      ensures Selects(trace) == Selects(old(trace)) + 1
    {
      ghost var before := View();
      backoff, main := backoff - 1, C.Sleeping;
      Record(C.TakeBackoff, before);
      Interfere(env);
      before := View();
      main := C.Top;
      Record(C.Wake, before);
    }

    method EnterDefault()
      requires Valid() && main.Top? && done == 0 && backoff == 0
      modifies this
      ensures Valid() && trace == old(trace) + [C.TakeDefault] && main.Acquiring?
      ensures Selects(trace) == Selects(old(trace)) + 1
    {
      ghost var before := View();
      main := C.Acquiring;
      Record(C.TakeDefault, before);
    }

    // ------------------------------------------------------------ the default branch

    lemma MessageIsThere()
      requires Valid() && main.Acquiring? && ctxCancelled
      ensures done == 1 && backoff == 0
    {
      C.ControllerIsSafe(max, trace);
      C.CanceledStep(View());
    }

    lemma RoomInPool()
      requires Valid()
      ensures P.At(pool, P.Loop, P.MarkedDone) ==> P.Enabled(pool, P.SendBack(P.Loop))
    {
      C.ControllerIsSafe(max, trace);
      C.PoolTakesBack(View(), P.Loop);
    }

    /** Lines 86 to 91: the context's cancellation sends the loop round again. */
    method SeeCancelled()
      requires Valid() && main.Acquiring? && ctxCancelled
      modifies this
      ensures Valid() && trace == old(trace) + [C.SeeCancelled] && main.Top? && done == 1 && backoff == 0
      ensures Selects(trace) == Selects(old(trace))
    {
      ghost var before := View();
      MessageIsThere();
      main := C.Top;
      Record(C.SeeCancelled, before);
    }

    method ReceiveId()
      requires Valid() && main.Acquiring? && pool.chan != []
      modifies this
      ensures Valid() && trace == old(trace) + [C.ReceiveId] && main.Creating?
      ensures Selects(trace) == Selects(old(trace))
    {
      ghost var before := View();
      WhereTheLoopIs(max, trace);
      pool := P.Apply(pool, P.Receive(P.Loop));
      main := C.Creating;
      Record(C.ReceiveId, before);
    }

    /** session.New; line 93 leaves the loop, and the id is lost, if it fails. */
    method CreateSession(ok: bool)
      requires Valid() && main.Creating? && !pool.locked
      modifies this
      ensures Valid() && trace == old(trace) + [C.Create(ok)] && main == if ok then C.Asking else C.Leaving
      ensures Selects(trace) == Selects(old(trace))
    {
      ghost var before := View();
      WhereTheLoopIs(max, trace);
      pool := P.Apply(pool, if ok then P.Publish(P.Loop) else P.Lose(P.Loop));
      main := if ok then C.Asking else C.Leaving;
      Record(C.Create(ok), before);
    }

    /** Line 97. */
    method GetNextPage(answer: C.Answer)
      requires Valid() && main.Asking?
      modifies this
      ensures Valid() && trace == old(trace) + [C.Ask(answer)]
      ensures Selects(trace) == Selects(old(trace))
      ensures main == if answer.Page? then C.Spawning else C.Returning(answer.NotFound?)
      ensures pages.obtained == old(pages).obtained + if answer.Page? then 1 else 0
    {
      ghost var before := View();
      WhereTheLoopIs(max, trace);
      if answer.Page? {
        pages := pages.(pending := Some(pages.obtained), obtained := pages.obtained + 1);
        main := C.Spawning;
      } else {
        main := C.Returning(answer.NotFound?);
      }
      Record(C.Ask(answer), before);
    }

    /** The three steps of Release (registry.go:79-87), of which only the first can block, on the mutex. */
    method ReleaseStep()
      requires Valid() && main.Returning? && (P.At(pool, P.Loop, P.Published) ==> !pool.locked)
      modifies this
      ensures Valid() && trace == old(trace) + [C.MainRelease]
      ensures Selects(trace) == Selects(old(trace))
      ensures P.At(old(pool), P.Loop, P.Published) ==> main == old(main) && P.At(pool, P.Loop, P.SlotCleared)
      ensures P.At(old(pool), P.Loop, P.SlotCleared) ==> main == old(main) && P.At(pool, P.Loop, P.MarkedDone)
      ensures P.At(old(pool), P.Loop, P.MarkedDone) ==> main == if old(main).notFound then C.BackingOff else C.Leaving
    {
      ghost var before := View();
      WhereTheLoopIs(max, trace);
      RoomInPool();
      if P.At(pool, P.Loop, P.MarkedDone) {
        main := if main.notFound then C.BackingOff else C.Leaving;
      }
      pool := P.Apply(pool, C.ReleaseOp(pool, P.Loop));
      Record(C.MainRelease, before);
    }

    /** Line 103: the channel has room, so the send does not block. */
    method SendBackoff()
      requires Valid() && main.BackingOff?
      modifies this
      ensures Valid() && trace == old(trace) + [C.SendBackoff] && main.Top? && backoff == 1
      ensures Selects(trace) == Selects(old(trace))
    {
      ghost var before := View();
      WhereTheLoopIs(max, trace);
      backoff, main := backoff + 1, C.Top;
      Record(C.SendBackoff, before);
    }

    lemma FreshWorker(jobs: set<nat>) returns (w: nat)
      ensures w !in jobs
    {
      w := 0;
      ghost var seen: set<nat> := {};
      while w in jobs
        invariant seen == (set u: nat | u in jobs && u < w)
        decreases jobs - seen
      {
        seen := seen + {w};
        w := w + 1;
      }
    }

    /** Lines 112 to 123: a new goroutine has the page and the session from here on. */
    method Spawn() returns (w: nat)
      requires Valid() && main.Spawning?
      modifies this
      ensures Valid() && trace == old(trace) + [C.Spawn(w)] && main.Top?
      ensures Selects(trace) == Selects(old(trace))
      ensures w !in old(pages).jobs && w in pages.jobs && P.At(pool, P.Worker(w), P.Published)
      ensures old(pages).pending.Some? && pages.jobs[w].page == old(pages).pending.value
    {
      ghost var before := View();
      WhereTheLoopIs(max, trace);
      ghost var free := FreshWorker(pages.jobs.Keys);
      assert free !in pages.jobs;
      w :| w !in pages.jobs;
      pool := P.Apply(pool, P.HandOver(P.Loop, P.Worker(w)));
      pages := pages.(pending := None, jobs := pages.jobs[w := A.Job(pages.pending.value, A.Fetching)]);
      main := C.Top;
      Record(C.Spawn(w), before);
    }

    // ------------------------------------------------------------ the loop

    /** Lines 99 to 108. False if the loop is still waiting for the mutex. */
    method GiveBack(env: nat -> seq<C.Event>) returns (finished: bool)
      requires Valid() && main.Returning? && P.At(pool, P.Loop, P.Published) && forall k :: ByOthers(env(k))
      modifies this
      ensures Valid() && old(trace) <= trace
      ensures Selects(trace) == Selects(old(trace))
      ensures finished <==> !old(pool).locked
      ensures if finished then main == (if old(main).notFound then C.Top else C.Leaving) else View() == old(View())
    {
      finished := !pool.locked;
      if finished {
        ReleaseStep();
        Mine(env(4));
        ReleaseStep();
        Mine(env(5));
        ReleaseStep();
        BackOff(env(6));
      }
    }

    /** Lines 102 to 106. */
    method BackOff(env: seq<C.Event>)
      requires Valid() && (main.BackingOff? || main.Leaving?) && ByOthers(env)
      modifies this
      ensures Valid() && old(trace) <= trace
      ensures Selects(trace) == Selects(old(trace))
      ensures main == if old(main).BackingOff? then C.Top else C.Leaving
    {
      if main.BackingOff? {
        Interfere(env);
        SendBackoff();
      }
    }

    /** The others run while the loop is inside Release; they leave its session alone. */
    method Mine(env: seq<C.Event>)
      requires Valid() && main.Returning? && P.Loop in pool.holds && ByOthers(env)
      modifies this
      ensures Valid() && trace == old(trace) + env && main == old(main)
      ensures Selects(trace) == Selects(old(trace))
      ensures P.Loop in pool.holds && pool.holds[P.Loop] == old(pool).holds[P.Loop]
    {
      OthersLeaveLoop(View(), env);
      Interfere(env);
    }

    lemma {:induction false} OthersLeaveLoop(s: C.Ctl, env: seq<C.Event>)
      requires ByOthers(env) && P.Loop in s.pool.holds
      ensures var t := C.Run(s, env); P.Loop in t.pool.holds && t.pool.holds[P.Loop] == s.pool.holds[P.Loop]
    {
      if env != [] {
        OthersLeaveLoop(s, env[..|env| - 1]);
        assert env[|env| - 1] in env;
        OtherLeavesLoop(C.Run(s, env[..|env| - 1]), env[|env| - 1]);
      }
    }

    /** Lines 84 to 123. False if the loop is still waiting, for an id or for the mutex. */
    method Default(turn: Turn, env: nat -> seq<C.Event>) returns (finished: bool)
      requires Valid() && main.Top? && done == 0 && backoff == 0 && forall k :: ByOthers(env(k))
      modifies this
      ensures Valid() && old(trace) <= trace
      ensures Selects(trace) == Selects(old(trace)) + 1
      ensures finished ==> main.Top? || main.Leaving?
      ensures !finished ==> Waits(View())
    {
      EnterDefault();
      Interfere(env(1));
      if ctxCancelled && (turn.ctxWins || pool.chan == []) {
        SeeCancelled();
        return true;
      }
      if pool.chan == [] {
        return false;
      }
      ReceiveId();
      ghost var p := trace;
      finished := WithId(turn, env);
      assert p <= trace;
    }

    method WithId(turn: Turn, env: nat -> seq<C.Event>) returns (finished: bool)
      requires Valid() && main.Creating? && forall k :: ByOthers(env(k))
      modifies this
      ensures Valid() && old(trace) <= trace
      ensures Selects(trace) == Selects(old(trace))
      ensures finished ==> main.Top? || main.Leaving?
      ensures !finished ==> Waits(View())
    {
      Interfere(env(2));
      if pool.locked {
        return false;
      }
      CreateSession(turn.created);
      if main.Leaving? {
        return true;
      }
      Interfere(env(3));
      ghost var p := trace;
      finished := WithSession(turn.answer, env);
      assert p <= trace;
    }

    method WithSession(answer: C.Answer, env: nat -> seq<C.Event>) returns (finished: bool)
      requires Valid() && main.Asking? && forall k :: ByOthers(env(k))
      modifies this
      ensures Valid() && old(trace) <= trace
      ensures Selects(trace) == Selects(old(trace))
      ensures finished ==> main.Top? || main.Leaving?
      ensures !finished ==> Waits(View())
    {
      WhereTheLoopIs(max, trace);
      GetNextPage(answer);
      ghost var p := trace;
      if main.Spawning? {
        var w := Spawn();
        finished := true;
      } else {
        finished := GiveBack(env);
      }
      assert p <= trace;
    }

    /**
     The deferred CloseWait (registry.go:103-116): it ends when the goroutine waiting for
     the sessions has closed its channel, or when the time is up.
     */
    method CloseWait(timesOut: bool, env: nat -> seq<C.Event>) returns (r: Option<bool>)
      requires Valid() && main.Leaving? && forall k :: ByOthers(env(k))
      modifies this
      ensures Valid() && old(trace) <= trace
      ensures main == if r.Some? then C.Closed(r.value) else C.Closing
      ensures r == if timesOut then Some(false) else if allDone then Some(true) else None
    {
      ghost var before := View();
      main := C.Closing;
      Record(C.EnterClose, before);
      Interfere(env(0));
      r := SelectClose(timesOut);
    }

    /** registry.go:110-115 */
    method SelectClose(timesOut: bool) returns (r: Option<bool>)
      requires Valid() && main.Closing?
      modifies this
      ensures Valid() && old(trace) <= trace
      ensures main == if r.Some? then C.Closed(r.value) else C.Closing
      ensures r == if timesOut then Some(false) else if old(allDone) then Some(true) else None
      ensures allDone == old(allDone)
    {
      ghost var before := View();
      if timesOut {
        main := C.Closed(false);
        Record(C.CloseTimeout, before);
        r := Some(false);
      } else if allDone {
        main := C.Closed(true);
        Record(C.SeeFinished, before);
        r := Some(true);
      } else {
        r := None;
      }
    }

    /**
     The whole of Run, for as many turns as `turns` has. It has not ended only if the loop has come
     to its select once for each of them and is there again, or waits for an id or the
     mutex, or CloseWait waits for the sessions. It ends as the time-out says, or else because
     all sessions have finished.
     When it ends because all sessions have finished, every page it has obtained has been
     reported, each exactly once, and no session is left in a slot.
     */
    method Run(turns: seq<Turn>, timesOut: bool, env: (nat, nat) -> seq<C.Event>) returns (r: Option<bool>)
      requires Valid() && main.Top? && forall i, k :: ByOthers(env(i, k))
      modifies this
      ensures Valid() && old(trace) <= trace
      ensures if r.Some? then main == C.Closed(r.value) && r.value == !timesOut
              else || (main.Top? && Selects(trace) == Selects(old(trace)) + |turns|)
                   || Waits(View())
                   || (main.Closing? && !timesOut && !allDone)
      ensures r == Some(true) ==> P.NoDup(pages.reported) && (forall p: nat :: p in pages.reported <==> p < pages.obtained)
                                  && pool.slots == {}
    {
      r := None;
      var i := 0;
      while i < |turns| && main.Top?
        invariant i <= |turns| && Valid() && old(trace) <= trace
        invariant main.Top? || main.Leaving? || Waits(View())
        invariant Selects(trace) == Selects(old(trace)) + i
        decreases |turns| - i
      {
        ghost var p := trace;
        Interfere(env(i, 0));
        if done > 0 && (turns[i].preferDone || backoff == 0) {
          TakeMessage();
        } else if backoff > 0 {
          Sleep(env(i, 7));
        } else {
          ghost var q := trace;
          var finished := Default(turns[i], (k: nat) => env(i, k));
          assert p <= q <= trace;
        }
        assert p <= trace;
        i := i + 1;
      }
      if main.Leaving? {
        ghost var p := trace;
        r := CloseWait(timesOut, (k: nat) => env(i, k));
        assert p <= trace;
        if r == Some(true) {
          C.AllPagesAreReported(max, trace);
        }
      }
    }
  }
}
