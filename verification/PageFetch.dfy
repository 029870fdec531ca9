/**
 The end of Session.Fetch (session/session.go:348-403): the session timer, whose check is
 MatchCrawlLogs, runs beside everything that happens to the requests; when its wait
 returns the responses are finalized and collected. All of it interleaves freely.
 */
module PageFetch {
  import opened GoBasics
  import T = CompletionTimerMachine
  import TR = CompletionTimerRuns
  import TT = CompletionTimerTimeouts
  import L = Lifecycle
  import D = Discovery
  import R = Requests
  import P = PageReports

  datatype Page = Page(timer: T.Timer, sess: L.Sess)

  datatype Event =
    | Clockwork(e: T.Event)          // a step of the timer; what its check says is decided by the requests
    | Life(x: L.Effect)              // a step of the browser listener, of a proxy stream or of the session

  function Init(idle: int, total: int, now: int): Page { Page(T.New(idle, total, now), L.NEW_SESS) }

  /** requests.go:113-132. */
  predicate MatchCrawlLogs(s: L.Sess) { forall i :: 0 <= i < |s.reqs| ==> s.reqs[i].log.Some? }

  /** The timer of session.go:268 asks the registry. */
  function Asked(e: T.Event, s: L.Sess): T.Event {
    match e
    case Helper(t, _) => T.Helper(t, MatchCrawlLogs(s))
    case WaitCall(_) => T.WaitCall(MatchCrawlLogs(s))
    case Waiter(_) => T.Waiter(MatchCrawlLogs(s))
    case _ => e
  }

  function Step(p: Page, e: Event): Page {
    match e
    case Clockwork(x) => p.(timer := T.Step(p.timer, Asked(x, p.sess)))
    case Life(x) => p.(sess := L.Step(p.sess, x))
  }

  function Run(p: Page, es: seq<Event>): Page {
    if es == [] then p else Step(Run(p, es[..|es| - 1]), es[|es| - 1])
  }

  function After(p: Page, es: seq<Event>, k: nat): Page
    requires k <= |es|
  {
    Run(p, es[..k])
  }

  /** What the timer sees of a run. */
  function TimerTrace(p: Page, es: seq<Event>): seq<T.Event> {
    if es == [] then [] else
    var g, e := es[..|es| - 1], es[|es| - 1];
    TimerTrace(p, g) + if e.Clockwork? then [Asked(e.e, Run(p, g).sess)] else []
  }

  /** What the requests see of a run. */
  function LifeTrace(es: seq<Event>): seq<L.Effect> {
    if es == [] then [] else
    LifeTrace(es[..|es| - 1]) + if es[|es| - 1].Life? then [es[|es| - 1].x] else []
  }

  lemma {:induction false} Projections(p: Page, es: seq<Event>)
    ensures Run(p, es).timer == T.Run(p.timer, TimerTrace(p, es))
    ensures Run(p, es).sess == L.Run(p.sess, LifeTrace(es))
  {
    if es != [] {
      var g, e := es[..|es| - 1], es[|es| - 1];
      Projections(p, g);
      if e.Clockwork? {
        var x := Asked(e.e, Run(p, g).sess);
        assert (TimerTrace(p, g) + [x])[..|TimerTrace(p, g)|] == TimerTrace(p, g);
        assert LifeTrace(es) == LifeTrace(g) + [] == LifeTrace(g);
      } else {
        assert (LifeTrace(g) + [e.x])[..|LifeTrace(g)|] == LifeTrace(g);
        assert TimerTrace(p, es) == TimerTrace(p, g) + [] == TimerTrace(p, g);
      }
    }
  }

  lemma AfterExtends(p: Page, es: seq<Event>, e: Event)
    ensures forall k :: 0 <= k <= |es| ==> After(p, es + [e], k) == After(p, es, k)
    ensures After(p, es, |es|) == Run(p, es)
  {
    assert forall k :: 0 <= k <= |es| ==> (es + [e])[..k] == es[..k];
    assert es[..|es|] == es;
  }

  /** Event `j` of the timer's view is event `k` of the run. */
  ghost predicate Places(p: Page, es: seq<Event>, j: nat, k: nat) {
    var tr := TimerTrace(p, es);
    && j < |tr| && k < |es| && es[k].Clockwork?
    && tr[j] == Asked(es[k].e, After(p, es, k).sess)
    && |TimerTrace(p, es[..k])| == j
    && T.After(p.timer, tr, j) == After(p, es, k).timer
  }

  lemma {:induction false} Locate(p: Page, es: seq<Event>, j: nat) returns (k: nat)
    requires j < |TimerTrace(p, es)|
    ensures Places(p, es, j, k)
  {
    var g, e := es[..|es| - 1], es[|es| - 1];
    assert es == g + [e];
    AfterExtends(p, g, e);
    var tg, te := TimerTrace(p, g), TimerTrace(p, es);
    assert te[..|tg|] == tg;
    if j < |tg| {
      k := Locate(p, g, j);
      assert tg[..j] == te[..j];
      assert es[..k] == g[..k];
    } else {
      k := |g|;
      Projections(p, g);
      assert es[..k] == g;
    }
  }

  lemma {:induction false} TraceMonotone(p: Page, es: seq<Event>, k: nat)
    requires k <= |es|
    ensures |TimerTrace(p, es[..k])| <= |TimerTrace(p, es)|
    decreases |es|
  {
    if k < |es| {
      TraceMonotone(p, es[..|es| - 1], k);
      assert es[..|es| - 1][..k] == es[..k];
    } else {
      assert es[..k] == es;
    }
  }

  /** Requests only grow from one point of a run to a later one. */
  lemma {:induction false} SessGrows(p: Page, es: seq<Event>, k: nat)
    requires k <= |es|
    ensures L.Grows(After(p, es, k).sess, Run(p, es).sess)
    decreases |es|
  {
    if k == |es| {
      assert es[..k] == es;
      L.RunGrows(Run(p, es).sess, []);
    } else {
      var g, e := es[..|es| - 1], es[|es| - 1];
      SessGrows(p, g, k);
      assert g[..k] == es[..k];
      if e.Life? {
        L.StepGrows(Run(p, g).sess, e.x);
        L.GrowsTransitive(After(p, es, k).sess, Run(p, g).sess, Run(p, es).sess);
      }
    }
  }

  /** A step of the timer makes its view longer. */
  lemma TraceGrows(p: Page, es: seq<Event>, c: nat, b: nat)
    requires c < b <= |es| && es[c].Clockwork?
    ensures |TimerTrace(p, es[..c])| < |TimerTrace(p, es[..b])|
  {
    TraceMonotone(p, es[..b], c + 1);
    assert es[..b][..c + 1] == es[..c + 1];
    assert es[..c + 1][..c] == es[..c];
  }

  /** Events of the timer's view stand in the order of the run. */
  lemma OrderKept(p: Page, es: seq<Event>, i: nat, b: nat, j: nat, c: nat)
    requires Places(p, es, i, b) && Places(p, es, j, c) && i <= j
    ensures b <= c
  {
    if c < b {
      TraceGrows(p, es, c, b);
    }
  }

  /** The timer's own account: a check said yes, and it came after a call of the wait. */
  lemma {:induction false} TrueCheck(idle: int, total: int, now: int, tr: seq<T.Event>) returns (i: nat, j: nat)
    requires T.Run(T.New(idle, total, now), tr).waiter == T.Returned(T.Nil)
    ensures i <= j < |tr| && tr[i].WaitCall?
    ensures TR.Checks(T.After(T.New(idle, total, now), tr, j), tr[j]) && TR.Result(tr[j])
  {
    TT.SuccessHasTrueCheck(idle, total, now, tr);
    j :| 0 <= j < |tr| && TR.Checks(T.After(T.New(idle, total, now), tr, j), tr[j]) && TR.Result(tr[j]);
    TT.ChecksFollowAWait(idle, total, now, tr, j);
    i :| 0 <= i <= j && tr[i].WaitCall?;
  }

  /**
   The wait succeeded because at one instant `c`, which is not before the call of the wait at
   `b`, every registered request had its crawl log.
   */
  lemma {:induction false} SuccessInstant(idle: int, total: int, now: int, es: seq<Event>) returns (b: nat, c: nat)
    requires Run(Init(idle, total, now), es).timer.waiter == T.Returned(T.Nil)
    ensures b <= c < |es| && es[b].Clockwork? && es[b].e.WaitCall?
    ensures MatchCrawlLogs(After(Init(idle, total, now), es, c).sess)
  {
    var p := Init(idle, total, now);
    var tr := TimerTrace(p, es);
    Projections(p, es);
    var i, j := TrueCheck(idle, total, now, tr);
    c := Locate(p, es, j);
    b := Locate(p, es, i);
    OrderKept(p, es, i, b, j, c);
  }

  // ---------------------------------------------------------------- finalizing and collecting

  /** The list FinalizeResponses works on. */
  function Snapshot(s: L.Sess): (rs: seq<D.Req>)
    ensures |rs| == |s.reqs|
    ensures forall i :: 0 <= i < |rs| ==> rs[i].url == s.reqs[i].url && (rs[i].hasLog <==> s.reqs[i].log.Some?)
  {
    seq(|s.reqs|, i requires 0 <= i < |s.reqs| =>
      var r := s.reqs[i];
      D.Req(r.url, r.networkId, r.referrer, r.initiator, r.log.Some?, if r.log.Some? then r.log.value.path else ""))
  }

  /**
   End-to-end completeness. If the wait of the session timer, which is never Reset, returns
   nil, then every request registered when the wait was called, and every one registered
   up to the successful check, is still there with a crawl log whenever the responses are
   finalized afterwards. Other requests may have been registered in the meantime; for
   those nothing is promised.
   */
  lemma NothingRegisteredIsLost(idle: int, total: int, now: int, es: seq<Event>, fs: seq<Event>)
    returns (b: nat, c: nat)
    requires Run(Init(idle, total, now), es).timer.waiter == T.Returned(T.Nil)
    ensures b <= c < |es| && es[b].Clockwork? && es[b].e.WaitCall?
    ensures MatchCrawlLogs(After(Init(idle, total, now), es, c).sess)
    ensures var p := Init(idle, total, now);
            var atWait, atCheck := |After(p, es, b).sess.reqs|, After(p, es, c).sess.reqs;
            var rs := Snapshot(Run(p, es + fs).sess);
            && atWait <= |atCheck| <= |rs|
            && forall i :: 0 <= i < |atCheck| ==>
                 rs[i].hasLog && rs[i].url == atCheck[i].url && rs[i].networkId == atCheck[i].networkId
  {
    var p := Init(idle, total, now);
    b, c := SuccessInstant(idle, total, now, es);
    var s := After(p, es, c).sess;
    SessGrows(p, es + fs, c);
    assert (es + fs)[..c] == es[..c];
    SessGrows(p, es[..c], b);
    assert es[..c][..b] == es[..b];
    var rs := Snapshot(Run(p, es + fs).sess);
    forall i | 0 <= i < |s.reqs|
      ensures rs[i].hasLog && rs[i].url == s.reqs[i].url && rs[i].networkId == s.reqs[i].networkId
    {
      assert L.Later(s.reqs[i], Run(p, es + fs).sess.reqs[i]);
    }
  }

  /** Request `i` came after the first `n`, is the last with the NetworkId of the first, and has no crawl log. */
  predicate LateRedirect(rs: seq<D.Req>, n: nat, i: nat) {
    && n <= i < |rs| && rs[i].networkId == rs[0].networkId && !rs[i].hasLog
    && forall j :: i < j < |rs| ==> rs[j].networkId != rs[0].networkId
  }

  /**
   The root request, whose crawl log line 440 reads without looking, after a wait that
   succeeded: it lacks one exactly if a redirect of the page was registered after the check
   and the last such redirect has not been completed. So it has one if no redirect of the
   page was registered after the check.
   */
  lemma RootLacksLogExactlyWhen(idle: int, total: int, now: int, es: seq<Event>, fs: seq<Event>) returns (b: nat, c: nat)
    requires Run(Init(idle, total, now), es).timer.waiter == T.Returned(T.Nil)
    requires Run(Init(idle, total, now), es + fs).sess.reqs != []
    ensures b <= c < |es| && es[b].Clockwork? && es[b].e.WaitCall?
    ensures MatchCrawlLogs(After(Init(idle, total, now), es, c).sess)
    ensures var p := Init(idle, total, now);
            var n, rs := |After(p, es, c).sess.reqs|, Snapshot(Run(p, es + fs).sess);
            && (!rs[D.Root(rs)].hasLog <==> exists i :: LateRedirect(rs, n, i))
            && ((forall i :: n <= i < |rs| ==> rs[i].networkId != rs[0].networkId) ==> rs[D.Root(rs)].hasLog)
  {
    var p := Init(idle, total, now);
    b, c := NothingRegisteredIsLost(idle, total, now, es, fs);
    var n, rs := |After(p, es, c).sess.reqs|, Snapshot(Run(p, es + fs).sess);
    LateRedirectIsRoot(rs, n);
  }

  lemma LateRedirectIsRoot(rs: seq<D.Req>, n: nat)
    requires rs != [] && n <= |rs| && forall i :: 0 <= i < n ==> rs[i].hasLog
    ensures !rs[D.Root(rs)].hasLog <==> exists i :: LateRedirect(rs, n, i)
  {
    var root := D.Root(rs);
    if !rs[root].hasLog {
      assert LateRedirect(rs, n, root);
    }
    if i :| LateRedirect(rs, n, i) {
      assert i == root;
    }
  }

  /**
   The end of the fetch on the registry itself: whatever was registered up to the successful
   check is listed among the page's resources, with the discovery path of the recursive
   definition; the fetch does not fail for want of the first request if that was among them;
   and if there are outlinks it then panics exactly if there is a late redirect of the page.
   */
  method FinishPage(reg: R.RequestRegistry, seed: string, outlinks: seq<string>,
                    ghost idle: int, ghost total: int, ghost now: int, ghost es: seq<Event>, ghost fs: seq<Event>)
    returns (resources: seq<P.Resource>, outcome: P.Outcome, ghost c: nat, ghost listed: seq<nat>)
    requires reg.Valid() && Run(Init(idle, total, now), es).timer.waiter == T.Returned(T.Nil)
    requires reg.View() == Snapshot(Run(Init(idle, total, now), es + fs).sess)
    modifies reg`rootRequest, reg.requests`redirectParent, reg.Logs()
    ensures c < |es| && MatchCrawlLogs(After(Init(idle, total, now), es, c).sess)
    ensures var atCheck := After(Init(idle, total, now), es, c).sess.reqs;
            && |atCheck| <= |old(reg.View())|
            && forall i :: 0 <= i < |atCheck| ==> Listed(old(reg.View()), seed, i, listed, resources)
    ensures After(Init(idle, total, now), es, c).sess.reqs != [] ==>
              var n := |After(Init(idle, total, now), es, c).sess.reqs|;
              && !outcome.MissingInitialRequest?
              && (outcome.Panicked? <==> outlinks != [] && exists i :: LateRedirect(old(reg.View()), n, i))
  {
    ghost var b;
    b, c := NothingRegisteredIsLost(idle, total, now, es, fs);
    ghost var rs := reg.View();
    var logs;
    ghost var written;
    logs, resources, outcome, written, listed := P.Finish(reg, seed, outlinks);
    ghost var n := |After(Init(idle, total, now), es, c).sess.reqs|;
    if n > 0 {
      LateRedirectIsRoot(rs, n);
    }
    forall i: nat | i < n ensures Listed(rs, seed, i, listed, resources) {
      assert i in listed;
      var k :| 0 <= k < |listed| && listed[k] == i;
      assert P.ListedAt(rs, seed, listed[k], resources[k]);
    }
  }

  /** Request `i` is among the resources, with its discovery path. */
  ghost predicate Listed(rs: seq<D.Req>, seed: string, i: nat, listed: seq<nat>, resources: seq<P.Resource>) {
    exists k :: 0 <= k < |listed| == |resources| && listed[k] == i && P.ListedAt(rs, seed, i, resources[k])
  }

  /**
   A run in which it does lack one: the browser pauses a redirect of the page after the
   successful check.
   */
  lemma {:induction false} SuccessMayMissTheRoot(idle: int, total: int, now: int) returns (es: seq<Event>)
    ensures var p := Run(Init(idle, total, now), es); var rs := Snapshot(p.sess);
            && p.timer.waiter == T.Returned(T.Nil) && rs != []
            && !rs[D.Root(rs)].hasLog
  {
    var e0, e1, e2 := Life(L.Register("r1", "u1", "n", "")), Life(L.MarkNew(0)), Life(L.SetLog(1, 0, L.Log("w", ""), false));
    var e3, e4, e5 := Clockwork(T.WaitCall(true)), Clockwork(T.Waiter(true)), Life(L.Register("r2", "u2", "n", ""));
    es := [e0, e1, e2, e3, e4, e5];
    var p := Init(idle, total, now);
    var p1 := Step(p, e0);
    var p2 := Step(p1, e1);
    var p3 := Step(p2, e2);
    var p4 := Step(p3, e3);
    var p5 := Step(p4, e4);
    assert es[..5] == [e0, e1, e2, e3, e4] && es[..5][..4] == [e0, e1, e2, e3] && es[..5][..4][..3] == [e0, e1, e2];
    assert es[..5][..4][..3][..2] == [e0, e1] && es[..5][..4][..3][..2][..1] == [e0] && [e0][..0] == [];
    assert Run(p, [e0]) == p1;
    assert Run(p, [e0, e1]) == p2;
    assert Run(p, [e0, e1, e2]) == p3;
    assert MatchCrawlLogs(p3.sess);
    assert Run(p, [e0, e1, e2, e3]) == p4;
    assert Run(p, [e0, e1, e2, e3, e4]) == p5;
    assert p5.timer.waiter == T.Returned(T.Nil);
    var rs := Snapshot(Run(p, es).sess);
    assert rs[1].networkId == rs[0].networkId && !rs[1].hasLog;
    assert D.Ids(rs)[1] == rs[0].networkId;
  }
}
