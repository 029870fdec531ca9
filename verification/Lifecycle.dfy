/**
 The life of the requests of one page: what the browser listener
 (session/eventlisteners.go), the proxy streams (server/server.go) and the session do to the
 request registry, one write at a time and in any order the guards allow. A stream that
 is completing a request stands at a place in the code, and takes the next write from there.
 */
module Lifecycle {
  import opened GoBasics

  datatype Log = Log(warcId: string, path: string)

  datatype Req = Req(
    requestId: string,
    url: string,
    networkId: string,
    referrer: string,
    initiator: string,
    gotNew: bool,
    log: Option<Log>,
    fromCache: bool,
    gotComplete: bool)

  /** A request as eventlisteners.go:133-140 makes it. */
  function Fresh(requestId: string, url: string, networkId: string, referrer: string): Req {
    Req(requestId, url, networkId, referrer, "", false, None, false, false)
  }

  /** Where a stream is in server.go:321-329. One that is between two messages is nowhere. */
  datatype Place =
    | Stored(i: nat, cached: bool)   // line 321 has written the crawl log of request `i`
    | Marked(i: nat)                 // line 327 has set its FromCache, and 329 is next

  datatype Sess = Sess(
    ready: bool,                 // Fetch has set the context, the url and the registry
    cancelled: bool,             // the context has ended
    aborts: nat,                 // calls of AbortFetch: the second one closes a closed channel
    notifies: nat,               // calls of Notify that reached the timers
    reqs: seq<Req>,
    streams: map<Tid, Place>)

  datatype Effect =
    | BecomeReady
    | Cancel
    | Register(requestId: string, url: string, networkId: string, referrer: string)   // eventlisteners.go:142
    | SetInitiator(i: nat, initiator: string)                                         // eventlisteners.go:45
    | MarkNew(i: nat)                                                                 // server.go:210, 247, 269
    | SetLog(t: Tid, i: nat, log: Log, cached: bool)                                  // server.go:321
    | Abort                                                                           // server.go:325
    | SetFromCache(t: Tid, i: nat)                                                    // server.go:327
    | SetComplete(t: Tid, i: nat)                                                     // server.go:329
    | Notified                                                                        // session.go:166-171

  const NEW_SESS := Sess(false, false, 0, 0, [], map[])

  predicate Stands(s: Sess, t: Tid, place: Place) { t in s.streams && s.streams[t] == place }

  /**
   When a write can come: a stream completes a request only after it has marked it as new,
   and does so in the order of the lines.
   */
  predicate Allowed(s: Sess, e: Effect) {
    match e
    case SetInitiator(i, _) => i < |s.reqs|
    case MarkNew(i) => i < |s.reqs|
    case SetLog(t, i, _, _) => t !in s.streams && i < |s.reqs| && s.reqs[i].gotNew
    case SetFromCache(t, i) => i < |s.reqs| && Stands(s, t, Stored(i, true))
    case SetComplete(t, i) => i < |s.reqs| && (Stands(s, t, Stored(i, false)) || Stands(s, t, Marked(i)))
    case _ => true
  }

  function Put(s: Sess, i: nat, r: Req): Sess
    requires i < |s.reqs|
  {
    s.(reqs := s.reqs[i := r])
  }

  function Step(s: Sess, e: Effect): Sess {
    if !Allowed(s, e) then s else
    match e
    case BecomeReady => s.(ready := true)
    case Cancel => s.(cancelled := true)
    case Register(requestId, url, networkId, referrer) =>
      s.(reqs := s.reqs + [Fresh(requestId, url, networkId, referrer)])
    case SetInitiator(i, initiator) => Put(s, i, s.reqs[i].(initiator := initiator))
    case MarkNew(i) => Put(s, i, s.reqs[i].(gotNew := true))
    case SetLog(t, i, log, cached) => Put(s, i, s.reqs[i].(log := Some(log))).(streams := s.streams[t := Stored(i, cached)])
    case Abort => s.(aborts := s.aborts + 1)
    case SetFromCache(t, i) => Put(s, i, s.reqs[i].(fromCache := true)).(streams := s.streams[t := Marked(i)])
    case SetComplete(t, i) => Put(s, i, s.reqs[i].(gotComplete := true)).(streams := s.streams - {t})
    case Notified => s.(notifies := s.notifies + 1)
  }

  function Run(s: Sess, es: seq<Effect>): Sess {
    if es == [] then s else Step(Run(s, es[..|es| - 1]), es[|es| - 1])
  }

  // ---------------------------------------------------------------- what always holds

  predicate ReqInv(r: Req) {
    && (r.gotComplete ==> r.gotNew && r.log.Some?)
    && (r.fromCache ==> r.log.Some?)
    && (r.log.Some? ==> r.gotNew)
  }

  predicate PlaceInv(r: Req, place: Place) { r.log.Some? && (place.Marked? ==> r.fromCache) }

  ghost predicate SomeMarked(s: Sess, i: nat) { exists t :: Stands(s, t, Marked(i)) }

  /** FromCache implies GotComplete, except while some stream stands between the two writes. */
  ghost predicate SessInv(s: Sess) {
    && (forall i :: 0 <= i < |s.reqs| ==> ReqInv(s.reqs[i]))
    && (forall t :: t in s.streams ==> s.streams[t].i < |s.reqs| && PlaceInv(s.reqs[s.streams[t].i], s.streams[t]))
    && (forall i :: 0 <= i < |s.reqs| && s.reqs[i].fromCache ==> s.reqs[i].gotComplete || SomeMarked(s, i))
  }

  lemma StepInv(s: Sess, e: Effect)
    requires SessInv(s)
    ensures SessInv(Step(s, e))
  {
    var s' := Step(s, e);
    if Allowed(s, e) {
      forall i | 0 <= i < |s'.reqs| && s'.reqs[i].fromCache ensures s'.reqs[i].gotComplete || SomeMarked(s', i) {
        if e.SetFromCache? && i == e.i {
          assert Stands(s', e.t, Marked(i));
        } else if !s.reqs[i].gotComplete {
          var t :| Stands(s, t, Marked(i));
          assert Stands(s', t, Marked(i)) || (e.SetComplete? && e.t == t);
        }
      }
    }
  }

  /** `r` may have become `r'`: no flag and no crawl log has been taken back. */
  predicate Later(r: Req, r': Req) {
    && r'.requestId == r.requestId && r'.url == r.url && r'.networkId == r.networkId && r'.referrer == r.referrer
    && (r.gotNew ==> r'.gotNew) && (r.gotComplete ==> r'.gotComplete) && (r.fromCache ==> r'.fromCache)
    && (r.log.Some? ==> r'.log.Some?)
  }

  /** Requests are only appended, and each only moves forward. */
  predicate Grows(s: Sess, s': Sess) {
    && |s.reqs| <= |s'.reqs|
    && (forall i :: 0 <= i < |s.reqs| ==> Later(s.reqs[i], s'.reqs[i]))
    && (s.ready ==> s'.ready) && (s.cancelled ==> s'.cancelled)
    && s.aborts <= s'.aborts && s.notifies <= s'.notifies
  }

  lemma StepGrows(s: Sess, e: Effect)
    ensures Grows(s, Step(s, e))
  {}

  lemma GrowsTransitive(a: Sess, b: Sess, c: Sess)
    requires Grows(a, b) && Grows(b, c)
    ensures Grows(a, c)
  {
    forall i | 0 <= i < |a.reqs| ensures Later(a.reqs[i], c.reqs[i]) {
      assert Later(a.reqs[i], b.reqs[i]) && Later(b.reqs[i], c.reqs[i]);
    }
  }

  lemma {:induction false} RunGrows(s: Sess, es: seq<Effect>)
    ensures Grows(s, Run(s, es))
  {
    if es != [] {
      RunGrows(s, es[..|es| - 1]);
      StepGrows(Run(s, es[..|es| - 1]), es[|es| - 1]);
      GrowsTransitive(s, Run(s, es[..|es| - 1]), Run(s, es));
    }
  }

  /** A request that came from the cache is complete. */
  predicate CacheImpliesComplete(s: Sess) {
    forall i :: 0 <= i < |s.reqs| && s.reqs[i].fromCache ==> s.reqs[i].gotComplete
  }

  /** No stream is between lines 327 and 329 with a request that nobody else has completed. */
  predicate NobodyInBetween(s: Sess)
    requires forall t :: t in s.streams ==> s.streams[t].i < |s.reqs|
  {
    forall t :: t in s.streams && s.streams[t].Marked? ==> s.reqs[s.streams[t].i].gotComplete
  }

  /**
   Whatever the streams and the browser do, in any interleaving: a complete request is new
   and has a crawl log; and every request that came from the cache is complete if and only
   if nobody is in between. So it is when every stream is between two messages.
   */
  lemma {:induction false} LifecycleIsOrdered(es: seq<Effect>)
    ensures SessInv(Run(NEW_SESS, es))
    ensures CacheImpliesComplete(Run(NEW_SESS, es)) <==> NobodyInBetween(Run(NEW_SESS, es))
    ensures Run(NEW_SESS, es).streams == map[] ==> CacheImpliesComplete(Run(NEW_SESS, es))
  {
    if es != [] {
      LifecycleIsOrdered(es[..|es| - 1]);
      StepInv(Run(NEW_SESS, es[..|es| - 1]), es[|es| - 1]);
    }
    CacheAndPlaces(Run(NEW_SESS, es));
  }

  lemma CacheAndPlaces(s: Sess)
    requires SessInv(s)
    ensures CacheImpliesComplete(s) <==> NobodyInBetween(s)
  {
    if NobodyInBetween(s) {
      forall i | 0 <= i < |s.reqs| && s.reqs[i].fromCache ensures s.reqs[i].gotComplete {
        if SomeMarked(s, i) {
          var t :| Stands(s, t, Marked(i));
          assert s.streams[t].Marked?;
        }
      }
    }
  }

  // ---------------------------------------------------------------- what each write does

  /** A write changes one thing, of one request or of the session, to what it says. */
  lemma EffectIs(s: Sess, e: Effect)
    requires Allowed(s, e)
    ensures var s' := Step(s, e);
            match e
            case BecomeReady => s'.ready && s'.reqs == s.reqs
            case Cancel => s'.cancelled && s'.reqs == s.reqs
            case Abort => s'.aborts == s.aborts + 1 && s'.reqs == s.reqs
            case Notified => s'.notifies == s.notifies + 1 && s'.reqs == s.reqs
            case Register(requestId, url, networkId, referrer) =>
              s'.reqs == s.reqs + [Req(requestId, url, networkId, referrer, "", false, None, false, false)]
            case SetInitiator(i, initiator) => s'.reqs == s.reqs[i := s.reqs[i].(initiator := initiator)]
            case MarkNew(i) => s'.reqs == s.reqs[i := s.reqs[i].(gotNew := true)]
            case SetLog(_, i, log, _) => s'.reqs == s.reqs[i := s.reqs[i].(log := Some(log))]
            case SetFromCache(_, i) => s'.reqs == s.reqs[i := s.reqs[i].(fromCache := true)]
            case SetComplete(_, i) => s'.reqs == s.reqs[i := s.reqs[i].(gotComplete := true)]
  {}

  /** The session's own words change only by the writes that are about them. */
  lemma SessionWords(s: Sess, e: Effect)
    ensures var s' := Step(s, e);
            && (!e.BecomeReady? ==> s'.ready == s.ready) && (!e.Cancel? ==> s'.cancelled == s.cancelled)
            && (!e.Abort? ==> s'.aborts == s.aborts) && (!e.Notified? ==> s'.notifies == s.notifies)
  {}

  predicate Initiates(e: Effect, i: nat) { e.SetInitiator? && e.i == i }

  predicate Logs(e: Effect, i: nat) { e.SetLog? && e.i == i }

  lemma OthersKeepFields(s: Sess, e: Effect, i: nat)
    requires i < |s.reqs|
    ensures i < |Step(s, e).reqs|
    ensures !Initiates(e, i) ==> Step(s, e).reqs[i].initiator == s.reqs[i].initiator
    ensures !Logs(e, i) ==> Step(s, e).reqs[i].log == s.reqs[i].log
  {}

  lemma Peeled(s: Sess, es: seq<Effect>, k: nat)
    requires k < |es| - 1
    ensures var g := es[..|es| - 1];
            g[..k] == es[..k] && g[k] == es[k] && Run(s, es) == Step(Run(s, g), es[|es| - 1])
  {}

  /** A request has the initiator of the last event about it, whatever has happened since. */
  lemma {:induction false} LastInitiatorCounts(s: Sess, es: seq<Effect>, k: nat, i: nat)
    requires k < |es| && i < |Run(s, es[..k]).reqs| && Initiates(es[k], i)
    requires forall l :: k < l < |es| ==> !Initiates(es[l], i)
    ensures i < |Run(s, es).reqs| && Run(s, es).reqs[i].initiator == es[k].initiator
    decreases |es|
  {
    if k == |es| - 1 {
      EffectIs(Run(s, es[..k]), es[k]);
    } else {
      Peeled(s, es, k);
      LastInitiatorCounts(s, es[..|es| - 1], k, i);
      OthersKeepFields(Run(s, es[..|es| - 1]), es[|es| - 1], i);
    }
  }

  /** And the crawl log of the last stream that stored one. */
  lemma {:induction false} LastLogCounts(s: Sess, es: seq<Effect>, k: nat, i: nat)
    requires k < |es| && i < |Run(s, es[..k]).reqs| && Logs(es[k], i) && Allowed(Run(s, es[..k]), es[k])
    requires forall l :: k < l < |es| ==> !Logs(es[l], i)
    ensures i < |Run(s, es).reqs| && Run(s, es).reqs[i].log == Some(es[k].log)
    decreases |es|
  {
    if k == |es| - 1 {
      EffectIs(Run(s, es[..k]), es[k]);
    } else {
      Peeled(s, es, k);
      LastLogCounts(s, es[..|es| - 1], k, i);
      OthersKeepFields(Run(s, es[..|es| - 1]), es[|es| - 1], i);
    }
  }

  /** The window between lines 327 and 329, as another goroutine sees it. */
  lemma CachedAndIncomplete() returns (es: seq<Effect>)
    ensures var s := Run(NEW_SESS, es);
            |s.reqs| == 1 && s.reqs[0].fromCache && !s.reqs[0].gotComplete && Stands(s, 1, Marked(0))
  {
    var e0, e1, e2, e3 := Register("r", "u", "n", ""), MarkNew(0), SetLog(1, 0, Log("w", ""), true), SetFromCache(1, 0);
    es := [e0, e1, e2, e3];
    assert es[..3] == [e0, e1, e2] && es[..3][..2] == [e0, e1] && es[..3][..2][..1] == [e0] && [e0][..0] == [];
    assert Run(NEW_SESS, [e0]) == Step(NEW_SESS, e0);
    assert Run(NEW_SESS, [e0, e1]) == Step(Step(NEW_SESS, e0), e1);
    assert Run(NEW_SESS, [e0, e1, e2]) == Step(Step(Step(NEW_SESS, e0), e1), e2);
  }
}
