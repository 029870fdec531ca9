/** What the Do method of server/server.go keeps and promises, over every sequence of messages. */
module ProxyLaws {
  import opened GoBasics
  import opened Lifecycle
  import opened ProxyProtocol

  // ---------------------------------------------------------------- the stream's variables

  /** A request that the stream holds has been marked as new. */
  predicate RefsOk(w: World, sess: SessRef, req: ReqRef) {
    && (sess.Proxied? ==> sess.sid < |w.sessions|)
    && (req.Ref? ==> req.sid < |w.sessions| && req.i < |w.sessions[req.sid].reqs| && w.sessions[req.sid].reqs[req.i].gotNew)
  }

  predicate OthersOnly(me: Tid, env: nat -> seq<WorldEvent>, k: nat) { ByOthers(me, env(k)) }

  lemma RefsStayOk(w: World, w': World, sess: SessRef, req: ReqRef)
    requires RefsOk(w, sess, req) && WorldGrows(w, w')
    ensures RefsOk(w', sess, req)
  {
    if req.Ref? {
      assert Grows(w.sessions[req.sid], w'.sessions[req.sid]);
      assert Later(w.sessions[req.sid].reqs[req.i], w'.sessions[req.sid].reqs[req.i]);
    }
  }

  lemma PageStaysPage(w: World, w': World, sess: SessRef, req: ReqRef)
    requires WorldGrows(w, w') && RefsOk(w, sess, req) && req.Ref? && sess.Proxied? && SessAt(w, sess.sid).reqs != []
    ensures IsPage(w', sess, req) <==> IsPage(w, sess, req)
    ensures SessAt(w', sess.sid).reqs != []
  {
    assert Grows(w.sessions[req.sid], w'.sessions[req.sid]) && Grows(w.sessions[sess.sid], w'.sessions[sess.sid]);
    assert Later(w.sessions[req.sid].reqs[req.i], w'.sessions[req.sid].reqs[req.i]);
    assert Later(w.sessions[sess.sid].reqs[0], w'.sessions[sess.sid].reqs[0]);
  }

  lemma TheirTurn(w: World, env: seq<WorldEvent>, sess: SessRef, req: ReqRef, me: Tid)
    requires WorldInv(w) && RefsOk(w, sess, req) && ByOthers(me, env)
    ensures var w' := ActRun(w, [Theirs(env)]);
            && w' == WorldRun(w, env) && WorldInv(w') && WorldGrows(w, w') && RefsOk(w', sess, req)
            && Places(w', me) == Places(w, me)
  {
    ActRunOne(w, Theirs(env));
    OthersSound(w, env, me);
    RefsStayOk(w, WorldRun(w, env), sess, req);
  }

  lemma {:induction false} MyTurn(w: World, sid: nat, e: Effect, sess: SessRef, req: ReqRef, me: Tid)
    requires WorldInv(w) && RefsOk(w, sess, req)
    ensures var w' := ActRun(w, [Mine(sid, e)]);
            && w' == WorldStep(w, On(sid, e)) && WorldInv(w') && WorldGrows(w, w') && RefsOk(w', sess, req)
            && (!Moves(e, me) ==> Places(w', me) == Places(w, me))
  {
    ActRunOne(w, Mine(sid, e));
    StepSound(w, On(sid, e));
    RefsStayOk(w, WorldStep(w, On(sid, e)), sess, req);
    if !Moves(e, me) {
      PlaceKept(w, On(sid, e), me);
    }
  }

  lemma {:induction false} TellsTurn(w: World, to: SessRef, sess: SessRef, req: ReqRef, me: Tid)
    requires WorldInv(w) && RefsOk(w, sess, req)
    ensures var w' := ActRun(w, Tells(w, to));
            && WorldInv(w') && WorldGrows(w, w') && RefsOk(w', sess, req) && Places(w', me) == Places(w, me)
  {
    WorldGrowsReflexive(w);
    if NotifyStop(w, to).None? {
      MyTurn(w, to.sid, Notified, sess, req, me);
    }
  }

  // ---------------------------------------------------------------- New

  /** What a session of the registry lets through: what robots.txt allows and is a request, or one of two methods. */
  predicate LetThrough(m: Message, says: Says)
    requires m.New?
  {
    says.allowed(m.uri) && (m.requestId != "" || m.verb == "CONNECT" || m.verb == "OPTIONS")
  }

  predicate IsOptions(m: Message, says: Says)
    requires m.New?
  {
    says.allowed(m.uri) && m.requestId == "" && m.verb == "OPTIONS"
  }

  /** The cases of New that look a request up; in the others `req` keeps its value from an earlier message. */
  predicate LooksUp(m: Message, says: Says)
    requires m.New?
  {
    !says.allowed(m.uri) || m.requestId != "" || m.verb == "OPTIONS"
  }

  predicate InSlot(max: int, w: World, m: Message)
    requires m.New?
  {
    m.proxyId != 0 && 0 <= m.proxyId < max && m.proxyId in w.slots
  }

  /** The request a New is about. */
  function Sought(w: World, sid: nat, m: Message, says: Says): Option<nat>
    requires m.New?
  {
    if IsOptions(m, says) then ByNewUrl(SessAt(w, sid).reqs, says.normalize(m.uri)) else ById(SessAt(w, sid).reqs, m.requestId)
  }

  lemma CancelledAfterMark(w: World, sid: nat, k: nat, env: seq<WorldEvent>)
    ensures var acts := [Theirs(env)] + [Mine(sid, MarkNew(k))];
            && SessAt(ActRun(w, acts), sid).cancelled == SessAt(WorldRun(w, env), sid).cancelled
            && SessAt(ActRun(w, acts), sid).ready == SessAt(WorldRun(w, env), sid).ready
  {
    ActRunConcat(w, [Theirs(env)], [Mine(sid, MarkNew(k))]);
    ActRunOne(w, Theirs(env));
    ActRunOne(WorldRun(w, env), Mine(sid, MarkNew(k)));
  }

  lemma ReadyStays(w: World, env: seq<WorldEvent>, sid: nat, me: Tid)
    requires WorldInv(w) && ByOthers(me, env) && SessAt(w, sid).ready
    ensures SessAt(WorldRun(w, env), sid).ready
  {
    OthersSound(w, env, me);
    assert Grows(w.sessions[sid], WorldRun(w, env).sessions[sid]);
  }

  /**
   The answer to a New: a NewReply for a direct session, and on a session of the registry
   exactly for what is let through; a CancelReply otherwise; and nothing only if the stream ends.
   */
  lemma NewIsAnswered(max: int, w: World, m: Message, says: Says, req0: ReqRef, env: nat -> seq<WorldEvent>, r: Response)
    requires m.New? && r == OnNew(max, w, m, says, req0, env)
    ensures r.reply.Some? <==> r.stop.None?
    ensures r.sess == if m.proxyId == 0 then Direct else if InSlot(max, w, m) then Proxied(w.slots[m.proxyId]) else NilSess
    ensures r.reply.Some? ==> (r.reply.value == NewReply <==> r.sess.Direct? || (r.sess.Proxied? && LetThrough(m, says)))
  {}

  /** The request that a New is about is there, and the session has ended when it is to be told. */
  ghost predicate EndedWhenTold(max: int, w: World, m: Message, says: Says, env: nat -> seq<WorldEvent>)
    requires m.New?
  {
    && InSlot(max, w, m) && SessAt(w, w.slots[m.proxyId]).ready && LooksUp(m, says) && !IsOptions(m, says)
    && Sought(w, w.slots[m.proxyId], m, says).Some? && SessAt(WorldRun(w, env(0)), w.slots[m.proxyId]).cancelled
  }

  /**
   When a New ends the stream: with a panic exactly if the number is out of range or the session
   not set up; as cancelled exactly if the session to be told has ended; and otherwise
   exactly if the transport fails.
   */
  lemma NewStops(me: Tid, max: int, w: World, m: Message, says: Says, req0: ReqRef, env: nat -> seq<WorldEvent>, r: Response)
    requires m.New? && WorldInv(w) && OthersOnly(me, env, 0) && r == OnNew(max, w, m, says, req0, env)
    ensures var panics := m.proxyId != 0 && (m.proxyId < 0 || m.proxyId >= max
                                             || (InSlot(max, w, m) && !SessAt(w, w.slots[m.proxyId]).ready));
            r.stop == if panics then Some(Panicked)
                      else if EndedWhenTold(max, w, m, says, env) then Some(SessionCancelled)
                      else if says.sendFails then Some(SendFailed)
                      else None
  {
    if InSlot(max, w, m) {
      var sid := w.slots[m.proxyId];
      var k := Sought(w, sid, m, says);
      if SessAt(w, sid).ready && k.Some? {
        CancelledAfterMark(w, sid, k.value, env(0));
        ReadyStays(w, env(0), sid, me);
      }
    }
  }

  lemma OwnOfFound(w: World, sid: nat, k: nat, env: seq<WorldEvent>)
    ensures var acts := [Theirs(env)] + [Mine(sid, MarkNew(k))];
            && Own(acts) == [(sid, MarkNew(k))]
            && Own(acts + [Mine(sid, Notified)]) == [(sid, MarkNew(k)), (sid, Notified)]
  {
    OwnConcat([Theirs(env)], [Mine(sid, MarkNew(k))]);
    OwnConcat([Theirs(env)] + [Mine(sid, MarkNew(k))], [Mine(sid, Notified)]);
    OwnOne(Theirs(env));
    OwnOne(Mine(sid, MarkNew(k)));
    OwnOne(Mine(sid, Notified));
  }

  lemma OwnOne(a: Act)
    ensures Own([a]) == if a.Mine? then [(a.sid, a.e)] else []
  {
    assert [a][..0] == [];
  }

  /**
   What a New that is answered makes of the stream: the request sought becomes its request,
   and is marked; if there is none it has no request and writes nothing; and a New that
   looks nothing up leaves everything as it was.
   */
  lemma {:induction false} NewMarksWhatIsSought(max: int, w: World, m: Message, says: Says, req0: ReqRef, env: nat -> seq<WorldEvent>)
    requires m.New? && OnNew(max, w, m, says, req0, env).stop.None?
    ensures var r := OnNew(max, w, m, says, req0, env);
            if !r.sess.Proxied? || !LooksUp(m, says) then r.req == req0 && Own(r.acts) == []
            else
              var k := Sought(w, r.sess.sid, m, says);
              if k.None? then r.req == NilReq && Own(r.acts) == []
              else
                && r.req == Ref(r.sess.sid, k.value)
                && Own(r.acts) == [(r.sess.sid, MarkNew(k.value))] + if IsOptions(m, says) then [] else [(r.sess.sid, Notified)]
  {
    var r := OnNew(max, w, m, says, req0, env);
    if r.sess.Proxied? && LooksUp(m, says) {
      var k := Sought(w, r.sess.sid, m, says);
      if k.Some? {
        OwnOfFound(w, r.sess.sid, k.value, if IsOptions(m, says) then env(1) else env(0));
      }
    }
  }

  lemma {:induction false} FoundKeeps(me: Tid, w: World, sid: nat, k: nat, env: seq<WorldEvent>, tell: bool)
    requires WorldInv(w) && ByOthers(me, env) && sid < |w.sessions| && k < |w.sessions[sid].reqs|
    ensures var acts := [Theirs(env)] + [Mine(sid, MarkNew(k))];
            var w1 := ActRun(w, acts);
            var w2 := ActRun(w, acts + if tell then Tells(w1, Proxied(sid)) else []);
            && WorldInv(w2) && WorldGrows(w, w2) && RefsOk(w2, Proxied(sid), Ref(sid, k)) && Places(w2, me) == Places(w, me)
  {
    var acts := [Theirs(env)] + [Mine(sid, MarkNew(k))];
    var w0 := WorldRun(w, env);
    TheirTurn(w, env, Proxied(sid), NilReq, me);
    MyTurn(w0, sid, MarkNew(k), Proxied(sid), NilReq, me);
    ActRunConcat(w, [Theirs(env)], [Mine(sid, MarkNew(k))]);
    var w1 := ActRun(w, acts);
    assert Grows(w.sessions[sid], w0.sessions[sid]);
    assert RefsOk(w1, Proxied(sid), Ref(sid, k));
    WorldGrowsTransitive(w, w0, w1);
    if tell {
      ActRunConcat(w, acts, Tells(w1, Proxied(sid)));
      TellsTurn(w1, Proxied(sid), Proxied(sid), Ref(sid, k), me);
      WorldGrowsTransitive(w, w1, ActRun(w1, Tells(w1, Proxied(sid))));
    } else {
      assert acts + [] == acts;
    }
  }

  /** What any message does to the shared state and to the stream's variables. */
  ghost predicate Keeps(w: World, r: Response) {
    var w' := ActRun(w, r.acts);
    WorldInv(w') && WorldGrows(w, w') && RefsOk(w', r.sess, r.req)
  }

  lemma {:induction false} AnnouncesKeeps(me: Tid, w: World, sid: nat, id: string, env: nat -> seq<WorldEvent>)
    requires WorldInv(w) && sid < |w.sessions| && OthersOnly(me, env, 0)
    ensures var f := Announces(w, sid, id, env); var w' := ActRun(w, f.acts);
            && WorldInv(w') && WorldGrows(w, w') && RefsOk(w', Proxied(sid), f.req) && Places(w', me) == Places(w, me)
  {
    WorldGrowsReflexive(w);
    var k := ById(w.sessions[sid].reqs, id);
    if k.Some? {
      FoundKeeps(me, w, sid, k.value, env(0), true);
    }
  }

  lemma {:induction false} OptionsKeeps(me: Tid, w: World, sid: nat, url: string, env: nat -> seq<WorldEvent>)
    requires WorldInv(w) && sid < |w.sessions| && OthersOnly(me, env, 1)
    ensures var f := AnnouncesOptions(w, sid, url, env); var w' := ActRun(w, f.acts);
            && WorldInv(w') && WorldGrows(w, w') && RefsOk(w', Proxied(sid), f.req) && Places(w', me) == Places(w, me)
  {
    WorldGrowsReflexive(w);
    var k := ByNewUrl(w.sessions[sid].reqs, url);
    if k.Some? {
      FoundKeeps(me, w, sid, k.value, env(1), false);
      assert [Theirs(env(1))] + [Mine(sid, MarkNew(k.value))] + [] == [Theirs(env(1))] + [Mine(sid, MarkNew(k.value))];
    }
  }

  /** What is kept by turns that lead to `w'`. */
  ghost predicate KeepsTo(me: Tid, w: World, w': World, sess: SessRef, req: ReqRef) {
    WorldInv(w') && WorldGrows(w, w') && RefsOk(w', sess, req) && Places(w', me) == Places(w, me)
  }

  /** How a New goes on from what it looks up. */
  lemma NewLooksUp(max: int, w: World, m: Message, says: Says, req0: ReqRef, env: nat -> seq<WorldEvent>)
    requires m.New? && InSlot(max, w, m) && SessAt(w, w.slots[m.proxyId]).ready && LooksUp(m, says)
    ensures var r := OnNew(max, w, m, says, req0, env);
            var sid := w.slots[m.proxyId];
            var f := if IsOptions(m, says) then AnnouncesOptions(w, sid, says.normalize(m.uri), env)
                     else Announces(w, sid, m.requestId, env);
            r.acts == f.acts && r.req == f.req && r.sess == Proxied(sid)
  {}

  lemma NewKeeps(me: Tid, max: int, w: World, m: Message, says: Says, req0: ReqRef, env: nat -> seq<WorldEvent>, r: Response)
    requires m.New? && WorldInv(w) && RefsOk(w, NilSess, req0) && OthersOnly(me, env, 0) && OthersOnly(me, env, 1)
    requires r == OnNew(max, w, m, says, req0, env)
    ensures KeepsTo(me, w, ActRun(w, r.acts), r.sess, r.req)
  {
    if InSlot(max, w, m) && SessAt(w, w.slots[m.proxyId]).ready && LooksUp(m, says) {
      NewLooksUp(max, w, m, says, req0, env);
      if IsOptions(m, says) {
        OptionsKeeps(me, w, w.slots[m.proxyId], says.normalize(m.uri), env);
      } else {
        AnnouncesKeeps(me, w, w.slots[m.proxyId], m.requestId, env);
      }
    } else {
      QuietNew(max, w, m, says, req0, env);
    }
  }

  lemma QuietNew(max: int, w: World, m: Message, says: Says, req0: ReqRef, env: nat -> seq<WorldEvent>)
    requires m.New? && WorldInv(w) && RefsOk(w, NilSess, req0)
    requires !(InSlot(max, w, m) && SessAt(w, w.slots[m.proxyId]).ready && LooksUp(m, says))
    ensures var r := OnNew(max, w, m, says, req0, env);
            r.acts == [] && r.req == req0 && RefsOk(w, r.sess, r.req) && ActRun(w, r.acts) == w && WorldGrows(w, w)
  {
    WorldGrowsReflexive(w);
  }

  // ---------------------------------------------------------------- Completed

  lemma StoreMoves(w: World, me: Tid, sid: nat, i: nat, log: Log, cached: bool)
    requires sid < |w.sessions| && i < |w.sessions[sid].reqs| && w.sessions[sid].reqs[i].gotNew && Places(w, me) == map[]
    ensures Places(WorldStep(w, On(sid, SetLog(me, i, log, cached))), me) == map[sid := Stored(i, cached)]
  {
    assert sid !in Places(w, me);
  }

  lemma OnlyThere(w: World, me: Tid, sid: nat, place: Place)
    requires sid < |w.sessions| && Places(w, me) == map[sid := place]
    ensures Stands(w.sessions[sid], me, place)
    ensures forall k :: 0 <= k < |w.sessions| && k != sid ==> me !in w.sessions[k].streams
  {
    var places := Places(w, me);
    assert sid in places && places[sid] == place;
    forall k | 0 <= k < |w.sessions| && k != sid ensures me !in w.sessions[k].streams {
      assert k !in places;
    }
  }

  lemma MarkMoves(w: World, me: Tid, sid: nat, i: nat)
    requires sid < |w.sessions| && i < |w.sessions[sid].reqs| && Places(w, me) == map[sid := Stored(i, true)]
    ensures var w' := WorldStep(w, On(sid, SetFromCache(me, i)));
            && Places(w', me) == map[sid := Marked(i)]
            && sid < |w'.sessions| && i < |w'.sessions[sid].reqs| && w'.sessions[sid].reqs[i].fromCache
  {
    OnlyThere(w, me, sid, Places(w, me)[sid]);
  }

  lemma CompleteMoves(w: World, me: Tid, sid: nat, i: nat)
    requires sid < |w.sessions| && i < |w.sessions[sid].reqs|
    requires Places(w, me) == map[sid := Stored(i, false)] || Places(w, me) == map[sid := Marked(i)]
    ensures var w' := WorldStep(w, On(sid, SetComplete(me, i)));
            && Places(w', me) == map[]
            && sid < |w'.sessions| && i < |w'.sessions[sid].reqs| && w'.sessions[sid].reqs[i].gotComplete
  {
    OnlyThere(w, me, sid, Places(w, me)[sid]);
  }

  /** The state in which line 322 looks at the session: after the crawl log, and what the others did then. */
  function AtAbort(me: Tid, w: World, log: Log, cached: bool, req: ReqRef, env: nat -> seq<WorldEvent>): World
    requires req.Ref?
  {
    ActRun(w, Stores(me, log, cached, req, env))
  }

  lemma StoresStage(me: Tid, w: World, log: Log, cached: bool, sess: SessRef, req: ReqRef, env: nat -> seq<WorldEvent>)
    requires WorldInv(w) && RefsOk(w, sess, req) && req.Ref? && Places(w, me) == map[] && OthersOnly(me, env, 2)
    ensures var w1 := AtAbort(me, w, log, cached, req, env);
            && WorldInv(w1) && WorldGrows(w, w1) && RefsOk(w1, sess, req)
            && Places(w1, me) == map[req.sid := Stored(req.i, cached)]
  {
    var e := SetLog(me, req.i, log, cached);
    var w0 := WorldStep(w, On(req.sid, e));
    StoreMoves(w, me, req.sid, req.i, log, cached);
    MyTurn(w, req.sid, e, sess, req, me);
    TheirTurn(w0, env(2), sess, req, me);
    ActRunConcat(w, [Mine(req.sid, e)], [Theirs(env(2))]);
    WorldGrowsTransitive(w, w0, WorldRun(w0, env(2)));
  }

  lemma {:induction false} AbortsStage(me: Tid, w: World, sess: SessRef, req: ReqRef)
    requires WorldInv(w) && RefsOk(w, sess, req)
    ensures var w' := ActRun(w, Aborts(w, sess, req));
            && WorldInv(w') && WorldGrows(w, w') && RefsOk(w', sess, req) && Places(w', me) == Places(w, me)
            && (IsPage(w, sess, req) ==> SessAt(w', sess.sid).aborts > 0)
  {
    WorldGrowsReflexive(w);
    if IsPage(w, sess, req) {
      MyTurn(w, sess.sid, Abort, sess, req, me);
    }
  }

  lemma MarksStage(me: Tid, w: World, sess: SessRef, req: ReqRef, env: nat -> seq<WorldEvent>)
    requires WorldInv(w) && RefsOk(w, sess, req) && req.Ref? && Places(w, me) == map[req.sid := Stored(req.i, true)]
    requires OthersOnly(me, env, 3)
    ensures var w' := ActRun(w, Marks(me, w, sess, req, env));
            && WorldInv(w') && WorldGrows(w, w') && RefsOk(w', sess, req)
            && Places(w', me) == map[req.sid := Marked(req.i)]
            && w'.sessions[req.sid].reqs[req.i].fromCache
            && (IsPage(w, sess, req) ==> SessAt(w', sess.sid).aborts > 0)
  {
    AbortsStage(me, w, sess, req);
    var a := ActRun(w, Aborts(w, sess, req));
    TheirTurn(a, env(3), sess, req, me);
    var b := WorldRun(a, env(3));
    var e := SetFromCache(me, req.i);
    MarkMoves(b, me, req.sid, req.i);
    MyTurn(b, req.sid, e, sess, req, me);
    var c := WorldStep(b, On(req.sid, e));
    ActRunConcat(a, [Theirs(env(3))], [Mine(req.sid, e)]);
    ActRunConcat(w, Aborts(w, sess, req), [Theirs(env(3))] + [Mine(req.sid, e)]);
    WorldGrowsTransitive(w, a, b);
    WorldGrowsTransitive(w, b, c);
    if IsPage(w, sess, req) {
      assert Grows(a.sessions[sess.sid], b.sessions[sess.sid]) && Grows(b.sessions[sess.sid], c.sessions[sess.sid]);
    }
  }

  lemma {:induction false} EndsStage(me: Tid, w: World, sess: SessRef, req: ReqRef, env: nat -> seq<WorldEvent>)
    requires WorldInv(w) && RefsOk(w, sess, req) && req.Ref?
    requires Places(w, me) == map[req.sid := Stored(req.i, false)] || Places(w, me) == map[req.sid := Marked(req.i)]
    requires OthersOnly(me, env, 4) && OthersOnly(me, env, 5)
    ensures var w' := ActRun(w, Ends(me, req, env));
            && WorldInv(w') && WorldGrows(w, w') && RefsOk(w', sess, req) && Places(w', me) == map[]
            && w'.sessions[req.sid].reqs[req.i].gotComplete
  {
    TheirTurn(w, env(4), sess, req, me);
    var a := WorldRun(w, env(4));
    var e := SetComplete(me, req.i);
    CompleteMoves(a, me, req.sid, req.i);
    MyTurn(a, req.sid, e, sess, req, me);
    var b := WorldStep(a, On(req.sid, e));
    TheirTurn(b, env(5), sess, req, me);
    var c := WorldRun(b, env(5));
    ActRunConcat(w, [Theirs(env(4))], [Mine(req.sid, e)]);
    ActRunConcat(w, [Theirs(env(4))] + [Mine(req.sid, e)], [Theirs(env(5))]);
    WorldGrowsTransitive(w, a, b);
    WorldGrowsTransitive(w, b, c);
    assert Grows(b.sessions[req.sid], c.sessions[req.sid]);
    assert Later(b.sessions[req.sid].reqs[req.i], c.sessions[req.sid].reqs[req.i]);
  }

  /** The abort of a page that was aborted before: what ends a completion in front of line 327. */
  ghost predicate FailsAtAbort(me: Tid, w: World, log: Log, cached: bool, sess: SessRef, req: ReqRef, env: nat -> seq<WorldEvent>)
    requires req.Ref?
  {
    var w1 := AtAbort(me, w, log, cached, req, env);
    cached && (!HasInitial(w1, sess) || AbortsAgain(w1, sess, req))
  }

  /** The turns of a completion up to the notification of line 330. */
  function UpToTelling(me: Tid, w: World, log: Log, cached: bool, sess: SessRef, req: ReqRef, env: nat -> seq<WorldEvent>): seq<Act>
    requires req.Ref?
  {
    Stores(me, log, cached, req, env)
    + (if cached then Marks(me, AtAbort(me, w, log, cached, req, env), sess, req, env) else [])
    + Ends(me, req, env)
  }

  ghost predicate AllOthers(me: Tid, env: nat -> seq<WorldEvent>) { forall k :: OthersOnly(me, env, k) }

  /**
   A completion of a request. It breaks off, with a panic, in front of line 327 exactly if it is
   of a cached response and the abort fails, and leaves the stream there; otherwise the
   request is complete, from the cache if the response was, and the stream is nowhere.
   */
  lemma CompletionEnds(me: Tid, w: World, log: Log, cached: bool, sess: SessRef, req: ReqRef, env: nat -> seq<WorldEvent>)
    requires WorldInv(w) && RefsOk(w, sess, req) && req.Ref? && Places(w, me) == map[] && AllOthers(me, env)
    ensures var r := Completes(me, w, log, cached, sess, req, env);
            var w' := ActRun(w, r.acts);
            && Keeps(w, r) && r.sess == sess && r.req == req
            && if FailsAtAbort(me, w, log, cached, sess, req, env) then
                 r.stop == Some(Panicked) && Places(w', me) == map[req.sid := Stored(req.i, true)]
               else
                 && Places(w', me) == map[]
                 && w'.sessions[req.sid].reqs[req.i].gotComplete && (cached ==> w'.sessions[req.sid].reqs[req.i].fromCache)
                 && (cached && IsPage(w, sess, req) ==> SessAt(w', sess.sid).aborts > 0)
                 && WorldGrows(w, ActRun(w, UpToTelling(me, w, log, cached, sess, req, env)))
  {
    assert forall k :: OthersOnly(me, env, k);
    assert OthersOnly(me, env, 2) && OthersOnly(me, env, 3) && OthersOnly(me, env, 4) && OthersOnly(me, env, 5);
    var stored := Stores(me, log, cached, req, env);
    StoresStage(me, w, log, cached, sess, req, env);
    var w1 := ActRun(w, stored);
    if FailsAtAbort(me, w, log, cached, sess, req, env) {
      AbortsStage(me, w1, sess, req);
      ActRunConcat(w, stored, Aborts(w1, sess, req));
      WorldGrowsTransitive(w, w1, ActRun(w1, Aborts(w1, sess, req)));
    } else if cached {
      CachedStages(me, w, w1, log, sess, req, env);
    } else {
      EndsStage(me, w1, sess, req, env);
      assert stored + [] == stored;
      ActRunConcat(w, stored, Ends(me, req, env));
      var w2 := ActRun(w, stored + Ends(me, req, env));
      WorldGrowsTransitive(w, w1, w2);
      LastTurn(me, w, stored + Ends(me, req, env), sess, req);
    }
  }

  lemma {:induction false} CachedStages(me: Tid, w: World, w1: World, log: Log, sess: SessRef, req: ReqRef, env: nat -> seq<WorldEvent>)
    requires WorldInv(w1) && WorldGrows(w, w1) && RefsOk(w, sess, req) && RefsOk(w1, sess, req) && req.Ref?
    requires Places(w1, me) == map[req.sid := Stored(req.i, true)] && HasInitial(w1, sess)
    requires OthersOnly(me, env, 3) && OthersOnly(me, env, 4) && OthersOnly(me, env, 5)
    requires w1 == ActRun(w, Stores(me, log, true, req, env))
    ensures var acts := Stores(me, log, true, req, env) + Marks(me, w1, sess, req, env) + Ends(me, req, env);
            var w' := ActRun(w, acts + Tells(ActRun(w, acts), sess));
            && WorldInv(w') && WorldGrows(w, w') && RefsOk(w', sess, req) && Places(w', me) == map[]
            && w'.sessions[req.sid].reqs[req.i].gotComplete && w'.sessions[req.sid].reqs[req.i].fromCache
            && (IsPage(w, sess, req) ==> SessAt(w', sess.sid).aborts > 0)
            && WorldGrows(w, ActRun(w, acts))
  {
    var stored, marks, ends := Stores(me, log, true, req, env), Marks(me, w1, sess, req, env), Ends(me, req, env);
    MarksStage(me, w1, sess, req, env);
    var w2 := ActRun(w1, marks);
    EndsStage(me, w2, sess, req, env);
    var w3 := ActRun(w2, ends);
    ActRunConcat(w, stored, marks);
    ActRunConcat(w, stored + marks, ends);
    WorldGrowsTransitive(w, w1, w2);
    WorldGrowsTransitive(w, w2, w3);
    LastTurn(me, w, stored + marks + ends, sess, req);
    var w' := ActRun(w, stored + marks + ends + Tells(w3, sess));
    WorldGrowsTransitive(w2, w3, w');
    assert Grows(w2.sessions[req.sid], w'.sessions[req.sid]);
    assert Later(w2.sessions[req.sid].reqs[req.i], w'.sessions[req.sid].reqs[req.i]);
    if IsPage(w, sess, req) {
      PageStaysPage(w, w1, sess, req);
      assert Grows(w2.sessions[sess.sid], w'.sessions[sess.sid]);
    }
  }

  lemma LastTurn(me: Tid, w: World, acts: seq<Act>, sess: SessRef, req: ReqRef)
    requires var w1 := ActRun(w, acts); WorldInv(w1) && WorldGrows(w, w1) && RefsOk(w1, sess, req)
    ensures var w1 := ActRun(w, acts); var w' := ActRun(w, acts + Tells(w1, sess));
            && WorldInv(w') && WorldGrows(w, w') && WorldGrows(w1, w') && RefsOk(w', sess, req) && Places(w', me) == Places(w1, me)
            && (req.Ref? && w1.sessions[req.sid].reqs[req.i].gotComplete ==> w'.sessions[req.sid].reqs[req.i].gotComplete)
  {
    var w1 := ActRun(w, acts);
    TellsTurn(w1, sess, sess, req, me);
    ActRunConcat(w, acts, Tells(w1, sess));
    var w' := ActRun(w1, Tells(w1, sess));
    WorldGrowsTransitive(w, w1, w');
    if req.Ref? {
      assert Grows(w1.sessions[req.sid], w'.sessions[req.sid]);
      assert Later(w1.sessions[req.sid].reqs[req.i], w'.sessions[req.sid].reqs[req.i]);
    }
  }

  /** The page is the first request of the session, and a request is the page if it has its id. */
  predicate HasIdOfThePage(w: World, sess: SessRef, req: ReqRef)
    requires req.Ref? && sess.Proxied? && sess.sid < |w.sessions| && w.sessions[sess.sid].reqs != []
    requires req.sid < |w.sessions| && req.i < |w.sessions[req.sid].reqs|
  {
    w.sessions[req.sid].reqs[req.i].requestId == w.sessions[sess.sid].reqs[0].requestId
  }

  /** The writes of a completion that is handled to the end, in order. */
  function CompletedWrites(me: Tid, page: bool, log: Log, cached: bool, sess: SessRef, req: ReqRef): seq<(nat, Effect)>
    requires sess.Proxied? && req.Ref?
  {
    [(req.sid, SetLog(me, req.i, log, cached))]
    + (if cached then (if page then [(sess.sid, Abort)] else []) + [(req.sid, SetFromCache(me, req.i))] else [])
    + [(req.sid, SetComplete(me, req.i))] + [(sess.sid, Notified)]
  }

  lemma OwnTwo(a: Act, b: Act)
    ensures Own([a] + [b]) == Own([a]) + Own([b])
  {
    OwnConcat([a], [b]);
  }

  lemma OwnOfStores(me: Tid, log: Log, cached: bool, req: ReqRef, env: nat -> seq<WorldEvent>)
    requires req.Ref?
    ensures Own(Stores(me, log, cached, req, env)) == [(req.sid, SetLog(me, req.i, log, cached))]
  {
    OwnTwo(Mine(req.sid, SetLog(me, req.i, log, cached)), Theirs(env(2)));
    OwnOne(Mine(req.sid, SetLog(me, req.i, log, cached)));
    OwnOne(Theirs(env(2)));
  }

  lemma OwnOfMarks(me: Tid, w: World, sess: SessRef, req: ReqRef, env: nat -> seq<WorldEvent>)
    requires req.Ref?
    ensures Own(Marks(me, w, sess, req, env)) ==
              (if IsPage(w, sess, req) then [(sess.sid, Abort)] else []) + [(req.sid, SetFromCache(me, req.i))]
  {
    var e := SetFromCache(me, req.i);
    OwnTwo(Theirs(env(3)), Mine(req.sid, e));
    OwnOne(Theirs(env(3)));
    OwnOne(Mine(req.sid, e));
    OwnConcat(Aborts(w, sess, req), [Theirs(env(3))] + [Mine(req.sid, e)]);
    if IsPage(w, sess, req) {
      OwnOne(Mine(sess.sid, Abort));
    }
  }

  lemma OwnOfEnds(me: Tid, req: ReqRef, env: nat -> seq<WorldEvent>)
    requires req.Ref?
    ensures Own(Ends(me, req, env)) == [(req.sid, SetComplete(me, req.i))]
  {
    OwnTwo(Theirs(env(4)), Mine(req.sid, SetComplete(me, req.i)));
    OwnConcat([Theirs(env(4))] + [Mine(req.sid, SetComplete(me, req.i))], [Theirs(env(5))]);
    OwnOne(Theirs(env(4)));
    OwnOne(Mine(req.sid, SetComplete(me, req.i)));
    OwnOne(Theirs(env(5)));
  }

  /**
   A completion that does not end the stream writes the crawl log, for a cached response the
   abort (of the page only) and FromCache, then GotComplete, tells the session, and
   writes nothing else.
   */
  lemma CompletionWrites(me: Tid, w: World, log: Log, cached: bool, sess: SessRef, req: ReqRef, env: nat -> seq<WorldEvent>)
    requires WorldInv(w) && RefsOk(w, sess, req) && req.Ref? && Places(w, me) == map[] && OthersOnly(me, env, 2)
    requires sess.Proxied? && SessAt(w, sess.sid).reqs != []
    requires Completes(me, w, log, cached, sess, req, env).stop.None?
    ensures Own(Completes(me, w, log, cached, sess, req, env).acts)
            == CompletedWrites(me, HasIdOfThePage(w, sess, req), log, cached, sess, req)
  {
    var stored, ends := Stores(me, log, cached, req, env), Ends(me, req, env);
    StoresStage(me, w, log, cached, sess, req, env);
    var w1 := ActRun(w, stored);
    PageStaysPage(w, w1, sess, req);
    var marks := if cached then Marks(me, w1, sess, req, env) else [];
    OwnOfStores(me, log, cached, req, env);
    OwnOfMarks(me, w1, sess, req, env);
    OwnOfEnds(me, req, env);
    OwnOne(Mine(sess.sid, Notified));
    OwnConcat(stored, marks);
    OwnConcat(stored + marks, ends);
    OwnConcat(stored + marks + ends, [Mine(sess.sid, Notified)]);
  }

  /**
   When a completion ends the stream, on a session that a New has led to: with a panic exactly
   if the response is from the cache, the request is the page, and the fetch has been
   aborted before line 325; and as cancelled exactly if the session has ended by line 330.
   */
  lemma CompletionStops(me: Tid, w: World, log: Log, cached: bool, sess: SessRef, req: ReqRef, env: nat -> seq<WorldEvent>)
    requires WorldInv(w) && RefsOk(w, sess, req) && req.Ref? && Places(w, me) == map[] && AllOthers(me, env)
    requires sess.Proxied? && SessAt(w, sess.sid).ready && SessAt(w, sess.sid).reqs != []
    ensures var r := Completes(me, w, log, cached, sess, req, env);
            var again := cached && HasIdOfThePage(w, sess, req) && SessAt(AtAbort(me, w, log, cached, req, env), sess.sid).aborts > 0;
            && (r.stop == Some(Panicked) <==> again)
            && (r.stop == Some(SessionCancelled) <==> !again && SessAt(ActRun(w, r.acts), sess.sid).cancelled)
            && (r.stop.Some? ==> r.stop.value in {Panicked, SessionCancelled})
  {
    assert OthersOnly(me, env, 2);
    StoresStage(me, w, log, cached, sess, req, env);
    var w1 := AtAbort(me, w, log, cached, req, env);
    PageStaysPage(w, w1, sess, req);
    assert Grows(w.sessions[sess.sid], w1.sessions[sess.sid]);
    CompletionEnds(me, w, log, cached, sess, req, env);
    if !FailsAtAbort(me, w, log, cached, sess, req, env) {
      var acts := UpToTelling(me, w, log, cached, sess, req, env);
      ComesToTelling(me, w, log, cached, sess, req, env);
      assert Grows(w.sessions[sess.sid], ActRun(w, acts).sessions[sess.sid]);
      TellingStops(w, acts, sess);
    }
  }

  /** A completion that does not fail at the abort comes to the notification. */
  lemma ComesToTelling(me: Tid, w: World, log: Log, cached: bool, sess: SessRef, req: ReqRef, env: nat -> seq<WorldEvent>)
    requires req.Ref? && !FailsAtAbort(me, w, log, cached, sess, req, env)
    ensures var r := Completes(me, w, log, cached, sess, req, env);
            var acts := UpToTelling(me, w, log, cached, sess, req, env);
            r.acts == acts + Tells(ActRun(w, acts), sess) && r.stop == NotifyStop(ActRun(w, acts), sess)
  {}

  /** The last question, in line 330, is whether the session has ended. */
  lemma TellingStops(w: World, acts: seq<Act>, sess: SessRef)
    requires sess.Proxied? && SessAt(ActRun(w, acts), sess.sid).ready
    ensures var w2 := ActRun(w, acts);
            NotifyStop(w2, sess) == if SessAt(ActRun(w, acts + Tells(w2, sess)), sess.sid).cancelled then Some(SessionCancelled) else None
  {
    var w2 := ActRun(w, acts);
    if NotifyStop(w2, sess).None? {
      ActRunConcat(w, acts, [Mine(sess.sid, Notified)]);
      ActRunOne(w2, Mine(sess.sid, Notified));
    } else {
      assert acts + [] == acts;
    }
  }

  /**
   A completion of a request on a stream whose session is none of the registry panics all the
   same, after the crawl log and, unless it came from the cache, GotComplete are written.
   */
  lemma CompletionOffSession(me: Tid, w: World, log: Log, cached: bool, sess: SessRef, req: ReqRef, env: nat -> seq<WorldEvent>)
    requires req.Ref? && !sess.Proxied?
    ensures var r := Completes(me, w, log, cached, sess, req, env);
            && r.stop == Some(Panicked)
            && Own(r.acts) == [(req.sid, SetLog(me, req.i, log, cached))]
                              + if cached then [] else [(req.sid, SetComplete(me, req.i))]
  {
    OwnOfStores(me, log, cached, req, env);
    OwnOfEnds(me, req, env);
    OwnConcat(Stores(me, log, cached, req, env), Ends(me, req, env));
    assert Stores(me, log, cached, req, env) + [] == Stores(me, log, cached, req, env);
    assert forall acts: seq<Act> :: acts + [] == acts;
  }

  /**
   A Completed that is about no request: it panics without a session as well, and otherwise goes
   on; a crawl log is written exactly for a direct session, if the response did not come
   from the cache and has a WARC id.
   */
  lemma CompletedWithoutRequest(me: Tid, w: World, log: Option<Log>, cached: bool, sess: SessRef, req: ReqRef, env: nat -> seq<WorldEvent>)
    ensures var r := OnCompleted(me, w, log, cached, sess, req, env);
            && (log.None? ==> r.stop == Some(Panicked) && r.acts == [])
            && (req.NilReq? ==> r.acts == [] && r.stop == if log.None? || sess.NilSess? then Some(Panicked) else None)
            && r.logs == (if log.Some? && sess.Direct? && req.NilReq? && !cached && log.value.warcId != "" then [log.value] else [])
  {}

  /**
   After a page has been completed from the cache, every later completion of it from the cache
   panics, whichever stream it comes on and whatever has happened in between.
   */
  lemma {:induction false} SecondCompletionPanics(me: Tid, w: World, log: Log, sess: SessRef, req: ReqRef, env: nat -> seq<WorldEvent>,
                               me2: Tid, w2: World, log2: Log, req2: ReqRef, env2: nat -> seq<WorldEvent>)
    requires WorldInv(w) && RefsOk(w, sess, req) && req.Ref? && Places(w, me) == map[] && AllOthers(me, env)
    requires IsPage(w, sess, req) && Completes(me, w, log, true, sess, req, env).stop.None?
    requires WorldInv(w2) && WorldGrows(ActRun(w, Completes(me, w, log, true, sess, req, env).acts), w2)
    requires RefsOk(w2, sess, req2) && req2.Ref? && IsPage(w2, sess, req2) && Places(w2, me2) == map[] && AllOthers(me2, env2)
    ensures Completes(me2, w2, log2, true, sess, req2, env2).stop == Some(Panicked)
  {
    CompletionEnds(me, w, log, true, sess, req, env);
    var w' := ActRun(w, Completes(me, w, log, true, sess, req, env).acts);
    assert Grows(w'.sessions[sess.sid], w2.sessions[sess.sid]);
    assert OthersOnly(me2, env2, 2);
    StoresStage(me2, w2, log2, true, sess, req2, env2);
    var w3 := AtAbort(me2, w2, log2, true, req2, env2);
    assert Grows(w2.sessions[sess.sid], w3.sessions[sess.sid]);
    PageStaysPage(w2, w3, sess, req2);
  }

  /** A session whose page has been aborted once: the next completion of the page from the cache panics. */
  lemma SecondAbort(log: Log)
    ensures var r := Req("r", "u", "n", "", "", true, Some(log), true, true);
            var w := World([Sess(true, false, 1, 2, [r], map[])], map[1 := 0]);
            Completes(7, w, log, true, Proxied(0), Ref(0, 0), k => []).stop == Some(Panicked)
  {
    var r := Req("r", "u", "n", "", "", true, Some(log), true, true);
    var w := World([Sess(true, false, 1, 2, [r], map[])], map[1 := 0]);
    var env: nat -> seq<WorldEvent> := k => [];
    assert ById([r], "r").value == 0;
    assert forall t, k: nat :: OthersOnly(t, env, k);
    assert SessInv(w.sessions[0]);
    assert Places(w, 7) == map[];
    StoresStage(7, w, log, true, Proxied(0), Ref(0, 0), env);
    var w1 := AtAbort(7, w, log, true, Ref(0, 0), env);
    assert Grows(w.sessions[0], w1.sessions[0]);
    PageStaysPage(w, w1, Proxied(0), Ref(0, 0));
  }

  // ---------------------------------------------------------------- whole streams

  predicate IsNew(x: Received) { x.Msg? && x.m.New? }

  /** The stream stands in front of line 327 at most: it has broken off there, with a panic. */
  ghost predicate NeverInBetween(w: World, me: Tid) {
    forall sid :: sid in Places(w, me) ==> !Places(w, me)[sid].Marked?
  }

  /** What a turn that leads to `w'` leaves behind. */
  ghost predicate LeavesOk(me: Tid, w: World, w': World, r: Response) {
    && WorldInv(w') && WorldGrows(w, w') && RefsOk(w', r.sess, r.req) && NeverInBetween(w', me)
    && (r.stop != Some(Panicked) ==> Places(w', me) == map[])
  }

  /**
   What a Notify does: without a session the stream ends; with a request the session is told, and the
   stream ends as cancelled if the session has; without one nothing happens.
   */
  lemma NotifyWrites(w: World, sess: SessRef, req: ReqRef, r: Response)
    requires r == OnNotify(w, sess, req)
    ensures r.sess == sess && r.req == req && r.reply.None? && r.logs == []
    ensures r.stop == if sess.NilSess? then Some(NoSession)
                      else if req.NilReq? then None
                      else if sess.Direct? || !SessAt(w, sess.sid).ready then Some(Panicked)
                      else if SessAt(w, sess.sid).cancelled then Some(SessionCancelled)
                      else None
    ensures Own(r.acts) == if req.Ref? && r.stop.None? then [(sess.sid, Notified)] else []
  {
    if sess.Proxied? {
      OwnOne(Mine(sess.sid, Notified));
    }
  }

  lemma {:induction false} NotifyKeeps(me: Tid, w: World, sess: SessRef, req: ReqRef, r: Response)
    requires WorldInv(w) && RefsOk(w, sess, req) && Places(w, me) == map[] && r == OnNotify(w, sess, req)
    ensures LeavesOk(me, w, ActRun(w, r.acts), r)
  {
    TellsTurn(w, sess, sess, req, me);
    WorldGrowsReflexive(w);
  }

  lemma CompletedKeeps(me: Tid, w: World, log: Option<Log>, cached: bool, sess: SessRef, req: ReqRef,
                       env: nat -> seq<WorldEvent>, r: Response)
    requires WorldInv(w) && RefsOk(w, sess, req) && Places(w, me) == map[] && AllOthers(me, env)
    requires r == OnCompleted(me, w, log, cached, sess, req, env)
    ensures LeavesOk(me, w, ActRun(w, r.acts), r)
  {
    if log.Some? && req.Ref? {
      CompletionEnds(me, w, log.value, cached, sess, req, env);
    } else {
      WorldGrowsReflexive(w);
    }
  }

  lemma {:induction false} MessageKeeps(me: Tid, max: int, w: World, m: Message, says: Says, sess: SessRef, req: ReqRef,
                     env: nat -> seq<WorldEvent>, r: Response)
    requires WorldInv(w) && RefsOk(w, sess, req) && Places(w, me) == map[] && AllOthers(me, env)
    requires r == OnMessage(me, max, w, m, says, sess, req, env)
    ensures LeavesOk(me, w, ActRun(w, r.acts), r)
  {
    assert OthersOnly(me, env, 0) && OthersOnly(me, env, 1);
    match m
    case New(_, _, _, _) => NewKeeps(me, max, w, m, says, req, env, r);
    case Notify => NotifyKeeps(me, w, sess, req, r);
    case Completed(log, cached) => CompletedKeeps(me, w, log, cached, sess, req, env, r);
  }

  lemma {:induction false} TurnKeeps(me: Tid, max: int, w: World, x: Received, sess: SessRef, req: ReqRef, env: nat -> seq<WorldEvent>, r: Response)
    requires WorldInv(w) && RefsOk(w, sess, req) && Places(w, me) == map[] && AllOthers(me, env)
    requires r == Respond(me, max, w, x, sess, req, env)
    ensures LeavesOk(me, w, ActRun(w, r.acts), r)
  {
    assert OthersOnly(me, env, 6);
    TheirTurn(w, env(6), sess, req, me);
    var w1 := WorldRun(w, env(6));
    if x.Msg? {
      var m := OnMessage(me, max, w1, x.m, x.says, sess, req, env);
      ActRunConcat(w, [Theirs(env(6))], m.acts);
      MessageKeeps(me, max, w1, x.m, x.says, sess, req, env, m);
      WorldGrowsTransitive(w, w1, ActRun(w1, m.acts));
    } else {
      assert [Theirs(env(6))] + [] == [Theirs(env(6))];
    }
  }

  ghost predicate EnvByOthers(me: Tid, env: nat -> nat -> seq<WorldEvent>) { forall n :: AllOthers(me, env(n)) }

  predicate AllowedIfProxied(x: Received, reply: Reply)
    requires IsNew(x)
  {
    reply.NewReply? && x.m.proxyId != 0 ==> x.says.allowed(x.m.uri)
  }

  function Indexes(replies: seq<(nat, Reply)>): seq<nat> {
    seq(|replies|, k requires 0 <= k < |replies| => replies[k].0)
  }

  /** What holds of a stream after `n` messages. */
  ghost predicate TalkOk(me: Tid, w: World, t: Talk, n: nat) {
    var w' := ActRun(w, t.acts);
    && WorldInv(w') && WorldGrows(w, w') && RefsOk(w', t.sess, t.req) && NeverInBetween(w', me)
    && (t.stop != Some(Panicked) ==> Places(w', me) == map[])
    && t.handled <= n && (t.stop.None? ==> t.handled == n)
  }

  lemma NextTalkKeeps(me: Tid, max: int, w: World, x: Received, env: nat -> seq<WorldEvent>, n: nat, t: Talk)
    requires TalkOk(me, w, t, n) && AllOthers(me, env)
    ensures TalkOk(me, w, NextTalk(me, max, w, x, env, n, t), n + 1)
  {
    if t.stop.None? {
      var w1 := ActRun(w, t.acts);
      var r := Respond(me, max, w1, x, t.sess, t.req, env);
      TurnKeeps(me, max, w1, x, t.sess, t.req, env, r);
      ActRunConcat(w, t.acts, r.acts);
      WorldGrowsTransitive(w, w1, ActRun(w1, r.acts));
    }
  }

  lemma StartOk(me: Tid, w: World)
    requires WorldInv(w) && Places(w, me) == map[]
    ensures TalkOk(me, w, Talk([], NilSess, NilReq, [], [], 0, None), 0)
  {
    WorldGrowsReflexive(w);
  }

  /**
   At every message boundary of every conversation, with any other streams: the shared state is in
   order and nothing in it has been taken back; the stream is nowhere between lines 321
   and 329; and if it has ended it is not between 327 and 329.
   */
  lemma {:induction false} ConversationKeeps(me: Tid, max: int, w: World, input: seq<Received>,
                                             env: nat -> nat -> seq<WorldEvent>, n: nat)
    requires n <= |input| && WorldInv(w) && Places(w, me) == map[] && EnvByOthers(me, env)
    ensures TalkOk(me, w, Conversation(me, max, w, input, env, n), n)
  {
    if n == 0 {
      StartOk(me, w);
    } else {
      ConversationKeeps(me, max, w, input, env, n - 1);
      assert AllOthers(me, env(n - 1));
      NextTalkKeeps(me, max, w, input[n - 1], env(n - 1), n - 1, Conversation(me, max, w, input, env, n - 1));
    }
  }

  /**
   FromCache implies GotComplete at every message boundary at which the other streams are
   between two messages as well, or broken off.
   */
  lemma {:induction false} CachedIsCompleteAtBoundaries(me: Tid, max: int, w: World, input: seq<Received>,
                                     env: nat -> nat -> seq<WorldEvent>, n: nat, sid: nat)
    requires n <= |input| && WorldInv(w) && Places(w, me) == map[] && EnvByOthers(me, env)
    requires var w' := ActRun(w, Conversation(me, max, w, input, env, n).acts);
             sid < |w'.sessions| && forall t :: t != me ==> NeverInBetween(w', t)
    ensures CacheImpliesComplete(ActRun(w, Conversation(me, max, w, input, env, n).acts).sessions[sid])
  {
    ConversationKeeps(me, max, w, input, env, n);
    var w' := ActRun(w, Conversation(me, max, w, input, env, n).acts);
    var s := w'.sessions[sid];
    forall t | t in s.streams ensures !s.streams[t].Marked? {
      assert NeverInBetween(w', t);
      assert sid in Places(w', t);
    }
    CacheAndPlaces(s);
  }

  lemma {:induction false} BeforeTurn(me: Tid, max: int, w: World, input: seq<Received>, env: nat -> nat -> seq<WorldEvent>, n: nat)
    requires n < |input| && WorldInv(w) && Places(w, me) == map[] && EnvByOthers(me, env)
    ensures WorldInv(ActRun(w, Conversation(me, max, w, input, env, n).acts)) && ByOthers(me, env(n)(6))
  {
    ConversationKeeps(me, max, w, input, env, n);
    assert AllOthers(me, env(n));
    assert OthersOnly(me, env(n), 6);
  }

  /** What one message adds. */
  lemma {:induction false} NextTalkAdds(me: Tid, max: int, w: World, x: Received, env: nat -> seq<WorldEvent>, n: nat, t: Talk, r: Response,
                     before: seq<Log>)
    requires t.stop.None? && r == Respond(me, max, ActRun(w, t.acts), x, t.sess, t.req, env)
    ensures var t' := NextTalk(me, max, w, x, env, n, t);
            && ActRun(w, t'.acts) == ActRun(ActRun(w, t.acts), r.acts)
            && before + t'.logs == (before + t.logs) + r.logs && t'.sess == r.sess && t'.req == r.req && t'.stop == r.stop
            && t'.handled == (if r.stop.None? then n + 1 else n)
            && t'.replies == (if r.stop.None? && r.reply.Some? then t.replies + [(n, r.reply.value)] else t.replies)
  {
    ActRunConcat(w, t.acts, r.acts);
    assert t.replies + [] == t.replies;
    assert before + (t.logs + r.logs) == (before + t.logs) + r.logs;
  }

  /**
   From one message to the next: only a New changes the session and the request of the stream or
   answers; only a Completed writes a crawl log; the end of the input ends the stream.
   */
  lemma OnlyNewChangesVariables(me: Tid, max: int, w: World, x: Received, env: nat -> seq<WorldEvent>, n: nat, t: Talk)
    requires t.stop.None?
    ensures var t' := NextTalk(me, max, w, x, env, n, t);
            && (!IsNew(x) ==> t'.sess == t.sess && t'.req == t.req && t'.replies == t.replies)
            && (!(x.Msg? && x.m.Completed?) ==> t'.logs == t.logs)
            && (t'.stop == Some(Ended) <==> x.Eof?) && (t'.stop == Some(RecvFailed) <==> x.RecvError?)
            && t'.stop != Some(StillOpen) && t'.handled == if t'.stop.None? then n + 1 else n
  {
    assert t.replies + [] == t.replies && t.logs + [] == t.logs;
    if x.Msg? {
      MessageStops(me, max, WorldRun(ActRun(w, t.acts), env(6)), x.m, x.says, t.sess, t.req, env);
    }
  }

  predicate NotFromMessages(stop: Option<Result>) { stop != Some(Ended) && stop != Some(RecvFailed) && stop != Some(StillOpen) }

  lemma NewStopsOtherwise(max: int, w: World, m: Message, says: Says, req: ReqRef, env: nat -> seq<WorldEvent>)
    requires m.New?
    ensures var r := OnNew(max, w, m, says, req, env); NotFromMessages(r.stop) && r.logs == []
  {}

  lemma CompletedStopsOtherwise(me: Tid, w: World, log: Option<Log>, cached: bool, sess: SessRef, req: ReqRef, env: nat -> seq<WorldEvent>)
    ensures var r := OnCompleted(me, w, log, cached, sess, req, env);
            && NotFromMessages(r.stop)
            && r.sess == sess && r.req == req && r.reply.None?
  {}

  /** What a message alone brings about. */
  lemma MessageStops(me: Tid, max: int, w: World, m: Message, says: Says, sess: SessRef, req: ReqRef, env: nat -> seq<WorldEvent>)
    ensures var r := OnMessage(me, max, w, m, says, sess, req, env);
            && NotFromMessages(r.stop)
            && (!m.New? ==> r.sess == sess && r.req == req && r.reply.None?)
            && (!m.Completed? ==> r.logs == [])
  {
    match m
    case New(_, _, _, _) => NewStopsOtherwise(max, w, m, says, req, env);
    case Notify => NotifyWrites(w, sess, req, OnNotify(w, sess, req));
    case Completed(log, cached) => CompletedStopsOtherwise(me, w, log, cached, sess, req, env);
  }

  /** A stream that has ended takes no further message. */
  lemma {:induction false} ConversationStays(me: Tid, max: int, w: World, input: seq<Received>,
                                             env: nat -> nat -> seq<WorldEvent>, k: nat, n: nat)
    requires k <= n <= |input| && Conversation(me, max, w, input, env, k).stop.Some?
    ensures Conversation(me, max, w, input, env, n) == Conversation(me, max, w, input, env, k)
    decreases n - k
  {
    if k < n {
      ConversationStays(me, max, w, input, env, k, n - 1);
    }
  }

  lemma IndexesAppend(replies: seq<(nat, Reply)>, n: nat, reply: Reply)
    ensures Indexes(replies + [(n, reply)]) == Indexes(replies) + [n]
  {}

  /**
   Over every sequence of messages: one reply for each New that is handled, in the order of the
   messages, and no other reply; and a NewReply on a session of the registry only for a
   URI that robots.txt allows.
   */
  lemma {:induction false} OneReplyEach(me: Tid, max: int, w: World, input: seq<Received>,
                                        env: nat -> nat -> seq<WorldEvent>, n: nat)
    requires n <= |input| && WorldInv(w) && Places(w, me) == map[] && EnvByOthers(me, env)
    ensures var t := Conversation(me, max, w, input, env, n); Answers(input, t.handled, t.replies)
  {
    if n > 0 {
      OneReplyEach(me, max, w, input, env, n - 1);
      ConversationKeeps(me, max, w, input, env, n - 1);
      assert AllOthers(me, env(n - 1));
      NextTalkAnswers(me, max, w, input, env(n - 1), n - 1, Conversation(me, max, w, input, env, n - 1));
    }
  }

  lemma NextTalkAnswers(me: Tid, max: int, w: World, input: seq<Received>, env: nat -> seq<WorldEvent>, n: nat, t: Talk)
    requires n < |input| && TalkOk(me, w, t, n) && AllOthers(me, env) && Answers(input, t.handled, t.replies)
    ensures var t' := NextTalk(me, max, w, input[n], env, n, t); Answers(input, t'.handled, t'.replies)
  {
    if t.stop.None? {
      var w1 := ActRun(w, t.acts);
      TurnReplies(me, max, w1, input[n], t.sess, t.req, env);
      var r := Respond(me, max, w1, input[n], t.sess, t.req, env);
      if r.stop.None? {
        ReplyAdded(input, n, t.replies, r.reply);
      } else {
        assert t.replies + [] == t.replies;
      }
    }
  }

  /** The replies answer the New messages among the first `n`, one each and in their order. */
  ghost predicate Answers(input: seq<Received>, n: nat, replies: seq<(nat, Reply)>) {
    && n <= |input| && Indexes(replies) == Where(input[..n], IsNew)
    && forall r :: r in replies ==> r.0 < n && IsNew(input[r.0]) && AllowedIfProxied(input[r.0], r.1)
  }

  lemma ReplyAdded(input: seq<Received>, n: nat, replies: seq<(nat, Reply)>, reply: Option<Reply>)
    requires n < |input| && Answers(input, n, replies) && (reply.Some? <==> IsNew(input[n]))
    requires reply.Some? ==> AllowedIfProxied(input[n], reply.value)
    ensures Answers(input, n + 1, replies + if reply.Some? then [(n, reply.value)] else [])
  {
    assert input[..n + 1][..n] == input[..n];
    if reply.Some? {
      IndexesAppend(replies, n, reply.value);
    } else {
      assert replies + [] == replies;
    }
  }

  lemma TurnReplies(me: Tid, max: int, w: World, x: Received, sess: SessRef, req: ReqRef, env: nat -> seq<WorldEvent>)
    requires WorldInv(w) && AllOthers(me, env)
    ensures var r := Respond(me, max, w, x, sess, req, env);
            && (r.stop.None? ==> (r.reply.Some? <==> IsNew(x)))
            && (r.reply.Some? ==> IsNew(x) && AllowedIfProxied(x, r.reply.value))
  {
    assert OthersOnly(me, env, 6) && OthersOnly(me, env, 0);
    OthersSound(w, env(6), me);
    if IsNew(x) {
      var w1 := WorldRun(w, env(6));
      NewIsAnswered(max, w1, x.m, x.says, req, env, OnNew(max, w1, x.m, x.says, req, env));
    }
  }

  /** How a stream ends shows in the message it ends on; one that is still open has handled them all. */
  predicate EndsWith(input: seq<Received>, handled: nat, result: Result) {
    if result.StillOpen? then handled == |input|
    else handled < |input| && (result.Ended? <==> input[handled].Eof?) && (result.RecvFailed? <==> input[handled].RecvError?)
  }

  predicate TalkEnds(input: seq<Received>, t: Talk, n: nat) {
    && t.handled <= n && t.stop != Some(StillOpen) && (t.stop.None? ==> t.handled == n)
    && (t.stop.Some? ==> EndsWith(input, t.handled, t.stop.value))
  }

  lemma NextTalkEnds(me: Tid, max: int, w: World, input: seq<Received>, env: nat -> seq<WorldEvent>, n: nat, t: Talk)
    requires n < |input| && TalkEnds(input, t, n)
    ensures TalkEnds(input, NextTalk(me, max, w, input[n], env, n, t), n + 1)
  {
    if t.stop.None? {
      OnlyNewChangesVariables(me, max, w, input[n], env, n, t);
    }
  }

  lemma {:induction false} EndsOnItsMessage(me: Tid, max: int, w: World, input: seq<Received>,
                                            env: nat -> nat -> seq<WorldEvent>, n: nat)
    requires n <= |input|
    ensures TalkEnds(input, Conversation(me, max, w, input, env, n), n)
  {
    if n > 0 {
      EndsOnItsMessage(me, max, w, input, env, n - 1);
      NextTalkEnds(me, max, w, input, env(n - 1), n - 1, Conversation(me, max, w, input, env, n - 1));
    }
  }

  /** What a whole stream promises. */
  lemma StreamPromises(me: Tid, max: int, w: World, input: seq<Received>, env: nat -> nat -> seq<WorldEvent>)
    requires WorldInv(w) && Places(w, me) == map[] && EnvByOthers(me, env)
    ensures var t := Conversation(me, max, w, input, env, |input|);
            Answers(input, t.handled, t.replies) && EndsWith(input, t.handled, if t.stop.Some? then t.stop.value else StillOpen)
  {
    OneReplyEach(me, max, w, input, env, |input|);
    EndsOnItsMessage(me, max, w, input, env, |input|);
  }
}
