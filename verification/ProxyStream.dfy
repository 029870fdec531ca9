/**
 The Do method of server/server.go in its own shape: one proxy stream over the sessions it shares
 with other streams and with the browser listeners, which run, as the caller's `env` says,
 wherever the stream has just read or written shared state. Each handler is shown to be
 what `ProxyProtocol` says of its message, so the laws proved there hold of this code.
 */
module ProxyStream {
  import opened GoBasics
  import opened Lifecycle
  import opened ProxyProtocol
  import opened ProxyLaws

  /**
   What it takes to tell a session of something, and what that does: one more notification, and
   nothing else; none if it has ended or has not been set up.
   */
  predicate ToldOnce(before: seq<Sess>, sess: SessRef, stop: Option<Result>, after: seq<Sess>) {
    if !sess.Proxied? || sess.sid >= |before| || !before[sess.sid].ready then stop == Some(Panicked) && after == before
    else if before[sess.sid].cancelled then stop == Some(SessionCancelled) && after == before
    else stop.None? && after == before[sess.sid := before[sess.sid].(notifies := before[sess.sid].notifies + 1)]
  }

  class ApiServer {
    const me: Tid                     // this stream
    const maxSessions: int
    var sessions: seq<Sess>           // by identity; the registry's slots refer to them
    var slots: map<int, nat>
    var written: seq<Log>             // crawl logs written for direct sessions

    ghost function View(): World
      reads this
    {
      World(sessions, slots)
    }

    constructor (me: Tid, maxSessions: int)
      ensures View() == World([], map[]) && written == [] && this.me == me && this.maxSessions == maxSessions
    {
      this.me, this.maxSessions := me, maxSessions;
      sessions, slots, written := [], map[], [];
    }

    /** The other streams and the browser run. */
    method Others(env: seq<WorldEvent>)
      modifies this`sessions, this`slots
      ensures View() == WorldRun(old(View()), env)
    {
      var w := World(sessions, slots);
      for k := 0 to |env|
        invariant w == WorldRun(old(View()), env[..k])
      {
        assert env[..k + 1][..k] == env[..k];
        w := WorldStep(w, env[k]);
      }
      assert env[..|env|] == env;
      sessions, slots := w.sessions, w.slots;
    }

    /** One write of the stream to a session. */
    method Write(sid: nat, e: Effect)
      modifies this`sessions
      ensures View() == WorldStep(old(View()), On(sid, e))
      ensures sessions == if sid < |old(sessions)| then old(sessions)[sid := Step(old(sessions)[sid], e)] else old(sessions)
    {
      if sid < |sessions| {
        sessions := sessions[sid := Step(sessions[sid], e)];
      }
    }

    /** Session.Notify (session.go:156-174). */
    method NotifySession(sess: SessRef) returns (stop: Option<Result>)
      modifies this`sessions
      ensures stop == NotifyStop(old(View()), sess)
      ensures View() == ActRun(old(View()), Tells(old(View()), sess))
      ensures ToldOnce(old(sessions), sess, stop, sessions)
    {
      if !sess.Proxied? || sess.sid >= |sessions| || !sessions[sess.sid].ready {
        return Some(Panicked);
      }
      if sessions[sess.sid].cancelled {
        return Some(SessionCancelled);
      }
      ActRunOne(View(), Mine(sess.sid, Notified));
      Write(sess.sid, Notified);
      stop := None;
    }

    method FindByRequestId(reqs: seq<Req>, id: string) returns (k: Option<nat>)
      ensures k == ById(reqs, id)
    {
      for j := 0 to |reqs|
        invariant forall l :: 0 <= l < j ==> reqs[l].requestId != id
      {
        if reqs[j].requestId == id {
          return Some(j);
        }
      }
      return None;
    }

    method FindNewByUrl(reqs: seq<Req>, url: string) returns (k: Option<nat>)
      ensures k == ByNewUrl(reqs, url)
    {
      for j := 0 to |reqs|
        invariant forall l :: 0 <= l < j ==> reqs[l].url != url || reqs[l].gotNew
      {
        if reqs[j].url == url && !reqs[j].gotNew {
          return Some(j);
        }
      }
      return None;
    }

    /** Lines 206 to 214 and 265 to 273: look the request up, mark it and notify the session. */
    method Announce(sid: nat, id: string, env: nat -> seq<WorldEvent>) returns (req: ReqRef, stop: Option<Result>)
      requires sid < |sessions|
      modifies this`sessions, this`slots
      ensures var f := Announces(old(View()), sid, id, env);
              req == f.req && stop == f.stop && View() == ActRun(old(View()), f.acts)
    {
      ghost var w := View();
      var k := FindByRequestId(sessions[sid].reqs, id);
      if k.None? {
        return NilReq, None;
      }
      ActRunOne(w, Theirs(env(0)));
      Others(env(0));
      ActRunOne(View(), Mine(sid, MarkNew(k.value)));
      ActRunConcat(w, [Theirs(env(0))], [Mine(sid, MarkNew(k.value))]);
      Write(sid, MarkNew(k.value));
      ActRunConcat(w, [Theirs(env(0))] + [Mine(sid, MarkNew(k.value))], Tells(View(), Proxied(sid)));
      req := Ref(sid, k.value);
      stop := NotifySession(Proxied(sid));
    }

    /** Lines 242 to 248. */
    method AnnounceOptions(sid: nat, url: string, env: nat -> seq<WorldEvent>) returns (req: ReqRef)
      requires sid < |sessions|
      modifies this`sessions, this`slots
      ensures var f := AnnouncesOptions(old(View()), sid, url, env);
              req == f.req && f.stop.None? && View() == ActRun(old(View()), f.acts)
    {
      ghost var w := View();
      var k := FindNewByUrl(sessions[sid].reqs, url);
      if k.None? {
        return NilReq;
      }
      ActRunOne(w, Theirs(env(1)));
      Others(env(1));
      ActRunOne(View(), Mine(sid, MarkNew(k.value)));
      ActRunConcat(w, [Theirs(env(1))], [Mine(sid, MarkNew(k.value))]);
      Write(sid, MarkNew(k.value));
      req := Ref(sid, k.value);
    }

    method Send(r: Reply, says: Says) returns (reply: Option<Reply>, stop: Option<Result>)
      ensures if says.sendFails then reply.None? && stop == Some(SendFailed) else reply == Some(r) && stop.None?
    {
      if says.sendFails {
        return None, Some(SendFailed);
      }
      return Some(r), None;
    }

    /** Lines 144 to 287. `req0` is the request the stream holds from before. */
    method HandleNew(m: Message, says: Says, req0: ReqRef, env: nat -> seq<WorldEvent>)
      returns (sess: SessRef, req: ReqRef, reply: Option<Reply>, stop: Option<Result>)
      requires m.New? && WorldInv(View())
      modifies this`sessions, this`slots
      ensures var r := OnNew(maxSessions, old(View()), m, says, req0, env);
              && sess == r.sess && req == r.req && reply == r.reply && stop == r.stop && r.logs == []
              && View() == ActRun(old(View()), r.acts)
    {
      req, reply, stop := req0, None, None;
      if m.proxyId == 0 {
        sess := Direct;
        reply, stop := Send(NewReply, says);
        return;
      }
      sess := NilSess;
      if m.proxyId < 0 || m.proxyId >= maxSessions {
        stop := Some(Panicked);
        return;
      }
      if m.proxyId !in slots {
        reply, stop := Send(CancelReply, says);
        return;
      }
      sess := Proxied(slots[m.proxyId]);
      var sid := sess.sid;
      if !sessions[sid].ready {
        stop := Some(Panicked);
        return;
      }
      if !says.allowed(m.uri) {
        req, stop := Announce(sid, m.requestId, env);
        if stop.None? {
          reply, stop := Send(CancelReply, says);
        }
        return;
      }
      if m.requestId == "" {
        if m.verb == "CONNECT" {
          reply, stop := Send(NewReply, says);
          return;
        } else if m.verb == "OPTIONS" {
          req := AnnounceOptions(sid, says.normalize(m.uri), env);
        } else {
          reply, stop := Send(CancelReply, says);
          return;
        }
      } else {
        req, stop := Announce(sid, m.requestId, env);
        if stop.Some? {
          return;
        }
      }
      reply, stop := Send(NewReply, says);
    }

    /** Lines 289 to 297. */
    method HandleNotify(sess: SessRef, req: ReqRef) returns (stop: Option<Result>)
      modifies this`sessions
      ensures var r := OnNotify(old(View()), sess, req);
              && r.sess == sess && r.req == req && r.reply.None? && stop == r.stop && r.logs == []
              && View() == ActRun(old(View()), r.acts)
      ensures sess.NilSess? ==> stop == Some(NoSession) && sessions == old(sessions)
      ensures !sess.NilSess? && req.NilReq? ==> stop.None? && sessions == old(sessions)
      ensures !sess.NilSess? && req.Ref? ==> ToldOnce(old(sessions), sess, stop, sessions)
    {
      if sess.NilSess? {
        return Some(NoSession);
      }
      if req.Ref? {
        stop := NotifySession(sess);
      } else {
        stop := None;
      }
    }

    /** Lines 299 to 333. */
    method HandleCompleted(log: Option<Log>, cached: bool, sess: SessRef, req: ReqRef, env: nat -> seq<WorldEvent>)
      returns (stop: Option<Result>)
      modifies this`sessions, this`slots, this`written
      ensures var r := OnCompleted(me, old(View()), log, cached, sess, req, env);
              && r.sess == sess && r.req == req && r.reply.None? && stop == r.stop
              && View() == ActRun(old(View()), r.acts) && written == old(written) + r.logs
    {
      if log.None? || (req.NilReq? && sess.NilSess?) {
        return Some(Panicked);
      }
      if req.NilReq? {
        if sess.Direct? && !cached && log.value.warcId != "" {
          written := written + [log.value];
        }
        return None;
      }
      stop := Complete(log.value, cached, sess, req, env);
    }

    /** Lines 321 to 332. */
    method Complete(log: Log, cached: bool, sess: SessRef, req: ReqRef, env: nat -> seq<WorldEvent>)
      returns (stop: Option<Result>)
      requires req.Ref?
      modifies this`sessions, this`slots
      ensures var r := Completes(me, old(View()), log, cached, sess, req, env);
              stop == r.stop && View() == ActRun(old(View()), r.acts)
    {
      ghost var w := View();
      StoreLog(log, cached, req, env);
      ghost var w1 := View();
      ghost var acts := Stores(me, log, cached, req, env);
      if cached {
        stop := MarkCached(sess, req, env);
        if stop.Some? {
          assert acts + [] == acts;
          ActRunConcat(w, acts, Aborts(w1, sess, req));
          return;
        }
        ActRunConcat(w, acts, Marks(me, w1, sess, req, env));
        acts := acts + Marks(me, w1, sess, req, env);
      } else {
        assert acts + [] == acts;
      }
      ghost var w2 := View();
      FlagComplete(req, env);
      ActRunConcat(w, acts, Ends(me, req, env));
      acts := acts + Ends(me, req, env);
      ActRunConcat(w, acts, Tells(View(), sess));
      stop := NotifySession(sess);
    }

    /** Line 321. */
    method StoreLog(log: Log, cached: bool, req: ReqRef, env: nat -> seq<WorldEvent>)
      requires req.Ref?
      modifies this`sessions, this`slots
      ensures View() == ActRun(old(View()), Stores(me, log, cached, req, env))
    {
      ghost var w := View();
      var e := SetLog(me, req.i, log, cached);
      ActRunOne(w, Mine(req.sid, e));
      Write(req.sid, e);
      ActRunOne(View(), Theirs(env(2)));
      ActRunConcat(w, [Mine(req.sid, e)], [Theirs(env(2))]);
      Others(env(2));
    }

    /** Lines 323 to 327: the fetch is aborted if the page itself came from the cache; a second abort panics. */
    method MarkCached(sess: SessRef, req: ReqRef, env: nat -> seq<WorldEvent>) returns (stop: Option<Result>)
      requires req.Ref?
      modifies this`sessions, this`slots
      ensures stop.Some? <==> !HasInitial(old(View()), sess) || AbortsAgain(old(View()), sess, req)
      ensures stop.Some? ==> stop.value == Panicked
      ensures View() == ActRun(old(View()),
                               if !HasInitial(old(View()), sess) then []
                               else if AbortsAgain(old(View()), sess, req) then Aborts(old(View()), sess, req)
                               else Marks(me, old(View()), sess, req, env))
    {
      ghost var w := View();
      if !sess.Proxied? || sess.sid >= |sessions| || !sessions[sess.sid].ready || |sessions[sess.sid].reqs| == 0 {
        return Some(Panicked);
      }
      if req.sid < |sessions| && req.i < |sessions[req.sid].reqs|
         && sessions[sess.sid].reqs[0].requestId == sessions[req.sid].reqs[req.i].requestId {
        var again := sessions[sess.sid].aborts > 0;
        ActRunOne(w, Mine(sess.sid, Abort));
        Write(sess.sid, Abort);
        if again {
          return Some(Panicked);
        }
      }
      assert View() == ActRun(w, Aborts(w, sess, req));
      ghost var w1 := View();
      var e := SetFromCache(me, req.i);
      ActRunOne(w1, Theirs(env(3)));
      Others(env(3));
      ActRunOne(View(), Mine(req.sid, e));
      Write(req.sid, e);
      ActRunConcat(w1, [Theirs(env(3))], [Mine(req.sid, e)]);
      ActRunConcat(w, Aborts(w, sess, req), [Theirs(env(3))] + [Mine(req.sid, e)]);
      stop := None;
    }

    /** Line 329. */
    method FlagComplete(req: ReqRef, env: nat -> seq<WorldEvent>)
      requires req.Ref?
      modifies this`sessions, this`slots
      ensures View() == ActRun(old(View()), Ends(me, req, env))
    {
      ghost var w := View();
      var e := SetComplete(me, req.i);
      ActRunOne(w, Theirs(env(4)));
      Others(env(4));
      ActRunOne(View(), Mine(req.sid, e));
      Write(req.sid, e);
      ActRunConcat(w, [Theirs(env(4))], [Mine(req.sid, e)]);
      ActRunOne(View(), Theirs(env(5)));
      Others(env(5));
      ActRunConcat(w, [Theirs(env(4))] + [Mine(req.sid, e)], [Theirs(env(5))]);
    }

    /** One turn of the loop of line 127. */
    method Handle(x: Received, sess0: SessRef, req0: ReqRef, env: nat -> seq<WorldEvent>)
      returns (sess: SessRef, req: ReqRef, reply: Option<Reply>, stop: Option<Result>)
      requires WorldInv(View()) && ByOthers(me, env(6))
      modifies this
      ensures var r := Respond(me, maxSessions, old(View()), x, sess0, req0, env);
              && sess == r.sess && req == r.req && reply == r.reply && stop == r.stop
              && View() == ActRun(old(View()), r.acts) && written == old(written) + r.logs
    {
      ghost var w := View();
      sess, req, reply := sess0, req0, None;
      OthersSound(w, env(6), me);
      ActRunOne(w, Theirs(env(6)));
      Others(env(6));
      ghost var acts := Respond(me, maxSessions, w, x, sess0, req0, env).acts[1..];
      assert Respond(me, maxSessions, w, x, sess0, req0, env).acts == [Theirs(env(6))] + acts;
      ActRunConcat(w, [Theirs(env(6))], acts);
      if x.Eof? {
        stop := Some(Ended);
      } else if x.RecvError? {
        stop := Some(RecvFailed);
      } else {
        match x.m
        case New(_, _, _, _) => sess, req, reply, stop := HandleNew(x.m, x.says, req, env);
        case Notify => stop := HandleNotify(sess, req);
        case Completed(log, cached) => stop := HandleCompleted(log, cached, sess, req, env);
      }
    }

    /**
     The stream's loop over what it receives. `replies` are the replies sent, each with the
     index of the message it answers; `handled` counts the messages handled to the end.
     */
    method Do(input: seq<Received>, env: nat -> nat -> seq<WorldEvent>)
      returns (replies: seq<(nat, Reply)>, handled: nat, result: Result)
      requires WorldInv(View()) && Places(View(), me) == map[] && EnvByOthers(me, env)
      modifies this
      ensures Answers(input, handled, replies) && EndsWith(input, handled, result)
      ensures var t := Conversation(me, maxSessions, old(View()), input, env, |input|);
              && View() == ActRun(old(View()), t.acts) && written == old(written) + t.logs
              && replies == t.replies && handled == t.handled
              && result == if t.stop.Some? then t.stop.value else StillOpen
    {
      ghost var w := View();
      replies, handled, result := Serve(input, env);
      StreamPromises(me, maxSessions, w, input, env);
    }

    /** The loop of line 127. */
    method Serve(input: seq<Received>, env: nat -> nat -> seq<WorldEvent>)
      returns (replies: seq<(nat, Reply)>, handled: nat, result: Result)
      requires WorldInv(View()) && Places(View(), me) == map[] && EnvByOthers(me, env)
      modifies this
      ensures var t := Conversation(me, maxSessions, old(View()), input, env, |input|);
              && View() == ActRun(old(View()), t.acts) && written == old(written) + t.logs
              && replies == t.replies && handled == t.handled
              && result == if t.stop.Some? then t.stop.value else StillOpen
    {
      ghost var w := View();
      ghost var t := Conversation(me, maxSessions, w, input, env, 0);
      replies, handled, result := [], 0, StillOpen;
      var sess, req := NilSess, NilReq;
      while handled < |input|
        invariant handled <= |input| && result == StillOpen
        invariant t == Conversation(me, maxSessions, w, input, env, handled) && t.stop.None?
        invariant SoFar(w, old(written), t, sess, req, replies, handled)
      {
        BeforeTurn(me, maxSessions, w, input, env, handled);
        ghost var t' := NextTalk(me, maxSessions, w, input[handled], env(handled), handled, t);
        assert t' == Conversation(me, maxSessions, w, input, env, handled + 1);
        var stop;
        sess, req, replies, stop := Take(w, t, old(written), input[handled], sess, req, replies, handled, env(handled));
        if stop.Some? {
          result := stop.value;
          ConversationStays(me, maxSessions, w, input, env, handled + 1, |input|);
          return;
        }
        handled := handled + 1;
        t := t';
      }
    }

    /** The message of index `n`, with what is done about its reply. */
    method Take(ghost w: World, ghost t: Talk, ghost before: seq<Log>, x: Received, sess0: SessRef, req0: ReqRef,
                replies0: seq<(nat, Reply)>, n: nat, env: nat -> seq<WorldEvent>)
      returns (sess: SessRef, req: ReqRef, replies: seq<(nat, Reply)>, stop: Option<Result>)
      requires WorldInv(View()) && ByOthers(me, env(6))
      requires t.stop.None? && SoFar(w, before, t, sess0, req0, replies0, n)
      modifies this
      ensures var t' := NextTalk(me, maxSessions, w, x, env, n, t);
              stop == t'.stop && SoFar(w, before, t', sess, req, replies, if stop.None? then n + 1 else n)
    {
      ghost var r := Respond(me, maxSessions, View(), x, sess0, req0, env);
      var reply;
      sess, req, reply, stop := Handle(x, sess0, req0, env);
      NextTalkAdds(me, maxSessions, w, x, env, n, t, r, before);
      replies := replies0;
      if stop.None? && reply.Some? {
        replies := replies + [(n, reply.value)];
      }
    }

    /** The stream has got as far as `t`. */
    ghost predicate SoFar(w: World, before: seq<Log>, t: Talk, sess: SessRef, req: ReqRef, replies: seq<(nat, Reply)>, handled: nat)
      reads this
    {
      && View() == ActRun(w, t.acts) && written == before + t.logs
      && sess == t.sess && req == t.req && replies == t.replies && handled == t.handled
    }
  }
}
