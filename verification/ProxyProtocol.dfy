/**
 What the Do method of server/server.go answers and writes, message by message, as a function
 of the sessions it shares with other streams and with the browser listeners. A stream
 acts in turns: its own writes, and between them whatever the others do.
 */
module ProxyProtocol {
  import opened GoBasics
  import opened Lifecycle

  /** What another goroutine does: a write to a session, or a change of the registry's slots. */
  datatype WorldEvent =
    | On(sid: nat, e: Effect)
    | Open(slot: int)                 // a new session is published in a slot
    | Close(slot: int)

  /** The sessions by identity; the registry's slots refer to them. */
  datatype World = World(sessions: seq<Sess>, slots: map<int, nat>)

  function WorldStep(w: World, e: WorldEvent): World {
    match e
    case On(sid, x) => if sid < |w.sessions| then w.(sessions := w.sessions[sid := Step(w.sessions[sid], x)]) else w
    case Open(slot) => World(w.sessions + [NEW_SESS], w.slots[slot := |w.sessions|])
    case Close(slot) => w.(slots := w.slots - {slot})
  }

  function WorldRun(w: World, es: seq<WorldEvent>): World {
    if es == [] then w else WorldStep(WorldRun(w, es[..|es| - 1]), es[|es| - 1])
  }

  function SessAt(w: World, sid: nat): Sess { if sid < |w.sessions| then w.sessions[sid] else NEW_SESS }

  ghost predicate WorldInv(w: World) {
    && (forall k :: 0 <= k < |w.sessions| ==> SessInv(w.sessions[k]))
    && (forall slot :: slot in w.slots ==> w.slots[slot] < |w.sessions|)
  }

  ghost predicate WorldGrows(w: World, w': World) {
    && |w.sessions| <= |w'.sessions|
    && forall k :: 0 <= k < |w.sessions| ==> Grows(w.sessions[k], w'.sessions[k])
  }

  lemma WorldGrowsReflexive(w: World)
    ensures WorldGrows(w, w)
  {}

  lemma {:induction false} StepSound(w: World, e: WorldEvent)
    requires WorldInv(w)
    ensures WorldInv(WorldStep(w, e)) && WorldGrows(w, WorldStep(w, e))
  {
    WorldGrowsReflexive(w);
    if e.On? && e.sid < |w.sessions| {
      StepInv(w.sessions[e.sid], e.e);
      StepGrows(w.sessions[e.sid], e.e);
    }
  }

  lemma WorldGrowsTransitive(a: World, b: World, c: World)
    requires WorldGrows(a, b) && WorldGrows(b, c)
    ensures WorldGrows(a, c)
  {
    forall k | 0 <= k < |a.sessions| ensures Grows(a.sessions[k], c.sessions[k]) {
      GrowsTransitive(a.sessions[k], b.sessions[k], c.sessions[k]);
    }
  }

  // ---------------------------------------------------------------- a stream and the others

  /** A step that moves stream `t` from its place. */
  predicate Moves(e: Effect, t: Tid) { (e.SetLog? || e.SetFromCache? || e.SetComplete?) && e.t == t }

  predicate ByOthers(t: Tid, env: seq<WorldEvent>) { forall e :: e in env ==> !(e.On? && Moves(e.e, t)) }

  /** Where stream `t` stands, in whatever session. */
  ghost function Places(w: World, t: Tid): map<nat, Place> {
    map sid | 0 <= sid < |w.sessions| && t in w.sessions[sid].streams :: w.sessions[sid].streams[t]
  }

  lemma PlaceKept(w: World, e: WorldEvent, t: Tid)
    requires !(e.On? && Moves(e.e, t))
    ensures Places(WorldStep(w, e), t) == Places(w, t)
  {
    if e.On? && e.sid < |w.sessions| {
      StreamKept(w.sessions[e.sid], e.e, t);
    }
  }

  lemma StreamKept(s: Sess, e: Effect, t: Tid)
    requires !Moves(e, t)
    ensures t in Step(s, e).streams <==> t in s.streams
    ensures t in s.streams ==> Step(s, e).streams[t] == s.streams[t]
  {}

  lemma {:induction false} OthersSound(w: World, env: seq<WorldEvent>, t: Tid)
    requires WorldInv(w) && ByOthers(t, env)
    ensures WorldInv(WorldRun(w, env)) && WorldGrows(w, WorldRun(w, env))
    ensures Places(WorldRun(w, env), t) == Places(w, t)
  {
    WorldGrowsReflexive(w);
    if env != [] {
      var g, e := env[..|env| - 1], env[|env| - 1];
      assert e in env;
      OthersSound(w, g, t);
      StepSound(WorldRun(w, g), e);
      WorldGrowsTransitive(w, WorldRun(w, g), WorldRun(w, env));
      PlaceKept(WorldRun(w, g), e, t);
    }
  }

  /** The turns of a stream: one write of its own, or a run of the others. */
  datatype Act = Mine(sid: nat, e: Effect) | Theirs(env: seq<WorldEvent>)

  function ActStep(w: World, a: Act): World {
    match a
    case Mine(sid, e) => WorldStep(w, On(sid, e))
    case Theirs(env) => WorldRun(w, env)
  }

  function ActRun(w: World, acts: seq<Act>): World {
    if acts == [] then w else ActStep(ActRun(w, acts[..|acts| - 1]), acts[|acts| - 1])
  }

  lemma ActRunOne(w: World, a: Act)
    ensures ActRun(w, [a]) == ActStep(w, a)
  {
    assert [a][..0] == [];
  }

  lemma {:induction false} ActRunConcat(w: World, acts: seq<Act>, more: seq<Act>)
    ensures ActRun(w, acts + more) == ActRun(ActRun(w, acts), more)
    decreases |more|
  {
    if more == [] {
      assert acts + more == acts;
    } else {
      assert (acts + more)[..|acts + more| - 1] == acts + more[..|more| - 1];
      ActRunConcat(w, acts, more[..|more| - 1]);
    }
  }

  /** The stream's own writes, each with its session. */
  function Own(acts: seq<Act>): seq<(nat, Effect)> {
    if acts == [] then []
    else Own(acts[..|acts| - 1]) + if acts[|acts| - 1].Mine? then [(acts[|acts| - 1].sid, acts[|acts| - 1].e)] else []
  }

  lemma {:induction false} OwnConcat(acts: seq<Act>, more: seq<Act>)
    ensures Own(acts + more) == Own(acts) + Own(more)
    decreases |more|
  {
    if more == [] {
      assert acts + more == acts;
    } else {
      assert (acts + more)[..|acts + more| - 1] == acts + more[..|more| - 1];
      OwnConcat(acts, more[..|more| - 1]);
    }
  }

  predicate TheirsByOthers(t: Tid, acts: seq<Act>) { forall a :: a in acts && a.Theirs? ==> ByOthers(t, a.env) }

  lemma {:induction false} ActsSound(w: World, acts: seq<Act>, t: Tid)
    requires WorldInv(w) && TheirsByOthers(t, acts)
    ensures WorldInv(ActRun(w, acts)) && WorldGrows(w, ActRun(w, acts))
  {
    WorldGrowsReflexive(w);
    if acts != [] {
      var g, a := acts[..|acts| - 1], acts[|acts| - 1];
      assert a in acts;
      ActsSound(w, g, t);
      match a
      case Mine(sid, e) => StepSound(ActRun(w, g), On(sid, e));
      case Theirs(env) => OthersSound(ActRun(w, g), env, t);
      WorldGrowsTransitive(w, ActRun(w, g), ActRun(w, acts));
    }
  }

  // ---------------------------------------------------------------- messages

  datatype Message =
    | New(proxyId: int, requestId: string, verb: string, uri: string)
    | Notify
    | Completed(log: Option<Log>, cached: bool)

  /** What the robots evaluator, the transport and the url normaliser answer while a message is handled. */
  datatype Says = Says(allowed: string -> bool, sendFails: bool, normalize: string -> string)

  datatype Received = Msg(m: Message, says: Says) | Eof | RecvError

  datatype Reply = NewReply | CancelReply

  datatype Result = StillOpen | Ended | RecvFailed | SendFailed | SessionCancelled | NoSession | Panicked

  /** The variable `sess`: nil, a session for proxy 0, or a session of the registry. */
  datatype SessRef = NilSess | Direct | Proxied(sid: nat)

  /** The variable `req`. */
  datatype ReqRef = NilReq | Ref(sid: nat, i: nat)

  /** How a stream takes a message: its turns, its variables afterwards, its reply, and how it ends if it does. */
  datatype Response = Response(
    acts: seq<Act>,
    sess: SessRef,
    req: ReqRef,
    reply: Option<Reply>,
    stop: Option<Result>,
    logs: seq<Log>)               // crawl logs written for a direct session

  /** The first request with the id. */
  function ById(reqs: seq<Req>, id: string): (k: Option<nat>)
    ensures k.None? ==> forall j :: 0 <= j < |reqs| ==> reqs[j].requestId != id
    ensures k.Some? ==> k.value < |reqs| && reqs[k.value].requestId == id
                        && forall j :: 0 <= j < k.value ==> reqs[j].requestId != id
  {
    if reqs == [] then None
    else
      var k := ById(reqs[..|reqs| - 1], id);
      if k.Some? then k else if reqs[|reqs| - 1].requestId == id then Some(|reqs| - 1) else None
  }

  /** The first request of the url that is not marked as new. */
  function ByNewUrl(reqs: seq<Req>, url: string): (k: Option<nat>)
    ensures k.None? ==> forall j :: 0 <= j < |reqs| ==> reqs[j].url != url || reqs[j].gotNew
    ensures k.Some? ==> k.value < |reqs| && reqs[k.value].url == url && !reqs[k.value].gotNew
                        && forall j :: 0 <= j < k.value ==> reqs[j].url != url || reqs[j].gotNew
  {
    if reqs == [] then None
    else
      var k := ByNewUrl(reqs[..|reqs| - 1], url);
      if k.Some? then k
      else if reqs[|reqs| - 1].url == url && !reqs[|reqs| - 1].gotNew then Some(|reqs| - 1)
      else None
  }

  /** How Session.Notify fails (session.go:156-174); a session without a context makes it panic. */
  function NotifyStop(w: World, sess: SessRef): Option<Result> {
    if !sess.Proxied? || !SessAt(w, sess.sid).ready then Some(Panicked)
    else if SessAt(w, sess.sid).cancelled then Some(SessionCancelled)
    else None
  }

  function Tells(w: World, sess: SessRef): seq<Act> {
    if NotifyStop(w, sess).None? then [Mine(sess.sid, Notified)] else []
  }

  datatype Found = Found(acts: seq<Act>, req: ReqRef, stop: Option<Result>)

  /** Lines 206 to 214 and 265 to 273. */
  function Announces(w: World, sid: nat, id: string, env: nat -> seq<WorldEvent>): Found {
    var k := ById(SessAt(w, sid).reqs, id);
    if k.None? then Found([], NilReq, None)
    else
      var acts := [Theirs(env(0))] + [Mine(sid, MarkNew(k.value))];
      var w' := ActRun(w, acts);
      Found(acts + Tells(w', Proxied(sid)), Ref(sid, k.value), NotifyStop(w', Proxied(sid)))
  }

  /** Lines 242 to 248. */
  function AnnouncesOptions(w: World, sid: nat, url: string, env: nat -> seq<WorldEvent>): Found {
    var k := ByNewUrl(SessAt(w, sid).reqs, url);
    if k.None? then Found([], NilReq, None)
    else Found([Theirs(env(1))] + [Mine(sid, MarkNew(k.value))], Ref(sid, k.value), None)
  }

  function Replies(f: Found, sess: SessRef, reply: Reply, says: Says): Response {
    if f.stop.Some? then Response(f.acts, sess, f.req, None, f.stop, [])
    else if says.sendFails then Response(f.acts, sess, f.req, None, Some(SendFailed), [])
    else Response(f.acts, sess, f.req, Some(reply), None, [])
  }

  /** Lines 144 to 287. `req0` is the request the stream holds from before. */
  function OnNew(max: int, w: World, m: Message, says: Says, req0: ReqRef, env: nat -> seq<WorldEvent>): Response
    requires m.New?
  {
    var kept := Found([], req0, None);
    if m.proxyId == 0 then Replies(kept, Direct, NewReply, says)
    else if m.proxyId < 0 || m.proxyId >= max then Response([], NilSess, req0, None, Some(Panicked), [])
    else if m.proxyId !in w.slots then Replies(kept, NilSess, CancelReply, says)
    else
      var sid := w.slots[m.proxyId];
      var sess := Proxied(sid);
      if !SessAt(w, sid).ready then Response([], sess, req0, None, Some(Panicked), [])
      else if !says.allowed(m.uri) then Replies(Announces(w, sid, m.requestId, env), sess, CancelReply, says)
      else if m.requestId != "" then Replies(Announces(w, sid, m.requestId, env), sess, NewReply, says)
      else if m.verb == "CONNECT" then Replies(kept, sess, NewReply, says)
      else if m.verb == "OPTIONS" then Replies(AnnouncesOptions(w, sid, says.normalize(m.uri), env), sess, NewReply, says)
      else Replies(kept, sess, CancelReply, says)
  }

  /** Lines 289 to 297. */
  function OnNotify(w: World, sess: SessRef, req: ReqRef): Response {
    if sess.NilSess? then Response([], sess, req, None, Some(NoSession), [])
    else if req.Ref? then Response(Tells(w, sess), sess, req, None, NotifyStop(w, sess), [])
    else Response([], sess, req, None, None, [])
  }

  /** The request is the first of the session's, the page itself. */
  predicate IsPage(w: World, sess: SessRef, req: ReqRef) {
    && sess.Proxied? && req.Ref? && SessAt(w, sess.sid).reqs != [] && req.i < |SessAt(w, req.sid).reqs|
    && SessAt(w, sess.sid).reqs[0].requestId == SessAt(w, req.sid).reqs[req.i].requestId
  }

  /** Line 323 can be evaluated: the session has a registry with a request in it. */
  predicate HasInitial(w: World, sess: SessRef) {
    sess.Proxied? && SessAt(w, sess.sid).ready && SessAt(w, sess.sid).reqs != []
  }

  /** A second AbortFetch closes a channel that is closed. */
  predicate AbortsAgain(w: World, sess: SessRef, req: ReqRef) {
    IsPage(w, sess, req) && SessAt(w, sess.sid).aborts > 0
  }

  /** Line 321. */
  function Stores(me: Tid, log: Log, cached: bool, req: ReqRef, env: nat -> seq<WorldEvent>): seq<Act>
    requires req.Ref?
  {
    [Mine(req.sid, SetLog(me, req.i, log, cached))] + [Theirs(env(2))]
  }

  function Aborts(w: World, sess: SessRef, req: ReqRef): seq<Act> {
    if IsPage(w, sess, req) then [Mine(sess.sid, Abort)] else []
  }

  /** Lines 323 to 327, for a response from the cache. */
  function Marks(me: Tid, w: World, sess: SessRef, req: ReqRef, env: nat -> seq<WorldEvent>): seq<Act>
    requires req.Ref?
  {
    Aborts(w, sess, req) + ([Theirs(env(3))] + [Mine(req.sid, SetFromCache(me, req.i))])
  }

  /** Line 329. */
  function Ends(me: Tid, req: ReqRef, env: nat -> seq<WorldEvent>): seq<Act>
    requires req.Ref?
  {
    [Theirs(env(4))] + [Mine(req.sid, SetComplete(me, req.i))] + [Theirs(env(5))]
  }

  /** Lines 321 to 332. */
  function Completes(me: Tid, w: World, log: Log, cached: bool, sess: SessRef, req: ReqRef, env: nat -> seq<WorldEvent>): Response
    requires req.Ref?
  {
    var stored := Stores(me, log, cached, req, env);
    var w1 := ActRun(w, stored);
    if cached && !HasInitial(w1, sess) then Response(stored, sess, req, None, Some(Panicked), [])
    else if cached && AbortsAgain(w1, sess, req) then
      Response(stored + Aborts(w1, sess, req), sess, req, None, Some(Panicked), [])
    else
      var acts := stored + (if cached then Marks(me, w1, sess, req, env) else []) + Ends(me, req, env);
      var w2 := ActRun(w, acts);
      Response(acts + Tells(w2, sess), sess, req, None, NotifyStop(w2, sess), [])
  }

  /** Lines 299 to 333. A message without a crawl log is a nil dereference in line 299. */
  function OnCompleted(me: Tid, w: World, log: Option<Log>, cached: bool, sess: SessRef, req: ReqRef,
                       env: nat -> seq<WorldEvent>): Response {
    if log.None? || (req.NilReq? && sess.NilSess?) then Response([], sess, req, None, Some(Panicked), [])
    else if req.Ref? then Completes(me, w, log.value, cached, sess, req, env)
    else Response([], sess, req, None, None, if sess.Direct? && !cached && log.value.warcId != "" then [log.value] else [])
  }

  function OnMessage(me: Tid, max: int, w: World, m: Message, says: Says, sess: SessRef, req: ReqRef,
                     env: nat -> seq<WorldEvent>): Response {
    match m
    case New(_, _, _, _) => OnNew(max, w, m, says, req, env)
    case Notify => OnNotify(w, sess, req)
    case Completed(log, cached) => OnCompleted(me, w, log, cached, sess, req, env)
  }

  /** One turn of the loop of line 127, before which the others have run. */
  function Respond(me: Tid, max: int, w: World, x: Received, sess: SessRef, req: ReqRef, env: nat -> seq<WorldEvent>): Response {
    var r := match x
      case Eof => Response([], sess, req, None, Some(Ended), [])
      case RecvError => Response([], sess, req, None, Some(RecvFailed), [])
      case Msg(m, says) => OnMessage(me, max, WorldRun(w, env(6)), m, says, sess, req, env);
    r.(acts := [Theirs(env(6))] + r.acts)
  }

  /** A stream after the first `n` messages: `handled` of them to the end. */
  datatype Talk = Talk(
    acts: seq<Act>,
    sess: SessRef,
    req: ReqRef,
    replies: seq<(nat, Reply)>,     // each with the index of the message it answers
    logs: seq<Log>,
    handled: nat,
    stop: Option<Result>)

  /** One more message, the one of index `n`. */
  function NextTalk(me: Tid, max: int, w: World, x: Received, env: nat -> seq<WorldEvent>, n: nat, t: Talk): Talk {
    if t.stop.Some? then t
    else
      var r := Respond(me, max, ActRun(w, t.acts), x, t.sess, t.req, env);
      Talk(t.acts + r.acts, r.sess, r.req,
           t.replies + (if r.stop.None? && r.reply.Some? then [(n, r.reply.value)] else []),
           t.logs + r.logs, if r.stop.None? then n + 1 else n, r.stop)
  }

  function Conversation(me: Tid, max: int, w: World, input: seq<Received>, env: nat -> nat -> seq<WorldEvent>, n: nat): Talk
    requires n <= |input|
  {
    if n == 0 then Talk([], NilSess, NilReq, [], [], 0, None)
    else NextTalk(me, max, w, input[n - 1], env(n - 1), n - 1, Conversation(me, max, w, input, env, n - 1))
  }
}
