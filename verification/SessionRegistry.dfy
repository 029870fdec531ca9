/**
 session/registry.go in its own shape: a slot array, a buffered channel of ids and a wait
 group. At each point where the source does not hold the mutex, or holds it across two
 writes that others can observe, the other agents run as the caller's `env` says. Each
 method is shown to be a run of `SessionPool`.
 */
module SessionRegistry {
  import opened GoBasics
  import opened SessionPool

  class Session {
    const id: int
    constructor (id: int)
      ensures this.id == id
    {
      this.id := id;
    }
  }

  datatype GetError = Canceled | NewFailed | Blocked

  predicate Concerns(op: Op, me: Agent) { op.a == me || (op.HandOver? && op.b == me) }

  /** A schedule in which agent `me` takes no step. */
  predicate ByOthers(me: Agent, env: seq<Op>) { forall op :: op in env ==> !Concerns(op, me) }

  lemma RunAppend(p: Pool, ops: seq<Op>, op: Op)
    ensures Run(p, ops + [op]) == Apply(Run(p, ops), op)
  {
    assert (ops + [op])[..|ops|] == ops;
  }

  lemma {:induction false} RunConcat(p: Pool, ops: seq<Op>, more: seq<Op>)
    ensures Run(p, ops + more) == Run(Run(p, ops), more)
    decreases |more|
  {
    if more == [] {
      assert ops + more == ops;
    } else {
      assert (ops + more)[..|ops + more| - 1] == ops + more[..|more| - 1];
      RunConcat(p, ops, more[..|more| - 1]);
    }
  }

  /** The others leave my id, my phase, and the mutex if I hold it, as they are. */
  lemma {:induction false} OthersLeaveMe(p: Pool, me: Agent, env: seq<Op>)
    requires ByOthers(me, env) && Inv(p)
    ensures var q := Run(p, env);
            && Inv(q) && q.max == p.max
            && (me in q.holds <==> me in p.holds)
            && (me in p.holds ==> q.holds[me] == p.holds[me])
            && (me in p.holds && InRelease(p.holds[me].phase) ==> q.locked)
  {
    if env != [] {
      var g, op := env[..|env| - 1], env[|env| - 1];
      assert !Concerns(op, me);
      OthersLeaveMe(p, me, g);
      OtherAgents(Run(p, g), op);
      ApplyInv(Run(p, g), op);
    }
  }

  class Registry {
    const sessions: array<Session?>
    var pool: seq<int>
    var wg: int
    var locked: bool
    var lost: set<int>                // the source keeps no record of these
    var holds: map<Agent, Hold>       // nor, except on the stacks, of these

    ghost function View(): Pool
      reads this, sessions
    {
      Pool(sessions.Length, pool, (set i | 0 <= i < sessions.Length && sessions[i] != null), wg, locked, lost, holds)
    }

    ghost predicate Valid()
      reads this, sessions
    {
      && Inv(View())
      && forall i :: 0 <= i < sessions.Length && sessions[i] != null ==> sessions[i].id == i
    }

    /** NewRegistry. With no slot at all the source panics on the negative size of its channel. */
    constructor (maxSessions: nat)
      requires maxSessions >= 1
      ensures Valid() && fresh(sessions) && View() == NewPool(maxSessions)
    {
      sessions := new Session?[maxSessions](_ => null);
      pool, wg, locked, lost, holds := [], 0, false, {}, map[];
      new;
      for i := 1 to maxSessions
        invariant pool == Upto(i)
        invariant wg == 0 && !locked && lost == {} && holds == map[]
        invariant sessions.Length == maxSessions && forall k :: 0 <= k < maxSessions ==> sessions[k] == null
      {
        pool := pool + [i];
      }
      NewPoolInv(maxSessions);
      assert View() == NewPool(maxSessions);
    }

    static method Simulate(before: Pool, env: seq<Op>) returns (p: Pool)
      ensures p == Run(before, env)
    {
      p := before;
      for k := 0 to |env|
        invariant p == Run(before, env[..k])
      {
        assert env[..k + 1] == env[..k] + [env[k]];
        RunAppend(before, env[..k], env[k]);
        p := Apply(p, env[k]);
      }
      assert env[..|env|] == env;
    }

    /** The other agents run; `me` keeps its session object if it has one in its slot. */
    method Interfere(me: Agent, env: seq<Op>)
      requires Valid() && ByOthers(me, env)
      modifies this, sessions
      ensures Valid() && View() == Run(old(View()), env)
      ensures me in holds <==> me in old(holds)
      ensures me in holds ==> holds[me] == old(holds[me])
      ensures me in holds && InRelease(holds[me].phase) ==> locked
    {
      ghost var before := View();
      OthersLeaveMe(before, me, env);
      var occupied := set i | 0 <= i < sessions.Length && sessions[i] != null;
      var p := Simulate(Pool(sessions.Length, pool, occupied, wg, locked, lost, holds), env);
      SlotsInRange(p);
      SetSlots(p.slots);
      pool, wg, locked, lost, holds := p.chan, p.wg, p.locked, p.lost, p.holds;
      assert View() == p;
    }

    lemma SlotsInRange(p: Pool)
      requires Inv(p)
      ensures forall i :: i in p.slots ==> 0 <= i < p.max
    {}

    /** Fills and empties the slots so that exactly the ones in `slots` hold a session. */
    method SetSlots(slots: set<int>)
      requires forall i :: 0 <= i < sessions.Length && sessions[i] != null ==> sessions[i].id == i
      modifies sessions
      ensures forall i :: 0 <= i < sessions.Length ==> (sessions[i] != null <==> i in slots)
      ensures forall i :: 0 <= i < sessions.Length && sessions[i] != null ==> sessions[i].id == i
    {
      for i := 0 to sessions.Length
        invariant forall k :: 0 <= k < i ==> (sessions[k] != null <==> k in slots)
        invariant forall k :: 0 <= k < sessions.Length && sessions[k] != null ==> sessions[k].id == k
      {
        if i !in slots {
          sessions[i] := null;
        } else if sessions[i] == null {
          sessions[i] := new Session(i);
        }
      }
    }

    /**
     `ctxDone` says that the context has ended and its case of the select is taken, `newFails`
     what session.New does. Blocked means that the agent waits: in front of the select if it
     has no id yet, and else for the mutex, from where `Resume` goes on.
     */
    method GetNextAvailable(me: Agent, ctxDone: bool, newFails: bool, env: seq<Op>)
      returns (sess: Session?, err: Option<GetError>)
      requires Valid() && me !in holds && ByOthers(me, env)
      modifies this, sessions
      ensures Valid() && (sess != null <==> err.None?)
      ensures ctxDone <==> err == Some(Canceled)
      ensures ctxDone || old(pool) == [] ==> View() == old(View()) && sess == null
      ensures !ctxDone && old(pool) == [] ==> err == Some(Blocked)
      ensures !ctxDone && old(pool) != [] ==>
                var w := Run(old(View()), [Receive(me)] + env);
                Goes(me, old(pool)[0], w, newFails, sess, err)
    {
      if ctxDone {
        return null, Some(Canceled);
      }
      if |pool| == 0 {
        return null, Some(Blocked);
      }
      ghost var before := View();
      Take(me);
      ghost var taken := View();
      sess, err := Resume(me, newFails, env);
      RunConcat(before, [Receive(me)], env);
    }

    /** Lines 58 to 66, for an agent that has received an id. */
    method Resume(me: Agent, newFails: bool, env: seq<Op>) returns (sess: Session?, err: Option<GetError>)
      requires Valid() && At(View(), me, Taken) && ByOthers(me, env)
      modifies this, sessions
      ensures Valid() && (sess != null <==> err.None?) && err != Some(Canceled)
      ensures Goes(me, old(holds[me].id), Run(old(View()), env), newFails, sess, err)
    {
      Interfere(me, env);
      if locked {
        return null, Some(Blocked);
      }
      if newFails {
        Forget(me);
        return null, Some(NewFailed);
      }
      sess := Put(me);
      err := None;
    }

    /**
     Where an agent that has received `id` comes when the others have brought the pool to `w`:
     it waits with its id exactly if the mutex is held; else it has a session of that number
     in its slot if New succeeds, and has lost the id if not.
     */
    ghost predicate Goes(me: Agent, id: int, w: Pool, newFails: bool, sess: Session?, err: Option<GetError>)
      reads this, sessions
    {
      if w.locked then err == Some(Blocked) && View() == w && At(View(), me, Taken)
      else if newFails then err == Some(NewFailed) && View() == Apply(w, Lose(me)) && id in lost && me !in holds
      else
        && err.None? && sess != null && View() == Apply(w, Publish(me)) && At(View(), me, Published)
        && sess.id == id == holds[me].id && 1 <= id < sessions.Length && sessions[id] == sess
    }

    /** Line 56. */
    method Take(me: Agent)
      requires Valid() && me !in holds && pool != []
      modifies this
      ensures Valid() && View() == Run(old(View()), [Receive(me)])
      ensures me in holds && holds[me] == Hold(old(pool)[0], Taken)
    {
      ghost var before := View();
      RunAppend(before, [], Receive(me));
      assert [] + [Receive(me)] == [Receive(me)];
      ApplyInv(before, Receive(me));
      var i := pool[0];
      pool := pool[1..];
      holds := holds[me := Hold(i, Taken)];
      assert View() == Apply(before, Receive(me));
    }

    /** Line 62. */
    method Forget(me: Agent)
      requires Valid() && At(View(), me, Taken) && !locked
      modifies this
      ensures Valid() && View() == Apply(old(View()), Lose(me)) && old(holds[me].id) in lost
    {
      ghost var before := View();
      ApplyInv(before, Lose(me));
      lost := lost + {holds[me].id};
      holds := holds - {me};
      assert View() == Apply(before, Lose(me));
    }

    /** Lines 64 and 65. */
    method Put(me: Agent) returns (sess: Session)
      requires Valid() && At(View(), me, Taken) && !locked
      modifies this, sessions
      ensures Valid() && View() == Apply(old(View()), Publish(me))
      ensures fresh(sess) && sess.id == old(holds[me].id) && At(View(), me, Published)
      ensures 1 <= sess.id < sessions.Length && sessions[sess.id] == sess && holds[me].id == sess.id
    {
      ghost var before := View();
      ApplyInv(before, Publish(me));
      var i := holds[me].id;
      sess := new Session(i);
      wg := wg + 1;
      sessions[i] := sess;
      holds := holds[me := Hold(i, Published)];
      assert View() == Apply(before, Publish(me));
    }

    /**
     Which session the proxy with this number belongs to: one of that number, if it is
     published, and else nil. None is the panic of a number out of range.
     */
    method Get(sessId: int) returns (r: Option<Session?>)
      requires Valid()
      ensures r.None? <==> sessId < 0 || sessId >= View().max
      ensures r.Some? ==> (r.value != null <==> sessId in View().slots)
      ensures r.Some? && r.value != null ==> r.value.id == sessId && r.value == sessions[sessId]
    {
      if sessId < 0 || sessId >= sessions.Length {
        return None;
      }
      return Some(sessions[sessId]);
    }

    /** The mutex must be free when the method is entered; the caller has waited for it. */
    method Release(me: Agent, sess: Session, env1: seq<Op>, env2: seq<Op>)
      requires Valid() && At(View(), me, Published) && holds[me].id == sess.id && !locked
      requires ByOthers(me, env1) && ByOthers(me, env2)
      modifies this, sessions
      ensures Valid() && me !in holds
      ensures View() == Run(old(View()), [ClearSlot(me)] + env1 + [MarkDone(me)] + env2 + [SendBack(me)])
      ensures pool != [] && pool[|pool| - 1] == sess.id && !locked
    {
      ghost var before := View();
      ClearMySlot(me);
      RunAppend(before, [], ClearSlot(me));
      assert [] + [ClearSlot(me)] == [ClearSlot(me)];

      Interfere(me, env1);
      ghost var ops := [ClearSlot(me)] + env1;
      RunConcat(before, [ClearSlot(me)], env1);
      Mark(me);
      RunAppend(before, ops, MarkDone(me));

      ops := ops + [MarkDone(me)];
      Interfere(me, env2);
      RunConcat(before, ops, env2);
      Return(me);
      RunAppend(before, ops + env2, SendBack(me));
    }

    /** Line 84. */
    method ClearMySlot(me: Agent)
      requires Valid() && At(View(), me, Published) && !locked
      modifies this, sessions
      ensures Valid() && View() == Apply(old(View()), ClearSlot(me)) && locked
      ensures me in holds && holds[me] == Hold(old(holds[me].id), SlotCleared)
    {
      ghost var before := View();
      ApplyInv(before, ClearSlot(me));
      var i := holds[me].id;
      sessions[i] := null;
      locked := true;
      holds := holds[me := Hold(i, SlotCleared)];
      assert View() == Apply(before, ClearSlot(me));
    }

    /** Line 85. */
    method Mark(me: Agent)
      requires Valid() && At(View(), me, SlotCleared)
      modifies this
      ensures Valid() && View() == Apply(old(View()), MarkDone(me))
      ensures me in holds && holds[me] == Hold(old(holds[me].id), MarkedDone)
    {
      ghost var before := View();
      ApplyInv(before, MarkDone(me));
      wg := wg - 1;
      holds := holds[me := Hold(holds[me].id, MarkedDone)];
      assert View() == Apply(before, MarkDone(me));
    }

    /** Line 86, and the deferred unlock. The send does not block. */
    method Return(me: Agent)
      requires Valid() && At(View(), me, MarkedDone)
      modifies this
      ensures Valid() && View() == Apply(old(View()), SendBack(me)) && !locked && me !in holds
      ensures pool == old(pool) + [old(holds[me].id)]
    {
      ghost var before := View();
      SendNeverBlocks(before, me);
      ApplyInv(before, SendBack(me));
      assert |pool| < sessions.Length - 1;
      pool := pool + [holds[me].id];
      holds := holds - {me};
      locked := false;
      assert View() == Apply(before, SendBack(me));
    }

    method CurrentSessions() returns (c: nat)
      requires Valid()
      ensures c == |View().slots|
    {
      c := 0;
      ghost var seen: set<int> := {};
      for i := 0 to sessions.Length
        invariant seen == set k | 0 <= k < i && sessions[k] != null
        invariant c == |seen|
      {
        if sessions[i] != null {
          c := c + 1;
          seen := seen + {i};
        }
      }
      assert seen == View().slots;
    }
  }
}
