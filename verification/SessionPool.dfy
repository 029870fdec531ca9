/**
 The pool of session ids of session/registry.go. An agent (the controller loop or a worker)
 that has taken an id goes through the steps of GetNextAvailable and later of Release. The
 receive from the channel is outside the mutex; clearing the slot, marking the wait group
 and sending the id back are three steps under it. An operation that is not enabled, or
 not the agent's next one, changes nothing.
 */
module SessionPool {
  import opened GoBasics

  /** Who uses the pool: the controller loop and the workers it spawns. */
  datatype Agent = Loop | Worker(n: nat)

  datatype Phase =
    | Taken            // line 56 has received the id
    | Published        // lines 64 and 65: counted in the wait group, in its slot
    | SlotCleared      // line 84, the mutex is held
    | MarkedDone       // line 85, the mutex is held

  datatype Hold = Hold(id: int, phase: Phase)

  datatype Pool = Pool(
    max: int,                  // number of slots; the channel has room for max - 1 ids
    chan: seq<int>,
    slots: set<int>,           // indexes with a non-nil session
    wg: int,
    locked: bool,              // the mutex is held from one step to the next
    lost: set<int>,            // ids taken for a session that could not be made
    holds: map<Agent, Hold>)

  datatype Op =
    | Receive(a: Agent)              // line 56
    | Publish(a: Agent)              // lines 64 and 65
    | Lose(a: Agent)                 // line 62
    | ClearSlot(a: Agent)            // lines 81 and 84
    | MarkDone(a: Agent)             // line 85
    | SendBack(a: Agent)             // line 86
    | HandOver(a: Agent, b: Agent)   // the controller gives its session to a worker

  /** NewRegistry. */
  function NewPool(max: int): Pool { Pool(max, Upto(max), {}, 0, false, {}, map[]) }

  /** 1, 2, ..., n - 1. */
  function Upto(n: int): (ids: seq<int>)
    ensures forall i :: 0 <= i < |ids| ==> ids[i] == i + 1
    ensures |ids| == if n <= 1 then 0 else n - 1
  {
    if n <= 1 then [] else Upto(n - 1) + [n - 1]
  }

  predicate At(p: Pool, a: Agent, phase: Phase) { a in p.holds && p.holds[a].phase == phase }

  function Moves(p: Pool, a: Agent, phase: Phase): Pool
    requires a in p.holds
  {
    p.(holds := p.holds[a := p.holds[a].(phase := phase)])
  }

  /** Can the operation happen now? It is the agent's next one, and neither the mutex nor the channel blocks it. */
  predicate Enabled(p: Pool, op: Op) {
    match op
    case Receive(a) => a !in p.holds && p.chan != []
    case Publish(a) => At(p, a, Taken) && !p.locked
    case Lose(a) => At(p, a, Taken) && !p.locked
    case ClearSlot(a) => At(p, a, Published) && !p.locked
    case MarkDone(a) => At(p, a, SlotCleared)
    case SendBack(a) => At(p, a, MarkedDone) && |p.chan| < p.max - 1
    case HandOver(a, b) => At(p, a, Published) && b !in p.holds
  }

  function Apply(p: Pool, op: Op): Pool {
    if !Enabled(p, op) then p else
    match op
    case Receive(a) => p.(chan := p.chan[1..], holds := p.holds[a := Hold(p.chan[0], Taken)])
    case Publish(a) => Moves(p, a, Published).(wg := p.wg + 1, slots := p.slots + {p.holds[a].id})
    case Lose(a) => p.(holds := p.holds - {a}, lost := p.lost + {p.holds[a].id})
    case ClearSlot(a) => Moves(p, a, SlotCleared).(slots := p.slots - {p.holds[a].id}, locked := true)
    case MarkDone(a) => Moves(p, a, MarkedDone).(wg := p.wg - 1)
    case SendBack(a) => p.(holds := p.holds - {a}, chan := p.chan + [p.holds[a].id], locked := false)
    case HandOver(a, b) => p.(holds := (p.holds - {a})[b := p.holds[a]])
  }

  function Run(p: Pool, ops: seq<Op>): Pool {
    if ops == [] then p else Apply(Run(p, ops[..|ops| - 1]), ops[|ops| - 1])
  }

  // ---------------------------------------------------------------- the invariant

  predicate NoDup<T(==)>(xs: seq<T>) { forall i, j :: 0 <= i < j < |xs| ==> xs[i] != xs[j] }

  predicate IsId(p: Pool, id: int) { 1 <= id < p.max }

  ghost predicate Holds(p: Pool, a: Agent, id: int) { a in p.holds && p.holds[a].id == id }

  /** The agents whose session counts in the wait group. */
  ghost function Live(p: Pool): set<Agent> {
    set a | a in p.holds && (p.holds[a].phase == Published || p.holds[a].phase == SlotCleared)
  }

  predicate InRelease(phase: Phase) { phase == SlotCleared || phase == MarkedDone }

  /** The ids 1 to max - 1 are divided among the channel, the agents and the losses, without duplicates. */
  ghost predicate Partition(p: Pool) {
    && NoDup(p.chan)
    && (forall id :: id in p.chan ==> IsId(p, id) && id !in p.lost)
    && (forall id :: id in p.lost ==> IsId(p, id))
    && (forall a :: a in p.holds ==> IsId(p, p.holds[a].id) && p.holds[a].id !in p.chan && p.holds[a].id !in p.lost)
    && (forall a, b :: a in p.holds && b in p.holds && a != b ==> p.holds[a].id != p.holds[b].id)
    && (forall id :: IsId(p, id) ==> id in p.chan || id in p.lost || exists a :: Holds(p, a, id))
  }

  /** A slot is filled exactly while its session is published. */
  ghost predicate Slots(p: Pool) {
    forall id :: id in p.slots <==> exists a :: Holds(p, a, id) && p.holds[a].phase == Published
  }

  /** The mutex is held from step to step by the one agent that is inside a Release, if there is one. */
  ghost predicate Mutex(p: Pool) {
    && (forall a :: a in p.holds && InRelease(p.holds[a].phase) ==> p.locked)
    && (forall a, b :: a in p.holds && b in p.holds && InRelease(p.holds[a].phase) && InRelease(p.holds[b].phase) ==> a == b)
    && (p.locked ==> exists a :: a in p.holds && InRelease(p.holds[a].phase))
  }

  ghost predicate Inv(p: Pool) {
    && Partition(p) && Slots(p) && Mutex(p)
    && p.wg == |Live(p)|
  }

  /** An operation concerns one agent; HandOver concerns two. */
  lemma OtherAgents(p: Pool, op: Op)
    ensures forall a, id :: a != op.a && !(op.HandOver? && a == op.b) ==> (Holds(Apply(p, op), a, id) <==> Holds(p, a, id))
    ensures forall a :: a != op.a && !(op.HandOver? && a == op.b) && a in p.holds ==> Apply(p, op).holds[a] == p.holds[a]
    ensures Apply(p, op).max == p.max
  {}

  /** Each id still has its place. */
  lemma CoverageStep(p: Pool, op: Op, id: int)
    requires Partition(p) && IsId(p, id)
    ensures var q := Apply(p, op); id in q.chan || id in q.lost || exists a :: Holds(q, a, id)
  {
    var q := Apply(p, op);
    OtherAgents(p, op);
    if Enabled(p, op) {
      if op.Receive? && id == p.chan[0] {
        assert Holds(q, op.a, id);
      } else if id !in p.chan && id !in p.lost {
        var a :| Holds(p, a, id);
        assert a != op.a ==> Holds(q, a, id);
        assert a == op.a && op.HandOver? ==> Holds(q, op.b, id);
        assert a == op.a && (op.Publish? || op.ClearSlot? || op.MarkDone?) ==> Holds(q, a, id);
      }
    }
  }

  /** No id has two places. */
  lemma {:induction false} NoOverlapStep(p: Pool, op: Op)
    requires Partition(p)
    ensures var q := Apply(p, op);
            && NoDup(q.chan)
            && (forall id :: id in q.chan ==> IsId(q, id) && id !in q.lost)
            && (forall id :: id in q.lost ==> IsId(q, id))
            && (forall a :: a in q.holds ==> IsId(q, q.holds[a].id) && q.holds[a].id !in q.chan && q.holds[a].id !in q.lost)
            && (forall a, b :: a in q.holds && b in q.holds && a != b ==> q.holds[a].id != q.holds[b].id)
  {
    var q := Apply(p, op);
    if Enabled(p, op) && op.Receive? {
      assert forall id :: id in q.chan ==> id in p.chan && id != p.chan[0];
    } else if Enabled(p, op) && op.SendBack? {
      assert forall id :: id in q.chan <==> id in p.chan || id == p.holds[op.a].id;
    }
  }

  lemma {:induction false} PartitionStep(p: Pool, op: Op)
    requires Partition(p)
    ensures Partition(Apply(p, op))
  {
    NoOverlapStep(p, op);
    OtherAgents(p, op);
    var q := Apply(p, op);
    forall id | IsId(q, id) ensures id in q.chan || id in q.lost || exists a :: Holds(q, a, id) {
      CoverageStep(p, op, id);
    }
  }

  lemma SlotsStep(p: Pool, op: Op)
    requires Partition(p) && Slots(p)
    ensures Slots(Apply(p, op))
  {
    var q := Apply(p, op);
    OtherAgents(p, op);
    if Enabled(p, op) {
      var mine := if op.Receive? then p.chan[0] else p.holds[op.a].id;
      var owner := if op.HandOver? then op.b else op.a;
      assert !op.Receive? ==> Holds(p, op.a, mine);
      assert owner in q.holds ==> Holds(q, owner, mine);
      forall id ensures id in q.slots <==> exists a :: Holds(q, a, id) && q.holds[a].phase == Published {
        if id != mine {
          assert id in q.slots <==> id in p.slots;
          assert forall a :: Holds(q, a, id) <==> Holds(p, a, id);
        } else {
          assert forall a :: Holds(q, a, mine) ==> a == owner;
          assert forall a :: Holds(p, a, mine) ==> a == op.a;
        }
      }
    }
  }

  lemma MutexStep(p: Pool, op: Op)
    requires Mutex(p)
    ensures Mutex(Apply(p, op))
  {
    OtherAgents(p, op);
    var q := Apply(p, op);
    if Enabled(p, op) && q.locked {
      if op.ClearSlot? || op.MarkDone? {
        assert op.a in q.holds && InRelease(q.holds[op.a].phase);
      } else {
        var a :| a in p.holds && InRelease(p.holds[a].phase);
        assert a in q.holds && InRelease(q.holds[a].phase);
      }
    }
  }

  lemma LiveStep(p: Pool, op: Op)
    requires Enabled(p, op)
    ensures Live(Apply(p, op)) == match op
                                  case Publish(a) => Live(p) + {a}
                                  case MarkDone(a) => Live(p) - {a}
                                  case HandOver(a, b) => Live(p) - {a} + {b}
                                  case _ => Live(p)
  {}

  lemma WgStep(p: Pool, op: Op)
    requires p.wg == |Live(p)|
    ensures Apply(p, op).wg == |Live(Apply(p, op))|
  {
    if Enabled(p, op) {
      LiveStep(p, op);
    }
  }

  lemma {:induction false} ApplyInv(p: Pool, op: Op)
    requires Inv(p)
    ensures Inv(Apply(p, op))
  {
    PartitionStep(p, op);
    SlotsStep(p, op);
    MutexStep(p, op);
    WgStep(p, op);
  }

  lemma NewPoolInv(max: int)
    requires max >= 1
    ensures Inv(NewPool(max))
  {
    var p := NewPool(max);
    assert Live(p) == {};
    forall id | IsId(p, id) ensures id in p.chan {
      assert p.chan[id - 1] == id;
    }
  }

  /** The pool is sound under every interleaving of every number of agents. */
  lemma {:induction false} PoolIsConserved(max: int, ops: seq<Op>)
    requires max >= 1
    ensures Inv(Run(NewPool(max), ops)) && Run(NewPool(max), ops).max == max
  {
    if ops == [] {
      NewPoolInv(max);
    } else {
      var before := ops[..|ops| - 1];
      PoolIsConserved(max, before);
      ApplyInv(Run(NewPool(max), before), ops[|ops| - 1]);
      OtherAgents(Run(NewPool(max), before), ops[|ops| - 1]);
    }
  }

  // ---------------------------------------------------------------- consequences

  lemma {:induction false} NoDupSize(xs: seq<int>)
    requires NoDup(xs)
    ensures |set x | x in xs| == |xs|
  {
    if xs != [] {
      var ys, y := xs[..|xs| - 1], xs[|xs| - 1];
      NoDupSize(ys);
      assert (set x | x in xs) == (set x | x in ys) + {y};
    }
  }

  lemma SubsetSize(small: set<int>, large: set<int>)
    requires small <= large
    ensures |small| <= |large|
  {
    assert small + (large - small) == large;
  }

  /** While an agent holds an id, the channel has room for it: the send of line 86 never blocks. */
  lemma SendNeverBlocks(p: Pool, a: Agent)
    requires Partition(p) && a in p.holds
    ensures |p.chan| < p.max - 1
    ensures p.holds[a].phase == MarkedDone ==> Enabled(p, SendBack(a))
  {
    var ids := Upto(p.max);
    var all := set x | x in ids;
    forall id | IsId(p, id) ensures id in all {
      assert ids[id - 1] == id;
    }
    NoDupSize(ids);
    NoDupSize(p.chan);
    var used := set x | x in p.chan;
    forall id | id in used ensures id in all - {p.holds[a].id} {
      assert IsId(p, id);
    }
    SubsetSize(used, all - {p.holds[a].id});
    assert |all - {p.holds[a].id}| == |all| - 1;
  }

  /**
   What the pool promises its users in every reachable state: no two agents have the same
   id, slot 0 stays empty, the wait group is not negative, and whoever holds the mutex
   inside Release can take its next step, so the mutex is always given back.
   */
  lemma {:induction false} PoolPromises(max: int, ops: seq<Op>)
    requires max >= 1
    ensures var p := Run(NewPool(max), ops);
            && (forall a, b :: a in p.holds && b in p.holds && p.holds[a].id == p.holds[b].id ==> a == b)
            && 0 !in p.slots
            && p.wg >= 0
            && (forall a :: At(p, a, SlotCleared) ==> Enabled(p, MarkDone(a)))
            && (forall a :: At(p, a, MarkedDone) ==> Enabled(p, SendBack(a)))
  {
    PoolIsConserved(max, ops);
    var p := Run(NewPool(max), ops);
    forall a | At(p, a, MarkedDone) ensures Enabled(p, SendBack(a)) {
      SendNeverBlocks(p, a);
    }
  }

  /** An id that is lost stays lost. */
  lemma {:induction false} LostForGood(p: Pool, ops: seq<Op>)
    ensures p.lost <= Run(p, ops).lost
  {
    if ops != [] {
      LostForGood(p, ops[..|ops| - 1]);
    }
  }

  /**
   With every session released the channel holds each id that is not lost exactly once, and
   nothing else: the pool has shrunk by one for every session that could not be made, and
   every id is back if and only if there was none.
   */
  lemma {:induction false} EveryIdComesBack(max: int, ops: seq<Op>)
    requires max >= 1
    requires Run(NewPool(max), ops).holds == map[]
    ensures var p := Run(NewPool(max), ops);
            && NoDup(p.chan) && (forall id :: id in p.chan <==> 1 <= id < max && id !in p.lost)
            && |p.chan| == max - 1 - |p.lost|
            && (|p.chan| == max - 1 <==> p.lost == {})
            && p.slots == {} && p.wg == 0 && !p.locked
  {
    PoolIsConserved(max, ops);
    var p := Run(NewPool(max), ops);
    assert Live(p) == {};
    forall id ensures id !in p.slots {
      assert forall a :: !Holds(p, a, id);
    }
    assert p.slots == {};
    forall id | 1 <= id < max && id !in p.lost ensures id in p.chan {
      assert IsId(p, id);
      assert forall a :: !Holds(p, a, id);
    }
    IdsDivide(p, max);
  }

  lemma IdsDivide(p: Pool, max: int)
    requires max >= 1 && NoDup(p.chan)
    requires forall id :: id in p.chan <==> 1 <= id < max && id !in p.lost
    requires forall id :: id in p.lost ==> 1 <= id < max
    ensures |p.chan| == max - 1 - |p.lost|
  {
    var ids := Upto(max);
    var all := set x | x in ids;
    var back := set x | x in p.chan;
    forall id | 1 <= id < max ensures id in ids {
      assert ids[id - 1] == id;
    }
    NoDupSize(ids);
    NoDupSize(p.chan);
    assert back + p.lost == all && back * p.lost == {};
  }
}
