/**
 database/cache.go and database/dbadapter.go in their own shape. Other goroutines use the same
 cache between any two operations, and the background goroutine purges it; what they may do
 is any history in which stores pass on answers of the database.
 */
module ConfigCaches {
  import opened GoBasics
  import opened CacheHistory

  lemma {:induction false} RecordExtends(ttl: int, log: seq<Event>, e: Event, clock: int)
    requires Timely(log) && Honest(log) && UpTo(log, clock) && Justified(log, e) && e.at == clock
    ensures Run(ttl, log + [e]) == Step(ttl, Run(ttl, log), e)
    ensures Timely(log + [e]) && Honest(log + [e]) && UpTo(log + [e], clock)
  {
    RunAppend(ttl, log, e);
    HonestExtends(log, e);
  }

  class Cache {
    const ttl: int
    var entries: Entries
    var clock: int                    // the latest time anybody has read
    var log: seq<Event>               // what has happened; the source keeps no record of it

    ghost predicate Valid()
      reads this
    {
      entries == Run(ttl, log) && Timely(log) && Honest(log) && UpTo(log, clock)
    }

    constructor (ttl: int, now: int)
      ensures Valid() && this.ttl == ttl && log == []
    {
      this.ttl, entries, clock, log := ttl, map[], now, [];
    }

    /** time.Now() */
    method Now() returns (t: int)
      modifies `clock
      ensures old(clock) <= t == clock
    {
      t :| t >= clock;
      clock := t;
    }

    /** A step of the cache, put on record. */
    method Happens(e: Event)
      requires Valid() && Justified(log, e) && e.at == clock
      modifies this
      ensures Valid() && log == old(log) + [e] && clock == old(clock)
    {
      RecordExtends(ttl, log, e, clock);
      entries, log := Step(ttl, entries, e), log + [e];
    }

    /** The other goroutines run. */
    method Interfere()
      requires Valid()
      modifies this
      ensures Valid() && old(log) <= log && old(clock) <= clock
    {
      assert log[..|log|] == log;
      var es: seq<Event> :| |es| >= |log| && es[..|log|] == log && Timely(es) && Honest(es);
      entries, log := Run(ttl, es), es;
      if log != [] && clock < log[|log| - 1].at {
        clock := log[|log| - 1].at;
      }
      var t := Now();
    }

    /** purge, lines 34-42: the clock is read for every entry, and an entry goes if and only if it had expired then. */
    method Purge()
      requires Valid()
      modifies this
      ensures Valid() && old(clock) <= clock
      ensures exists gone :: log == old(log) + [Event.Purge(gone, clock)]
      ensures forall k :: k in entries ==> k in old(entries) && entries[k] == old(entries)[k]
      ensures forall k :: k in old(entries) && old(entries)[k].expires < old(clock) ==> k !in entries
      ensures forall k :: k in old(entries) && old(entries)[k].expires >= clock ==> k in entries
    {
      var rest, gone := entries.Keys, {};
      while rest != {}
        invariant rest <= entries.Keys && gone <= entries.Keys - rest
        invariant log == old(log) && entries == old(entries) && old(clock) <= clock
        invariant forall k :: k in gone ==> entries[k].expires < clock
        invariant forall k :: k in entries && k !in rest && k !in gone ==> entries[k].expires >= old(clock)
        decreases rest
      {
        var key :| key in rest;
        rest := rest - {key};
        var now := Now();
        if entries[key].expires < now {
          gone := gone + {key};
        }
      }
      Happens(Event.Purge(gone, clock));
    }

    /** SetMany, lines 48-58. */
    method SetMany(key: string, values: Slice)
      requires Valid() && forall t :: Justified(log, Store(key, values, t))
      modifies this
      ensures Valid() && old(clock) <= clock
      ensures log == old(log) + [Store(key, values, clock)]
      ensures ttl == 0 ==> entries == old(entries)
      ensures ttl != 0 ==> entries == old(entries)[key := Entry(clock + ttl, values)]
    {
      var now := Now();
      assert Justified(log, Store(key, values, now));
      Happens(Store(key, values, now));
    }

    /** GetMany, lines 68-80. */
    method GetMany(key: string) returns (r: Slice)
      requires Valid()
      modifies `clock
      ensures Valid() && old(clock) <= clock
      ensures r == Lookup(ttl, Run(ttl, log), key, clock)
    {
      if ttl == 0 {
        return None;
      }
      if key in entries {
        var result := entries[key];
        var now := Now();
        if result.expires > now {
          return result.configs;
        }
      }
      return None;
    }

    /** Get, lines 60-66. */
    method Get(key: string) returns (r: Option<Object>)
      requires Valid()
      modifies `clock
      ensures Valid() && old(clock) <= clock
      ensures r == First(Lookup(ttl, Run(ttl, log), key, clock))
      ensures r.Some? ==> exists rest :: Lookup(ttl, Run(ttl, log), key, clock) == Some([r.value] + rest)
      ensures r.None? ==> Lookup(ttl, Run(ttl, log), key, clock) in {None, Some([])}
    {
      var configs := GetMany(key);
      if configs.Some? && |configs.value| > 0 {
        assert configs.value == [configs.value[0]] + configs.value[1..];
        return Some(configs.value[0]);
      }
      return None;
    }
  }

  function First(s: Slice): Option<Object> {
    if s.Some? && |s.value| > 0 then Some(s.value[0]) else None
  }

  // ---------------------------------------------------------------- the adapter

  datatype Result<T> = Ok(value: T) | Failed | Panicked

  /**
   Where a lookup's result comes from: the cache, as it was after `read` events at time `now`, or
   the database's answer at `at`, because the cache had nothing then.
   */
  datatype Origin = Cached(read: nat, now: int) | Fresh(read: nat, now: int, at: nat)

  /** What a lookup since the first `from` events reads in the cache. */
  ghost predicate Reads(ttl: int, log: seq<Event>, from: nat, key: string, origin: Origin, found: Slice) {
    && from <= origin.read <= |log| && UpTo(log[..origin.read], origin.now)
    && Lookup(ttl, Run(ttl, log[..origin.read]), key, origin.now) == found
  }

  /** Event `at` is the answer about the id, and what it found was stored afterwards under its own id. */
  ghost predicate FoundAt(log: seq<Event>, id: string, o: Object, at: nat) {
    && at + 1 < |log|
    && log[at].Answered? && log[at].ask == ById(id) && log[at].values == Some([o])
    && exists k :: at < k < |log| && log[k].Store? && log[k].key == o.id && log[k].values == Some([o])
  }

  /** A lookup of an id. */
  ghost predicate ObjectFrom(ttl: int, log: seq<Event>, from: nat, id: string, o: Object, origin: Origin) {
    exists found :: Reads(ttl, log, from, id, origin, found) &&
      match origin
      case Cached(_, _) => First(found) == Some(o)
      case Fresh(read, _, at) =>
        First(found) == None && read <= at && FoundAt(log, id, o, at)
  }

  function Elements(s: Slice): seq<Object> { if s.Some? then s.value else [] }

  /** Event `at` is the answer about the selector, and it was stored afterwards. */
  ghost predicate FetchedAt(log: seq<Event>, selector: string, list: Slice, at: nat) {
    && at + 1 < |log| && |Split(selector)| >= 2
    && log[at].Answered? && log[at].ask == AskFor(selector) && log[at].values == list
    && IsLabelOf(selector, log[at].ask.wanted)
    && exists k :: at < k < |log| && log[k].Store? && log[k].key == selector && log[k].values == list
  }

  /** Event `at` is the answer about the label that the selector spells. */
  ghost predicate AskedForLabel(log: seq<Event>, selector: string, at: nat) {
    && at < |log| && log[at].Answered? && log[at].ask.BySelector? && log[at].ask.selector == selector
    && IsLabelOf(selector, log[at].ask.wanted)
  }

  /** A lookup of a selector; an answer without any object is nil, and is asked for again each time. */
  ghost predicate ListFrom(ttl: int, log: seq<Event>, from: nat, selector: string, list: Slice, origin: Origin) {
    match origin
    case Cached(_, _) => list.Some? && Reads(ttl, log, from, selector, origin, list)
    case Fresh(read, _, at) =>
      Reads(ttl, log, from, selector, origin, None) && read <= at && FetchedAt(log, selector, list, at)
  }

  lemma FromExtends(ttl: int, log: seq<Event>, more: seq<Event>, from: nat, key: string, o: Object, list: Slice, origin: Origin)
    requires log <= more
    ensures ObjectFrom(ttl, log, from, key, o, origin) ==> ObjectFrom(ttl, more, from, key, o, origin)
    ensures ListFrom(ttl, log, from, key, list, origin) ==> ListFrom(ttl, more, from, key, list, origin)
  {
    if origin.read <= |log| {
      assert more[..origin.read] == log[..origin.read];
    }
    if ObjectFrom(ttl, log, from, key, o, origin) {
      var found :| Reads(ttl, log, from, key, origin, found);
      assert Reads(ttl, more, from, key, origin, found);
    }
    assert forall k :: 0 <= k < |log| ==> more[k] == log[k];
  }

  class ConfigCache {
    const cache: Cache

    constructor (cache: Cache)
      ensures this.cache == cache
    {
      this.cache := cache;
    }

    /** The database: it answers at some later time, with anything or an error. */
    method Ask(ask: Ask) returns (reply: Result<Slice>)
      requires cache.Valid()
      requires ask.BySelector? ==> |Split(ask.selector)| >= 2 && ask == AskFor(ask.selector)
      modifies cache
      ensures cache.Valid() && old(cache.log) <= cache.log && !reply.Panicked?
      ensures reply.Ok? ==> cache.log != [] && |cache.log| > |old(cache.log)| && cache.log[|cache.log| - 1] == Answered(ask, reply.value, cache.clock)
      ensures reply.Ok? && ask.ById? ==> reply.value.Some? && |reply.value.value| == 1
    {
      cache.Interfere();
      var answer: Result<Slice> :| !answer.Panicked? && (answer.Ok? && ask.ById? ==> answer.value.Some? && |answer.value.value| == 1);
      if answer.Ok? {
        cache.Happens(Answered(ask, answer.value, cache.clock));
      }
      return answer;
    }

    /** Lines 56-61: the database is asked for the id, and what it finds stored under the id that this has. */
    method FetchObject(id: string) returns (r: Result<Object>, ghost at: nat)
      requires cache.Valid()
      modifies cache
      ensures cache.Valid() && old(cache.log) <= cache.log && !r.Panicked?
      ensures r.Ok? ==> |old(cache.log)| <= at && FoundAt(cache.log, id, r.value, at)
    {
      at := 0;
      var reply := Ask(ById(id));
      if reply.Failed? {
        return Failed, at;
      }
      at := |cache.log| - 1;
      ghost var answer := cache.log[at];
      var result := reply.value.value[0];
      assert reply.value.value == [result];
      cache.Interfere();
      assert cache.log[at] == answer;
      assert forall t :: Justifies(answer, Store(result.id, Some([result]), t));
      cache.SetMany(result.id, Some([result]));
      assert cache.log[at] == answer;
      r := Ok(result);
    }

    /** GetConfigObject, lines 50-64. */
    method GetConfigObject(id: string) returns (r: Result<Object>, ghost origin: Origin)
      requires cache.Valid()
      modifies cache
      ensures cache.Valid() && old(cache.log) <= cache.log && !r.Panicked?
      ensures r.Ok? ==> ObjectFrom(cache.ttl, cache.log, |old(cache.log)|, id, r.value, origin)
      ensures r.Failed? ==> exists found :: First(found) == None && Reads(cache.ttl, cache.log, |old(cache.log)|, id, origin, found)
    {
      cache.Interfere();
      var cached := cache.Get(id);
      origin := Cached(|cache.log|, cache.clock);
      ghost var seen := cache.log;
      ghost var found := Lookup(cache.ttl, Run(cache.ttl, seen), id, cache.clock);
      assert seen[..|seen|] == seen;
      assert Reads(cache.ttl, cache.log, |old(cache.log)|, id, origin, found);
      if cached.Some? {
        return Ok(cached.value), origin;
      }
      ghost var at;
      r, at := FetchObject(id);
      assert cache.log[..|seen|] == seen;
      if r.Ok? {
        origin := Fresh(|seen|, origin.now, at);
      }
      assert Reads(cache.ttl, cache.log, |old(cache.log)|, id, origin, found);
    }

    /** Lines 79-83: the database is asked for the label, and its answer stored under the selector. */
    method FetchSelector(selector: string, wanted: Label) returns (reply: Result<Slice>, ghost at: nat)
      requires cache.Valid() && |Split(selector)| >= 2 && AskFor(selector) == BySelector(selector, wanted)
      modifies cache
      ensures cache.Valid() && old(cache.log) <= cache.log && !reply.Panicked?
      ensures reply.Ok? ==> |old(cache.log)| <= at && FetchedAt(cache.log, selector, reply.value, at)
    {
      at := 0;
      reply := Ask(BySelector(selector, wanted));
      if reply.Ok? {
        at := |cache.log| - 1;
        ghost var answer := cache.log[at];
        AsksForItsLabel(selector);
        cache.Interfere();
        assert cache.log[at] == answer;
        assert forall t :: Justifies(answer, Store(selector, reply.value, t));
        cache.SetMany(selector, reply.value);
        assert cache.log[at] == answer;
      }
    }

    /** getConfigsForSelector, lines 67-86. */
    method GetConfigsForSelector(selector: string) returns (r: Result<Slice>, ghost origin: Origin)
      requires cache.Valid()
      modifies cache
      ensures cache.Valid() && old(cache.log) <= cache.log
      ensures r.Ok? ==> ListFrom(cache.ttl, cache.log, |old(cache.log)|, selector, r.value, origin)
      ensures r.Ok? && origin.Fresh? ==> AskedForLabel(cache.log, selector, origin.at)
      ensures r.Panicked? ==> ':' !in selector
      ensures ':' !in selector ==> if r.Ok? then origin.Cached? else r.Panicked?
      ensures !r.Ok? ==> Reads(cache.ttl, cache.log, |old(cache.log)|, selector, origin, None)
    {
      SplitIsExact(selector);
      cache.Interfere();
      var cached := cache.GetMany(selector);
      origin := Cached(|cache.log|, cache.clock);
      ghost var seen := cache.log;
      assert seen[..|seen|] == seen;
      if cached.Some? {
        return Ok(cached), origin;
      }
      var t := Split(selector);
      if |t| < 2 {
        return Panicked, origin;
      }
      ghost var at;
      r, at := FetchSelector(selector, Label(t[0], t[1]));
      assert cache.log[..|seen|] == seen;
      if r.Ok? {
        origin := Fresh(|seen|, origin.now, at);
      }
    }

    /** The loop over the references, lines 90-96. */
    method GetReferred(refs: seq<string>, selectors: seq<string>)
      returns (r: Result<seq<Object>>, ghost objects: seq<Object>, ghost origins: seq<Origin>)
      requires cache.Valid()
      modifies cache
      ensures cache.Valid() && old(cache.log) <= cache.log && !r.Panicked?
      ensures if r.Ok? then |objects| == |refs| && r.value == objects else |objects| < |refs|
      ensures Gathered(cache.ttl, cache.log, |old(cache.log)|, refs, selectors, objects, [], origins)
    {
      var scripts: seq<Object> := [];
      objects, origins := [], [];
      for i := 0 to |refs|
        invariant cache.Valid() && old(cache.log) <= cache.log
        invariant |objects| == i && scripts == objects
        invariant Gathered(cache.ttl, cache.log, |old(cache.log)|, refs, selectors, objects, [], origins)
      {
        ghost var before := cache.log;
        var script, origin := GetConfigObject(refs[i]);
        GatheredLater(cache.ttl, before, cache.log, |old(cache.log)|, refs, selectors, objects, [], origins);
        if !script.Ok? {
          return Failed, objects, origins;
        }
        GatheredObject(cache.ttl, cache.log, |before|, |old(cache.log)|, refs, selectors, objects, origins, script.value, origin);
        scripts, objects, origins := scripts + [script.value], objects + [script.value], origins + [origin];
      }
      r := Ok(scripts);
    }

    /** GetScripts, lines 88-105: the objects referred to, in order, then what each selector finds, in order. */
    method GetScripts(refs: seq<string>, selectors: seq<string>)
      returns (r: Result<seq<Object>>, ghost objects: seq<Object>, ghost lists: seq<Slice>, ghost origins: seq<Origin>)
      requires cache.Valid()
      modifies cache
      ensures cache.Valid() && old(cache.log) <= cache.log
      ensures r.Ok? ==> |objects| == |refs| && |lists| == |selectors| && r.value == Append(objects, lists)
      ensures r.Ok? ==> exists cuts :: LaidOut(r.value, objects, lists, cuts)
      ensures !r.Ok? ==> |objects| + |lists| < |refs| + |selectors|
      ensures Gathered(cache.ttl, cache.log, |old(cache.log)|, refs, selectors, objects, lists, origins)
      ensures r.Panicked? ==> |objects| == |refs| && |lists| < |selectors| && ':' !in selectors[|lists|]
    {
      var referred, os, gs := GetReferred(refs, selectors);
      objects, lists, origins := os, [], gs;
      if !referred.Ok? {
        return Failed, objects, lists, origins;
      }
      r, lists, origins := GetSelected(refs, selectors, referred.value, origins, |old(cache.log)|);
      ghost var cuts := AppendLaysOut(objects, lists);
    }

    /** The loop over the selectors, lines 97-103. */
    method GetSelected(refs: seq<string>, selectors: seq<string>, referred: seq<Object>, ghost gs: seq<Origin>, ghost from: nat)
      returns (r: Result<seq<Object>>, ghost lists: seq<Slice>, ghost origins: seq<Origin>)
      requires cache.Valid() && from <= |cache.log| && |referred| == |refs|
      requires Gathered(cache.ttl, cache.log, from, refs, selectors, referred, [], gs)
      modifies cache
      ensures cache.Valid() && old(cache.log) <= cache.log
      ensures if r.Ok? then |lists| == |selectors| && r.value == Append(referred, lists) else |lists| < |selectors|
      ensures Gathered(cache.ttl, cache.log, from, refs, selectors, referred, lists, origins)
      ensures r.Panicked? ==> ':' !in selectors[|lists|]
    {
      var scripts := referred;
      lists, origins := [], gs;
      for i := 0 to |selectors|
        invariant cache.Valid() && old(cache.log) <= cache.log
        invariant |lists| == i && scripts == Append(referred, lists)
        invariant Gathered(cache.ttl, cache.log, from, refs, selectors, referred, lists, origins)
      {
        ghost var before := cache.log;
        var configs, origin := GetConfigsForSelector(selectors[i]);
        GatheredLater(cache.ttl, before, cache.log, from, refs, selectors, referred, lists, origins);
        if !configs.Ok? {
          return if configs.Panicked? then Panicked else Failed, lists, origins;
        }
        GatheredList(cache.ttl, cache.log, |before|, from, refs, selectors, referred, lists, origins, configs.value, origin);
        scripts, lists, origins := scripts + Elements(configs.value), lists + [configs.value], origins + [origin];
      }
      r := Ok(scripts);
    }
  }

  /** The objects, followed by the elements of each list in turn. */
  function Append(objects: seq<Object>, lists: seq<Slice>): seq<Object> {
    if lists == [] then objects else Append(objects, lists[..|lists| - 1]) + Elements(lists[|lists| - 1])
  }

  /** The objects stand first, and then the elements of each list, where `cuts` says. */
  ghost predicate LaidOut(all: seq<Object>, objects: seq<Object>, lists: seq<Slice>, cuts: seq<nat>) {
    && |cuts| == |lists| + 1 && cuts[0] == |objects| && cuts[|lists|] == |all| && objects <= all
    && forall k :: 0 <= k < |lists| ==>
         if lists[k].None? then cuts[k + 1] == cuts[k]
         else cuts[k] <= cuts[k + 1] <= |all| && all[cuts[k]..cuts[k + 1]] == lists[k].value
  }

  /** So that is how `Append` lays them out: nothing is lost, exchanged or added. */
  lemma {:induction false} AppendLaysOut(objects: seq<Object>, lists: seq<Slice>) returns (cuts: seq<nat>)
    ensures LaidOut(Append(objects, lists), objects, lists, cuts)
  {
    if lists == [] {
      cuts := [|objects|];
    } else {
      var g, last := lists[..|lists| - 1], lists[|lists| - 1];
      var all := Append(objects, g);
      var before := AppendLaysOut(objects, g);
      cuts := before + [|all + Elements(last)|];
      forall k | 0 <= k < |lists| && lists[k].Some?
        ensures cuts[k] <= cuts[k + 1] <= |all + Elements(last)|
        ensures (all + Elements(last))[cuts[k]..cuts[k + 1]] == lists[k].value
      {
        if k < |g| {
          assert g[k] == lists[k];
          assert (all + Elements(last))[cuts[k]..cuts[k + 1]] == all[cuts[k]..cuts[k + 1]];
        }
      }
      forall k | 0 <= k < |lists| && lists[k].None? ensures cuts[k + 1] == cuts[k] {
        if k < |g| {
          assert g[k] == lists[k];
        }
      }
    }
  }

  /** Each piece has its origin in a lookup made since the first `from` events. */
  ghost predicate Gathered(ttl: int, log: seq<Event>, from: nat, refs: seq<string>, selectors: seq<string>,
                           objects: seq<Object>, lists: seq<Slice>, origins: seq<Origin>) {
    && |objects| <= |refs| && |lists| <= |selectors| && |origins| == |objects| + |lists|
    && (forall k :: 0 <= k < |objects| ==> ObjectFrom(ttl, log, from, refs[k], objects[k], origins[k]))
    && (forall k :: 0 <= k < |lists| ==> ListFrom(ttl, log, from, selectors[k], lists[k], origins[|objects| + k]))
  }

  lemma GatheredLater(ttl: int, log: seq<Event>, more: seq<Event>, from: nat, refs: seq<string>, selectors: seq<string>,
                      objects: seq<Object>, lists: seq<Slice>, origins: seq<Origin>)
    requires Gathered(ttl, log, from, refs, selectors, objects, lists, origins) && log <= more
    ensures Gathered(ttl, more, from, refs, selectors, objects, lists, origins)
  {
    forall k | 0 <= k < |objects| ensures ObjectFrom(ttl, more, from, refs[k], objects[k], origins[k]) {
      FromExtends(ttl, log, more, from, refs[k], objects[k], None, origins[k]);
    }
    forall k | 0 <= k < |lists| ensures ListFrom(ttl, more, from, selectors[k], lists[k], origins[|objects| + k]) {
      FromExtends(ttl, log, more, from, selectors[k], Object("", 0), lists[k], origins[|objects| + k]);
    }
  }

  lemma GatheredObject(ttl: int, log: seq<Event>, last: nat, from: nat, refs: seq<string>, selectors: seq<string>,
                       objects: seq<Object>, origins: seq<Origin>, o: Object, origin: Origin)
    requires Gathered(ttl, log, from, refs, selectors, objects, [], origins) && |objects| < |refs| && from <= last
    requires ObjectFrom(ttl, log, last, refs[|objects|], o, origin)
    ensures Gathered(ttl, log, from, refs, selectors, objects + [o], [], origins + [origin])
  {
    forall k | 0 <= k <= |objects| ensures ObjectFrom(ttl, log, from, refs[k], (objects + [o])[k], (origins + [origin])[k]) {
      if k < |objects| {
        assert ObjectFrom(ttl, log, from, refs[k], objects[k], origins[k]);
      }
    }
  }

  lemma GatheredList(ttl: int, log: seq<Event>, last: nat, from: nat, refs: seq<string>, selectors: seq<string>,
                     objects: seq<Object>, lists: seq<Slice>, origins: seq<Origin>, list: Slice, origin: Origin)
    requires Gathered(ttl, log, from, refs, selectors, objects, lists, origins) && |lists| < |selectors| && from <= last
    requires ListFrom(ttl, log, last, selectors[|lists|], list, origin)
    ensures Gathered(ttl, log, from, refs, selectors, objects, lists + [list], origins + [origin])
    ensures Append(objects, lists + [list]) == Append(objects, lists) + Elements(list)
  {
    assert (lists + [list])[..|lists|] == lists;
    forall k | 0 <= k <= |lists|
      ensures ListFrom(ttl, log, from, selectors[k], (lists + [list])[k], (origins + [origin])[|objects| + k])
    {
      if k < |lists| {
        assert ListFrom(ttl, log, from, selectors[k], lists[k], origins[|objects| + k]);
      }
    }
  }

  // ---------------------------------------------------------------- what GetScripts promises

  /**
   Before event `at` the database gave `values` as its answer about the key, that was stored
   after it, and at time `now` the store was less than ttl old.
   */
  ghost predicate Recent(ttl: int, log: seq<Event>, key: string, byId: bool, values: Slice, at: nat, now: int) {
    exists j, i :: i < at && PassesOn(log, key, byId, j, i) && log[j].values == values && log[i].at <= now < log[i].at + ttl
  }

  /** Event `at`, after the first `from`, is the database's answer about the selector. */
  ghost predicate AnsweredInCall(log: seq<Event>, from: nat, selector: string, list: Slice, at: nat) {
    from <= at && AskedForLabel(log, selector, at) && log[at].values == list
  }

  lemma CachedIsRecent(u: Universe, ttl: int, log: seq<Event>, key: string, byId: bool, values: seq<Object>, at: nat, now: int)
    requires WellKeyed(u) && History(u, log) && at <= |log| && UpTo(log[..at], now)
    requires if byId then key in u.ids else key in u.selectors
    requires Lookup(ttl, Run(ttl, log[..at]), key, now) == Some(values)
    ensures Recent(ttl, log, key, byId, Some(values), at, now)
  {
    var g := log[..at];
    forall i | 0 <= i < |g| ensures Justified(g[..i], g[i]) && Possible(u, g[i]) {
      assert g[..i] == log[..i] && g[i] == log[i];
      assert Justified(log[..i], log[i]);
      assert Possible(u, log[i]);
    }
    var j, i := ServedIsRecent(u, ttl, g, key, byId, now, values);
    assert g[i] == log[i] && g[j] == log[j];
    assert PassesOn(log, key, byId, j, i);
  }

  /**
   In a well-keyed configuration every object that GetScripts returns was given by the database
   for that very reference or selector: either during this call, or before a store that was
   less than ttl old when the cache was read.
   */
  lemma EveryScriptIsRecent(u: Universe, ttl: int, log: seq<Event>, from: nat, refs: seq<string>, selectors: seq<string>,
                            objects: seq<Object>, lists: seq<Slice>, origins: seq<Origin>)
    requires WellKeyed(u) && History(u, log)
    requires Gathered(ttl, log, from, refs, selectors, objects, lists, origins)
    requires (forall x :: x in refs ==> x in u.ids) && (forall x :: x in selectors ==> x in u.selectors)
    ensures forall k :: 0 <= k < |objects| && origins[k].Cached? ==>
              exists rest :: Recent(ttl, log, refs[k], true, Some([objects[k]] + rest), origins[k].read, origins[k].now)
    ensures forall k :: 0 <= k < |lists| && origins[|objects| + k].Cached? ==>
              Recent(ttl, log, selectors[k], false, lists[k], origins[|objects| + k].read, origins[|objects| + k].now)
    ensures forall k :: 0 <= k < |objects| && origins[k].Fresh? ==>
              from <= origins[k].at < |log| && log[origins[k].at] == Answered(ById(refs[k]), Some([objects[k]]), log[origins[k].at].at)
    ensures forall k :: 0 <= k < |lists| && origins[|objects| + k].Fresh? ==>
              AnsweredInCall(log, from, selectors[k], lists[k], origins[|objects| + k].at)
  {
    forall k | 0 <= k < |objects| && origins[k].Cached?
      ensures exists rest :: Recent(ttl, log, refs[k], true, Some([objects[k]] + rest), origins[k].read, origins[k].now)
    {
      var at, now := origins[k].read, origins[k].now;
      assert ObjectFrom(ttl, log, from, refs[k], objects[k], origins[k]);
      var s :| Reads(ttl, log, from, refs[k], origins[k], s) && First(s) == Some(objects[k]);
      var found := s.value;
      assert found == [objects[k]] + found[1..];
      assert refs[k] in refs;
      CachedIsRecent(u, ttl, log, refs[k], true, found, at, now);
    }
    forall k | 0 <= k < |lists| && origins[|objects| + k].Cached?
      ensures Recent(ttl, log, selectors[k], false, lists[k], origins[|objects| + k].read, origins[|objects| + k].now)
    {
      assert ListFrom(ttl, log, from, selectors[k], lists[k], origins[|objects| + k]);
      assert selectors[k] in selectors;
      CachedIsRecent(u, ttl, log, selectors[k], false, lists[k].value, origins[|objects| + k].read, origins[|objects| + k].now);
    }
    forall k | 0 <= k < |lists| && origins[|objects| + k].Fresh?
      ensures AnsweredInCall(log, from, selectors[k], lists[k], origins[|objects| + k].at)
    {
      assert ListFrom(ttl, log, from, selectors[k], lists[k], origins[|objects| + k]);
    }
    forall k | 0 <= k < |objects| && origins[k].Fresh?
      ensures from <= origins[k].at < |log| && log[origins[k].at] == Answered(ById(refs[k]), Some([objects[k]]), log[origins[k].at].at)
    {
      assert ObjectFrom(ttl, log, from, refs[k], objects[k], origins[k]);
    }
  }
}
