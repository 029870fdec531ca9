/**
 What a cache of database/cache.go holds is determined by what happened to it. A history
 lists, with the time of each, the answers the database gave, the stores that followed
 and the purges of the background goroutine, of however many goroutines.
 */
module CacheHistory {
  import opened GoBasics

  /** A configuration object; `version` stands for all that is in it besides its id. */
  datatype Object = Object(id: string, version: int)

  /** A Go slice: None is nil, which is not the same as an empty list (dbadapter.go:69). */
  type Slice = Option<seq<Object>>

  datatype Entry = Entry(expires: int, configs: Slice)

  datatype Label = Label(key: string, value: string)

  /** What the database is asked: for an id, or for a label on account of a selector. */
  datatype Ask = ById(id: string) | BySelector(selector: string, wanted: Label)

  datatype Event =
    | Answered(ask: Ask, values: Slice, at: int)
    | Store(key: string, values: Slice, at: int)
    | Purge(keys: set<string>, at: int)

  type Entries = map<string, Entry>

  /** cache.go:44-58 and 34-42. A purge looks at every key, and removes those of `keys` that have expired. */
  function Step(ttl: int, m: Entries, e: Event): Entries {
    match e
    case Answered(_, _, _) => m
    case Store(key, values, at) => if ttl == 0 then m else m[key := Entry(at + ttl, values)]
    case Purge(keys, at) => map k | k in m && !(k in keys && m[k].expires < at) :: m[k]
  }

  function Run(ttl: int, log: seq<Event>): Entries {
    if log == [] then map[] else Step(ttl, Run(ttl, log[..|log| - 1]), log[|log| - 1])
  }

  lemma RunAppend(ttl: int, log: seq<Event>, e: Event)
    ensures Run(ttl, log + [e]) == Step(ttl, Run(ttl, log), e)
  {
    assert (log + [e])[..|log|] == log;
  }

  /** cache.go:68-80. */
  function Lookup(ttl: int, m: Entries, key: string, now: int): Slice {
    if ttl != 0 && key in m && m[key].expires > now then m[key].configs else None
  }

  /** The clock does not run backwards. */
  predicate Timely(log: seq<Event>) { forall i, j :: 0 <= i < j < |log| ==> log[i].at <= log[j].at }

  predicate UpTo(log: seq<Event>, now: int) { forall i :: 0 <= i < |log| ==> log[i].at <= now }

  // ---------------------------------------------------------------- what a lookup finds

  /** Event `i` is the last store under the key. */
  predicate LastStore(log: seq<Event>, key: string, i: int) {
    && 0 <= i < |log| && log[i].Store? && log[i].key == key
    && forall j :: i < j < |log| ==> !(log[j].Store? && log[j].key == key)
  }

  lemma {:induction false} EntryHasStore(ttl: int, log: seq<Event>, key: string) returns (i: nat)
    requires key in Run(ttl, log)
    ensures ttl != 0 && LastStore(log, key, i)
    ensures Run(ttl, log)[key] == Entry(log[i].at + ttl, log[i].values)
  {
    var g, e := log[..|log| - 1], log[|log| - 1];
    if e.Store? && e.key == key && ttl != 0 {
      i := |g|;
    } else {
      i := EntryHasStore(ttl, g, key);
      assert g[i] == log[i];
    }
  }

  lemma {:induction false} StoreHasEntry(ttl: int, log: seq<Event>, key: string, i: nat, now: int)
    requires ttl != 0 && LastStore(log, key, i) && UpTo(log, now) && now <= log[i].at + ttl
    ensures key in Run(ttl, log) && Run(ttl, log)[key] == Entry(log[i].at + ttl, log[i].values)
  {
    var g, e := log[..|log| - 1], log[|log| - 1];
    if i < |g| {
      assert g[i] == log[i];
      assert forall j :: 0 <= j < |g| ==> g[j] == log[j];
      StoreHasEntry(ttl, g, key, i, now);
    }
  }

  /**
   A lookup finds what was last stored under the key, if and only if that was less than
   ttl ago; purges, whenever they happen, make no difference.
   */
  lemma {:induction false} LookupFindsTheLastStore(ttl: int, log: seq<Event>, key: string, now: int, values: seq<Object>)
    requires UpTo(log, now)
    ensures Lookup(ttl, Run(ttl, log), key, now) == Some(values) <==>
              ttl != 0 && exists i :: LastStore(log, key, i) && log[i].values == Some(values) && now < log[i].at + ttl
  {
    if key in Run(ttl, log) {
      var i := EntryHasStore(ttl, log, key);
    }
    if ttl != 0 && exists i :: LastStore(log, key, i) && log[i].values == Some(values) && now < log[i].at + ttl {
      var i :| LastStore(log, key, i) && log[i].values == Some(values) && now < log[i].at + ttl;
      StoreHasEntry(ttl, log, key, i, now);
    }
  }

  // ---------------------------------------------------------------- purging

  function WithoutPurges(log: seq<Event>): seq<Event> {
    if log == [] then []
    else WithoutPurges(log[..|log| - 1]) + if log[|log| - 1].Purge? then [] else [log[|log| - 1]]
  }

  /** The purged entries are among the others, and what they lack has expired. */
  ghost predicate Agrees(m: Entries, full: Entries, now: int) {
    && (forall k :: k in m ==> k in full && full[k] == m[k])
    && forall k :: k in full && k !in m ==> full[k].expires < now
  }

  lemma {:induction false} PurgedAgrees(ttl: int, log: seq<Event>, now: int)
    requires UpTo(log, now)
    ensures Agrees(Run(ttl, log), Run(ttl, WithoutPurges(log)), now)
  {
    if log != [] {
      var g, e := log[..|log| - 1], log[|log| - 1];
      PurgedAgrees(ttl, g, now);
      if e.Purge? {
        assert WithoutPurges(log) == WithoutPurges(g) + [] == WithoutPurges(g);
      } else {
        RunAppend(ttl, WithoutPurges(g), e);
      }
    }
  }

  /** Lock-step with a cache that is never purged: at no time can a lookup tell them apart. */
  lemma {:induction false} PurgeIsUnobservable(ttl: int, log: seq<Event>, key: string, now: int)
    requires UpTo(log, now)
    ensures Lookup(ttl, Run(ttl, log), key, now) == Lookup(ttl, Run(ttl, WithoutPurges(log)), key, now)
  {
    PurgedAgrees(ttl, log, now);
  }

  // ---------------------------------------------------------------- labels

  /** strings.Split(selector, ":") */
  function Split(s: string): (r: seq<string>)
    ensures |r| >= 1
  {
    if s == "" then [""]
    else
      var rest := Split(s[1..]);
      if s[0] == ':' then [""] + rest else [[s[0]] + rest[0]] + rest[1..]
  }

  function Join(parts: seq<string>): string
    requires |parts| >= 1
  {
    if |parts| == 1 then parts[0] else parts[0] + ":" + Join(parts[1..])
  }

  /** Splitting loses nothing, and leaves no colon in any part; one part alone means there was none. */
  lemma {:induction false} SplitIsExact(s: string)
    ensures Join(Split(s)) == s
    ensures forall k :: 0 <= k < |Split(s)| ==> ':' !in Split(s)[k]
    ensures |Split(s)| == 1 <==> ':' !in s
  {
    if s != "" {
      var rest := Split(s[1..]);
      SplitIsExact(s[1..]);
      assert s == [s[0]] + s[1..];
      if s[0] == ':' {
        assert Split(s)[1..] == rest;
      } else if |rest| > 1 {
        assert Split(s)[1..] == rest[1..];
      }
    }
  }

  /** What the database is asked for a selector (dbadapter.go:73-79); what follows a second colon is dropped. */
  function AskFor(selector: string): Ask
    requires |Split(selector)| >= 2
  {
    BySelector(selector, Label(Split(selector)[0], Split(selector)[1]))
  }

  /** What stands before the first colon of the selector is the key, what stands before a second one is the value. */
  predicate IsLabelOf(selector: string, l: Label) {
    && ':' !in l.key && ':' !in l.value
    && (selector == l.key + ":" + l.value || l.key + ":" + l.value + ":" <= selector)
  }

  /** The database is asked for the selector's label. */
  lemma AsksForItsLabel(selector: string)
    requires |Split(selector)| >= 2
    ensures AskFor(selector).selector == selector && IsLabelOf(selector, AskFor(selector).wanted)
  {
    SplitIsExact(selector);
    var parts := Split(selector);
    if |parts| > 2 {
      var rest := Join(parts[2..]);
      assert Join(parts[1..]) == parts[1] + ":" + rest;
      assert parts[0] + ":" + (parts[1] + ":" + rest) == parts[0] + ":" + parts[1] + ":" + rest;
    }
  }

  /** A selector has one label at most. */
  lemma LabelIsUnique(selector: string, a: Label, b: Label)
    requires IsLabelOf(selector, a) && IsLabelOf(selector, b)
    ensures a == b
  {
    KeyEnds(selector, a);
    KeyEnds(selector, b);
  }

  lemma KeyEnds(selector: string, l: Label)
    requires IsLabelOf(selector, l)
    ensures var n := |l.key| + 1 + |l.value|;
            && n <= |selector| && selector[..|l.key|] == l.key && selector[|l.key|] == ':'
            && selector[|l.key| + 1..n] == l.value && (n < |selector| ==> selector[n] == ':')
            && forall k :: 0 <= k < n && k != |l.key| ==> selector[k] != ':'
  {
    var whole := l.key + ":" + l.value;
    assert whole[..|l.key|] == l.key && whole[|l.key|] == ':' && whole[|l.key| + 1..] == l.value;
    assert whole <= selector;
  }

  // ---------------------------------------------------------------- honest use

  /** Whether a store is what GetConfigObject or getConfigsForSelector does with an answer (dbadapter.go:56-61, 73-83). */
  predicate Justifies(a: Event, s: Event)
    requires a.Answered? && s.Store?
  {
    && s.values == a.values
    && match a.ask
       case ById(_) => a.values.Some? && |a.values.value| == 1 && s.key == a.values.value[0].id
       case BySelector(selector, _) => s.key == selector
  }

  predicate Justified(log: seq<Event>, e: Event) {
    match e
    case Answered(ask, _, _) => ask.BySelector? ==> |Split(ask.selector)| >= 2 && ask == AskFor(ask.selector)
    case Store(_, _, _) => exists j :: 0 <= j < |log| && log[j].Answered? && Justifies(log[j], e)
    case Purge(_, _) => true
  }

  /** Every store passes on an earlier answer of the database, and only labels are asked for. */
  predicate Honest(log: seq<Event>) {
    forall i :: 0 <= i < |log| ==> Justified(log[..i], log[i])
  }

  lemma HonestExtends(log: seq<Event>, e: Event)
    requires Honest(log) && Justified(log, e)
    ensures Honest(log + [e])
  {
    forall i | 0 <= i < |log + [e]| ensures Justified((log + [e])[..i], (log + [e])[i]) {
      assert (log + [e])[..i] == log[..i];
      assert log[..|log|] == log;
    }
  }

  /** The configuration: the ids and selectors that are looked up, and the ids of what may be found for an id. */
  datatype Universe = Universe(ids: set<string>, selectors: set<string>, finds: map<string, set<string>>)

  predicate Possible(u: Universe, e: Event) {
    e.Answered? ==>
      match e.ask
      case ById(id) => id in u.ids && (e.values.Some? ==> forall o :: o in e.values.value ==> id in u.finds && o.id in u.finds[id])
      case BySelector(selector, _) => selector in u.selectors
  }

  ghost predicate History(u: Universe, log: seq<Event>) {
    Timely(log) && Honest(log) && forall i :: 0 <= i < |log| ==> Possible(u, log[i])
  }

  /** The store at `i` passes on an answer, at `j`, to the question for an id or a selector. */
  predicate PassesOn(log: seq<Event>, key: string, byId: bool, j: int, i: int) {
    && 0 <= j < i < |log| && log[i].Store? && log[j].Answered? && log[j].values == log[i].values
    && if byId then log[j].ask == ById(key) else log[j].ask.BySelector? && log[j].ask.selector == key
  }

  /** A lookup of the id, or of the selector, is only ever served with answers to that very question. */
  ghost predicate OwnAnswers(log: seq<Event>, key: string, byId: bool) {
    forall i :: LastStore(log, key, i) ==> exists j :: PassesOn(log, key, byId, j, i)
  }

  ghost predicate AlwaysOwnAnswers(u: Universe) {
    && (forall log, key :: History(u, log) && key in u.ids ==> OwnAnswers(log, key, true))
    && (forall log, key :: History(u, log) && key in u.selectors ==> OwnAnswers(log, key, false))
  }

  /** Nothing found for an id carries another id that is looked up, or a selector; and no selector is an id. */
  predicate WellKeyed(u: Universe) {
    && (forall x, y :: x in u.ids && x in u.finds && y in u.finds[x] ==> y !in u.selectors && (y in u.ids ==> y == x))
    && (forall s :: s in u.selectors && |Split(s)| >= 2 ==> s !in u.ids)
  }

  lemma WellKeyedSuffices(u: Universe, log: seq<Event>, key: string, byId: bool)
    requires WellKeyed(u) && History(u, log)
    requires if byId then key in u.ids else key in u.selectors
    ensures OwnAnswers(log, key, byId)
  {
    forall i | LastStore(log, key, i) ensures exists j :: PassesOn(log, key, byId, j, i) {
      assert Justified(log[..i], log[i]);
      var j :| 0 <= j < i && log[..i][j].Answered? && Justifies(log[..i][j], log[i]);
      assert Possible(u, log[j]);
      assert Justified(log[..j], log[j]);
      if log[j].ask.ById? {
        var o := log[j].values.value[0];
        assert o in log[j].values.value;
      }
      assert PassesOn(log, key, byId, j, i);
    }
  }

  /** An answer and its store make a history. */
  lemma TwoEvents(u: Universe, a: Event, s: Event)
    requires a.Answered? && s.Store? && a.at == s.at && Possible(u, a) && Justified([], a) && Justifies(a, s)
    ensures History(u, [a, s])
  {
    var log := [a, s];
    assert log[..0] == [] && log[..1] == [a];
    assert [a][0] == a;
    assert Justified(log[..0], log[0]) && Justified(log[..1], log[1]);
  }

  /** The store serves the lookup, and the answer was to another question. */
  lemma OthersAnswer(a: Event, s: Event, key: string, byId: bool)
    requires a.Answered? && s.Store? && s.key == key
    requires if byId then a.ask != ById(key) else !(a.ask.BySelector? && a.ask.selector == key)
    ensures !OwnAnswers([a, s], key, byId)
  {
    var log := [a, s];
    assert LastStore(log, key, 1);
    forall j ensures !PassesOn(log, key, byId, j, 1) {
      assert j == 0 ==> log[j] == a;
    }
  }

  /** Two events that serve a lookup with the answer to another question. */
  lemma Mixup(u: Universe, a: Ask, values: Slice, key: string, byId: bool)
    requires Possible(u, Answered(a, values, 0)) && Justified([], Answered(a, values, 0))
    requires Justifies(Answered(a, values, 0), Store(key, values, 0))
    requires if byId then key in u.ids && a != ById(key) else key in u.selectors && !(a.BySelector? && a.selector == key)
    ensures !AlwaysOwnAnswers(u)
  {
    TwoEvents(u, Answered(a, values, 0), Store(key, values, 0));
    OthersAnswer(Answered(a, values, 0), Store(key, values, 0), key, byId);
  }

  /**
   The store of GetConfigObject goes under the id of what was found, not the id asked for, and
   ids and selectors share one map. Lookups are served with answers to their own question,
   in every history, if and only if the configuration is well keyed.
   */
  lemma OwnAnswersExactlyWhen(u: Universe)
    ensures AlwaysOwnAnswers(u) <==> WellKeyed(u)
  {
    if WellKeyed(u) {
      forall log, key | History(u, log) && key in u.ids ensures OwnAnswers(log, key, true) {
        WellKeyedSuffices(u, log, key, true);
      }
      forall log, key | History(u, log) && key in u.selectors ensures OwnAnswers(log, key, false) {
        WellKeyedSuffices(u, log, key, false);
      }
    } else if x, y :| x in u.ids && x in u.finds && y in u.finds[x] && !(y !in u.selectors && (y in u.ids ==> y == x)) {
      Mixup(u, ById(x), Some([Object(y, 0)]), y, y !in u.selectors);
    } else {
      var s :| s in u.selectors && |Split(s)| >= 2 && s in u.ids;
      Mixup(u, AskFor(s), Some([]), s, true);
    }
  }

  // ---------------------------------------------------------------- staleness

  /**
   Bounded staleness: what a lookup is served with was stored less than ttl ago, and the
   database had given it as the answer to the same question before that.
   */
  lemma {:induction false} ServedIsRecent(u: Universe, ttl: int, log: seq<Event>, key: string, byId: bool, now: int, values: seq<Object>)
    returns (j: nat, i: nat)
    requires WellKeyed(u) && History(u, log) && UpTo(log, now)
    requires if byId then key in u.ids else key in u.selectors
    requires Lookup(ttl, Run(ttl, log), key, now) == Some(values)
    ensures j < i < |log| && PassesOn(log, key, byId, j, i) && log[j].values == Some(values)
    ensures log[j].at <= log[i].at <= now < log[i].at + ttl
  {
    LookupFindsTheLastStore(ttl, log, key, now, values);
    i :| LastStore(log, key, i) && log[i].values == Some(values) && now < log[i].at + ttl;
    WellKeyedSuffices(u, log, key, byId);
    j :| PassesOn(log, key, byId, j, i);
  }

  /**
   The answer itself can be older than ttl, by the time that passes between the answer and
   the store, during which the cache's lock is not held.
   */
  lemma AnswerMayBeOlder(ttl: int, delay: nat) returns (log: seq<Event>, now: int)
    requires ttl > 0
    ensures Timely(log) && Honest(log) && UpTo(log, now) && |log| == 2
    ensures PassesOn(log, "x", true, 0, 1) && Lookup(ttl, Run(ttl, log), "x", now) == log[0].values == Some([Object("x", 0)])
    ensures now - log[0].at == ttl - 1 + delay
  {
    var found := Some([Object("x", 0)]);
    var a, s := Answered(ById("x"), found, 0), Store("x", found, delay);
    now := delay + ttl - 1;
    HonestExtends([], a);
    assert [] + [a] == [a];
    assert Justifies([a][0], s);
    HonestExtends([a], s);
    log := [a] + [s];
    assert LastStore(log, "x", 1);
    LookupFindsTheLastStore(ttl, log, "x", now, [Object("x", 0)]);
  }
}
